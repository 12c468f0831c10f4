/** The log of root commands: what it does to the installed plugins, and what holds of any log
    that obeys the package manager's contract. */
module InstallLog {
  import opened Wrappers
  import opened Versions
  import opened PackageNames
  import opened Schema
  import opened Install

  type Plugins = map<PluginId, Record>

  function Effect(before: Plugins, call: RootCall): Plugins {
    match call
    case UpdateCall(_, _) => before
    case InstallCall(_, deb, recorded, _) => if recorded then before[deb.id := deb.record] else before
    case RemoveCall(_, _, removed, _) => before - removed
  }

  /** The plugins installed after running a log from a given start. */
  function Replay(base: Plugins, calls: seq<RootCall>): Plugins {
    if calls == [] then base
    else Effect(Replay(base, calls[..|calls| - 1]), calls[|calls| - 1])
  }

  /** The names have passed the metadata schema. */
  predicate Named(id: PluginId) { MatchesName(id.name) && MatchesNamespace(id.namespace) }

  /** The package lists every dependency its plugin declares. */
  predicate WellPackaged(deb: Deb) {
    Named(deb.id) && forall d <- deb.record.depends :: PackageName(d.Id()) in deb.depends
  }

  /** apt removes a plugin together with everything installed that depends on what it removes. */
  predicate RemovalPlan(before: Plugins, removed: set<PluginId>) {
    forall id <- before.Keys - removed :: forall d <- before[id].depends :: forall x <- removed ::
        PackageName(x) != PackageName(d.Id())
  }

  /** The contract of one command, given the plugins installed before it. */
  predicate LawfulCall(env: Env, before: Plugins, call: RootCall) {
    match call
    case UpdateCall(_, _) => true
    case InstallCall(_, deb, recorded, ok) =>
      && WellPackaged(deb) && (ok ==> recorded)
      && (recorded ==> forall package <- deb.depends :: DependMet(env, before, package))
    case RemoveCall(_, _, removed, _) => RemovalPlan(before, removed)
  }

  ghost predicate Lawful(env: Env, base: Plugins, calls: seq<RootCall>) {
    forall k | 0 <= k < |calls| :: LawfulCall(env, Replay(base, calls[..k]), calls[k])
  }

  lemma ReplaySnoc(base: Plugins, calls: seq<RootCall>, call: RootCall)
    ensures Replay(base, calls + [call]) == Effect(Replay(base, calls), call)
    ensures forall k | 0 <= k <= |calls| :: (calls + [call])[..k] == calls[..k]
  {
    assert (calls + [call])[..|calls|] == calls;
  }

  /* ---- Closure under dependencies ---- */

  /** Every package an installed plugin depends on is installed or comes with the archive. */
  ghost predicate Closed(env: Env, plugins: Plugins) {
    forall id <- plugins :: forall d <- plugins[id].depends :: DependMet(env, plugins, PackageName(d.Id()))
  }

  lemma EffectKeepsClosed(env: Env, before: Plugins, call: RootCall)
    requires Closed(env, before) && LawfulCall(env, before, call)
    ensures Closed(env, Effect(before, call))
  {
    var after := Effect(before, call);
    forall id <- after, d <- after[id].depends ensures DependMet(env, after, PackageName(d.Id())) {
      var package := PackageName(d.Id());
      if call.InstallCall? && call.recorded {
        if id == call.deb.id { assert package in call.deb.depends; }
        assert DependMet(env, before, package);
        if !env.archive(package) {
          var x :| x in before && PackageName(x) == package;
          assert x in after;
        }
      } else if call.RemoveCall? {
        assert id in before.Keys - call.removed;
        if !env.archive(package) {
          var x :| x in before && PackageName(x) == package;
          assert x in after;
        }
      }
    }
  }

  /** Over any lawful log, of any number of tasks in any order, the installed plugins stay closed. */
  lemma {:induction false} LawfulLogKeepsClosed(env: Env, base: Plugins, calls: seq<RootCall>)
    requires Closed(env, base) && Lawful(env, base, calls)
    ensures Closed(env, Replay(base, calls))
    decreases |calls|
  {
    if calls != [] {
      var most := calls[..|calls| - 1];
      forall k | 0 <= k < |most| ensures LawfulCall(env, Replay(base, most[..k]), most[k]) {
        assert most[..k] == calls[..k];
      }
      LawfulLogKeepsClosed(env, base, most);
      EffectKeepsClosed(env, Replay(base, most), calls[|calls| - 1]);
    }
  }

  lemma {:induction false} LawfulLogKeepsNames(env: Env, base: Plugins, calls: seq<RootCall>, n: nat)
    requires Lawful(env, base, calls) && n <= |calls| && forall x <- base :: Named(x)
    ensures forall x <- Replay(base, calls[..n]) :: Named(x)
  {
    if n > 0 {
      LawfulLogKeepsNames(env, base, calls, n - 1);
      assert calls[..n][..n - 1] == calls[..n - 1];
      assert LawfulCall(env, Replay(base, calls[..n - 1]), calls[n - 1]);
    }
  }

  /** The archive has none of the locally generated packages. */
  ghost predicate ArchiveIsForeign(env: Env) {
    forall id: PluginId :: IsWellNamed(id) ==> !env.archive(PackageName(id))
  }

  /** With well-named dependencies, closure speaks of the plugins themselves. */
  lemma ClosedMeansInstalled(env: Env, plugins: Plugins, id: PluginId, d: Dependency)
    requires Closed(env, plugins) && ArchiveIsForeign(env)
    requires id in plugins && d in plugins[id].depends && IsWellNamed(d.Id())
    requires forall x <- plugins :: Named(x)
    ensures d.Id() in plugins
  {
    assert DependMet(env, plugins, PackageName(d.Id()));
    var x :| x in plugins && PackageName(x) == PackageName(d.Id());
    ValidatedTwin(x, d.Id());
  }

  /** A validated plugin sharing its package with a well-named one is that plugin. */
  lemma ValidatedTwin(x: PluginId, y: PluginId)
    requires Named(x) && IsWellNamed(y) && PackageName(x) == PackageName(y)
    ensures x == y
  {
    var p := PackageName(y);
    WellNamedHasNoNewline(y);
    assert p == PREFIX + x.name + "-" + x.namespace;
    forall c <- x.name ensures c != '\n' { assert c in p; }
    forall c <- x.namespace ensures c != '\n' { assert c in p; }
    NoNewlineNoChomp(x.name);
    NoNewlineNoChomp(x.namespace);
    PackageNamesDiffer(x, y);
  }

  lemma NoNewlineNoChomp(s: string)
    requires '\n' !in s
    ensures Chomp(s) == s
  {
    if s != "" { assert s[|s| - 1] in s; }
  }

  /* ---- Once, in order, upwards ---- */

  /** The plugin's files are in place afterwards, whether or not the command succeeded. */
  predicate Records(call: RootCall) { call.InstallCall? && call.recorded }

  /** How a successful install may change a version: never down, and not at all when `once` is asked. */
  predicate MayReplace(env: Env, once: bool, before: Plugins, deb: Deb) {
    deb.id in before ==> !once && LessThan(env.loose, Some(before[deb.id].version), Some(deb.record.version))
  }

  ghost predicate Progressive(env: Env, once: bool, base: Plugins, calls: seq<RootCall>) {
    forall k | 0 <= k < |calls| :: Records(calls[k]) ==> MayReplace(env, once, Replay(base, calls[..k]), calls[k].deb)
  }

  predicate NoRemoval(calls: seq<RootCall>) { forall c <- calls :: !c.RemoveCall? }

  /** Installs only add plugins. */
  lemma {:induction false} ReplayGrows(base: Plugins, calls: seq<RootCall>, k: nat)
    requires k <= |calls| && NoRemoval(calls)
    ensures Replay(base, calls[..k]).Keys <= Replay(base, calls).Keys
    ensures forall j | k <= j < |calls| :: Records(calls[j]) ==> calls[j].deb.id in Replay(base, calls)
    decreases |calls| - k, |calls|
  {
    if k == |calls| {
      assert calls[..k] == calls;
    } else {
      var most := calls[..|calls| - 1];
      assert most[..k] == calls[..k];
      ReplayGrows(base, most, k);
    }
  }

  /** In a log where installs are first installs, no plugin is installed twice. */
  lemma FirstInstallsDiffer(env: Env, base: Plugins, calls: seq<RootCall>, i: nat, j: nat)
    requires Progressive(env, true, base, calls) && NoRemoval(calls)
    requires i < j < |calls| && Records(calls[i]) && Records(calls[j])
    ensures calls[i].deb.id != calls[j].deb.id
  {
    var upto := calls[..j];
    assert upto[i] == calls[i];
    ReplayGrows(base, upto, i);
    assert MayReplace(env, true, Replay(base, calls[..j]), calls[j].deb);
  }

  /** In a lawful log of first installs, a dependency comes before its dependent. */
  lemma DependencyComesFirst(env: Env, base: Plugins, calls: seq<RootCall>, i: nat, j: nat, d: Dependency)
    requires Lawful(env, base, calls) && Progressive(env, true, base, calls) && NoRemoval(calls)
        && ArchiveIsForeign(env)
    requires i < |calls| && j < |calls| && i != j && Records(calls[i]) && Records(calls[j])
    requires d in calls[i].deb.record.depends && d.Id() == calls[j].deb.id && IsWellNamed(d.Id())
    requires forall x <- base :: Named(x)
    ensures j < i
  {
    LawfulLogKeepsNames(env, base, calls, i);
    assert calls[j].deb.id !in Replay(base, calls[..j]) by {
      assert MayReplace(env, true, Replay(base, calls[..j]), calls[j].deb);
    }
    if i < j {
      var before := Replay(base, calls[..i]);
      assert LawfulCall(env, before, calls[i]);
      assert PackageName(d.Id()) in calls[i].deb.depends;
      assert DependMet(env, before, PackageName(d.Id()));
      var x :| x in before && PackageName(x) == PackageName(d.Id());
      ValidatedTwin(x, d.Id());
      var upto := calls[..j];
      assert upto[..i] == calls[..i];
      ReplayGrows(base, upto, i);
    }
  }
}
