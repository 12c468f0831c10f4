/** Entries of the plugin market, the local values added to them, and the choice of a version. */
module Catalog {
  import opened Wrappers
  import opened Versions
  import opened PackageNames

  /** The `options` object of a version, before it is loaded: any key may be missing. */
  datatype RawOptions = RawOptions(
    url: Option<string>, ref: Option<string>, subdirectory: Option<string>,
    namespace: Option<string>, name: Option<string>, version: Option<string>)

  datatype VersionInfo = VersionInfo(
    version: Option<Scalar>, minWazo: Option<Scalar>, maxWazo: Option<Scalar>,
    via: Option<string>, options: Option<RawOptions>, upgradable: Option<bool>)

  /** The values a market entry holds under its other keys. */
  datatype Value = Plain(scalar: Scalar) | Null | Strs(items: seq<string>) | Opaque

  datatype Entry = Entry(
    namespace: string, name: string, installedVersion: Option<Value>,
    versions: seq<VersionInfo>, extra: map<string, Value>)
  {
    /** Python's `entry.get(key)`, with `None` for a missing key. */
    function Get(key: string): Option<Value> {
      if key == "namespace" then Some(Plain(Text(namespace)))
      else if key == "name" then Some(Plain(Text(name)))
      else if key == "installed_version" then installedVersion
      else if key == "versions" then Some(Opaque)
      else if key in extra then Some(extra[key])
      else None
    }

    function Id(): PluginId { PluginId(namespace, name) }
  }

  /** The version recorded in each installed plugin's own `plugin.yml`. */
  type Local = map<PluginId, Scalar>

  function Lookup(local: Local, id: PluginId): Option<Scalar> {
    if id in local then Some(local[id]) else None
  }

  /* ---- The updater ---- */

  function OrElse(value: Option<Scalar>, default: string): Option<Scalar> {
    if value.Some? then value else Some(Text(default))
  }

  /** `_add_upgradable_field`, for one version. */
  predicate Upgradable(loose: LooseOrder, wazo: string, installed: Option<Scalar>, v: VersionInfo) {
    if LessThan(loose, Some(Text(wazo)), OrElse(v.minWazo, wazo)) then false
    else if LessThan(loose, OrElse(v.maxWazo, wazo), Some(Text(wazo))) then false
    else if installed.Some? then LessThan(loose, installed, v.version)
    else true
  }

  function Marked(loose: LooseOrder, wazo: string, installed: Option<Scalar>, v: VersionInfo): VersionInfo {
    v.(upgradable := Some(Upgradable(loose, wazo, installed, v)))
  }

  function MarkAll(loose: LooseOrder, wazo: string, installed: Option<Scalar>,
                   vs: seq<VersionInfo>): (r: seq<VersionInfo>)
    ensures |r| == |vs|
  {
    seq(|vs|, i requires 0 <= i < |vs| => Marked(loose, wazo, installed, vs[i]))
  }

  /** `MarketPluginUpdater.update`. */
  function Updated(loose: LooseOrder, wazo: string, local: Local, e: Entry): Entry {
    var installed := Lookup(local, e.Id());
    e.(installedVersion := Some(if installed.Some? then Plain(installed.value) else Null),
       versions := MarkAll(loose, wazo, installed, e.versions))
  }

  function UpdateAll(loose: LooseOrder, wazo: string, local: Local, entries: seq<Entry>): (r: seq<Entry>)
    ensures |r| == |entries|
  {
    seq(|entries|, i requires 0 <= i < |entries| => Updated(loose, wazo, local, entries[i]))
  }

  /* ---- Strict filters ---- */

  datatype Wanted = Equals(text: string) | Installed(flag: bool)

  /** `metadata.get(key) != value` negated; the `Installed` case is `InstalledVersionMatcher.__eq__`. */
  predicate Accepts(value: Option<Value>, wanted: Wanted) {
    match wanted
    case Equals(text) => value == Some(Plain(Text(text)))
    case Installed(flag) => (value.Some? && !value.value.Null?) == flag
  }

  predicate StrictMatch(e: Entry, filters: map<string, Wanted>) {
    forall key <- filters :: Accepts(e.Get(key), filters[key])
  }

  function StrictFilter(entries: seq<Entry>, filters: map<string, Wanted>): seq<Entry> {
    if entries == [] then []
    else (if StrictMatch(entries[0], filters) then [entries[0]] else []) + StrictFilter(entries[1..], filters)
  }

  function NameFilter(id: PluginId): map<string, Wanted> {
    map["namespace" := Equals(id.namespace), "name" := Equals(id.name)]
  }

  /** `MarketDB.get`, on content already updated; `None` stands for `LookupError`. */
  function FirstNamed(entries: seq<Entry>, id: PluginId): Option<Entry> {
    var found := StrictFilter(entries, NameFilter(id));
    if found == [] then None else Some(found[0])
  }

  /* ---- The choice of a version ---- */

  predicate AlreadySatisfied(reinstall: bool, installed: Option<Value>, required: Option<string>) {
    if reinstall then false
    else if installed.None? || !installed.value.Plain? || !installed.value.scalar.Truthy() then false
    else if Unversioned(required) then true
    else installed.value == Plain(Text(required.value))
  }

  function FirstUpgradable(vs: seq<VersionInfo>): Option<VersionInfo> {
    if vs == [] then None
    else if vs[0].upgradable == Some(true) then Some(vs[0])
    else FirstUpgradable(vs[1..])
  }

  function MatchingVersion(vs: seq<VersionInfo>, required: string): Option<VersionInfo> {
    if vs == [] then None
    else if vs[0].upgradable == Some(true) && vs[0].version == Some(Text(required)) then Some(vs[0])
    else MatchingVersion(vs[1..], required)
  }

  predicate Unversioned(required: Option<string>) { required.None? || required.value == "" }

  datatype Choice = Unknown | Satisfied | NotUpgradable | Chosen(version: VersionInfo)

  /** `_find_matching_plugin`: `Unknown` is the `LookupError`, `Satisfied` and `NotUpgradable`
      both end as `DependencyAlreadyInstalledException`. */
  function Choose(loose: LooseOrder, wazo: string, local: Local, entries: seq<Entry>,
                  id: PluginId, required: Option<string>, reinstall: bool): Choice {
    match FirstNamed(UpdateAll(loose, wazo, local, entries), id)
    case None => Unknown
    case Some(e) =>
      if AlreadySatisfied(reinstall, e.installedVersion, required) then Satisfied
      else
        var v := if Unversioned(required) then FirstUpgradable(e.versions)
                 else MatchingVersion(e.versions, required.value);
        if v.None? then NotUpgradable else Chosen(v.value)
  }

  /* ---- What the choice guarantees ---- */

  /** The property the market promises of an upgradable version, stated without the updater's cases. */
  ghost predicate Installable(loose: LooseOrder, wazo: string, installed: Option<Scalar>, v: VersionInfo) {
    && (v.minWazo.Some? ==> !LessThan(loose, Some(Text(wazo)), v.minWazo))
    && (v.maxWazo.Some? ==> !LessThan(loose, v.maxWazo, Some(Text(wazo))))
    && !LessThan(loose, Some(Text(wazo)), Some(Text(wazo)))
    && (installed.Some? ==> LessThan(loose, installed, v.version))
  }

  lemma UpgradableIsInstallable(loose: LooseOrder, wazo: string, installed: Option<Scalar>, v: VersionInfo)
    requires !LessThan(loose, Some(Text(wazo)), Some(Text(wazo)))
    ensures Upgradable(loose, wazo, installed, v) <==> Installable(loose, wazo, installed, v)
  {
  }

  lemma {:induction false} FilterMembers(entries: seq<Entry>, filters: map<string, Wanted>, e: Entry)
    ensures e in StrictFilter(entries, filters) <==> e in entries && StrictMatch(e, filters)
  {
    if entries != [] {
      FilterMembers(entries[1..], filters, e);
      assert entries == [entries[0]] + entries[1..];
    }
  }

  /** Position k holds the first entry of that name. */
  ghost predicate IsFirstNamed(entries: seq<Entry>, id: PluginId, k: int) {
    0 <= k < |entries| && entries[k].Id() == id && forall j | 0 <= j < k :: entries[j].Id() != id
  }

  lemma NameMatches(e: Entry, id: PluginId)
    ensures StrictMatch(e, NameFilter(id)) <==> e.Id() == id
  {
    var filters := NameFilter(id);
    assert "namespace" in filters && "name" in filters;
    assert StrictMatch(e, filters) <==>
        Accepts(e.Get("namespace"), filters["namespace"]) && Accepts(e.Get("name"), filters["name"]);
  }

  /** The entry found is the market's first one under the name asked for. */
  lemma {:induction false} FirstNamedIsNamed(entries: seq<Entry>, id: PluginId)
    ensures FirstNamed(entries, id).Some? ==>
              exists k :: IsFirstNamed(entries, id, k) && FirstNamed(entries, id).value == entries[k]
    ensures FirstNamed(entries, id).None? ==> forall e <- entries :: e.Id() != id
  {
    if entries != [] {
      var rest := entries[1..];
      NameMatches(entries[0], id);
      FirstNamedIsNamed(rest, id);
      if entries[0].Id() == id {
        assert IsFirstNamed(entries, id, 0);
      } else if FirstNamed(rest, id).Some? {
        var k :| IsFirstNamed(rest, id, k) && FirstNamed(rest, id).value == rest[k];
        forall j | 0 <= j < k + 1 ensures entries[j].Id() != id {
          if j > 0 { assert entries[j] == rest[j - 1]; }
        }
        assert IsFirstNamed(entries, id, k + 1) && entries[k + 1] == rest[k];
      }
    }
  }

  ghost predicate FirstMarked(vs: seq<VersionInfo>, k: int) {
    && 0 <= k < |vs| && vs[k].upgradable == Some(true)
    && forall j | 0 <= j < k :: vs[j].upgradable != Some(true)
  }

  lemma {:induction false} FirstUpgradableFound(vs: seq<VersionInfo>)
    ensures var r := FirstUpgradable(vs);
            && (r.Some? ==> exists k :: FirstMarked(vs, k) && r.value == vs[k])
            && (r.None? ==> forall v <- vs :: v.upgradable != Some(true))
  {
    if vs != [] {
      if vs[0].upgradable == Some(true) {
        assert FirstMarked(vs, 0);
      } else {
        FirstUpgradableFound(vs[1..]);
        if FirstUpgradable(vs[1..]).Some? {
          var k :| FirstMarked(vs[1..], k) && FirstUpgradable(vs[1..]).value == vs[1..][k];
          forall j | 0 <= j < k + 1 ensures vs[j].upgradable != Some(true) {
            if j > 0 { assert vs[j] == vs[1..][j - 1]; }
          }
          assert FirstMarked(vs, k + 1);
        }
      }
    }
  }

  predicate Meets(required: Option<string>, v: VersionInfo) {
    Unversioned(required) || v.version == Some(Text(required.value))
  }

  ghost predicate FirstMatching(vs: seq<VersionInfo>, required: string, k: int) {
    && 0 <= k < |vs| && vs[k].upgradable == Some(true) && vs[k].version == Some(Text(required))
    && forall j | 0 <= j < k :: vs[j].upgradable != Some(true) || vs[j].version != Some(Text(required))
  }

  lemma {:induction false} MatchingVersionFound(vs: seq<VersionInfo>, required: string)
    ensures var r := MatchingVersion(vs, required);
            && (r.Some? ==> exists k :: FirstMatching(vs, required, k) && r.value == vs[k])
            && (r.None? ==> forall v <- vs :: v.upgradable != Some(true) || v.version != Some(Text(required)))
  {
    if vs != [] {
      var rest := vs[1..];
      MatchingVersionFound(rest, required);
      if vs[0].upgradable == Some(true) && vs[0].version == Some(Text(required)) {
        assert FirstMatching(vs, required, 0);
      } else if MatchingVersion(rest, required).Some? {
        var k :| FirstMatching(rest, required, k) && MatchingVersion(rest, required).value == rest[k];
        forall j | 0 <= j < k + 1 ensures vs[j].upgradable != Some(true) || vs[j].version != Some(Text(required)) {
          if j > 0 { assert vs[j] == rest[j - 1]; }
        }
        assert FirstMatching(vs, required, k + 1) && vs[k + 1] == rest[k];
      }
    }
  }

  /** Version k is the first one listed that can be installed and meets the requirement. */
  ghost predicate IsFirstChoice(loose: LooseOrder, wazo: string, installed: Option<Scalar>, required: Option<string>,
                                vs: seq<VersionInfo>, k: int) {
    && 0 <= k < |vs| && Upgradable(loose, wazo, installed, vs[k]) && Meets(required, vs[k])
    && forall j | 0 <= j < k :: !(Upgradable(loose, wazo, installed, vs[j]) && Meets(required, vs[j]))
  }

  /** What is chosen is, in the first entry of the name asked for, the first version listed that can be installed and
      meets the requirement; when the versions are listed newest first and none is required, no other is newer. */
  lemma ChosenIsFirst(loose: LooseOrder, wazo: string, local: Local, entries: seq<Entry>,
                      id: PluginId, required: Option<string>, reinstall: bool)
    ensures var c := Choose(loose, wazo, local, entries, id, required, reinstall);
            c.Chosen? ==>
              exists i, k :: IsFirstNamed(entries, id, i)
                && IsFirstChoice(loose, wazo, Lookup(local, id), required, entries[i].versions, k)
                && c.version == Marked(loose, wazo, Lookup(local, id), entries[i].versions[k])
  {
    hide Upgradable, AlreadySatisfied;
    var c := Choose(loose, wazo, local, entries, id, required, reinstall);
    if c.Chosen? {
      NamesSurviveUpdates(loose, wazo, local, entries, id);
      FirstNamedIsNamed(entries, id);
      var i :| IsFirstNamed(entries, id, i) && FirstNamed(entries, id).value == entries[i];
      var installed, vs := Lookup(local, id), entries[i].versions;
      var ms := MarkAll(loose, wazo, installed, vs);
      if Unversioned(required) {
        FirstUpgradableFound(ms);
        var k :| FirstMarked(ms, k) && c.version == ms[k];
        FirstMarkIsChoice(loose, wazo, installed, required, vs, k);
      } else {
        MatchingVersionFound(ms, required.value);
        var k :| FirstMatching(ms, required.value, k) && c.version == ms[k];
        FirstMatchIsChoice(loose, wazo, installed, required, vs, k);
      }
    }
  }

  lemma FirstMarkIsChoice(loose: LooseOrder, wazo: string, installed: Option<Scalar>, required: Option<string>,
                          vs: seq<VersionInfo>, k: int)
    requires Unversioned(required) && FirstMarked(MarkAll(loose, wazo, installed, vs), k)
    ensures IsFirstChoice(loose, wazo, installed, required, vs, k)
    ensures MarkAll(loose, wazo, installed, vs)[k] == Marked(loose, wazo, installed, vs[k])
  {
    hide Upgradable;
    var ms := MarkAll(loose, wazo, installed, vs);
    forall j | 0 <= j < k ensures !Upgradable(loose, wazo, installed, vs[j]) {
      assert ms[j] == Marked(loose, wazo, installed, vs[j]);
    }
    assert ms[k] == Marked(loose, wazo, installed, vs[k]);
  }

  lemma FirstMatchIsChoice(loose: LooseOrder, wazo: string, installed: Option<Scalar>, required: Option<string>,
                           vs: seq<VersionInfo>, k: int)
    requires !Unversioned(required) && FirstMatching(MarkAll(loose, wazo, installed, vs), required.value, k)
    ensures IsFirstChoice(loose, wazo, installed, required, vs, k)
    ensures MarkAll(loose, wazo, installed, vs)[k] == Marked(loose, wazo, installed, vs[k])
  {
    hide Upgradable;
    var ms := MarkAll(loose, wazo, installed, vs);
    forall j | 0 <= j < k ensures !(Upgradable(loose, wazo, installed, vs[j]) && Meets(required, vs[j])) {
      assert ms[j] == Marked(loose, wazo, installed, vs[j]);
    }
    assert ms[k] == Marked(loose, wazo, installed, vs[k]);
  }

  /** On a list sorted newest first an unpinned request gets the greatest version that can be installed. */
  lemma ChosenIsGreatest(loose: LooseOrder, wazo: string, installed: Option<Scalar>, vs: seq<VersionInfo>, k: int)
    requires StrictWeakOrder(loose) && NewestFirst(loose, vs) && IsFirstChoice(loose, wazo, installed, None, vs, k)
    ensures GreatestInstallable(loose, wazo, installed, vs, vs[k])
  {
    hide Upgradable;
    forall w <- vs | Upgradable(loose, wazo, installed, w) ensures !LessThan(loose, vs[k].version, w.version) {
      var j :| 0 <= j < |vs| && w == vs[j];
      assert Meets(None, vs[j]);
      NoneLaterIsNewer(loose, vs, k, j);
    }
  }

  /** A chosen version is listed by the named entry, can be installed here, and is the one required if one was. */
  lemma ChosenIsInstallable(loose: LooseOrder, wazo: string, local: Local, entries: seq<Entry>,
                            id: PluginId, required: Option<string>, reinstall: bool)
    ensures var c := Choose(loose, wazo, local, entries, id, required, reinstall);
            c.Chosen? ==>
              exists e, v :: e in entries && e.Id() == id && v in e.versions
                && c.version == Marked(loose, wazo, Lookup(local, id), v)
                && Upgradable(loose, wazo, Lookup(local, id), v)
                && (required.Some? && required.value != "" ==> v.version == Some(Text(required.value)))
  {
    hide Upgradable, Choose;
    ChosenIsFirst(loose, wazo, local, entries, id, required, reinstall);
    var c := Choose(loose, wazo, local, entries, id, required, reinstall);
    if c.Chosen? {
      var i, k :| IsFirstNamed(entries, id, i)
                  && IsFirstChoice(loose, wazo, Lookup(local, id), required, entries[i].versions, k)
                  && c.version == Marked(loose, wazo, Lookup(local, id), entries[i].versions[k]);
      assert entries[i] in entries && entries[i].versions[k] in entries[i].versions;
    }
  }

  /** The entry lists no version that can be installed and meets the requirement. */
  ghost predicate OffersNothing(loose: LooseOrder, wazo: string, installed: Option<Scalar>, required: Option<string>,
                                e: Entry) {
    forall v <- e.versions :: Upgradable(loose, wazo, installed, v) ==>
        !Unversioned(required) && v.version != Some(Text(required.value))
  }

  /** Local values do not change which entries a name selects. */
  lemma {:induction false} NamesSurviveUpdates(loose: LooseOrder, wazo: string, local: Local, entries: seq<Entry>,
                                               id: PluginId)
    ensures StrictFilter(UpdateAll(loose, wazo, local, entries), NameFilter(id))
            == UpdateAll(loose, wazo, local, StrictFilter(entries, NameFilter(id)))
  {
    if entries != [] {
      var e := entries[0];
      NamesSurviveUpdates(loose, wazo, local, entries[1..], id);
      assert UpdateAll(loose, wazo, local, entries)[1..] == UpdateAll(loose, wazo, local, entries[1..]);
      var filters := NameFilter(id);
      assert StrictMatch(Updated(loose, wazo, local, e), filters) == StrictMatch(e, filters) by {
        forall key <- filters ensures Updated(loose, wazo, local, e).Get(key) == e.Get(key) { }
      }
    }
  }

  /** When there is nothing to choose: exactly when no entry has the name, or the installed version already
      meets the requirement, or the first entry of that name offers nothing newer that meets it. */
  lemma NothingChosenExactly(loose: LooseOrder, wazo: string, local: Local, entries: seq<Entry>,
                             id: PluginId, required: Option<string>, reinstall: bool)
    ensures var c := Choose(loose, wazo, local, entries, id, required, reinstall);
            var first := FirstNamed(entries, id);
            && (c.Unknown? <==> forall e <- entries :: e.Id() != id)
            && (c.Unknown? <==> first.None?)
            && (c.Satisfied? <==> first.Some? && !reinstall && id in local && local[id].Truthy()
                                  && (Unversioned(required) || local[id] == Text(required.value)))
            && (c.NotUpgradable? <==>
                  first.Some? && !c.Satisfied? && OffersNothing(loose, wazo, Lookup(local, id), required, first.value))
  {
    hide Upgradable;
    var c := Choose(loose, wazo, local, entries, id, required, reinstall);
    NamesSurviveUpdates(loose, wazo, local, entries, id);
    FirstNamedIsNamed(entries, id);
    if !c.Unknown? {
      var e := FirstNamed(entries, id).value;
      var u := Updated(loose, wazo, local, e);
      FirstUpgradableFound(u.versions);
      if !Unversioned(required) { MatchingVersionFound(u.versions, required.value); }
      OffersNothingOnceMarked(loose, wazo, Lookup(local, id), required, e);
    }
  }

  lemma OffersNothingOnceMarked(loose: LooseOrder, wazo: string, installed: Option<Scalar>, required: Option<string>,
                                e: Entry)
    ensures OffersNothing(loose, wazo, installed, required, e) <==>
            forall m <- MarkAll(loose, wazo, installed, e.versions) ::
              m.upgradable != Some(true) || (!Unversioned(required) && m.version != Some(Text(required.value)))
  {
    hide Upgradable;
    var ms := MarkAll(loose, wazo, installed, e.versions);
    if forall m <- ms :: m.upgradable != Some(true)
        || (!Unversioned(required) && m.version != Some(Text(required.value))) {
      forall v <- e.versions | Upgradable(loose, wazo, installed, v)
          ensures !Unversioned(required) && v.version != Some(Text(required.value)) {
        var k :| 0 <= k < |e.versions| && v == e.versions[k];
        assert ms[k] in ms;
      }
    }
  }

  /** Asking for the version that is already installed never yields one to install, even with `reinstall`. */
  lemma ReinstallNeedsNewer(loose: LooseOrder, wazo: string, local: Local, entries: seq<Entry>,
                            id: PluginId, required: Option<string>, reinstall: bool)
    requires id in local
    ensures var c := Choose(loose, wazo, local, entries, id, required, reinstall);
            c.Chosen? ==> LessThan(loose, Some(local[id]), c.version.version)
  {
    ChosenIsInstallable(loose, wazo, local, entries, id, required, reinstall);
  }

  /** The versions have text, and none is older than the next. */
  ghost predicate NewestFirst(loose: LooseOrder, vs: seq<VersionInfo>) {
    && (forall v <- vs :: v.version.Some? && v.version.value.Text? && v.version.value.Truthy())
    && (forall i | 0 < i < |vs| :: !LessThan(loose, vs[i - 1].version, vs[i].version))
  }

  lemma {:induction false} NoneLaterIsNewer(loose: LooseOrder, vs: seq<VersionInfo>, i: nat, j: nat)
    requires StrictWeakOrder(loose) && NewestFirst(loose, vs) && i <= j < |vs|
    ensures !LessThan(loose, vs[i].version, vs[j].version)
  {
    assert vs[i] in vs && vs[j] in vs;
    if i < j {
      NoneLaterIsNewer(loose, vs, i, j - 1);
      assert vs[j - 1] in vs;
    }
  }

  /** The version can be installed here and no other that can is newer. */
  ghost predicate GreatestInstallable(loose: LooseOrder, wazo: string, installed: Option<Scalar>,
                                      vs: seq<VersionInfo>, v: VersionInfo) {
    && v in vs && Upgradable(loose, wazo, installed, v)
    && forall w <- vs :: Upgradable(loose, wazo, installed, w) ==> !LessThan(loose, v.version, w.version)
  }

  /** On a list sorted newest first, the first upgradable version is the greatest one that can be installed,
      and there is none exactly when nothing can. */
  lemma FirstUpgradableIsGreatest(loose: LooseOrder, wazo: string, installed: Option<Scalar>, vs: seq<VersionInfo>)
    requires StrictWeakOrder(loose) && NewestFirst(loose, vs)
    ensures var r := FirstUpgradable(MarkAll(loose, wazo, installed, vs));
            && (r.None? <==> forall v <- vs :: !Upgradable(loose, wazo, installed, v))
            && (r.Some? ==> exists v :: GreatestInstallable(loose, wazo, installed, vs, v)
                                        && r.value == Marked(loose, wazo, installed, v))
  {
    var ms := MarkAll(loose, wazo, installed, vs);
    var r := FirstUpgradable(ms);
    FirstUpgradableFound(ms);
    if r.Some? {
      var k :| FirstMarked(ms, k) && r.value == ms[k];
      forall w <- vs | Upgradable(loose, wazo, installed, w) ensures !LessThan(loose, vs[k].version, w.version) {
        var j :| 0 <= j < |vs| && w == vs[j];
        assert ms[j].upgradable == Some(true);
        NoneLaterIsNewer(loose, vs, k, j);
      }
      assert GreatestInstallable(loose, wazo, installed, vs, vs[k]);
    } else {
      forall v <- vs ensures !Upgradable(loose, wazo, installed, v) {
        var j :| 0 <= j < |vs| && v == vs[j];
        assert ms[j] in ms;
      }
    }
  }
}
