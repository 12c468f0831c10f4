/** The install task as the program runs it: a shared, mutable context, a loop over the steps,
    exceptions caught by handlers. Every method is proved against the functions of `Install`. */
module Tasks {
  import opened Wrappers
  import opened Versions
  import opened PackageNames
  import opened Catalog
  import opened Schema
  import opened Install
  import opened MarketQuery
  import opened MarketDb

  /** The machine the tasks act on, and the bus they publish to. */
  class Host {
    var events: seq<Event>
    var extracted: map<Uuid, MetaFile>
    var downloads: set<Uuid>
    var installed: map<PluginId, Record>
    var calls: seq<RootCall>
    var next: Uuid

    function Value(): World
      reads this
    {
      World(events, extracted, downloads, installed, calls, next)
    }

    constructor (installed: map<PluginId, Record>)
      ensures Value() == World([], map[], {}, installed, [], 0)
    {
      events, extracted, downloads, calls, next := [], map[], {}, [], 0;
      this.installed := installed;
    }

    method Publish(event: Event)
      modifies this`events
      ensures Value() == Install.Publish(old(Value()), event)
    {
      events := events + [event];
    }

    method NewUuid() returns (uuid: Uuid)
      modifies this`next
      ensures uuid == old(next) && Value() == old(Value()).(next := uuid + 1)
    {
      uuid := next;
      next := next + 1;
    }
  }

  /** `context.Context`: the state of one task, which every step and every handler shares. */
  class Context {
    const uuid: Uuid
    const wazo: string
    var via: Method
    var options: Options
    var reinstall: bool
    var metadata: Option<MetaFile>
    var extracted: bool
    var deb: Option<Deb>

    function Value(): Ctx
      reads this
    {
      Ctx(uuid, via, options, reinstall, wazo, metadata, extracted, deb)
    }

    constructor (uuid: Uuid, via: Method, options: Options, reinstall: bool, wazo: string)
      ensures Value() == NewCtx(uuid, via, options, reinstall, wazo)
    {
      this.uuid, this.wazo := uuid, wazo;
      this.via, this.options, this.reinstall := via, options, reinstall;
      metadata, extracted, deb := None, false, None;
    }
  }

  /** `_MarketDownloader`'s search loops. */
  method FindFirstUpgradable(versions: seq<VersionInfo>) returns (r: Option<VersionInfo>)
    ensures r == FirstUpgradable(versions)
  {
    var i := 0;
    while i < |versions|
      invariant 0 <= i <= |versions|
      invariant FirstUpgradable(versions) == FirstUpgradable(versions[i..])
    {
      if versions[i].upgradable == Some(true) { return Some(versions[i]); }
      i := i + 1;
    }
    return None;
  }

  method FindMatching(versions: seq<VersionInfo>, required: string) returns (r: Option<VersionInfo>)
    ensures r == MatchingVersion(versions, required)
  {
    var i := 0;
    while i < |versions|
      invariant 0 <= i <= |versions|
      invariant MatchingVersion(versions, required) == MatchingVersion(versions[i..], required)
    {
      if versions[i].upgradable == Some(true) {
        if versions[i].version == Some(Text(required)) { return Some(versions[i]); }
      }
      i := i + 1;
    }
    return None;
  }

  /** `ensure_string_versions`: the loop that turns numbers into text, field by field. */
  method EnsureStringVersions(m: Metadata) returns (r: Metadata)
    ensures r == Coerced(m)
  {
    r := m;
    var i := 0;
    while i < |VERSION_FIELDS|
      invariant 0 <= i <= |VERSION_FIELDS|
      invariant r == m.(version := if i > 0 then AsText(m.version) else m.version,
                        maxWazo := if i > 1 then AsText(m.maxWazo) else m.maxWazo,
                        minWazo := if i > 2 then AsText(m.minWazo) else m.minWazo)
    {
      var field := VERSION_FIELDS[i];
      var value := GetVersion(r, field);
      if value.Some? && value.value.Number? { r := SetVersion(r, field, Text(value.value.Str())); }
      i := i + 1;
    }
  }

  /** `_add_debian_depends_from_depends`: the loop that appends one name per dependency. */
  method AppendDebianDepends(m: Metadata) returns (r: Option<Metadata>)
    ensures r == AddDebianDepends(m)
  {
    if !m.depends.Depends? { return Some(m); }
    var items := m.depends.items;
    if !m.debianDepends.NoDebian? && !m.debianDepends.Debian? {
      return if items == [] then Some(m) else None;
    }
    var names := DebianDepends(m);
    var i := 0;
    while i < |items|
      invariant 0 <= i <= |items|
      invariant names == DebianDepends(m) + GeneratedNames(items[..i])
    {
      names := names + [PackageName(items[i].Id())];
      i := i + 1;
    }
    assert items[..i] == items;
    assert DebianDepends(m) == [] ==> names == GeneratedNames(items);
    return Some(m.(debianDepends := Debian(names)));
  }

  /** `_find_matching_plugin`: a fresh proxy and market database for each request. */
  method FindMatchingPlugin(env: Env, entries: seq<Entry>, wazo: string, local: Local, id: PluginId,
                            required: Option<string>, reinstall: bool) returns (c: Choice)
    ensures c == Choose(env.loose, wazo, local, entries, id, required, reinstall)
  {
    var proxy := new MarketProxy(n => Some(entries));
    var db := new MarketDB(proxy, Setting(env.loose, wazo, (a, b) => false, local));
    var found := db.Get(id);
    if found.None? { return Unknown; }
    var e := found.value;
    if AlreadySatisfied(reinstall, e.installedVersion, required) { return Satisfied; }
    var v: Option<VersionInfo>;
    if required.None? || required.value == "" {
      v := FindFirstUpgradable(e.versions);
    } else {
      v := FindMatching(e.versions, required.value);
    }
    return if v.None? then NotUpgradable else Chosen(v.value);
  }

  /** `PackageAndInstallTask` with its `_PackageBuilder`. */
  class PackageAndInstallTask {
    const env: Env
    const host: Host

    constructor (env: Env, host: Host)
      ensures this.env == env && this.host == host
    {
      this.env, this.host := env, host;
    }

    method Download(ctx: Context, depth: nat, hop: nat) returns (outcome: Outcome)
      modifies ctx, host
      ensures var r := Install.Download(env, depth, hop, old(ctx.Value()), old(host.Value()));
              outcome == r.outcome && ctx.Value() == r.ctx && host.Value() == r.world
      decreases depth
    {
      hide Choose, LoadInstall, LocalVersions;
      match ctx.via
      case Git =>
        if !ctx.options.GitOptions? { return Crashed; }
        outcome := Exec(env, ctx.uuid, Clone);
        if outcome != Ok { return outcome; }
        host.downloads := host.downloads + {ctx.uuid};
        return Ok;
      case Unsupported(_) =>
        return Crashed;
      case Market =>
        if !ctx.options.MarketOptions? || ctx.options.extra { return Crashed; }
        var answer := env.market(ctx.uuid, hop);
        if answer.None? { return Crashed; }
        var c := FindMatchingPlugin(env, answer.value, ctx.wazo, LocalVersions(host.installed),
                                    PluginId(ctx.options.namespace, ctx.options.name), ctx.options.version,
                                    ctx.reinstall);
        match c {
          case Unknown => return Crashed;
          case Satisfied => return DependencyInstalled;
          case NotUpgradable => return DependencyInstalled;
          case Chosen(v) =>
            var loaded := LoadInstall(v);
            if loaded.None? { return Crashed; }
            ctx.via, ctx.options := loaded.value.0, loaded.value.1;
            if depth == 0 { return Crashed; }
            outcome := Download(ctx, depth - 1, hop + 1);
        }
    }

    method Extract(ctx: Context) returns (outcome: Outcome)
      modifies ctx, host
      ensures var r := Install.Extract(env, old(ctx.Value()), old(host.Value()));
              outcome == r.outcome && ctx.Value() == r.ctx && host.Value() == r.world
    {
      host.extracted := host.extracted - {ctx.uuid};
      var content := Source(env, ctx.uuid, ctx.options);
      if content.Missing? || !env.ok(ctx.uuid, Move) { return Crashed; }
      host.extracted := host.extracted[ctx.uuid := content.file];
      if Subdirectory(ctx.options).None? { host.downloads := host.downloads - {ctx.uuid}; }
      if content.file.Unreadable? { return Crashed; }
      ctx.metadata, ctx.extracted := Some(content.file), true;
      return Ok;
    }

    method Validate(ctx: Context) returns (outcome: Outcome)
      modifies ctx
      ensures var r := Install.Validate(old(ctx.Value()), host.Value());
              outcome == r.outcome && ctx.Value() == r.ctx && host.Value() == r.world
    {
      if ctx.metadata.None? || !ctx.metadata.value.Mapping? { return Crashed; }
      var m := EnsureStringVersions(ctx.metadata.value.metadata);
      ctx.metadata := Some(Mapping(m));
      if !MetadataLoads(ctx.wazo, m) { return InvalidMetadata; }
      if !ctx.reinstall {
        if IsInstalled(host.Value(), IdOf(m), m.version.value) { return AlreadyInstalled; }
      }
      ctx.reinstall := false;
      return Ok;
    }

    method Package(ctx: Context) returns (outcome: Outcome)
      modifies ctx
      ensures var r := PackagePlugin(env, old(ctx.Value()), host.Value());
              outcome == r.outcome && ctx.Value() == r.ctx && host.Value() == r.world
    {
      if !Buildable(ctx.Value(), host.Value()) { return Crashed; }
      if !env.ok(ctx.uuid, MakePackageDir) { return Crashed; }
      outcome := Exec(env, ctx.uuid, PackageRules);
      if outcome != Ok { return outcome; }
      if !env.ok(ctx.uuid, MakeDataDir) { return Crashed; }
      outcome := Exec(env, ctx.uuid, CopyData);
      if outcome != Ok { return outcome; }
      var generated := AppendDebianDepends(ctx.metadata.value.metadata);
      if generated.None? { return Crashed; }
      ctx.metadata := Some(Mapping(generated.value));
      if !Renders(generated.value) || !env.ok(ctx.uuid, WriteDebianFiles) { return Crashed; }
      outcome := Exec(env, ctx.uuid, DpkgDeb);
      if outcome != Ok { return outcome; }
      ctx.deb := Some(DebOf(generated.value, host.extracted[ctx.uuid].metadata));
      return Ok;
    }

    method Update(ctx: Context) returns (outcome: Outcome)
      modifies host
      ensures var r := UpdateApt(env, ctx.Value(), old(host.Value()));
              outcome == r.outcome && ctx.Value() == r.ctx && host.Value() == r.world
    {
      if !HasMapping(ctx.Value()) || DebianDepends(ctx.metadata.value.metadata) == [] { return Ok; }
      var done := env.ok(ctx.uuid, AptUpdate);
      host.calls := host.calls + [UpdateCall(ctx.uuid, done)];
      return if done then Ok else Crashed;
    }

    method InstallPackage(ctx: Context) returns (outcome: Outcome)
      modifies host
      ensures var r := InstallDeb(env, ctx.Value(), old(host.Value()));
              outcome == r.outcome && ctx.Value() == r.ctx && host.Value() == r.world
    {
      if ctx.deb.None? { return Crashed; }
      var deb := ctx.deb.value;
      var recorded, done := GdebiUnpacks(env, ctx.uuid, deb, host.Value()),
          GdebiSucceeds(env, ctx.uuid, deb, host.Value());
      host.calls := host.calls + [InstallCall(ctx.uuid, deb, recorded, done)];
      if recorded { host.installed := host.installed[deb.id := deb.record]; }
      return if done then Ok else Crashed;
    }

    method CleanUp(ctx: Context)
      modifies host
      ensures host.Value() == Clean(ctx.Value(), old(host.Value()))
    {
      if ctx.extracted { host.extracted := host.extracted - {ctx.uuid}; }
    }

    /** The loop over the declared dependencies, each one a whole nested task. */
    method InstallDeps(ctx: Context, depth: nat) returns (outcome: Outcome)
      modifies host
      ensures var r := InstallDependencies(env, depth, DeclaredBy(ctx.Value()), ctx.Value(), old(host.Value()));
              outcome == r.outcome && ctx.Value() == r.ctx && host.Value() == r.world
      decreases depth, 0
    {
      var items := DeclaredBy(ctx.Value());
      ghost var c, whole := ctx.Value(), InstallDependencies(env, depth, items, ctx.Value(), host.Value());
      var i := 0;
      while i < |items|
        invariant 0 <= i <= |items|
        invariant ctx.Value() == c
        invariant var rest := InstallDependencies(env, depth, items[i..], c, host.Value());
                  rest.outcome == whole.outcome && rest.ctx == whole.ctx && rest.world == whole.world
      {
        var d := items[i];
        assert items[i..][1..] == items[i + 1..];
        if DependencyLoads(d) {
          if depth == 0 { return Crashed; }
          var uuid := host.NewUuid();
          var child := new Context(uuid, Market, AsOptions(d), false, ctx.wazo);
          PackageAndInstallImpl(child, depth - 1);
        }
        i := i + 1;
      }
      return Ok;
    }

    method RunStep(step: Step, ctx: Context, depth: nat) returns (outcome: Outcome)
      modifies ctx, host
      ensures var r := Install.RunStep(env, depth, step, old(ctx.Value()), old(host.Value()));
              outcome == r.outcome && ctx.Value() == r.ctx && host.Value() == r.world
      decreases depth, 1
    {
      outcome := Ok;
      match step
      case Starting =>
      case Downloading => outcome := Download(ctx, depth, 0);
      case Extracting => outcome := Extract(ctx);
      case Validating => outcome := Validate(ctx);
      case InstallingDependencies => outcome := InstallDeps(ctx, depth);
      case Building => outcome := Exec(env, ctx.uuid, Build);
      case Packaging => outcome := Package(ctx);
      case Updating => outcome := Update(ctx);
      case Installing => outcome := InstallPackage(ctx);
      case Cleaning => CleanUp(ctx);
      case Completed =>
    }

    /** `_package_and_install_impl`: announce, run, and on an exception leave the loop for its handler. */
    method PackageAndInstallImpl(ctx: Context, depth: nat)
      modifies ctx, host
      ensures var done := RunTask(env, depth, old(ctx.Value()), old(host.Value()));
              ctx.Value() == done.ctx && host.Value() == done.world
      decreases depth, 2
    {
      hide Install.RunStep;
      ghost var whole := RunFrom(env, depth, ctx.Value(), host.Value(), 0);
      var i, outcome := 0, Ok;
      while i < STEP_COUNT && outcome == Ok
        invariant 0 <= i <= STEP_COUNT
        invariant outcome == Ok ==>
                    var rest := RunFrom(env, depth, ctx.Value(), host.Value(), i);
                    rest.outcome == whole.outcome && rest.begun == whole.begun && rest.ctx == whole.ctx
                        && rest.world == whole.world
        invariant outcome != Ok ==>
                    whole.outcome == outcome && whole.begun == i && whole.ctx == ctx.Value()
                        && whole.world == host.Value()
        decreases STEP_COUNT - i
      {
        var step := StepAt(i);
        host.Publish(Progress(ctx.uuid, step));
        outcome := RunStep(step, ctx, depth);
        i := i + 1;
      }
      match outcome
      case Ok =>
      case CommandFailed =>
        CleanUp(ctx);
        host.Publish(Failed(ctx.uuid, InstallError(StepAt(i - 1))));
      case AlreadyInstalled =>
        CleanUp(ctx);
        host.Publish(Progress(ctx.uuid, Completed));
      case InvalidMetadata =>
        host.Publish(Failed(ctx.uuid, ValidationError));
      case DependencyInstalled =>
        CleanUp(ctx);
        host.Publish(Progress(ctx.uuid, Completed));
      case Crashed =>
        host.Publish(Failed(ctx.uuid, Unexpected(StepAt(i - 1))));
        CleanUp(ctx);
    }
  }
}
