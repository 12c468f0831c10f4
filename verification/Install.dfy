/** The install and uninstall tasks, as functions from one state of the machine to the next.

    Everything outside the program is an `Env`: what the market answers, what a clone contains, which
    commands succeed. A task runs under a bound on nested calls, `depth`: at zero the next nested call
    raises `RecursionError`, which the nearest handler treats like any unexpected exception. */
module Install {
  import opened Wrappers
  import opened Versions
  import opened PackageNames
  import opened Catalog
  import opened Schema

  type Uuid = nat

  datatype Step =
    | Starting | Downloading | Extracting | Validating | InstallingDependencies
    | Building | Packaging | Updating | Installing | Cleaning | Completed

  const STEP_COUNT: nat := 11

  /** The list of steps a task goes through. */
  function StepAt(i: nat): Step
    requires i < STEP_COUNT
  {
    match i
    case 0 => Starting
    case 1 => Downloading
    case 2 => Extracting
    case 3 => Validating
    case 4 => InstallingDependencies
    case 5 => Building
    case 6 => Packaging
    case 7 => Updating
    case 8 => Installing
    case 9 => Cleaning
    case _ => Completed
  }

  /** How many steps a task has announced: never none, at most all. */
  type StepCount = n: nat | 1 <= n <= STEP_COUNT witness 1

  datatype Error = InstallError(step: Step) | ValidationError | Unexpected(step: Step)

  datatype RemovalStep = RemovalStarting | Removing | RemovalCompleted

  /** What is published on the bus under a task's uuid. */
  datatype Event =
    | Progress(uuid: Uuid, step: Step)
    | Failed(uuid: Uuid, error: Error)
    | Removal(uuid: Uuid, at: RemovalStep)
    | RemovalFailed(uuid: Uuid, at: RemovalStep)

  datatype Action =
    | Clone | Move | Build | MakePackageDir | PackageRules | MakeDataDir | CopyData
    | WriteDebianFiles | DpkgDeb | AptUpdate | Gdebi | AptRemove

  /** The metadata file of an extracted plugin, as `yaml.safe_load` sees it. */
  datatype MetaFile = Unreadable | NotAMapping | Mapping(metadata: Metadata)

  /** The directory to extract: `Missing` when the clone has no such subdirectory. */
  datatype Content = Missing | Tree(file: MetaFile)

  datatype Env = Env(
    loose: LooseOrder,
    market: (Uuid, nat) -> Option<seq<Entry>>,  // the answer to a task's nth market request; None: HTTP error
    repo: (Uuid, string, string, Option<string>) -> Content,
    starts: (Uuid, Action) -> bool,  // a command can be started and its output decoded
    ok: (Uuid, Action) -> bool,
    unpacks: Uuid -> bool,  // a failing gdebi leaves the plugin's files in place
    archive: string -> bool,  // the Debian packages that apt can provide
    removes: Uuid -> set<PluginId>)  // the plugins apt removes, successfully or not

  /** An installed plugin: the file `plugin.yml` it was packaged with. */
  datatype Record = Record(version: Scalar, depends: seq<Dependency>)

  datatype Deb = Deb(id: PluginId, record: Record, depends: seq<string>)

  /** A command run by the root worker, what it changed, and whether it returned `True`: a failed install can
      leave the plugin's files in place, and a failed removal can have removed some plugins. */
  datatype RootCall =
    | UpdateCall(uuid: Uuid, ok: bool)
    | InstallCall(uuid: Uuid, deb: Deb, recorded: bool, ok: bool)
    | RemoveCall(uuid: Uuid, package: string, removed: set<PluginId>, ok: bool)

  datatype World = World(
    events: seq<Event>,
    extracted: map<Uuid, MetaFile>,  // the directories under `extract_dir`
    downloads: set<Uuid>,  // the directories under `download_dir`
    installed: map<PluginId, Record>,
    calls: seq<RootCall>,
    next: Uuid)  // uuids from here on are unused

  datatype Ctx = Ctx(
    uuid: Uuid, via: Method, options: Options, reinstall: bool, wazo: string,
    metadata: Option<MetaFile>, extracted: bool, deb: Option<Deb>)

  function NewCtx(uuid: Uuid, via: Method, options: Options, reinstall: bool, wazo: string): Ctx {
    Ctx(uuid, via, options, reinstall, wazo, None, false, None)
  }

  /** How a step ends: normally, or with the exception that reaches the handlers. */
  datatype Outcome = Ok | CommandFailed | AlreadyInstalled | InvalidMetadata | DependencyInstalled | Crashed

  /** What one task did, for the theorems: how many steps it announced, the dependencies it declared,
      the nested tasks it ran, and its last outcome. `options` are the ones requested, `used` the final ones. */
  datatype Report = Report(
    uuid: Uuid, options: Options, used: Options, begun: StepCount,
    declared: seq<Dependency>, children: seq<Report>, outcome: Outcome)

  datatype StepResult = StepResult(outcome: Outcome, ctx: Ctx, world: World, children: seq<Report>)

  datatype Run = Run(outcome: Outcome, begun: nat, ctx: Ctx, world: World, children: seq<Report>)

  datatype Final = Final(ctx: Ctx, world: World, report: Report)

  function Publish(w: World, event: Event): World { w.(events := w.events + [event]) }

  function LocalVersions(installed: map<PluginId, Record>): Local {
    map id | id in installed :: installed[id].version
  }

  /** `exec_and_log`: a command that ends badly raises `CommandExecutionFailed`; one that cannot be started, or
      whose output cannot be decoded, raises something else. */
  function Exec(env: Env, uuid: Uuid, action: Action): Outcome {
    if !env.starts(uuid, action) then Crashed else if env.ok(uuid, action) then Ok else CommandFailed
  }

  /* ---- Downloading ---- */

  function Download(env: Env, depth: nat, hop: nat, ctx: Ctx, w: World): StepResult
    decreases depth
  {
    match ctx.via
    case Git =>
      if !ctx.options.GitOptions? then StepResult(Crashed, ctx, w, [])
      else
        var done := Exec(env, ctx.uuid, Clone);
        StepResult(done, ctx, if done == Ok then w.(downloads := w.downloads + {ctx.uuid}) else w, [])
    case Unsupported(_) => StepResult(Crashed, ctx, w, [])
    case Market =>
      match FromMarket(env, hop, ctx, w)
      case Failure(outcome) => StepResult(outcome, ctx, w, [])
      case Success((via, options)) =>
        var ctx' := ctx.(via := via, options := options);
        if depth == 0 then StepResult(Crashed, ctx', w, []) else Download(env, depth - 1, hop + 1, ctx', w)
  }

  /** `_find_matching_plugin` and the loading of the version found. */
  function FromMarket(env: Env, hop: nat, ctx: Ctx, w: World): Result<(Method, Options), Outcome> {
    if !ctx.options.MarketOptions? || ctx.options.extra then Failure(Crashed)
    else
      match env.market(ctx.uuid, hop)
      case None => Failure(Crashed)
      case Some(entries) =>
        match Choose(env.loose, ctx.wazo, LocalVersions(w.installed), entries,
                     PluginId(ctx.options.namespace, ctx.options.name), ctx.options.version, ctx.reinstall)
        case Unknown => Failure(Crashed)
        case Satisfied => Failure(DependencyInstalled)
        case NotUpgradable => Failure(DependencyInstalled)
        case Chosen(v) =>
          match LoadInstall(v)
          case None => Failure(Crashed)
          case Some(loaded) => Success(loaded)
  }

  /* ---- Extracting and validating ---- */

  function Subdirectory(options: Options): Option<string> {
    if options.GitOptions? && Filled(options.subdirectory) then options.subdirectory else None
  }

  function Source(env: Env, uuid: Uuid, options: Options): Content {
    if options.GitOptions? then env.repo(uuid, options.url, options.ref, Subdirectory(options)) else Missing
  }

  function Extract(env: Env, ctx: Ctx, w: World): StepResult {
    var cleared := w.(extracted := w.extracted - {ctx.uuid});
    match Source(env, ctx.uuid, ctx.options)
    case Missing => StepResult(Crashed, ctx, cleared, [])
    case Tree(file) =>
      if !env.ok(ctx.uuid, Move) then StepResult(Crashed, ctx, cleared, [])
      else
        var moved := cleared.(
          extracted := cleared.extracted[ctx.uuid := file],
          downloads := if Subdirectory(ctx.options).None? then w.downloads - {ctx.uuid} else w.downloads);
        if file.Unreadable? then StepResult(Crashed, ctx, moved, [])
        else StepResult(Ok, ctx.(metadata := Some(file), extracted := true), moved, [])
  }

  predicate IsInstalled(w: World, id: PluginId, version: Scalar) {
    id in w.installed && w.installed[id].version == version
  }

  predicate HasMapping(ctx: Ctx) { ctx.metadata.Some? && ctx.metadata.value.Mapping? }

  function Validate(ctx: Ctx, w: World): StepResult {
    if !HasMapping(ctx) then StepResult(Crashed, ctx, w, [])
    else
      var m := Coerced(ctx.metadata.value.metadata);
      var ctx' := ctx.(metadata := Some(Mapping(m)));
      if !MetadataLoads(ctx.wazo, m) then StepResult(InvalidMetadata, ctx', w, [])
      else if !ctx.reinstall && IsInstalled(w, IdOf(m), m.version.value) then StepResult(AlreadyInstalled, ctx', w, [])
      else StepResult(Ok, ctx'.(reinstall := false), w, [])
  }

  /* ---- Building and packaging ---- */

  /** The keys and the directory that packaging reads are there; see `InstallWorkspace.PackagingIsReady`. */
  predicate Buildable(ctx: Ctx, w: World) {
    && HasMapping(ctx) && ctx.metadata.value.metadata.name.Some? && ctx.metadata.value.metadata.namespace.Some?
    && ctx.uuid in w.extracted && w.extracted[ctx.uuid].Mapping? && w.extracted[ctx.uuid].metadata.version.Some?
  }

  function GeneratedNames(items: seq<Dependency>): (names: seq<string>)
    ensures |names| == |items|
  {
    seq(|items|, i requires 0 <= i < |items| => PackageName(items[i].Id()))
  }

  /** `_add_debian_depends_from_depends`; `None` stands for appending to what is not a list. */
  function AddDebianDepends(m: Metadata): Option<Metadata> {
    if !m.depends.Depends? then Some(m)
    else
      match m.debianDepends
      case NoDebian => Some(m.(debianDepends := Debian(GeneratedNames(m.depends.items))))
      case Debian(packages) => Some(m.(debianDepends := Debian(packages + GeneratedNames(m.depends.items))))
      case _ => if m.depends.items == [] then Some(m) else None
  }

  /** What the control file lists: the template iterates over a text character by character. */
  function DebianDepends(m: Metadata): seq<string> {
    match m.debianDepends
    case Debian(packages) => packages
    case TextDebian(text) => seq(|text|, i requires 0 <= i < |text| => [text[i]])
    case _ => []
  }

  /** The template cannot iterate over a number; zero counts as absent. */
  predicate Renders(m: Metadata) { m.debianDepends.NumberDebian? ==> m.debianDepends.zero }

  function BuildPlugin(env: Env, ctx: Ctx, w: World): StepResult {
    StepResult(Exec(env, ctx.uuid, Build), ctx, w, [])
  }

  function PackagePlugin(env: Env, ctx: Ctx, w: World): StepResult {
    if !Buildable(ctx, w) then StepResult(Crashed, ctx, w, [])
    else if !env.ok(ctx.uuid, MakePackageDir) then StepResult(Crashed, ctx, w, [])
    else if Exec(env, ctx.uuid, PackageRules) != Ok then StepResult(Exec(env, ctx.uuid, PackageRules), ctx, w, [])
    else if !env.ok(ctx.uuid, MakeDataDir) then StepResult(Crashed, ctx, w, [])
    else if Exec(env, ctx.uuid, CopyData) != Ok then StepResult(Exec(env, ctx.uuid, CopyData), ctx, w, [])
    else
      match AddDebianDepends(ctx.metadata.value.metadata)
      case None => StepResult(Crashed, ctx, w, [])
      case Some(m) =>
        var ctx' := ctx.(metadata := Some(Mapping(m)));
        if !Renders(m) || !env.ok(ctx.uuid, WriteDebianFiles) then StepResult(Crashed, ctx', w, [])
        else if Exec(env, ctx.uuid, DpkgDeb) != Ok then StepResult(Exec(env, ctx.uuid, DpkgDeb), ctx', w, [])
        else StepResult(Ok, ctx'.(deb := Some(DebOf(m, w.extracted[ctx.uuid].metadata))), w, [])
  }

  /** The package: control file from the metadata in memory, `plugin.yml` as it was on disk. */
  function DebOf(m: Metadata, file: Metadata): Deb
    requires m.name.Some? && m.namespace.Some? && file.version.Some?
  {
    Deb(IdOf(m), Record(file.version.value, Declared(file)), DebianDepends(m))
  }

  /* ---- Root commands ---- */

  function UpdateApt(env: Env, ctx: Ctx, w: World): StepResult {
    if !HasMapping(ctx) || DebianDepends(ctx.metadata.value.metadata) == [] then StepResult(Ok, ctx, w, [])
    else
      var done := env.ok(ctx.uuid, AptUpdate);
      StepResult(if done then Ok else Crashed, ctx, w.(calls := w.calls + [UpdateCall(ctx.uuid, done)]), [])
  }

  /** gdebi only reports success when every package of `Depends` is there. */
  predicate DependMet(env: Env, installed: map<PluginId, Record>, package: string) {
    env.archive(package) || exists id <- installed.Keys :: PackageName(id) == package
  }

  predicate DependsMet(env: Env, deb: Deb, w: World) {
    forall package <- deb.depends :: DependMet(env, w.installed, package)
  }

  predicate GdebiSucceeds(env: Env, uuid: Uuid, deb: Deb, w: World) {
    env.ok(uuid, Gdebi) && DependsMet(env, deb, w)
  }

  /** gdebi unpacks nothing before `Depends` is met, but what it unpacked stays when a later part of it fails. */
  predicate GdebiUnpacks(env: Env, uuid: Uuid, deb: Deb, w: World) {
    (env.ok(uuid, Gdebi) || env.unpacks(uuid)) && DependsMet(env, deb, w)
  }

  function InstallDeb(env: Env, ctx: Ctx, w: World): StepResult {
    if ctx.deb.None? then StepResult(Crashed, ctx, w, [])
    else
      var deb := ctx.deb.value;
      var recorded, done := GdebiUnpacks(env, ctx.uuid, deb, w), GdebiSucceeds(env, ctx.uuid, deb, w);
      var w' := w.(
        calls := w.calls + [InstallCall(ctx.uuid, deb, recorded, done)],
        installed := if recorded then w.installed[deb.id := deb.record] else w.installed);
      StepResult(if done then Ok else Crashed, ctx, w', [])
  }

  function Clean(ctx: Ctx, w: World): World {
    if ctx.extracted then w.(extracted := w.extracted - {ctx.uuid}) else w
  }

  /* ---- Dependencies and the task itself ---- */

  function InstallDependencies(env: Env, depth: nat, items: seq<Dependency>, ctx: Ctx, w: World): StepResult
    decreases depth, 0, |items|
  {
    if items == [] then StepResult(Ok, ctx, w, [])
    else if !DependencyLoads(items[0]) then InstallDependencies(env, depth, items[1..], ctx, w)
    else if depth == 0 then StepResult(Crashed, ctx, w, [])
    else
      var child := NewCtx(w.next, Market, AsOptions(items[0]), false, ctx.wazo);
      var done := RunTask(env, depth - 1, child, w.(next := w.next + 1));
      var rest := InstallDependencies(env, depth, items[1..], ctx, done.world);
      rest.(children := [done.report] + rest.children)
  }

  function DeclaredBy(ctx: Ctx): seq<Dependency> {
    if HasMapping(ctx) then Declared(ctx.metadata.value.metadata) else []
  }

  function RunStep(env: Env, depth: nat, step: Step, ctx: Ctx, w: World): StepResult
    decreases depth, 1, 0
  {
    match step
    case Starting => StepResult(Ok, ctx, w, [])
    case Downloading => Download(env, depth, 0, ctx, w)
    case Extracting => Extract(env, ctx, w)
    case Validating => Validate(ctx, w)
    case InstallingDependencies => InstallDependencies(env, depth, DeclaredBy(ctx), ctx, w)
    case Building => BuildPlugin(env, ctx, w)
    case Packaging => PackagePlugin(env, ctx, w)
    case Updating => UpdateApt(env, ctx, w)
    case Installing => InstallDeb(env, ctx, w)
    case Cleaning => StepResult(Ok, ctx, Clean(ctx, w), [])
    case Completed => StepResult(Ok, ctx, w, [])
  }

  /** The loop over the steps, from the ith on. */
  function RunFrom(env: Env, depth: nat, ctx: Ctx, w: World, i: nat): (run: Run)
    requires i <= STEP_COUNT
    ensures i <= run.begun <= STEP_COUNT && (i < STEP_COUNT ==> i < run.begun)
    ensures run.outcome == Ok ==> run.begun == STEP_COUNT
    decreases depth, 2, STEP_COUNT - i
  {
    if i == STEP_COUNT then Run(Ok, i, ctx, w, [])
    else
      var r := RunStep(env, depth, StepAt(i), ctx, Publish(w, Progress(ctx.uuid, StepAt(i))));
      if r.outcome != Ok then Run(r.outcome, i + 1, r.ctx, r.world, r.children)
      else
        var rest := RunFrom(env, depth, r.ctx, r.world, i + 1);
        rest.(children := r.children + rest.children)
  }

  /** The exception handlers. */
  function Handle(run: Run): World
    requires 1 <= run.begun <= STEP_COUNT
  {
    var step := StepAt(run.begun - 1);
    match run.outcome
    case Ok => run.world
    case CommandFailed => Publish(Clean(run.ctx, run.world), Failed(run.ctx.uuid, InstallError(step)))
    case AlreadyInstalled => Publish(Clean(run.ctx, run.world), Progress(run.ctx.uuid, Completed))
    case InvalidMetadata => Publish(run.world, Failed(run.ctx.uuid, ValidationError))
    case DependencyInstalled => Publish(Clean(run.ctx, run.world), Progress(run.ctx.uuid, Completed))
    case Crashed => Clean(run.ctx, Publish(run.world, Failed(run.ctx.uuid, Unexpected(step))))
  }

  /** `_package_and_install_impl`. */
  function RunTask(env: Env, depth: nat, ctx: Ctx, w: World): Final
    decreases depth, 3, 0
  {
    var run := RunFrom(env, depth, ctx, w, 0);
    Final(run.ctx, Handle(run),
          Report(ctx.uuid, ctx.options, run.ctx.options, run.begun, if run.begun >= 5 then DeclaredBy(run.ctx) else [],
                 run.children, run.outcome))
  }
}
