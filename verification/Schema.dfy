/** The metadata of a plugin and the schemas that load it. */
module Schema {
  import opened Wrappers
  import opened Text
  import opened Versions
  import opened PackageNames
  import Catalog

  /** One item of `depends`. A missing key and an empty one are both "", which both schemas reject;
      `extra` says whether the item has keys other than namespace, name and version. */
  datatype Dependency = Dependency(namespace: string, name: string, version: Option<string>, extra: bool) {
    function Id(): PluginId { PluginId(namespace, name) }
  }

  datatype DependsField = NoDepends | Depends(items: seq<Dependency>) | MalformedDepends

  /** `debian_depends` is in no schema, so what is not a list reaches packaging too. */
  datatype DebianField =
    | NoDebian | NullDebian | Debian(packages: seq<string>) | TextDebian(text: string) | NumberDebian(zero: bool)

  /** `plugin.yml`. */
  datatype Metadata = Metadata(
    name: Option<string>, namespace: Option<string>,
    version: Option<Scalar>, maxWazo: Option<Scalar>, minWazo: Option<Scalar>,
    formatVersion: Option<int>, depends: DependsField, debianDepends: DebianField)

  const MAX_PLUGIN_FORMAT_VERSION := 2
  const DEFAULT_PLUGIN_FORMAT_VERSION := 0

  datatype VersionField = VersionOf | MaxWazoOf | MinWazoOf

  const VERSION_FIELDS := [VersionOf, MaxWazoOf, MinWazoOf]

  function GetVersion(m: Metadata, field: VersionField): Option<Scalar> {
    match field
    case VersionOf => m.version
    case MaxWazoOf => m.maxWazo
    case MinWazoOf => m.minWazo
  }

  function SetVersion(m: Metadata, field: VersionField, value: Scalar): Metadata {
    match field
    case VersionOf => m.(version := Some(value))
    case MaxWazoOf => m.(maxWazo := Some(value))
    case MinWazoOf => m.(minWazo := Some(value))
  }

  function AsText(value: Option<Scalar>): Option<Scalar> {
    if value.None? then None else Some(Text(value.value.Str()))
  }

  /** What `ensure_string_versions` leaves behind: every version field present is text. */
  function Coerced(m: Metadata): Metadata {
    m.(version := AsText(m.version), maxWazo := AsText(m.maxWazo), minWazo := AsText(m.minWazo))
  }

  /** `DependencyMetadataSchema`. */
  predicate DependencyLoads(d: Dependency) { |d.namespace| >= 1 && |d.name| >= 1 }

  /** `MarketInstallOptionsSchema`, on an item of `depends`. */
  predicate MarketOptionsLoad(d: Dependency) { |d.namespace| >= 1 && |d.name| >= 1 }

  /** The two `Range` validators, on strings: plain string order against the current version. */
  predicate BoundsLoad(wazo: string, m: Metadata) {
    && (m.maxWazo.Some? ==> m.maxWazo.value.Text? && !StrLess(m.maxWazo.value.text, wazo))
    && (m.minWazo.Some? ==> m.minWazo.value.Text? && !StrLess(wazo, m.minWazo.value.text))
  }

  /** `PluginMetadataSchema().load(metadata)` succeeds, on coerced metadata. */
  predicate MetadataLoads(wazo: string, m: Metadata) {
    && m.name.Some? && MatchesName(m.name.value)
    && m.namespace.Some? && MatchesNamespace(m.namespace.value)
    && m.version.Some? && m.version.value.Text?
    && (var format := if m.formatVersion.Some? then m.formatVersion.value else DEFAULT_PLUGIN_FORMAT_VERSION;
        0 <= format <= MAX_PLUGIN_FORMAT_VERSION)
    && BoundsLoad(wazo, m)
    && !m.depends.MalformedDepends?
    && (m.depends.Depends? ==> forall d <- m.depends.items :: MarketOptionsLoad(d))
  }

  /** `metadata.get('depends', [])`, on loaded metadata. */
  function Declared(m: Metadata): seq<Dependency> {
    if m.depends.Depends? then m.depends.items else []
  }

  /** The identity `namespace/name`, on loaded metadata. */
  function IdOf(m: Metadata): PluginId
    requires m.name.Some? && m.namespace.Some?
  {
    PluginId(m.namespace.value, m.name.value)
  }

  /** No dependency of validated metadata is skipped later for being invalid. */
  lemma ValidatedDependenciesLoad(wazo: string, m: Metadata)
    requires MetadataLoads(wazo, m)
    ensures forall d <- Declared(m) :: DependencyLoads(d)
  {
  }

  /** Two dependencies, both accepted, get one package name exactly when the name of one splits elsewhere:
      also a well-formed name has such a twin as soon as it holds an inner dash. */
  lemma AcceptedDependenciesCollideExactly(d: Dependency)
    requires DependencyLoads(d)
    ensures (exists other ::
               DependencyLoads(other) && other.Id() != d.Id() && PackageName(other.Id()) == PackageName(d.Id()))
            <==> SplitsElsewhere(d.Id())
  {
    PackagesCollideExactly(d.Id());
    if b :| IsNonEmpty(b) && b != d.Id() && PackageName(b) == PackageName(d.Id()) {
      assert DependencyLoads(Dependency(b.namespace, b.name, None, false))
          && Dependency(b.namespace, b.name, None, false).Id() == b;
    }
  }

  /* ---- Install requests ---- */

  datatype Options =
    | GitOptions(url: string, ref: string, subdirectory: Option<string>)
    | MarketOptions(namespace: string, name: string, version: Option<string>, extra: bool)

  datatype Method = Git | Market | Unsupported(text: string)

  function AsOptions(d: Dependency): Options {
    MarketOptions(d.namespace, d.name, d.version, d.extra)
  }

  predicate Filled(field: Option<string>) { field.Some? && |field.value| >= 1 }

  /** `PluginInstallSchema().load(version_info)` after the default method is filled in;
      `None` stands for `InvalidInstallParamException`. */
  function LoadInstall(v: Catalog.VersionInfo): Option<(Method, Options)> {
    var via := if v.via.Some? then v.via.value else "git";
    if v.options.None? then None
    else
      var raw := v.options.value;
      if via == "git" then
        if Filled(raw.url) && (raw.ref.Some? ==> Filled(raw.ref))
            && (raw.subdirectory.Some? ==> Filled(raw.subdirectory))
        then Some((Git, GitOptions(raw.url.value, if raw.ref.Some? then raw.ref.value else "master", raw.subdirectory)))
        else None
      else if via == "market" then
        if Filled(raw.namespace) && Filled(raw.name)
        then Some((Market, MarketOptions(raw.namespace.value, raw.name.value, raw.version, false)))
        else None
      else None
  }

  /** What is loaded fits its method: after a market hop the git downloader finds a URL and a reference,
      and the market downloader a namespace and a name. */
  lemma LoadedOptionsFitTheMethod(v: Catalog.VersionInfo)
    ensures LoadInstall(v).Some? ==>
              var (via, o) := LoadInstall(v).value;
              && (via.Git? <==> o.GitOptions?) && (via.Market? <==> o.MarketOptions?) && !via.Unsupported?
              && (o.GitOptions? ==> o.url != "" && o.ref != "" && (o.subdirectory.Some? ==> o.subdirectory.value != ""))
              && (o.MarketOptions? ==> o.namespace != "" && o.name != "" && !o.extra)
              && (v.via.None? ==> via.Git?)
  {
  }

  /** What is loaded says what the market's version says, field by field; only a missing reference is filled in. */
  lemma LoadedOptionsAreTheVersions(v: Catalog.VersionInfo)
    ensures LoadInstall(v).Some? ==>
              v.options.Some?
              && var raw, o := v.options.value, LoadInstall(v).value.1;
                 match o
                 case GitOptions(url, ref, subdirectory) =>
                   && raw.url == Some(url) && raw.subdirectory == subdirectory
                   && (if raw.ref.None? then ref == "master" else raw.ref == Some(ref))
                 case MarketOptions(namespace, name, version, _) =>
                   raw.namespace == Some(namespace) && raw.name == Some(name) && raw.version == version
  {
  }

  /** A version can be loaded exactly when it names a known method and its options hold what that method requires. */
  lemma LoadsExactly(v: Catalog.VersionInfo)
    ensures LoadInstall(v).Some? <==>
            v.options.Some?
            && var raw := v.options.value;
               || ((v.via.None? || v.via == Some("git")) && raw.url.Some? && raw.url != Some("")
                   && raw.ref != Some("") && raw.subdirectory != Some(""))
               || (v.via == Some("market") && raw.namespace.Some? && raw.namespace != Some("")
                   && raw.name.Some? && raw.name != Some(""))
  {
  }

  /* ---- Numbers as versions ---- */

  /** Writing a version as a number or as the text made of it makes no difference to whether the metadata loads. */
  lemma NumbersLoadAsText(wazo: string, m: Metadata, field: VersionField, repr: string, value: real)
    ensures MetadataLoads(wazo, Coerced(SetVersion(m, field, Number(repr, value))))
            == MetadataLoads(wazo, Coerced(SetVersion(m, field, Text(repr))))
    ensures !MetadataLoads(wazo, SetVersion(m, field, Number(repr, value)))
  {
  }

  /** Metadata of a known format loads as if no format were given; of an unknown one it does not load. */
  lemma FormatsLoadExactly(wazo: string, m: Metadata, format: int)
    ensures MetadataLoads(wazo, m.(formatVersion := Some(format))) <==>
            format in {0, 1, 2} && MetadataLoads(wazo, m.(formatVersion := None))
  {
  }

  /* ---- The schema's bounds against the market's ---- */

  /** The bounds as the market updater checks them, on text. */
  predicate MarketBounds(loose: LooseOrder, wazo: string, min: string, max: string) {
    && !LessThan(loose, Some(Text(wazo)), Some(Text(min)))
    && !LessThan(loose, Some(Text(max)), Some(Text(wazo)))
  }

  function Bounded(min: string, max: string): Metadata {
    Metadata(Some("a"), Some("a"), Some(Text("1")), Some(Text(max)), Some(Text(min)), None, NoDepends, NoDebian)
  }

  lemma JoinNonEmpty(parts: seq<string>)
    requires Dotted(parts)
    ensures Join(parts, '.') != ""
  {
    assert IsNumeral(parts[0]);
  }

  /** Nothing but the bounds decides on metadata that is otherwise fine. */
  lemma BoundsDecide(wazo: string, min: string, max: string)
    ensures MetadataLoads(wazo, Bounded(min, max)) <==> !StrLess(max, wazo) && !StrLess(wazo, min)
  {
    assert IsName("a") && IsNamespace("a") && Chomp("a") == "a";
  }

  /** With zero-padded versions of one shape, metadata is accepted exactly when the market calls it compatible. */
  lemma PaddedBoundsAgree(wazo: seq<string>, min: seq<string>, max: seq<string>)
    requires Dotted(wazo) && Dotted(min) && Dotted(max)
    requires SameShape(wazo, min) && SameShape(max, wazo)
    ensures var w, lo, hi := Join(wazo, '.'), Join(min, '.'), Join(max, '.');
            MetadataLoads(w, Bounded(lo, hi)) <==> MarketBounds(NumericLess, w, lo, hi)
  {
    hide MetadataLoads, StrLess, NumericLess;
    BoundsDecide(Join(wazo, '.'), Join(min, '.'), Join(max, '.'));
    JoinNonEmpty(wazo);
    JoinNonEmpty(min);
    JoinNonEmpty(max);
    PaddedOrdersAgree(wazo, min);
    PaddedOrdersAgree(max, wazo);
  }

  /** Without padding the two may order either comparison differently. The verdicts then agree exactly when no
      comparison is misordered, or the only misordered one does not matter because the other bound already
      fails for both, or both are and each order fails one bound. */
  predicate BoundsAgree(wazo: seq<string>, min: seq<string>, max: seq<string>) {
    var w, lo, hi := Join(wazo, '.'), Join(min, '.'), Join(max, '.');
    var tooNew, tooOld := NumericLess(hi, w), NumericLess(w, lo);
    if WidthAgrees(max, wazo) then WidthAgrees(wazo, min) || tooNew
    else if WidthAgrees(wazo, min) then tooOld
    else tooNew != tooOld
  }

  /** Unpadded versions: the exact condition under which metadata loads if and only if the market calls it
      compatible. */
  lemma UnpaddedBoundsAgreeExactly(wazo: seq<string>, min: seq<string>, max: seq<string>)
    requires Dotted(wazo) && Dotted(min) && Dotted(max)
    requires forall p <- wazo + min + max :: IsCanonical(p)
    ensures var w, lo, hi := Join(wazo, '.'), Join(min, '.'), Join(max, '.');
            (MetadataLoads(w, Bounded(lo, hi)) <==> MarketBounds(NumericLess, w, lo, hi)) <==>
                BoundsAgree(wazo, min, max)
  {
    hide MetadataLoads, StrLess, NumericLess;
    BoundsDecide(Join(wazo, '.'), Join(min, '.'), Join(max, '.'));
    JoinNonEmpty(wazo);
    JoinNonEmpty(min);
    JoinNonEmpty(max);
    assert forall p <- max + wazo :: p in wazo + min + max;
    assert forall p <- wazo + min :: p in wazo + min + max;
    UnpaddedOrdersAgreeExactly(max, wazo);
    UnpaddedOrdersAgreeExactly(wazo, min);
  }

  /** One such family: on Wazo 17.12 a plugin limited to at most 17.9 loads, though the market refuses it. */
  lemma UnpaddedBoundsDiffer()
    ensures MetadataLoads("17.12", Bounded("17.12", "17.9")) && !MarketBounds(NumericLess, "17.12", "17.12", "17.9")
  {
    OrdersDisagree();
    StrLessIrreflexive("17.12");
    assert !StrLess("17.9", "17.12");
  }
}
