/** The list of installed plugins: from the package listing to the metadata files. */
module InstalledPlugins {
  import opened Wrappers
  import opened PackageNames

  /** The metadata of the listed packages that name a plugin with a metadata file, in listed order. */
  function MetadataOf<M>(names: seq<string>, files: map<PluginId, M>): seq<M> {
    if names == [] then []
    else
      var id := ParsePackageName(names[0]);
      (if id.Some? && id.value in files then [files[id.value]] else []) + MetadataOf(names[1..], files)
  }

  /** `PluginDB.list_`. A package whose name cannot be parsed is logged with the previous package's plugin: when
      there is none yet, that variable is unbound and the listing fails, for which `None` stands. Every other
      malformed name, and every missing file, is skipped. */
  method ListPlugins<M>(output: string, section: string, files: map<PluginId, M>) returns (r: Option<seq<M>>)
    ensures var names := ListInstalled(output, Some(section));
            && (r.None? <==> names != [] && ParsePackageName(names[0]).None?)
            && (r.Some? ==> r.value == MetadataOf(names, files))
  {
    hide ParsePackageName, ListInstalled;
    var names := ListInstalled(output, Some(section));
    var result: seq<M> := [];
    var plugin: Option<PluginId> := None;
    var i := 0;
    assert names[0..] == names;
    while i < |names|
      invariant 0 <= i <= |names|
      invariant plugin.None? <==> i == 0
      invariant i > 0 ==> ParsePackageName(names[0]).Some?
      invariant MetadataOf(names, files) == result + MetadataOf(names[i..], files)
    {
      var parsed := ParsePackageName(names[i]);
      assert names[i..][1..] == names[i + 1..] && names[i..][0] == names[i];
      if parsed.None? {
        if plugin.None? { return None; }
      } else {
        plugin := parsed;
        if parsed.value in files { result := result + [files[parsed.value]]; }
      }
      i := i + 1;
    }
    return Some(result);
  }

  /** The packages of the plugins, as the package manager lists them among others. */
  predicate Lists(table: seq<Listed>, section: string, ids: seq<PluginId>) {
    InSection(table, section) == seq(|ids|, i requires 0 <= i < |ids| => PackageName(ids[i]))
  }

  /** When the section holds the packages of well-named plugins with metadata, the listing succeeds and gives
      their metadata in the order of the package table, whatever else is installed in other sections. */
  lemma {:induction false} InstalledAreListed<M>(table: seq<Listed>, section: string, ids: seq<PluginId>,
                                                 files: map<PluginId, M>)
    requires Printable(table) && section != "" && Lists(table, section, ids)
    requires forall id <- ids :: IsWellNamed(id) && id in files
    ensures var names := ListInstalled(Render(table), Some(section));
            && (names != [] ==> ParsePackageName(names[0]).Some?)
            && MetadataOf(names, files) == seq(|ids|, i requires 0 <= i < |ids| => files[ids[i]])
  {
    ListingRoundTrip(table, section);
    MetadataInOrder(ids, files);
    if ids != [] { RoundTripExactly(ids[0]); }
  }

  lemma {:induction false} MetadataInOrder<M>(ids: seq<PluginId>, files: map<PluginId, M>)
    requires forall id <- ids :: IsWellNamed(id) && id in files
    ensures MetadataOf(seq(|ids|, i requires 0 <= i < |ids| => PackageName(ids[i])), files)
            == seq(|ids|, i requires 0 <= i < |ids| => files[ids[i]])
  {
    hide ParsePackageName;
    if ids != [] {
      RoundTripExactly(ids[0]);
      var rest := ids[1..];
      MetadataInOrder(rest, files);
      var names := seq(|ids|, i requires 0 <= i < |ids| => PackageName(ids[i]));
      var metas := seq(|ids|, i requires 0 <= i < |ids| => files[ids[i]]);
      assert names[1..] == seq(|rest|, i requires 0 <= i < |rest| => PackageName(rest[i]));
      assert metas[1..] == seq(|rest|, i requires 0 <= i < |rest| => files[rest[i]]);
      assert metas == [metas[0]] + metas[1..];
    }
  }
}
