/** Debian package names of plugins: built in one place, parsed back in another,
    and the `dpkg-query` listing they travel through. */
module PackageNames {
  import opened Wrappers
  import opened Text

  datatype PluginId = PluginId(namespace: string, name: string)

  const PREFIX := "wazo-plugind-"

  predicate IsNamespaceChar(c: char) { 'a' <= c <= 'z' || '0' <= c <= '9' }

  predicate IsNameChar(c: char) { IsNamespaceChar(c) || c == '-' }

  /** One or more characters of the class, nothing else. */
  predicate IsNamespace(s: string) { s != "" && forall c <- s :: IsNamespaceChar(c) }

  predicate IsName(s: string) { s != "" && forall c <- s :: IsNameChar(c) }

  predicate IsWellNamed(id: PluginId) { IsNamespace(id.namespace) && IsName(id.name) }

  /** Python's `$` also matches before one trailing newline. */
  function Chomp(s: string): string {
    if s != "" && s[|s| - 1] == '\n' then s[..|s| - 1] else s
  }

  /** `re.match('^[a-z0-9]+$', s)`, as the metadata schema applies it. */
  predicate MatchesNamespace(s: string) { IsNamespace(Chomp(s)) }

  /** `re.match('^[a-z0-9-]+$', s)`. */
  predicate MatchesName(s: string) { IsName(Chomp(s)) }

  function PackageName(id: PluginId): string {
    PREFIX + id.name + "-" + id.namespace
  }

  /** Position of the last '-', if any: where the greedy name group ends. */
  function LastDash(s: string): (at: Option<nat>)
    ensures at.Some? ==> at.value < |s| && s[at.value] == '-' && '-' !in s[at.value + 1..]
    ensures at.None? ==> '-' !in s
  {
    if s == "" then None
    else if s[|s| - 1] == '-' then Some(|s| - 1)
    else
      var at := LastDash(s[..|s| - 1]);
      assert s == s[..|s| - 1] + [s[|s| - 1]];
      at
  }

  /** `Plugin._extract_namespace_and_name`; `None` stands for `InvalidPackageNameException`. */
  function ParsePackageName(package: string): Option<PluginId> {
    var s := Chomp(package);
    if !(PREFIX <= s) then None
    else
      var rest := s[|PREFIX|..];
      match LastDash(rest)
      case None => None
      case Some(at) =>
        var id := PluginId(rest[at + 1..], rest[..at]);
        if IsWellNamed(id) then Some(id) else None
  }

  lemma NamespaceHasNoDash(s: string)
    requires IsNamespace(s)
    ensures '-' !in s && '\n' !in s
  {
  }

  lemma LastDashUnique(s: string, at: nat)
    requires at < |s| && s[at] == '-' && '-' !in s[at + 1..]
    ensures LastDash(s) == Some(at)
  {
    var found := LastDash(s);
    assert s[at] in s;
    forall j | at < j < |s| ensures s[j] != '-' { assert s[j] == s[at + 1..][j - at - 1]; }
    forall j | found.value < j < |s| ensures s[j] != '-' { assert s[j] == s[found.value + 1..][j - found.value - 1]; }
  }

  /** What the regular expression says: some split of the text after the prefix, with or without a final newline. */
  ghost predicate PatternMatches(package: string, id: PluginId) {
    IsWellNamed(id) && (package == PackageName(id) || package == PackageName(id) + "\n")
  }

  lemma ChompPackageName(id: PluginId)
    requires IsNamespace(id.namespace)
    ensures Chomp(PackageName(id)) == PackageName(id) && Chomp(PackageName(id) + "\n") == PackageName(id)
  {
    var p := PackageName(id);
    var last := id.namespace[|id.namespace| - 1];
    assert last in id.namespace && p[|p| - 1] == last;
  }

  lemma ParseBuilt(id: PluginId)
    requires IsWellNamed(id)
    ensures ParsePackageName(PackageName(id)) == Some(id)
  {
    ChompPackageName(id);
    var s := PackageName(id);
    var rest := s[|PREFIX|..];
    assert rest == id.name + "-" + id.namespace;
    assert rest[..|id.name|] == id.name && rest[|id.name| + 1..] == id.namespace;
    NamespaceHasNoDash(id.namespace);
    LastDashUnique(rest, |id.name|);
  }

  lemma ParsedIsPattern(package: string, id: PluginId)
    requires ParsePackageName(package) == Some(id)
    ensures PatternMatches(package, id)
  {
    var s := Chomp(package);
    var rest := s[|PREFIX|..];
    var at := LastDash(rest).value;
    assert rest == rest[..at] + "-" + rest[at + 1..];
    assert s == PREFIX + rest;
    assert s == PREFIX + id.name + "-" + id.namespace;
  }

  /** The parser finds the pattern's groups, and there is only one way to read them. */
  lemma ParseFindsTheGroups(package: string, id: PluginId)
    ensures ParsePackageName(package) == Some(id) <==> PatternMatches(package, id)
  {
    if PatternMatches(package, id) {
      ParseBuilt(id);
      ChompPackageName(id);
    }
    if ParsePackageName(package) == Some(id) {
      ParsedIsPattern(package, id);
    }
  }

  /** Building and parsing undo each other exactly on the names without a newline. */
  lemma RoundTripExactly(id: PluginId)
    ensures ParsePackageName(PackageName(id)) == Some(id) <==> IsWellNamed(id)
  {
    ParseFindsTheGroups(PackageName(id), id);
  }

  /** No two well-named plugins share a package. */
  lemma PackageNamesDiffer(a: PluginId, b: PluginId)
    requires IsWellNamed(a) && IsWellNamed(b) && PackageName(a) == PackageName(b)
    ensures a == b
  {
    RoundTripExactly(a);
    RoundTripExactly(b);
  }

  /* ---- Names that are only non-empty ---- */

  predicate IsNonEmpty(id: PluginId) { id.namespace != "" && id.name != "" }

  /** A package name after the prefix. */
  function Tail(id: PluginId): string { id.name + "-" + id.namespace }

  /** The tail has an inner dash besides the one put there by the build. */
  predicate SplitsElsewhere(id: PluginId) {
    var tail := Tail(id);
    exists k | 0 < k < |tail| - 1 :: k != |id.name| && tail[k] == '-'
  }

  /** The other plugin that dash k of the tail separates. */
  function Twin(id: PluginId, k: nat): PluginId
    requires k < |Tail(id)|
  {
    PluginId(Tail(id)[k + 1..], Tail(id)[..k])
  }

  lemma TwinShares(id: PluginId, k: nat)
    requires 0 < k < |Tail(id)| - 1 && k != |id.name| && Tail(id)[k] == '-'
    ensures IsNonEmpty(Twin(id, k)) && Twin(id, k) != id && PackageName(Twin(id, k)) == PackageName(id)
  {
    var tail := Tail(id);
    assert tail == tail[..k] + "-" + tail[k + 1..];
    assert PackageName(Twin(id, k)) == PREFIX + tail == PackageName(id);
  }

  lemma TailOfPackage(id: PluginId)
    ensures PackageName(id)[|PREFIX|..] == Tail(id)
  {
  }

  lemma TailParts(id: PluginId)
    ensures var tail, n := Tail(id), |id.name|;
            n < |tail| && id.name == tail[..n] && tail[n] == '-' && id.namespace == tail[n + 1..]
  {
  }

  lemma SharedSplits(a: PluginId, b: PluginId)
    requires IsNonEmpty(a) && IsNonEmpty(b) && a != b && PackageName(a) == PackageName(b)
    ensures SplitsElsewhere(a)
  {
    hide PackageName;
    TailOfPackage(a);
    TailOfPackage(b);
    TailParts(a);
    TailParts(b);
  }

  /** `c/a-b` is one such name: its package is also that of `b-c/a`. */
  lemma DashedNamesCollide()
    ensures var a, b := PluginId("c", "a-b"), PluginId("b-c", "a");
            a != b && IsWellNamed(a) && IsNonEmpty(b) && PackageName(a) == PackageName(b)
  {
    TwinShares(PluginId("c", "a-b"), 1);
    assert Twin(PluginId("c", "a-b"), 1) == PluginId("b-c", "a");
  }

  /** A name that is only checked to be non-empty shares its package with another such name exactly when it holds
      a dash besides the separator, at neither end of the tail. */
  lemma PackagesCollideExactly(id: PluginId)
    requires IsNonEmpty(id)
    ensures (exists b :: IsNonEmpty(b) && b != id && PackageName(b) == PackageName(id)) <==> SplitsElsewhere(id)
  {
    if SplitsElsewhere(id) {
      var k :| 0 < k < |Tail(id)| - 1 && k != |id.name| && Tail(id)[k] == '-';
      TwinShares(id, k);
    }
    if b :| IsNonEmpty(b) && b != id && PackageName(b) == PackageName(id) { SharedSplits(id, b); }
  }

  /** A readable package has no newline but at its end. */
  lemma ReadableHasNoInnerNewline(package: string)
    requires ParsePackageName(package).Some?
    ensures forall at | 0 <= at < |package| - 1 :: package[at] != '\n'
  {
    hide ParsePackageName;
    var id := ParsePackageName(package).value;
    ParseFindsTheGroups(package, id);
    WellNamedHasNoNewline(id);
    var read := PackageName(id);
    forall at | 0 <= at < |package| - 1 ensures package[at] != '\n' {
      assert package[at] == read[at] && read[at] in read;
    }
  }

  lemma WellNamedHasNoNewline(id: PluginId)
    requires IsWellNamed(id)
    ensures '\n' !in PackageName(id)
  {
    forall c <- PackageName(id) ensures c != '\n' {
      assert c in PREFIX || c == '-' || c in id.name || c in id.namespace;
    }
  }

  /** How the package of a validated plugin reads back: a newline after the name makes it unreadable, one after the
      namespace is dropped, which makes it another plugin's. */
  lemma ValidatedNamesReadBack(id: PluginId)
    requires MatchesNamespace(id.namespace) && MatchesName(id.name)
    ensures ParsePackageName(PackageName(id))
            == if IsName(id.name) then Some(PluginId(Chomp(id.namespace), id.name)) else None
  {
    hide ParsePackageName;
    var p, chomped := PackageName(id), PluginId(Chomp(id.namespace), id.name);
    if IsName(id.name) {
      assert id.namespace == chomped.namespace || id.namespace == chomped.namespace + "\n";
      assert p == PackageName(chomped) || p == PackageName(chomped) + "\n";
      ParseFindsTheGroups(p, chomped);
    } else {
      NewlineIsLast(id.name);
      var at := |PREFIX| + |id.name| - 1;
      assert p[at] == '\n' && at < |p| - 1;
      if ParsePackageName(p).Some? { ReadableHasNoInnerNewline(p); }
    }
  }

  lemma NewlineIsLast(s: string)
    requires IsName(Chomp(s)) && !IsName(s)
    ensures s != "" && s[|s| - 1] == '\n'
  {
  }

  /* ---- The installed-package listing ---- */

  datatype Listed = Listed(name: string, section: string)

  /** What `dpkg-query -W -f='${binary:Package} ${Section}\n'` prints. */
  function Render(table: seq<Listed>): string {
    if table == [] then "" else table[0].name + " " + table[0].section + "\n" + Render(table[1..])
  }

  /** Python's `line.partition(' ')`, without the separator. */
  function Partition(line: string): (string, string) {
    if line == "" then ("", "")
    else if line[0] == ' ' then ("", line[1..])
    else var (head, tail) := Partition(line[1..]); ([line[0]] + head, tail)
  }

  /** `list_installed_packages`: the generator, as the list of what it yields. */
  function SelectPackages(lines: seq<string>, selected: Option<string>): seq<string> {
    if lines == [] then []
    else
      var (name, section) := Partition(lines[0]);
      var rest := SelectPackages(lines[1..], selected);
      if selected.None? || selected.value == "" || selected.value == section then [name] + rest else rest
  }

  function ListInstalled(output: string, selected: Option<string>): seq<string> {
    SelectPackages(Split(output, '\n'), selected)
  }

  /** The same question asked of the table instead of the printed text. */
  function InSection(table: seq<Listed>, section: string): seq<string> {
    if table == [] then []
    else (if table[0].section == section then [table[0].name] else []) + InSection(table[1..], section)
  }

  function Names(table: seq<Listed>): seq<string> {
    if table == [] then [] else [table[0].name] + Names(table[1..])
  }

  /** Package names hold no blank (section 5.6.1 of the Debian Policy Manual) and no field holds a newline. */
  predicate Printable(table: seq<Listed>) {
    forall p <- table :: ' ' !in p.name && '\n' !in p.name && '\n' !in p.section
  }

  lemma {:induction false} PartitionAtBlank(name: string, section: string)
    requires ' ' !in name
    ensures Partition(name + " " + section) == (name, section)
  {
    var line := name + " " + section;
    if name == "" {
      assert line[1..] == section;
    } else {
      PartitionAtBlank(name[1..], section);
      assert line[1..] == name[1..] + " " + section && line[0] == name[0];
      assert name == [name[0]] + name[1..];
    }
  }

  function LineOf(p: Listed): string { p.name + " " + p.section }

  function Lines(table: seq<Listed>): seq<string> {
    if table == [] then [] else [LineOf(table[0])] + Lines(table[1..])
  }

  lemma {:induction false} SplitRender(table: seq<Listed>)
    requires Printable(table)
    ensures Split(Render(table), '\n') == Lines(table) + [""]
  {
    if table != [] {
      var line, rest := LineOf(table[0]), Render(table[1..]);
      SplitRender(table[1..]);
      LineHasNoBreak(table[0]);
      SplitLine(line, rest);
      assert Render(table) == line + ("\n" + rest);
    }
  }

  lemma LineHasNoBreak(p: Listed)
    requires '\n' !in p.name && '\n' !in p.section
    ensures '\n' !in LineOf(p)
  {
  }

  lemma SplitLine(line: string, rest: string)
    requires '\n' !in line
    ensures Split(line + ("\n" + rest), '\n') == [line] + Split(rest, '\n')
  {
    var tail := "\n" + rest;
    SplitPrefix(line, tail, '\n');
    assert tail[1..] == rest && line + "" == line;
    assert Split(tail, '\n') == [""] + Split(rest, '\n');
  }

  lemma {:induction false} SelectRendered(table: seq<Listed>, selected: Option<string>)
    requires Printable(table)
    ensures selected.Some? && selected.value != "" ==>
              SelectPackages(Lines(table) + [""], selected) == InSection(table, selected.value)
    ensures selected.None? || selected.value == "" ==>
              SelectPackages(Lines(table) + [""], selected) == Names(table) + [""]
  {
    var lines := Lines(table) + [""];
    if table == [] {
      assert SelectPackages(lines[1..], selected) == [];
    } else {
      SelectRendered(table[1..], selected);
      PartitionAtBlank(table[0].name, table[0].section);
      assert lines[0] == LineOf(table[0]) && lines[1..] == Lines(table[1..]) + [""];
    }
  }

  /** Printing a package table and reading it back gives exactly the packages of the section, in order;
      without a section it gives every package and, from the last line break, one empty name. */
  lemma ListingRoundTrip(table: seq<Listed>, section: string)
    requires Printable(table)
    ensures section != "" ==> ListInstalled(Render(table), Some(section)) == InSection(table, section)
    ensures ListInstalled(Render(table), None) == Names(table) + [""]
  {
    SplitRender(table);
    SelectRendered(table, Some(section));
    SelectRendered(table, None);
  }

  /** `PluginDB.list_`'s names: every installed plugin of the section is recovered from the listing. */
  lemma {:induction false} PluginsRecovered(ids: seq<PluginId>, section: string)
    requires section != "" && '\n' !in section
    requires forall id <- ids :: IsWellNamed(id)
    ensures var table := seq(|ids|, i requires 0 <= i < |ids| => Listed(PackageName(ids[i]), section));
            var listed := ListInstalled(Render(table), Some(section));
            |listed| == |ids| && forall i | 0 <= i < |ids| :: ParsePackageName(listed[i]) == Some(ids[i])
  {
    var table := seq(|ids|, i requires 0 <= i < |ids| => Listed(PackageName(ids[i]), section));
    forall p <- table ensures ' ' !in p.name && '\n' !in p.name {
      var i :| 0 <= i < |ids| && p == table[i];
      assert IsWellNamed(ids[i]);
      forall c <- p.name ensures c != ' ' && c != '\n' {
        assert c in PREFIX || c == '-' || c in ids[i].name || c in ids[i].namespace;
      }
    }
    ListingRoundTrip(table, section);
    InOneSection(table, section);
    forall i | 0 <= i < |ids| ensures ParsePackageName(table[i].name) == Some(ids[i]) { RoundTripExactly(ids[i]); }
  }

  lemma {:induction false} InOneSection(table: seq<Listed>, section: string)
    requires forall p <- table :: p.section == section
    ensures |InSection(table, section)| == |table|
    ensures forall i | 0 <= i < |table| :: InSection(table, section)[i] == table[i].name
  {
    if table != [] { InOneSection(table[1..], section); }
  }
}
