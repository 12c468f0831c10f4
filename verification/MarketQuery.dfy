/** Queries over the market's entries: strict filters, search, sort and pages. */
module MarketQuery {
  import opened Wrappers
  import opened Text
  import opened Versions
  import opened Catalog

  /** What the queries depend on besides the entries: the two version orders' parameter, the current
      Wazo version, the accent- and case-insensitive `in` on strings, and the plugins installed. */
  datatype Setting = Setting(loose: LooseOrder, wazo: string, contains: (string, string) -> bool, local: Local)

  /** The keyword arguments of a query; `strict` holds the ones that are not named parameters. */
  datatype Params = Params(
    search: Option<string>, limit: Option<nat>, offset: nat, order: Option<string>, direction: Option<string>,
    installed: Option<bool>, strict: map<string, string>)

  /* ---- Filters ---- */

  /** `_extract_strict_filters`. */
  function Filters(p: Params): map<string, Wanted> {
    var equalities := map key | key in p.strict :: Equals(p.strict[key]);
    if p.installed.Some? && "installed_version" !in p.strict
    then equalities["installed_version" := Installed(p.installed.value)]
    else equalities
  }

  /** The keys of a version's dictionary, which `in` also searches. */
  function KeysOf(v: VersionInfo): set<string> {
    (if v.version.Some? then {"version"} else {})
    + (if v.minWazo.Some? then {"min_wazo_version"} else {})
    + (if v.maxWazo.Some? then {"max_wazo_version"} else {})
    + (if v.via.Some? then {"method"} else {})
    + (if v.options.Some? then {"options"} else {})
    + (if v.upgradable.Some? then {"upgradable"} else {})
  }

  predicate ValueHit(contains: (string, string) -> bool, search: string, value: Value) {
    match value
    case Plain(Text(text)) => contains(search, text)
    case Plain(Number(_, _)) => false
    case Null => false
    case Strs(items) => search in items || exists item <- items :: contains(search, item)
    case Opaque => false
  }

  predicate SearchHit(contains: (string, string) -> bool, search: string, e: Entry) {
    || contains(search, e.namespace)
    || contains(search, e.name)
    || (e.installedVersion.Some? && ValueHit(contains, search, e.installedVersion.value))
    || (exists v <- e.versions :: search in KeysOf(v))
    || (exists key <- e.extra.Keys :: ValueHit(contains, search, e.extra[key]))
  }

  /** `_filter`. */
  function Search(contains: (string, string) -> bool, search: Option<string>, entries: seq<Entry>): seq<Entry> {
    if search.None? || search.value == "" || entries == [] then entries
    else
      var rest := Search(contains, search, entries[1..]);
      if SearchHit(contains, search.value, entries[0]) then [entries[0]] + rest else rest
  }

  /** The entries a query keeps, in market order. */
  function Kept(s: Setting, p: Params, entries: seq<Entry>): seq<Entry> {
    Search(s.contains, p.search, StrictFilter(entries, Filters(p)))
  }

  lemma {:induction false} FilterSplits(a: seq<Entry>, b: seq<Entry>, filters: map<string, Wanted>)
    ensures StrictFilter(a + b, filters) == StrictFilter(a, filters) + StrictFilter(b, filters)
  {
    if a == [] {
      assert a + b == b;
    } else {
      assert (a + b)[1..] == a[1..] + b;
      FilterSplits(a[1..], b, filters);
    }
  }

  lemma {:induction false} SearchSplits(contains: (string, string) -> bool, search: Option<string>, a: seq<Entry>,
                                        b: seq<Entry>)
    ensures Search(contains, search, a + b) == Search(contains, search, a) + Search(contains, search, b)
  {
    if a == [] {
      assert a + b == b;
    } else if search.Some? && search.value != "" {
      assert (a + b)[1..] == a[1..] + b;
      SearchSplits(contains, search, a[1..], b);
    }
  }

  predicate Searched(s: Setting, p: Params, e: Entry) {
    p.search.None? || p.search.value == "" || SearchHit(s.contains, p.search.value, e)
  }

  /** A query keeps each entry or drops it for what it is, not for where it stands: order and repeats are the
      market's. */
  lemma QueryKeepsMarketOrder(s: Setting, p: Params, a: seq<Entry>, e: Entry, b: seq<Entry>)
    ensures Kept(s, p, a + [e] + b)
            == Kept(s, p, a) + (if StrictMatch(e, Filters(p)) && Searched(s, p, e) then [e] else []) + Kept(s, p, b)
  {
    hide SearchHit, StrictMatch, Filters;
    FilterSplits(a + [e], b, Filters(p));
    FilterSplits(a, [e], Filters(p));
    var x, y, z := StrictFilter(a, Filters(p)), StrictFilter([e], Filters(p)), StrictFilter(b, Filters(p));
    SearchSplits(s.contains, p.search, x + y, z);
    SearchSplits(s.contains, p.search, x, y);
  }

  /* ---- Sorting ---- */

  /** The sort key: `None` stands for `LAST_ITEM`. */
  function KeyOf(e: Entry, order: Option<string>): Option<Value> {
    if order.None? then None else e.Get(order.value)
  }

  predicate IsText(v: Value) { v.Plain? && v.scalar.Text? }

  predicate IsNumber(v: Value) { v.Plain? && v.scalar.Number? }

  /** Python can order the two keys: `LAST_ITEM` with anything, otherwise text, numbers, and lists of text
      with their own kind. */
  predicate Comparable(a: Option<Value>, b: Option<Value>) {
    || a.None? || b.None?
    || (IsText(a.value) && IsText(b.value))
    || (IsNumber(a.value) && IsNumber(b.value))
    || (a.value.Strs? && b.value.Strs?)
  }

  /** `a < b`: nothing is above `LAST_ITEM`, and everything else is below it. */
  predicate KeyLess(a: Option<Value>, b: Option<Value>) {
    if a.None? then false
    else if b.None? then true
    else if IsText(a.value) && IsText(b.value) then StrLess(a.value.scalar.text, b.value.scalar.text)
    else if IsNumber(a.value) && IsNumber(b.value) then a.value.scalar.value < b.value.scalar.value
    else if a.value.Strs? && b.value.Strs? then LexText(a.value.items, b.value.items)
    else false
  }

  predicate Orderable(entries: seq<Entry>, order: Option<string>) {
    forall i, j | 0 <= i < j < |entries| :: Comparable(KeyOf(entries[i], order), KeyOf(entries[j], order))
  }

  /** Put e in front of everything that is not below it. */
  function Insert(e: Entry, sorted: seq<Entry>, order: Option<string>): seq<Entry> {
    if sorted == [] then [e]
    else if KeyLess(KeyOf(sorted[0], order), KeyOf(e, order)) then [sorted[0]] + Insert(e, sorted[1..], order)
    else [e] + sorted
  }

  function SortUp(entries: seq<Entry>, order: Option<string>): seq<Entry> {
    if entries == [] then [] else Insert(entries[0], SortUp(entries[1..], order), order)
  }

  function Reverse(entries: seq<Entry>): (r: seq<Entry>)
    ensures |r| == |entries|
  {
    seq(|entries|, i requires 0 <= i < |entries| => entries[|entries| - 1 - i])
  }

  /** `sorted(content, key=key, reverse=direction == 'desc')`; `None` stands for `InvalidSortParamException`. */
  function Sort(entries: seq<Entry>, order: Option<string>, direction: Option<string>): Option<seq<Entry>> {
    if !Orderable(entries, order) then None
    else if direction == Some("desc") then Some(Reverse(SortUp(Reverse(entries), order)))
    else Some(SortUp(entries, order))
  }

  /* ---- Pages ---- */

  /** `content[offset:end]`; a limit of zero is no limit. */
  function Page(entries: seq<Entry>, limit: Option<nat>, offset: nat): seq<Entry> {
    var end := if limit.Some? && limit.value != 0 then limit.value + offset else |entries|;
    var stop := if end < |entries| then end else |entries|;
    if offset < stop then entries[offset..stop] else []
  }

  /** `MarketDB.list_`. */
  function List(s: Setting, p: Params, content: seq<Entry>): Option<seq<Entry>> {
    match Sort(Kept(s, p, UpdateAll(s.loose, s.wazo, s.local, content)), p.order, p.direction)
    case None => None
    case Some(sorted) => Some(Page(sorted, p.limit, p.offset))
  }

  /* ---- Counts agree ---- */

  /** Updating twice is updating once, while the installed plugins stay the same. */
  lemma UpdateTwice(loose: LooseOrder, wazo: string, local: Local, entries: seq<Entry>)
    ensures UpdateAll(loose, wazo, local, UpdateAll(loose, wazo, local, entries))
        == UpdateAll(loose, wazo, local, entries)
  {
    forall e ensures Updated(loose, wazo, local, Updated(loose, wazo, local, e)) == Updated(loose, wazo, local, e) {
      UpdateEntryTwice(loose, wazo, local, e);
    }
  }

  lemma UpdateEntryTwice(loose: LooseOrder, wazo: string, local: Local, e: Entry)
    ensures Updated(loose, wazo, local, Updated(loose, wazo, local, e)) == Updated(loose, wazo, local, e)
  {
    var installed := Lookup(local, e.Id());
    assert MarkAll(loose, wazo, installed, MarkAll(loose, wazo, installed, e.versions))
        == MarkAll(loose, wazo, installed, e.versions);
  }

  lemma {:induction false} FilterShrinks(entries: seq<Entry>, filters: map<string, Wanted>)
    ensures |StrictFilter(entries, filters)| <= |entries|
  {
    if entries != [] { FilterShrinks(entries[1..], filters); }
  }

  lemma {:induction false} SearchShrinks(contains: (string, string) -> bool, search: Option<string>,
                                         entries: seq<Entry>)
    ensures |Search(contains, search, entries)| <= |entries|
  {
    if search.Some? && search.value != "" && entries != [] { SearchShrinks(contains, search, entries[1..]); }
  }

  lemma {:induction false} SortLength(entries: seq<Entry>, order: Option<string>)
    ensures |SortUp(entries, order)| == |entries|
  {
    if entries != [] {
      SortLength(entries[1..], order);
      InsertLength(entries[0], SortUp(entries[1..], order), order);
    }
  }

  lemma {:induction false} InsertLength(e: Entry, sorted: seq<Entry>, order: Option<string>)
    ensures |Insert(e, sorted, order)| == |sorted| + 1
  {
    if sorted != [] { InsertLength(e, sorted[1..], order); }
  }

  /** The filtered count is the length of the whole list, a page is no longer than it, and it is no longer than the
      market. */
  lemma CountsAgree(s: Setting, p: Params, content: seq<Entry>)
    ensures var updated := UpdateAll(s.loose, s.wazo, s.local, content);
            var whole := List(s, p.(limit := None, offset := 0), content);
            var page := List(s, p, content);
            && (whole.Some? <==> page.Some?)
            && (page.Some? ==> |Kept(s, p, updated)| == |whole.value| && |page.value| <= |whole.value| <= |content|)
  {
    var updated := UpdateAll(s.loose, s.wazo, s.local, content);
    var q := p.(limit := None, offset := 0);
    assert Filters(q) == Filters(p);
    var kept := Kept(s, p, updated);
    FilterShrinks(updated, Filters(p));
    SearchShrinks(s.contains, p.search, StrictFilter(updated, Filters(p)));
    SortLength(kept, p.order);
    SortLength(Reverse(kept), p.order);
  }

  /* ---- Counting before listing ---- */

  predicate Keeps(s: Setting, p: Params, e: Entry) { StrictMatch(e, Filters(p)) && Searched(s, p, e) }

  lemma KeptOne(s: Setting, p: Params, e: Entry, rest: seq<Entry>)
    ensures Kept(s, p, []) == []
    ensures Kept(s, p, [e] + rest) == (if Keeps(s, p, e) then [e] else []) + Kept(s, p, rest)
  {
    QueryKeepsMarketOrder(s, p, [], e, rest);
    assert [] + [e] + rest == [e] + rest;
  }

  /** The entries a query asks for cannot be told apart by what the updater writes: it asks for the text of
      `versions`, which no entry has; or it has no filter on the installed state, and its search, if any, is
      met by a text it also filters for, or by every text. */
  ghost predicate IgnoresLocalValues(contains: (string, string) -> bool, p: Params) {
    || "versions" in p.strict
    || (p.installed.None? && "installed_version" !in p.strict
        && (p.search.None? || p.search.value == "" || SearchIsSettled(contains, p.search.value, p.strict)))
  }

  ghost predicate SearchIsSettled(contains: (string, string) -> bool, search: string, strict: map<string, string>) {
    || (exists key <- strict.Keys :: contains(search, strict[key]))
    || (forall text :: contains(search, text))
  }

  lemma UpdateKeepsKept(s: Setting, p: Params, e: Entry)
    requires IgnoresLocalValues(s.contains, p)
    ensures Keeps(s, p, Updated(s.loose, s.wazo, s.local, e)) == Keeps(s, p, e)
  {
    var u, filters := Updated(s.loose, s.wazo, s.local, e), Filters(p);
    if "versions" in p.strict {
      assert "versions" in filters && !Accepts(e.Get("versions"), filters["versions"])
          && !Accepts(u.Get("versions"), filters["versions"]);
    } else {
      assert forall key <- filters :: u.Get(key) == e.Get(key);
      assert StrictMatch(u, filters) == StrictMatch(e, filters);
      if p.search.Some? && p.search.value != "" && StrictMatch(e, filters) {
        if key :| key in p.strict.Keys && s.contains(p.search.value, p.strict[key]) {
          assert key in filters && Accepts(e.Get(key), filters[key]);
          assert key in e.extra ==> e.extra == u.extra;
        } else {
          assert s.contains(p.search.value, e.namespace);
        }
      }
    }
  }

  lemma {:induction false} CountIgnoresUpdate(s: Setting, p: Params, content: seq<Entry>)
    requires IgnoresLocalValues(s.contains, p)
    ensures |Kept(s, p, content)| == |Kept(s, p, UpdateAll(s.loose, s.wazo, s.local, content))|
  {
    if content != [] {
      var e, rest := content[0], content[1..];
      var updated := UpdateAll(s.loose, s.wazo, s.local, rest);
      CountIgnoresUpdate(s, p, rest);
      UpdateKeepsKept(s, p, e);
      KeptOne(s, p, e, rest);
      KeptOne(s, p, Updated(s.loose, s.wazo, s.local, e), updated);
      assert content == [e] + rest;
      assert UpdateAll(s.loose, s.wazo, s.local, content) == [Updated(s.loose, s.wazo, s.local, e)] + updated;
    }
  }

  /** An entry that meets the equalities of a query, installed state apart. */
  function Fitting(strict: map<string, string>, other: string, installed: Option<Value>, 
                   more: map<string, Value>): Entry
  {
    Entry(if "namespace" in strict then strict["namespace"] else other,
          if "name" in strict then strict["name"] else other,
          installed, [],
          (map key | key in strict :: Plain(Text(strict[key]))) - {"namespace", "name", "installed_version", "versions"}
          + more)
  }

  lemma FittingFits(strict: map<string, string>, other: string, installed: Option<Value>, more: map<string, Value>,
                    key: string)
    requires key in strict && key !in {"installed_version", "versions"} && key !in more
    ensures Fitting(strict, other, installed, more).Get(key) == Some(Plain(Text(strict[key])))
  {
  }

  lemma {:induction false} FreshKey(keys: set<string>) returns (key: string)
    ensures forall k <- keys :: |k| < |key|
    decreases |keys|
  {
    if keys == {} {
      key := "";
    } else {
      var k :| k in keys;
      var above := FreshKey(keys - {k});
      key := above + k + "+";
      forall j <- keys ensures |j| < |key| { assert j == k || j in keys - {k}; }
    }
  }

  /** A query that filters on the installed state, and asks nothing impossible, counts one entry more or less
      once that entry's plugin is known to be installed. */
  lemma InstalledFilterSeesUpdate(loose: LooseOrder, wazo: string, contains: (string, string) -> bool, p: Params)
    returns (e: Entry, local: Local)
    requires "versions" !in p.strict && (p.installed.Some? || "installed_version" in p.strict)
    ensures var s := Setting(loose, wazo, contains, local);
            Keeps(s, p, e) != Keeps(s, p, Updated(loose, wazo, local, e))
  {
    var search := if p.search.Some? then p.search.value else "";
    var unused := FreshKey(p.strict.Keys + {"namespace", "name", "installed_version", "versions"});
    e := Fitting(p.strict, "", None, map[unused := Strs([search])]);
    var version := if "installed_version" in p.strict then p.strict["installed_version"] else "1";
    local := map[e.Id() := Text(version)];
    var s, filters := Setting(loose, wazo, contains, local), Filters(p);
    var u := Updated(loose, wazo, local, e);
    assert e.extra[unused] == Strs([search]) && u.extra == e.extra;
    assert Searched(s, p, e) && Searched(s, p, u) by {
      assert search != "" ==> ValueHit(contains, search, e.extra[unused]);
    }
    forall key <- filters | key != "installed_version"
        ensures Accepts(e.Get(key), filters[key]) && Accepts(u.Get(key), filters[key]) {
      FittingFits(p.strict, "", None, map[unused := Strs([search])], key);
    }
    assert "installed_version" in filters;
    assert Accepts(e.Get("installed_version"), filters["installed_version"])
        != Accepts(u.Get("installed_version"), filters["installed_version"]);
    assert StrictMatch(e, filters) == Accepts(e.Get("installed_version"), filters["installed_version"]);
    assert StrictMatch(u, filters) == Accepts(u.Get("installed_version"), filters["installed_version"]);
  }

  /** A search that is not settled by the filters can be met by the installed version alone. */
  lemma SearchSeesUpdate(loose: LooseOrder, wazo: string, contains: (string, string) -> bool, p: Params)
    returns (e: Entry, local: Local)
    requires "versions" !in p.strict && p.installed.None? && "installed_version" !in p.strict
    requires p.search.Some? && p.search.value != "" && !SearchIsSettled(contains, p.search.value, p.strict)
    ensures var s := Setting(loose, wazo, contains, local);
            Keeps(s, p, e) != Keeps(s, p, Updated(loose, wazo, local, e))
  {
    var search, filters := p.search.value, Filters(p);
    var other :| !contains(search, other);
    local := map[];
    e := Fitting(p.strict, other, Some(Strs([search])), map[]);
    var u := Updated(loose, wazo, local, e);
    forall key <- filters ensures Accepts(e.Get(key), filters[key]) && u.Get(key) == e.Get(key) {
      FittingFits(p.strict, other, Some(Strs([search])), map[], key);
    }
    assert ValueHit(contains, search, e.installedVersion.value);
    assert !SearchHit(contains, search, u) by {
      forall key <- p.strict ensures !contains(search, p.strict[key]) { assert key in p.strict.Keys; }
    }
  }

  /** A count before the list is the count after it, whatever the market and whatever is installed, exactly for
      the queries that cannot see what the updater writes. */
  lemma CountNeedsTheUpdateExactly(loose: LooseOrder, wazo: string, contains: (string, string) -> bool, p: Params)
    ensures IgnoresLocalValues(contains, p) <==>
            forall local, content ::
              var s := Setting(loose, wazo, contains, local);
              |Kept(s, p, content)| == |Kept(s, p, UpdateAll(loose, wazo, local, content))|
  {
    if IgnoresLocalValues(contains, p) {
      forall local, content
        ensures var s := Setting(loose, wazo, contains, local);
                |Kept(s, p, content)| == |Kept(s, p, UpdateAll(loose, wazo, local, content))|
      {
        CountIgnoresUpdate(Setting(loose, wazo, contains, local), p, content);
      }
    } else {
      var e, local;
      if p.installed.Some? || "installed_version" in p.strict {
        e, local := InstalledFilterSeesUpdate(loose, wazo, contains, p);
      } else {
        e, local := SearchSeesUpdate(loose, wazo, contains, p);
      }
      var s, u := Setting(loose, wazo, contains, local), Updated(loose, wazo, local, e);
      KeptOne(s, p, e, []);
      KeptOne(s, p, u, []);
      assert [e] + [] == [e] && [u] + [] == [u];
      assert UpdateAll(loose, wazo, local, [e]) == [u];
      assert |Kept(s, p, [e])| != |Kept(s, p, UpdateAll(loose, wazo, local, [e]))|;
    }
  }
}
