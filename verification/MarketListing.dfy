/** What a market query lists and counts, in terms of the market's own entries and of what is installed. */
module MarketListing {
  import opened Wrappers
  import opened Versions
  import opened Catalog
  import opened MarketQuery
  import opened MarketSort

  /** The keys that every entry has, or gets from the updater. */
  const NAMED_KEYS := {"namespace", "name", "installed_version", "versions"}

  /** The version's object has this key. */
  predicate HasField(v: VersionInfo, key: string) {
    || (key == "version" && v.version.Some?) || (key == "upgradable" && v.upgradable.Some?)
    || (key == "min_wazo_version" && v.minWazo.Some?) || (key == "max_wazo_version" && v.maxWazo.Some?)
    || (key == "method" && v.via.Some?) || (key == "options" && v.options.Some?)
  }

  ghost predicate HasText(contains: (string, string) -> bool, search: string, e: Entry) {
    exists key, text :: e.Get(key) == Some(Plain(Text(text))) && contains(search, text)
  }

  ghost predicate HasItem(contains: (string, string) -> bool, search: string, e: Entry) {
    exists key, items, item ::
      e.Get(key) == Some(Strs(items)) && item in items && (item == search || contains(search, item))
  }

  lemma FieldsAreKeys(v: VersionInfo, key: string)
    ensures key in KeysOf(v) <==> HasField(v, key)
  {
  }

  /** A value that is hit is a text or a list with one. */
  lemma HitIsTextOrItem(contains: (string, string) -> bool, search: string, e: Entry, key: string)
    requires e.Get(key).Some? && ValueHit(contains, search, e.Get(key).value)
    ensures HasText(contains, search, e) || HasItem(contains, search, e)
  {
    match e.Get(key).value
    case Plain(Text(text)) => assert e.Get(key) == Some(Plain(Text(text)));
    case Strs(items) =>
      assert e.Get(key) == Some(Strs(items));
      if search !in items { var item :| item in items && contains(search, item); }
    case _ =>
  }

  /** The values under the keys are those that a search goes through. */
  lemma ValuesAreSearched(contains: (string, string) -> bool, search: string, e: Entry, key: string)
    requires e.extra.Keys !! NAMED_KEYS && e.Get(key).Some? && ValueHit(contains, search, e.Get(key).value)
    ensures SearchHit(contains, search, e)
  {
    if key !in NAMED_KEYS { assert key in e.extra && e.Get(key) == Some(e.extra[key]); }
  }

  /** A search finds an entry by the text of any of its values, by a text in any list of texts, or by the name of a
      field of one of its versions, and by nothing else. */
  lemma SearchFindsExactly(contains: (string, string) -> bool, search: string, e: Entry)
    requires e.extra.Keys !! NAMED_KEYS
    ensures SearchHit(contains, search, e) <==>
            || HasText(contains, search, e) || HasItem(contains, search, e)
            || exists v <- e.versions :: HasField(v, search)
  {
    forall v <- e.versions ensures search in KeysOf(v) <==> HasField(v, search) { FieldsAreKeys(v, search); }
    if SearchHit(contains, search, e) {
      HitIsFound(contains, search, e);
    }
    if HasText(contains, search, e) {
      var key, text :| e.Get(key) == Some(Plain(Text(text))) && contains(search, text);
      ValuesAreSearched(contains, search, e, key);
    }
    if HasItem(contains, search, e) {
      var key, items, item :| e.Get(key) == Some(Strs(items)) && item in items
          && (item == search || contains(search, item));
      ValuesAreSearched(contains, search, e, key);
    }
  }

  lemma HitIsFound(contains: (string, string) -> bool, search: string, e: Entry)
    requires e.extra.Keys !! NAMED_KEYS && SearchHit(contains, search, e)
    ensures HasText(contains, search, e) || HasItem(contains, search, e) || exists v <- e.versions ::
        search in KeysOf(v)
  {
    hide HasText, HasItem, KeysOf;
    if contains(search, e.namespace) {
      HitIsTextOrItem(contains, search, e, "namespace");
    } else if contains(search, e.name) {
      HitIsTextOrItem(contains, search, e, "name");
    } else if e.installedVersion.Some? && ValueHit(contains, search, e.installedVersion.value) {
      HitIsTextOrItem(contains, search, e, "installed_version");
    } else if key :| key in e.extra.Keys && ValueHit(contains, search, e.extra[key]) {
      assert e.Get(key) == Some(e.extra[key]);
      HitIsTextOrItem(contains, search, e, key);
    }
  }

  /** What a query asks of a market entry: the installed state, the exact values, the search. */
  predicate Wants(s: Setting, p: Params, raw: Entry) {
    var e := Updated(s.loose, s.wazo, s.local, raw);
    && (p.installed.Some? && "installed_version" !in p.strict ==> (raw.Id() in s.local) == p.installed.value)
    && (forall key <- p.strict.Keys :: e.Get(key) == Some(Plain(Text(p.strict[key]))))
    && Searched(s, p, e)
  }

  lemma KeepsExactly(s: Setting, p: Params, raw: Entry)
    ensures Keeps(s, p, Updated(s.loose, s.wazo, s.local, raw)) <==> Wants(s, p, raw)
  {
    hide Searched;
    var e, filters := Updated(s.loose, s.wazo, s.local, raw), Filters(p);
    assert forall key <- p.strict.Keys :: key in filters && filters[key] == Equals(p.strict[key]);
    if p.installed.Some? && "installed_version" !in p.strict {
      assert "installed_version" in filters && filters["installed_version"] == Installed(p.installed.value);
      assert Accepts(e.Get("installed_version"), filters["installed_version"]) <==>
          (raw.Id() in s.local) == p.installed.value;
    }
    assert forall key <- filters | key !in p.strict :: key == "installed_version" && p.installed.Some?;
  }

  function CountWanted(s: Setting, p: Params, content: seq<Entry>): nat {
    if content == [] then 0 else (if Wants(s, p, content[0]) then 1 else 0) + CountWanted(s, p, content[1..])
  }

  ghost predicate IsListed(s: Setting, p: Params, content: seq<Entry>, e: Entry) {
    exists raw <- content :: Wants(s, p, raw) && e == Updated(s.loose, s.wazo, s.local, raw)
  }

  lemma {:induction false} KeptAreWanted(s: Setting, p: Params, content: seq<Entry>)
    ensures var kept := Kept(s, p, UpdateAll(s.loose, s.wazo, s.local, content));
            |kept| == CountWanted(s, p, content) && forall e :: e in kept <==> IsListed(s, p, content, e)
  {
    KeptOne(s, p, Entry("", "", None, [], map[]), []);
    if content != [] {
      var raw, rest := content[0], content[1..];
      var e, updated := Updated(s.loose, s.wazo, s.local, raw), UpdateAll(s.loose, s.wazo, s.local, rest);
      KeptAreWanted(s, p, rest);
      KeepsExactly(s, p, raw);
      KeptOne(s, p, e, updated);
      assert UpdateAll(s.loose, s.wazo, s.local, content) == [e] + updated;
      ListedSplits(s, p, raw, rest);
      assert content == [raw] + rest;
    }
  }

  lemma ListedSplits(s: Setting, p: Params, raw: Entry, rest: seq<Entry>)
    ensures forall e :: IsListed(s, p, [raw] + rest, e) <==>
              (Wants(s, p, raw) && e == Updated(s.loose, s.wazo, s.local, raw)) || IsListed(s, p, rest, e)
  {
    hide Wants;
    forall e ensures IsListed(s, p, [raw] + rest, e) <==>
        (Wants(s, p, raw) && e == Updated(s.loose, s.wazo, s.local, raw)) || IsListed(s, p, rest, e)
    {
      if Wants(s, p, raw) && e == Updated(s.loose, s.wazo, s.local, raw) { assert raw in [raw] + rest; }
      if IsListed(s, p, rest, e) {
        var x :| x in rest && Wants(s, p, x) && e == Updated(s.loose, s.wazo, s.local, x);
        assert x in [raw] + rest;
      }
    }
  }

  /** An unlimited list holds exactly the market's entries that the query wants, with local values, as many times
      as the market does, which is what the filtered count says. */
  lemma ListIsExactly(s: Setting, p: Params, content: seq<Entry>)
    requires p.limit.None? && p.offset == 0 && List(s, p, content).Some?
    ensures var whole := List(s, p, content).value;
            && (forall e :: e in whole <==> IsListed(s, p, content, e))
            && |whole| == CountWanted(s, p, content) == |Kept(s, p, UpdateAll(s.loose, s.wazo, s.local, content))|
  {
    hide IsListed;
    KeptAreWanted(s, p, content);
    var kept := Kept(s, p, UpdateAll(s.loose, s.wazo, s.local, content));
    CountsAgree(s, p, content);
    assert p == p.(limit := None, offset := 0);
    SortKeepsMembers(kept, p.order, p.direction);
    var whole := List(s, p, content).value;
    assert whole == Sort(kept, p.order, p.direction).value;
  }

  lemma SortKeepsMembers(entries: seq<Entry>, order: Option<string>, direction: Option<string>)
    ensures var r := Sort(entries, order, direction); r.Some? ==> forall e :: e in r.value <==> e in entries
  {
    if Orderable(entries, order) {
      var back := Reverse(entries);
      ReverseKeepsMembers(entries);
      if direction == Some("desc") {
        ReverseKeepsOrderable(entries, order);
        SortUpCorrect(back, order);
        ReverseKeepsMembers(SortUp(back, order));
      } else {
        SortUpCorrect(entries, order);
      }
    }
  }

  lemma ReverseKeepsMembers(entries: seq<Entry>)
    ensures forall e :: e in Reverse(entries) <==> e in entries
  {
    var r, n := Reverse(entries), |entries|;
    forall e ensures e in r <==> e in entries {
      if e in entries {
        var i :| 0 <= i < n && entries[i] == e;
        assert r[n - 1 - i] == e;
      }
    }
  }

  /** `installed=true` lists only plugins that are installed, and all of those; `installed=false` the others. */
  lemma InstalledFilterIsExact(s: Setting, p: Params, flag: bool, content: seq<Entry>)
    requires p == Params(None, None, 0, p.order, p.direction, Some(flag), map[]) && List(s, p, content).Some?
    ensures var whole := List(s, p, content).value;
            && (forall e <- whole :: (e.Id() in s.local) == flag)
            && (forall raw <- content | (raw.Id() in s.local) == flag ::
                Updated(s.loose, s.wazo, s.local, raw) in whole)
  {
    ListIsExactly(s, p, content);
    var whole := List(s, p, content).value;
    forall e <- whole ensures (e.Id() in s.local) == flag {
      assert IsListed(s, p, content, e);
    }
    forall raw <- content | (raw.Id() in s.local) == flag ensures Updated(s.loose, s.wazo, s.local, raw) in whole {
      assert Wants(s, p, raw) && IsListed(s, p, content, Updated(s.loose, s.wazo, s.local, raw));
    }
  }
}
