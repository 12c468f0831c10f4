/** Sorting and paging are what the market's clients rely on: a stable order, whole pages. */
module MarketSort {
  import opened Wrappers
  import opened Text
  import opened Versions
  import opened PackageNames
  import opened Catalog
  import opened MarketQuery

  /* ---- The order on keys ---- */

  lemma {:induction false} StrLessTotal(a: string, b: string, c: string)
    ensures !StrLess(a, a)
    ensures StrLess(a, b) && StrLess(b, c) ==> StrLess(a, c)
    ensures !StrLess(a, b) && !StrLess(b, a) ==> a == b
  {
    if a != "" {
      var b', c' := if b == "" then "" else b[1..], if c == "" then "" else c[1..];
      StrLessTotal(a[1..], b', c');
      assert a == [a[0]] + a[1..];
      if b != "" { assert b == [b[0]] + b[1..]; }
    }
  }

  lemma {:induction false} LexTextTotal(a: seq<string>, b: seq<string>, c: seq<string>)
    ensures !LexText(a, a)
    ensures LexText(a, b) && LexText(b, c) ==> LexText(a, c)
    ensures !LexText(a, b) && !LexText(b, a) ==> a == b
  {
    if a != [] {
      var b', c' := if b == [] then [] else b[1..], if c == [] then [] else c[1..];
      LexTextTotal(a[1..], b', c');
      assert a == [a[0]] + a[1..];
      if b != [] {
        assert b == [b[0]] + b[1..];
        StrLessTotal(a[0], b[0], if c == [] then "" else c[0]);
        StrLessTotal(b[0], a[0], "");
      }
    }
  }

  /** Python's `==` on keys: numbers are equal by value, 1 and 1.0 for instance. */
  predicate SameKey(a: Option<Value>, b: Option<Value>) {
    || a == b
    || (a.Some? && b.Some? && IsNumber(a.value) && IsNumber(b.value) && a.value.scalar.value == b.value.scalar.value)
  }

  lemma SameKeyOrdersAlike(a: Option<Value>, b: Option<Value>, c: Option<Value>)
    requires SameKey(a, b)
    ensures SameKey(b, a) && (SameKey(a, c) <==> SameKey(b, c)) && (SameKey(c, a) <==> SameKey(c, b))
    ensures (KeyLess(a, c) <==> KeyLess(b, c)) && (KeyLess(c, a) <==> KeyLess(c, b))
    ensures (Comparable(a, c) <==> Comparable(b, c)) && (Comparable(c, a) <==> Comparable(c, b))
  {
  }

  /** `AlwaysLast` extends the orders on text, numbers and lists to a strict order in which equivalent keys are
      equal. */
  lemma KeyOrder(a: Option<Value>, b: Option<Value>, c: Option<Value>)
    ensures !KeyLess(a, a)
    ensures Comparable(a, b) && Comparable(b, c) && Comparable(a, c) && KeyLess(a, b) && KeyLess(b, c) ==> KeyLess(a, c)
    ensures Comparable(a, b) && !KeyLess(a, b) && !KeyLess(b, a) ==> SameKey(a, b)
    ensures !KeyLess(a, b) || !KeyLess(b, a)
  {
    if a.Some? && IsText(a.value) {
      StrLessTotal(a.value.scalar.text, "", "");
      if b.Some? && IsText(b.value) {
        StrLessTotal(a.value.scalar.text, b.value.scalar.text,
                     if c.Some? && IsText(c.value) then c.value.scalar.text else "");
        StrLessTotal(b.value.scalar.text, a.value.scalar.text, b.value.scalar.text);
        StrLessTotal(a.value.scalar.text, b.value.scalar.text, a.value.scalar.text);
      }
    } else if a.Some? && a.value.Strs? {
      LexTextTotal(a.value.items, [], []);
      if b.Some? && b.value.Strs? {
        LexTextTotal(a.value.items, b.value.items, if c.Some? && c.value.Strs? then c.value.items else []);
        LexTextTotal(a.value.items, b.value.items, a.value.items);
      }
    }
  }

  ghost predicate Ascending(entries: seq<Entry>, order: Option<string>) {
    forall i, j | 0 <= i < j < |entries| :: !KeyLess(KeyOf(entries[j], order), KeyOf(entries[i], order))
  }

  ghost predicate Descending(entries: seq<Entry>, order: Option<string>) {
    forall i, j | 0 <= i < j < |entries| :: !KeyLess(KeyOf(entries[i], order), KeyOf(entries[j], order))
  }

  ghost predicate MissingLast(entries: seq<Entry>, order: Option<string>) {
    forall i, j | 0 <= i < j < |entries| :: KeyOf(entries[i], order).None? ==> KeyOf(entries[j], order).None?
  }

  ghost predicate MissingFirst(entries: seq<Entry>, order: Option<string>) {
    forall i, j | 0 <= i < j < |entries| :: KeyOf(entries[j], order).None? ==> KeyOf(entries[i], order).None?
  }

  /** The entries with one key, in order: a permutation is stable when it keeps every such list. */
  function WithKey(entries: seq<Entry>, order: Option<string>, key: Option<Value>): seq<Entry> {
    if entries == [] then []
    else (if SameKey(KeyOf(entries[0], order), key) then [entries[0]] else []) + WithKey(entries[1..], order, key)
  }

  ghost predicate Stable(before: seq<Entry>, after: seq<Entry>, order: Option<string>) {
    forall key :: WithKey(after, order, key) == WithKey(before, order, key)
  }

  /* ---- Insertion ---- */

  lemma {:induction false} InsertMembers(e: Entry, sorted: seq<Entry>, order: Option<string>, x: Entry)
    ensures x in Insert(e, sorted, order) <==> x == e || x in sorted
  {
    if sorted != [] { InsertMembers(e, sorted[1..], order, x); }
  }

  lemma {:induction false} InsertKeepsOrder(e: Entry, sorted: seq<Entry>, order: Option<string>)
    requires Orderable([e] + sorted, order) && Ascending(sorted, order)
    ensures Orderable(Insert(e, sorted, order), order) && Ascending(Insert(e, sorted, order), order)
  {
    var all := [e] + sorted;
    if sorted != [] {
      var first, rest, k := sorted[0], sorted[1..], KeyOf(e, order);
      assert Comparable(KeyOf(all[0], order), KeyOf(all[1], order));
      if KeyLess(KeyOf(first, order), k) {
        forall i, j | 0 <= i < j < |[e] + rest|
            ensures Comparable(KeyOf(([e] + rest)[i], order), KeyOf(([e] + rest)[j], order)) {
          assert ([e] + rest)[i] == (if i == 0 then all[0] else all[i + 1]) && ([e] + rest)[j] == all[j + 1];
        }
        InsertKeepsOrder(e, rest, order);
        var tail := Insert(e, rest, order);
        forall y <- tail
          ensures Comparable(KeyOf(first, order), KeyOf(y, order)) && !KeyLess(KeyOf(y, order), KeyOf(first, order))
        {
          InsertMembers(e, rest, order, y);
          KeyOrder(KeyOf(first, order), k, KeyOf(first, order));
          if y != e {
            var j :| 0 <= j < |rest| && rest[j] == y;
            assert all[j + 2] == y && all[1] == first && sorted[j + 1] == y;
          }
        }
        HeadOrders(first, tail, order);
      } else {
        forall y <- sorted ensures Comparable(k, KeyOf(y, order)) && !KeyLess(KeyOf(y, order), k) {
          var j :| 0 <= j < |sorted| && sorted[j] == y;
          assert all[j + 1] == y;
          if j > 0 {
            assert all[1] == first;
            KeyOrder(KeyOf(first, order), KeyOf(y, order), k);
            KeyOrder(KeyOf(y, order), k, KeyOf(first, order));
            KeyOrder(KeyOf(y, order), KeyOf(first, order), k);
          }
        }
        assert Orderable(sorted, order) by {
          forall i, j | 0 <= i < j < |sorted| ensures Comparable(KeyOf(sorted[i], order), KeyOf(sorted[j], order)) {
            assert sorted[i] == all[i + 1] && sorted[j] == all[j + 1];
          }
        }
        HeadOrders(e, sorted, order);
      }
    }
  }

  lemma HeadOrders(first: Entry, tail: seq<Entry>, order: Option<string>)
    requires Orderable(tail, order) && Ascending(tail, order)
    requires forall y <- tail ::
               Comparable(KeyOf(first, order), KeyOf(y, order)) && !KeyLess(KeyOf(y, order), KeyOf(first, order))
    ensures Orderable([first] + tail, order) && Ascending([first] + tail, order)
  {
    var all := [first] + tail;
    forall i, j | 0 <= i < j < |all|
      ensures Comparable(KeyOf(all[i], order), KeyOf(all[j], order))
          && !KeyLess(KeyOf(all[j], order), KeyOf(all[i], order))
    {
      assert all[j] == tail[j - 1];
      if i > 0 { assert all[i] == tail[i - 1]; }
    }
  }

  lemma {:induction false} InsertIsStable(e: Entry, sorted: seq<Entry>, order: Option<string>, key: Option<Value>)
    ensures WithKey(Insert(e, sorted, order), order, key) == WithKey([e] + sorted, order, key)
  {
    assert ([e] + sorted)[1..] == sorted;
    if sorted != [] && KeyLess(KeyOf(sorted[0], order), KeyOf(e, order)) {
      InsertIsStable(e, sorted[1..], order, key);
      assert ([e] + sorted[1..])[1..] == sorted[1..];
      KeyOrder(KeyOf(e, order), None, None);
      assert Insert(e, sorted, order)[1..] == Insert(e, sorted[1..], order);
    }
  }

  /* ---- The sort ---- */

  lemma {:induction false} SortUpCorrect(entries: seq<Entry>, order: Option<string>)
    requires Orderable(entries, order)
    ensures var r := SortUp(entries, order);
            Orderable(r, order) && Ascending(r, order) && Stable(entries, r, order)
    ensures forall x :: x in SortUp(entries, order) <==> x in entries
  {
    if entries != [] {
      var e, rest := entries[0], entries[1..];
      assert Orderable(rest, order) by {
        forall i, j | 0 <= i < j < |rest| ensures Comparable(KeyOf(rest[i], order), KeyOf(rest[j], order)) {
          assert rest[i] == entries[i + 1] && rest[j] == entries[j + 1];
        }
      }
      SortUpCorrect(rest, order);
      var tail := SortUp(rest, order);
      var all := [e] + tail;
      forall i, j | 0 <= i < j < |all| ensures Comparable(KeyOf(all[i], order), KeyOf(all[j], order)) {
        assert all[j] == tail[j - 1];
        if i > 0 {
          assert all[i] == tail[i - 1];
        } else {
          assert tail[j - 1] in rest;
          var m :| 0 <= m < |rest| && rest[m] == tail[j - 1];
          assert entries[m + 1] == rest[m];
        }
      }
      InsertKeepsOrder(e, tail, order);
      forall key ensures WithKey(SortUp(entries, order), order, key) == WithKey(entries, order, key) {
        InsertIsStable(e, tail, order, key);
        assert all[1..] == tail;
      }
      forall x ensures x in SortUp(entries, order) <==> x in entries { InsertMembers(e, tail, order, x); }
    }
  }

  lemma {:induction false} WithKeySnoc(a: seq<Entry>, e: Entry, order: Option<string>, key: Option<Value>)
    ensures WithKey(a + [e], order, key)
            == if SameKey(KeyOf(e, order), key) then WithKey(a, order, key) + [e] else WithKey(a, order, key)
  {
    if a == [] {
      assert a + [e] == [e] && [e][1..] == [];
    } else {
      WithKeySnoc(a[1..], e, order, key);
      assert (a + [e])[1..] == a[1..] + [e];
    }
  }

  lemma {:induction false} WithKeyReverse(a: seq<Entry>, order: Option<string>, key: Option<Value>)
    ensures WithKey(Reverse(a), order, key) == Reverse(WithKey(a, order, key))
  {
    if a != [] {
      var e, rest := a[0], a[1..];
      WithKeyReverse(rest, order, key);
      assert Reverse(a) == Reverse(rest) + [e];
      WithKeySnoc(Reverse(rest), e, order, key);
      ReverseCons(e, WithKey(rest, order, key));
    }
  }

  lemma ReverseCons(e: Entry, rest: seq<Entry>)
    ensures Reverse([e] + rest) == Reverse(rest) + [e] && [] + rest == rest
  {
  }

  lemma WithKeyTail(a: seq<Entry>, order: Option<string>, key: Option<Value>)
    requires a != []
    ensures WithKey(a[1..], order, key)
            == if SameKey(KeyOf(a[0], order), key) then WithKey(a, order, key)[1..] else WithKey(a, order, key)
  {
    assert [] + WithKey(a[1..], order, key) == WithKey(a[1..], order, key);
  }

  lemma ReverseKeepsOrderable(entries: seq<Entry>, order: Option<string>)
    requires Orderable(entries, order)
    ensures Orderable(Reverse(entries), order)
  {
    var r, n := Reverse(entries), |entries|;
    forall i, j | 0 <= i < j < n ensures Comparable(KeyOf(r[i], order), KeyOf(r[j], order)) {
      assert Comparable(KeyOf(entries[n - 1 - j], order), KeyOf(entries[n - 1 - i], order));
    }
  }

  /** A sort succeeds exactly on orderable keys; it is a stable permutation, ascending or descending. Missing
      keys come last when ascending and first when descending, ties in market order both ways. */
  lemma SortIsStable(entries: seq<Entry>, order: Option<string>, direction: Option<string>)
    ensures var r := Sort(entries, order, direction);
            && (r.Some? <==> Orderable(entries, order))
            && (r.Some? ==> Stable(entries, r.value, order))
            && (r.Some? && direction != Some("desc") ==> Ascending(r.value, order) && MissingLast(r.value, order))
            && (r.Some? && direction == Some("desc") ==> Descending(r.value, order) && MissingFirst(r.value, order))
  {
    hide Orderable, SortUp, Stable, Ascending, Descending, MissingLast, MissingFirst;
    if Orderable(entries, order) {
      if direction == Some("desc") {
        SortDownCorrect(entries, order);
      } else {
        SortUpCorrect(entries, order);
        MissingGoLast(SortUp(entries, order), order);
      }
    }
  }

  lemma SortDownCorrect(entries: seq<Entry>, order: Option<string>)
    requires Orderable(entries, order)
    ensures var r := Reverse(SortUp(Reverse(entries), order));
            Stable(entries, r, order) && Descending(r, order) && MissingFirst(r, order)
  {
    hide KeyLess, Comparable, WithKey, SortUp;
    var back := Reverse(entries);
    ReverseKeepsOrderable(entries, order);
    SortUpCorrect(back, order);
    var up := SortUp(back, order);
    var r := Reverse(up);
    forall key ensures WithKey(r, order, key) == WithKey(entries, order, key) {
      WithKeyReverse(up, order, key);
      WithKeyReverse(entries, order, key);
      assert WithKey(up, order, key) == WithKey(back, order, key);
      var mine := WithKey(entries, order, key);
      assert Reverse(Reverse(mine)) == mine;
    }
    MissingGoLast(up, order);
    assert Descending(r, order) && MissingFirst(r, order) by {
      forall i, j | 0 <= i < j < |r| ensures r[i] == up[|up| - 1 - i] && r[j] == up[|up| - 1 - j] { }
    }
  }

  lemma MissingGoLast(sorted: seq<Entry>, order: Option<string>)
    requires Ascending(sorted, order)
    ensures MissingLast(sorted, order)
  {
  }

  /** There is only one such result, so any sorting algorithm with these properties returns it. */
  lemma {:induction false} StableOrderIsUnique(a: seq<Entry>, b: seq<Entry>, order: Option<string>)
    requires Orderable(a, order) && Orderable(b, order) && Ascending(a, order) && Ascending(b, order)
    requires Stable(a, b, order)
    ensures a == b
  {
    var first := if b == [] then None else KeyOf(b[0], order);
    assert WithKey(b, order, first) == WithKey(a, order, first);
    if a != [] {
      var k := KeyOf(a[0], order);
      assert WithKey(b, order, k) == WithKey(a, order, k) != [];
      KeyIsPresent(b, order, k);
      var m := KeyOf(b[0], order);
      assert WithKey(a, order, m) == WithKey(b, order, m) != [];
      KeyIsPresent(a, order, m);
      SmallestKeysMeet(a, b, order);
      SameKeyOrdersAlike(k, m, k);
      SameKeyOrdersAlike(k, m, m);
      SameWithKey(a, order, k, m);
      SameWithKey(b, order, k, m);
      assert WithKey(a, order, k)[0] == a[0] && WithKey(b, order, k)[0] == b[0];
      forall key ensures WithKey(b[1..], order, key) == WithKey(a[1..], order, key) {
        assert WithKey(b, order, key) == WithKey(a, order, key);
        WithKeyTail(a, order, key);
        WithKeyTail(b, order, key);
      }
      TailsKeepOrder(a, order);
      TailsKeepOrder(b, order);
      StableOrderIsUnique(a[1..], b[1..], order);
      assert a == [a[0]] + a[1..] && b == [b[0]] + b[1..];
    }
  }

  lemma {:induction false} SameWithKey(a: seq<Entry>, order: Option<string>, k: Option<Value>, m: Option<Value>)
    requires SameKey(k, m)
    ensures WithKey(a, order, k) == WithKey(a, order, m)
  {
    if a != [] {
      SameKeyOrdersAlike(k, m, KeyOf(a[0], order));
      SameWithKey(a[1..], order, k, m);
    }
  }

  /** The same for descending results. */
  lemma StableDescentIsUnique(a: seq<Entry>, b: seq<Entry>, order: Option<string>)
    requires Orderable(a, order) && Orderable(b, order) && Descending(a, order) && Descending(b, order)
    requires Stable(a, b, order)
    ensures a == b
  {
    var x, y := Reverse(a), Reverse(b);
    ReverseKeepsOrderable(a, order);
    ReverseKeepsOrderable(b, order);
    ReverseAscends(a, order);
    ReverseAscends(b, order);
    forall key ensures WithKey(y, order, key) == WithKey(x, order, key) {
      WithKeyReverse(a, order, key);
      WithKeyReverse(b, order, key);
      assert WithKey(b, order, key) == WithKey(a, order, key);
    }
    StableOrderIsUnique(x, y, order);
    assert a == Reverse(x) && b == Reverse(y);
  }

  lemma ReverseAscends(a: seq<Entry>, order: Option<string>)
    requires Descending(a, order)
    ensures Ascending(Reverse(a), order)
  {
    var r, n := Reverse(a), |a|;
    forall i, j | 0 <= i < j < n ensures !KeyLess(KeyOf(r[j], order), KeyOf(r[i], order)) {
      assert r[i] == a[n - 1 - i] && r[j] == a[n - 1 - j];
    }
  }

  lemma TailsKeepOrder(a: seq<Entry>, order: Option<string>)
    requires a != [] && Orderable(a, order) && Ascending(a, order)
    ensures Orderable(a[1..], order) && Ascending(a[1..], order)
  {
    var t := a[1..];
    forall i, j | 0 <= i < j < |t|
      ensures Comparable(KeyOf(t[i], order), KeyOf(t[j], order)) && !KeyLess(KeyOf(t[j], order), KeyOf(t[i], order))
    {
      assert t[i] == a[i + 1] && t[j] == a[j + 1];
    }
  }

  lemma {:induction false} KeyIsPresent(a: seq<Entry>, order: Option<string>, key: Option<Value>)
    requires WithKey(a, order, key) != []
    ensures exists i | 0 <= i < |a| :: SameKey(KeyOf(a[i], order), key)
  {
    if !SameKey(KeyOf(a[0], order), key) {
      KeyIsPresent(a[1..], order, key);
      var i :| 0 <= i < |a[1..]| && SameKey(KeyOf(a[1..][i], order), key);
      assert SameKey(KeyOf(a[i + 1], order), key);
    }
  }

  lemma SmallestKeysMeet(a: seq<Entry>, b: seq<Entry>, order: Option<string>)
    requires a != [] && b != [] && Orderable(a, order) && Ascending(a, order) && Ascending(b, order)
    requires exists i | 0 <= i < |b| :: SameKey(KeyOf(b[i], order), KeyOf(a[0], order))
    requires exists i | 0 <= i < |a| :: SameKey(KeyOf(a[i], order), KeyOf(b[0], order))
    ensures SameKey(KeyOf(a[0], order), KeyOf(b[0], order))
  {
    var x, y := KeyOf(a[0], order), KeyOf(b[0], order);
    var i :| 0 <= i < |b| && SameKey(KeyOf(b[i], order), x);
    var j :| 0 <= j < |a| && SameKey(KeyOf(a[j], order), y);
    SameKeyOrdersAlike(KeyOf(b[i], order), x, y);
    SameKeyOrdersAlike(KeyOf(a[j], order), y, x);
    if i > 0 && j > 0 {
      assert Comparable(y, KeyOf(b[i], order)) && Comparable(x, KeyOf(a[j], order));
      assert !KeyLess(KeyOf(b[i], order), y) && !KeyLess(KeyOf(a[j], order), x);
      KeyOrder(x, y, None);
    }
  }

  /* ---- Unordered queries ---- */

  /** Without an order every key is missing, and sorting changes nothing. */
  lemma {:induction false} UnorderedIsUnchanged(entries: seq<Entry>)
    ensures SortUp(entries, None) == entries
  {
    if entries != [] { UnorderedIsUnchanged(entries[1..]); }
  }

  /** `get_from_market` and `MarketDB.get` find the same entry. */
  lemma BothLookupsAgree(s: Setting, id: PluginId, content: seq<Entry>)
    ensures var listed := List(s, Params(None, None, 0, None, None, None,
                                         map["namespace" := id.namespace, "name" := id.name]), content);
            var found := FirstNamed(UpdateAll(s.loose, s.wazo, s.local, content), id);
            && listed.Some?
            && found == (if listed.value == [] then None else Some(listed.value[0]))
  {
    var p := Params(None, None, 0, None, None, None, map["namespace" := id.namespace, "name" := id.name]);
    assert Filters(p) == NameFilter(id);
    var kept := Kept(s, p, UpdateAll(s.loose, s.wazo, s.local, content));
    UnorderedIsUnchanged(kept);
  }

  /* ---- Pages ---- */

  /** The pages at offsets from, from + limit, ... up to the end. */
  function PagesFrom(entries: seq<Entry>, limit: nat, from: nat): seq<Entry>
    requires limit > 0
    decreases |entries| - from
  {
    if from >= |entries| then [] else Page(entries, Some(limit), from) + PagesFrom(entries, limit, from + limit)
  }

  /** Consecutive pages give the whole list: nothing is repeated, nothing is skipped, and past the end there is
      nothing. */
  lemma {:induction false} PagesCoverTheList(entries: seq<Entry>, limit: nat, from: nat)
    requires limit > 0
    ensures from <= |entries| ==> PagesFrom(entries, limit, from) == entries[from..]
    ensures from >= |entries| ==> Page(entries, Some(limit), from) == []
    ensures |Page(entries, Some(limit), from)| <= limit
    decreases |entries| - from
  {
    if from < |entries| {
      PagesCoverTheList(entries, limit, from + limit);
      var page, rest := Page(entries, Some(limit), from), PagesFrom(entries, limit, from + limit);
      if from + limit < |entries| {
        assert page == entries[from..from + limit];
        assert rest == entries[from + limit..];
        assert entries[from..] == page + rest;
      } else {
        assert page == entries[from..] && rest == [];
        assert page + rest == page;
      }
    }
  }

  /** Without a limit, which a limit of zero also means, the page is everything from the offset on. */
  lemma UnlimitedPages(entries: seq<Entry>, limit: Option<nat>, offset: nat)
    requires limit.None? || limit.value == 0
    ensures Page(entries, limit, offset) == if offset <= |entries| then entries[offset..] else []
  {
  }

  /* ---- What the keys mean ---- */

  /** Entry x does not come after y by the values under the key: texts alphabetically, numbers by value. */
  predicate InOrder(x: Entry, y: Entry, key: string) {
    var a, b := x.Get(key), y.Get(key);
    && (a.Some? && b.Some? && IsText(a.value) && IsText(b.value) ==> !StrLess(b.value.scalar.text, a.value.scalar.text))
    && (a.Some? && b.Some? && IsNumber(a.value) && IsNumber(b.value) ==> a.value.scalar.value <= b.value.scalar.value)
    && (a.Some? && b.Some? && a.value.Strs? && b.value.Strs? ==> !LexText(b.value.items, a.value.items))
  }

  /** Sorting by a key puts entries in the order of their values under it; backwards when descending, and only for
      the direction 'desc'. */
  lemma SortFollowsTheValues(entries: seq<Entry>, key: string, direction: Option<string>)
    ensures var r := Sort(entries, Some(key), direction);
            r.Some? ==>
              forall i, j | 0 <= i < j < |r.value| ::
                if direction == Some("desc") then InOrder(r.value[j], r.value[i], key)
                    else InOrder(r.value[i], r.value[j], key)
  {
    hide Sort;
    SortIsStable(entries, Some(key), direction);
  }
}
