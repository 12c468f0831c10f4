/** The market as objects: one cached copy of the content per request, updated in place. */
module MarketDb {
  import opened Wrappers
  import opened Versions
  import opened PackageNames
  import opened Catalog
  import opened MarketQuery
  import opened MarketSort

  /** What the market answers to the requests of one proxy, in turn; `None` is an HTTP error. */
  type Answers = nat -> Option<seq<Entry>>

  /** `db.MarketProxy`. */
  class MarketProxy {
    const answers: Answers
    var fetched: nat
    var content: seq<Entry>

    constructor (answers: Answers)
      ensures this.answers == answers && fetched == 0 && content == []
    {
      this.answers := answers;
      fetched, content := 0, [];
    }

    /** What a query sees now: the cached content if there is some, the market's next answer otherwise. */
    function Visible(): Option<seq<Entry>>
      reads this
    {
      if content != [] then Some(content) else answers(fetched)
    }

    /** `get_content`: an empty cache, or an empty answer, is fetched again. */
    method GetContent() returns (r: Option<seq<Entry>>)
      modifies this
      ensures r == old(Visible())
      ensures content == (if r.Some? then r.value else [])
      ensures fetched == old(fetched) + if old(content) == [] then 1 else 0
    {
      if content == [] {
        var answer := answers(fetched);
        fetched := fetched + 1;
        if answer.None? { return None; }
        content := answer.value;
      }
      return Some(content);
    }
  }

  datatype ListError = MarketUnavailable | NotOrderable | BadArgument

  datatype Response = Response(items: seq<Entry>, total: nat, filtered: nat)

  /** `db.MarketDB`, with its updater. */
  class MarketDB {
    const proxy: MarketProxy
    const s: Setting

    constructor (proxy: MarketProxy, s: Setting)
      ensures this.proxy == proxy && this.s == s
    {
      this.proxy := proxy;
      this.s := s;
    }

    function Update(entries: seq<Entry>): seq<Entry> { UpdateAll(s.loose, s.wazo, s.local, entries) }

    /** `_add_upgradable_field`: the loop over the versions of one entry. */
    method MarkVersions(e: Entry, installed: Option<Scalar>) returns (r: Entry)
      ensures r == e.(versions := MarkAll(s.loose, s.wazo, installed, e.versions))
    {
      var versions := e.versions;
      var i := 0;
      while i < |versions|
        invariant 0 <= i <= |versions| == |e.versions|
        invariant forall j | 0 <= j < i :: versions[j] == Marked(s.loose, s.wazo, installed, e.versions[j])
        invariant forall j | i <= j < |versions| :: versions[j] == e.versions[j]
      {
        var v := versions[i];
        var upgradable := true;
        if LessThan(s.loose, Some(Text(s.wazo)), OrElse(v.minWazo, s.wazo)) {
          upgradable := false;
        } else if LessThan(s.loose, OrElse(v.maxWazo, s.wazo), Some(Text(s.wazo))) {
          upgradable := false;
        } else if installed.Some? {
          if !LessThan(s.loose, installed, v.version) { upgradable := false; }
        }
        versions := versions[i := v.(upgradable := Some(upgradable))];
        i := i + 1;
      }
      r := e.(versions := versions);
    }

    /** `_add_local_values`: the cached entries are rewritten one by one. */
    method AddLocalValues()
      modifies proxy`content
      ensures proxy.content == Update(old(proxy.content))
    {
      var i := 0;
      ghost var before := proxy.content;
      while i < |proxy.content|
        invariant 0 <= i <= |proxy.content| == |before|
        invariant forall j | 0 <= j < i :: proxy.content[j] == Updated(s.loose, s.wazo, s.local, before[j])
        invariant forall j | i <= j < |before| :: proxy.content[j] == before[j]
      {
        var e := proxy.content[i];
        var installed := Lookup(s.local, e.Id());
        e := e.(installedVersion := Some(if installed.Some? then Plain(installed.value) else Null));
        e := MarkVersions(e, installed);
        proxy.content := proxy.content[i := e];
        i := i + 1;
      }
    }

    /** `get`: the first entry of that name, updated. */
    method Get(id: PluginId) returns (r: Option<Entry>)
      modifies proxy
      ensures old(proxy.Visible()).None? ==> r == None
      ensures old(proxy.Visible()).Some? ==> r == FirstNamed(Update(old(proxy.Visible()).value), id)
    {
      var content := proxy.GetContent();
      if content.None? { return None; }
      AddLocalValues();
      r := FirstNamed(proxy.content, id);
    }

    /** `list_`. Afterwards the cache holds the updated content. */
    method ListEntries(p: Params) returns (r: Result<seq<Entry>, ListError>)
      modifies proxy
      ensures proxy.fetched == old(proxy.fetched) + if old(proxy.content) == [] then 1 else 0
      ensures old(proxy.Visible()).None? ==> r == Failure(MarketUnavailable) && proxy.content == []
      ensures old(proxy.Visible()).Some? ==>
                var content := old(proxy.Visible()).value;
                && proxy.content == Update(content)
                && r == (match List(s, p, content) case None => Failure(NotOrderable) case Some(page) => Success(page))
    {
      var content := proxy.GetContent();
      if content.None? { return Failure(MarketUnavailable); }
      AddLocalValues();
      var sorted := Sort(Kept(s, p, proxy.content), p.order, p.direction);
      if sorted.None? { return Failure(NotOrderable); }
      return Success(Page(sorted.value, p.limit, p.offset));
    }

    /** `count`: it does not update anything. `None` stands for the length of an answer that is an error. */
    method Count(p: Params, filtered: bool) returns (r: Option<nat>)
      modifies proxy
      ensures r.Some? <==> old(proxy.Visible()).Some?
      ensures r.Some? ==>
                var content := old(proxy.Visible()).value;
                proxy.content == content && r.value == if filtered then |Kept(s, p, content)| else |content|
      ensures proxy.fetched == old(proxy.fetched) + if old(proxy.content) == [] then 1 else 0
    {
      var content := proxy.GetContent();
      if content.None? { return None; }
      return Some(if filtered then |Kept(s, p, content.value)| else |content.value|);
    }
  }

  /** Query arguments that collide with the parameters of the functions they are passed to. */
  const RESERVED := {"self", "market_proxy", "content", "filtered"}

  /** `http.Market.get` as a function of the market's answers: only an empty answer is followed by another. */
  function MarketResponse(answers: Answers, s: Setting, p: Params): Result<Response, ListError> {
    if p.strict.Keys * RESERVED != {} then Failure(BadArgument)
    else
      match answers(0)
      case None => Failure(MarketUnavailable)
      case Some(first) =>
        match List(s, p, first)
        case None => Failure(NotOrderable)
        case Some(items) =>
          if first != [] then
            Success(Response(items, |first|, |Kept(s, p, UpdateAll(s.loose, s.wazo, s.local, first))|))
          else
            match answers(1)
            case None => Failure(MarketUnavailable)
            case Some(second) =>
              match if second == [] then answers(2) else Some(second)
              case None => Failure(MarketUnavailable)
              case Some(third) => Success(Response(items, |second|, |Kept(s, p, third)|))
  }

  /** `http.Market.get`: one proxy serves the list and both counts. */
  method GetMarket(answers: Answers, s: Setting, p: Params) returns (r: Result<Response, ListError>)
    ensures r == MarketResponse(answers, s, p)
  {
    if p.strict.Keys * RESERVED != {} { return Failure(BadArgument); }
    var proxy := new MarketProxy(answers);
    var db := new MarketDB(proxy, s);
    var items := db.ListEntries(p);
    if items.Failure? { return Failure(items.error); }
    var total := db.Count(p, false);
    if total.None? { return Failure(MarketUnavailable); }
    var filtered := db.Count(p, true);
    if filtered.None? { return Failure(MarketUnavailable); }
    return Success(Response(items.value, total.value, filtered.value));
  }

  /** A query argument fails for its name exactly when a function on its way has a parameter of that name. */
  lemma BadArgumentsExactly(answers: Answers, s: Setting, p: Params)
    ensures MarketResponse(answers, s, p) == Failure(BadArgument) <==>
            "self" in p.strict || "market_proxy" in p.strict || "content" in p.strict || "filtered" in p.strict
  {
    var common := p.strict.Keys * RESERVED;
    if common != {} {
      var key :| key in common;
      assert key in p.strict && key in RESERVED;
    }
    assert forall key <- RESERVED | key in p.strict :: key in common;
    assert "self" in RESERVED && "market_proxy" in RESERVED && "content" in RESERVED && "filtered" in RESERVED;
  }

  /** When the first answer is not empty the three numbers agree: the items are a page of the whole list, `filtered`
      is its length, and both are within `total`. */
  lemma ResponseAgrees(answers: Answers, s: Setting, p: Params)
    requires answers(0).Some? && answers(0).value != [] && MarketResponse(answers, s, p).Success?
    ensures var response := MarketResponse(answers, s, p).value;
            var whole := List(s, p.(limit := None, offset := 0), answers(0).value);
            && whole.Some? && response.items == Page(whole.value, p.limit, p.offset)
            && response.filtered == |whole.value| && response.total == |answers(0).value|
            && |response.items| <= response.filtered <= response.total
  {
    CountsAgree(s, p, answers(0).value);
    assert Filters(p.(limit := None, offset := 0)) == Filters(p);
  }

  /** In general the counts are in order exactly when one of the first two answers is not empty, or the third has
      nothing for the query either. */
  lemma ResponseAgreesExactly(answers: Answers, s: Setting, p: Params)
    requires MarketResponse(answers, s, p).Success?
    ensures var response := MarketResponse(answers, s, p).value;
            |response.items| <= response.filtered <= response.total <==>
            || answers(0) != Some([]) || answers(1) != Some([])
            || (answers(2).Some? && Kept(s, p, answers(2).value) == [])
  {
    var first := answers(0).value;
    if first != [] {
      ResponseAgrees(answers, s, p);
    } else {
      CountsAgree(s, p, []);
      assert answers(0) == Some([]);
      if answers(1).Some? { KeptShrinks(s, p, answers(1).value); }
    }
  }

  lemma KeptShrinks(s: Setting, p: Params, content: seq<Entry>)
    ensures |Kept(s, p, content)| <= |content|
  {
    FilterShrinks(content, Filters(p));
    SearchShrinks(s.contains, p.search, StrictFilter(content, Filters(p)));
  }

  /** `PluginService.get_from_market` on a fresh proxy: the entry `MarketDB.get` would return. */
  method GetFromMarket(answers: Answers, s: Setting, id: PluginId) returns (r: Option<Entry>)
    ensures answers(0).None? ==> r == None
    ensures answers(0).Some? ==> r == FirstNamed(UpdateAll(s.loose, s.wazo, s.local, answers(0).value), id)
  {
    var proxy := new MarketProxy(answers);
    var db := new MarketDB(proxy, s);
    var p := Params(None, None, 0, None, None, None, map["namespace" := id.namespace, "name" := id.name]);
    var results := db.ListEntries(p);
    if results.Failure? {
      if answers(0).Some? { BothLookupsAgree(s, id, answers(0).value); }
      return None;
    }
    BothLookupsAgree(s, id, answers(0).value);
    if results.value == [] { return None; }
    return Some(results.value[0]);
  }
}
