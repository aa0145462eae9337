/**
  The daily update of `main()`: one search batch per ticker of the table, merged into
  the stored articles of that ticker and cut to the retention window, then the
  co-mention counts and the statistics of the whole store.
*/
module Collector {
  import opened Wrappers
  import opened Text
  import opened Seqs
  import opened Dicts
  import opened Calendar
  import opened Html
  import opened Sources
  import opened Mentions
  import opened Retention
  import opened Articles
  import opened CoMentions

  /** One item of a news-search response; a missing field is the empty string. */
  datatype RawItem = RawItem(title: string, description: string, originallink: string, link: string, pubDate: string)

  /**
    `search_naver_news(q, display=20)["items"]`, left abstract: the items the search
    service answers for a query, `[]` when the request fails or the answer has no items.
  */
  type Search = string -> seq<RawItem>

  /** A ticker's batch holds at most 10 new articles. */
  const BatchLimit: nat := 10

  /** A stored description keeps at most 200 characters. */
  const DescLimit: nat := 200

  /** `item.get("originallink") or item.get("link", "")`. */
  function ItemUrl(item: RawItem): (url: string)
    ensures url == "" <==> item.originallink == "" && item.link == ""
    ensures item.originallink != "" ==> url == item.originallink
    ensures url == item.originallink || url == item.link
  {
    if item.originallink != "" then item.originallink else item.link
  }

  /**
    The record built for an accepted item: cleaned title, cleaned description cut to
    200 characters, the item's URL, the parsed date, and the tickers the cleaned title
    and the whole cleaned description mention.
  */
  function MakeArticle(table: seq<TickerQuery>, item: RawItem, rfc: RfcParser): (a: Article)
    ensures a.url == ItemUrl(item) && a.date == ParseDate(item.pubDate, rfc)
    ensures |a.desc| <= DescLimit && a.mentions <= TickerSet(table)
  {
    var title := CleanHtml(item.title);
    var desc := CleanHtml(item.description);
    MentionsAreTickers(table, title, desc);
    Article(title, Take(desc, DescLimit), ItemUrl(item), ParseDate(item.pubDate, rfc), MentionsOf(table, title, desc))
  }

  /**
    The articles the scan keeps from `items` with the URLs in `seen` already taken,
    before the limit: an item is kept when its URL is not yet taken and comes from an
    allowed source, and its URL is then taken.
  */
  function Accepted(table: seq<TickerQuery>, items: seq<RawItem>, seen: set<string>, rfc: RfcParser): seq<Article>
    decreases |items|
  {
    if items == [] then []
    else
      var url := ItemUrl(items[0]);
      if url in seen || !IsAllowedSource(url) then Accepted(table, items[1..], seen, rfc)
      else [MakeArticle(table, items[0], rfc)] + Accepted(table, items[1..], seen + {url}, rfc)
  }

  /** The two queries of a ticker: its table query, then `f"{ticker} 주가"` (its share price). */
  function Queries(entry: TickerQuery): (qs: seq<string>)
    ensures |qs| == 2 && qs[0] == entry.query
    ensures |qs[1]| == |entry.ticker| + 3 && qs[1][..|entry.ticker|] == entry.ticker && qs[1][|entry.ticker|..] == " 주가"
  {
    [entry.query, entry.ticker + " 주가"]
  }

  /** The items the searches for `queries` answer, one response after the other. */
  function Responses(search: Search, queries: seq<string>): seq<RawItem>
    decreases |queries|
  {
    if queries == [] then [] else search(queries[0]) + Responses(search, queries[1..])
  }

  /** `new_articles` of one ticker: the first 10 articles the scan keeps over both responses. */
  function BatchOf(table: seq<TickerQuery>, entry: TickerQuery, search: Search, rfc: RfcParser): seq<Article> {
    Take(Accepted(table, Responses(search, Queries(entry)), {}, rfc), BatchLimit)
  }

  lemma TakeFull(batch: seq<Article>, rest: seq<Article>)
    requires |batch| == BatchLimit
    ensures Take(batch + rest, BatchLimit) == batch
  {
    assert (batch + rest)[..BatchLimit] == batch;
  }

  /** The record the scan appends for an accepted item. */
  method BuildArticle(table: seq<TickerQuery>, item: RawItem, rfc: RfcParser) returns (art: Article)
    ensures art == MakeArticle(table, item, rfc)
  {
    var title := CleanHtml(item.title);
    var desc := CleanHtml(item.description);
    var mentioned := ExtractMentionedTickers(table, title, desc);
    var pubDate := ParseDate(item.pubDate, rfc);
    art := Article(title, Take(desc, DescLimit), ItemUrl(item), pubDate, mentioned);
  }

  lemma DropAll<T>(items: seq<T>, later: seq<T>)
    ensures (items + later)[|items|..] == later
  {
  }

  /** Scanning on from `all[i..]` with `batch` and `seen` completes the scan `goal`. */
  ghost predicate Continues(table: seq<TickerQuery>, all: seq<RawItem>, i: nat, batch: seq<Article>,
                            seen: set<string>, rfc: RfcParser, goal: seq<Article>)
    requires i <= |all|
  {
    batch + Accepted(table, all[i..], seen, rfc) == goal
  }

  /** An item whose URL is taken or not allowed is passed over. */
  lemma SkipItem(table: seq<TickerQuery>, all: seq<RawItem>, i: nat, batch: seq<Article>, seen: set<string>,
                 rfc: RfcParser, goal: seq<Article>)
    requires i < |all| && (ItemUrl(all[i]) in seen || !IsAllowedSource(ItemUrl(all[i])))
    requires Continues(table, all, i, batch, seen, rfc, goal)
    ensures Continues(table, all, i + 1, batch, seen, rfc, goal)
  {
    assert all[i..][0] == all[i] && all[i..][1..] == all[i + 1..];
  }

  /** The article of an item with a new, allowed URL is appended, and the URL taken. */
  method KeepItem(table: seq<TickerQuery>, item: RawItem, ghost all: seq<RawItem>, ghost i: nat,
                  batch: seq<Article>, seen: set<string>, rfc: RfcParser, ghost goal: seq<Article>)
    returns (batch': seq<Article>, seen': set<string>)
    requires i < |all| && all[i] == item && ItemUrl(item) !in seen && IsAllowedSource(ItemUrl(item))
    requires Continues(table, all, i, batch, seen, rfc, goal)
    ensures |batch'| == |batch| + 1 && seen' == seen + {ItemUrl(item)}
    ensures Continues(table, all, i + 1, batch', seen', rfc, goal)
  {
    var art := BuildArticle(table, item, rfc);
    seen' := seen + {ItemUrl(item)};
    batch' := batch + [art];
    AcceptedFirst(table, all[i..], seen, rfc);
    assert all[i..][1..] == all[i + 1..];
    AppendOne(batch, art, Accepted(table, all[i + 1..], seen', rfc));
  }

  /** `seen` grows from `seen0` by allowed URLs only: a rejected URL is never marked seen. */
  predicate AddsOnlyAllowed(seen0: set<string>, seen: set<string>) {
    seen0 <= seen && forall u :: u in seen && u !in seen0 ==> IsAllowedSource(u)
  }

  /** One item of the scan: kept when its URL is new and allowed, passed over otherwise. */
  method ScanOne(table: seq<TickerQuery>, item: RawItem, ghost all: seq<RawItem>, ghost i: nat,
                 batch: seq<Article>, ghost seen0: set<string>, seen: set<string>, rfc: RfcParser, ghost goal: seq<Article>)
    returns (batch': seq<Article>, seen': set<string>)
    requires i < |all| && all[i] == item
    requires Continues(table, all, i, batch, seen, rfc, goal) && AddsOnlyAllowed(seen0, seen)
    ensures |batch'| <= |batch| + 1
    ensures Continues(table, all, i + 1, batch', seen', rfc, goal) && AddsOnlyAllowed(seen0, seen')
  {
    var url := ItemUrl(item);
    if url !in seen && IsAllowedSource(url) {
      batch', seen' := KeepItem(table, item, all, i, batch, seen, rfc, goal);
    } else {
      SkipItem(table, all, i, batch, seen, rfc, goal);
      batch', seen' := batch, seen;
    }
  }

  /** An item with a new, allowed URL contributes its article first. */
  lemma AcceptedFirst(table: seq<TickerQuery>, items: seq<RawItem>, seen: set<string>, rfc: RfcParser)
    requires items != [] && ItemUrl(items[0]) !in seen && IsAllowedSource(ItemUrl(items[0]))
    ensures Accepted(table, items, seen, rfc)
         == [MakeArticle(table, items[0], rfc)] + Accepted(table, items[1..], seen + {ItemUrl(items[0])}, rfc)
  {
  }

  lemma AppendOne<T>(a: seq<T>, x: T, rest: seq<T>)
    ensures (a + [x]) + rest == a + ([x] + rest)
  {
  }

  /**
    The loop over one response's items: from the batch and URLs the earlier responses
    left, appends the articles `Accepted` keeps, until the batch holds 10. Short of
    10, the batch and the later responses go on exactly as scanning all from the
    start; at 10, the batch is the first 10 of that scan.
  */
  method ScanItems(table: seq<TickerQuery>, items: seq<RawItem>, ghost later: seq<RawItem>,
                   batch0: seq<Article>, seen0: set<string>, rfc: RfcParser)
    returns (batch: seq<Article>, seen: set<string>)
    requires |batch0| < BatchLimit
    ensures |batch| <= BatchLimit && AddsOnlyAllowed(seen0, seen)
    ensures |batch| < BatchLimit ==>
              batch + Accepted(table, later, seen, rfc) == batch0 + Accepted(table, items + later, seen0, rfc)
    ensures |batch| == BatchLimit ==>
              batch == Take(batch0 + Accepted(table, items + later, seen0, rfc), BatchLimit)
  {
    batch, seen := batch0, seen0;
    ghost var all := items + later;
    ghost var goal := batch0 + Accepted(table, all, seen0, rfc);
    assert all[0..] == all;
    var i := 0;
    while i < |items|
      invariant 0 <= i <= |items| && |batch| < BatchLimit
      invariant Continues(table, all, i, batch, seen, rfc, goal) && AddsOnlyAllowed(seen0, seen)
    {
      batch, seen := ScanOne(table, items[i], all, i, batch, seen0, seen, rfc, goal);
      if |batch| >= BatchLimit {
        TakeFull(batch, Accepted(table, all[i + 1..], seen, rfc));
        return;
      }
      i := i + 1;
    }
    DropAll(items, later);
  }

  lemma ResponsesStep(search: Search, queries: seq<string>, i: nat)
    requires i < |queries|
    ensures Responses(search, queries[i..]) == search(queries[i]) + Responses(search, queries[i + 1..])
  {
    assert queries[i..][1..] == queries[i + 1..];
  }

  /**
    The collection of one ticker's new articles: both queries in turn, stopping once
    10 articles are kept.
  */
  method CollectBatch(table: seq<TickerQuery>, entry: TickerQuery, search: Search, rfc: RfcParser)
    returns (batch: seq<Article>)
    ensures batch == BatchOf(table, entry, search, rfc)
  {
    batch := [];
    var seen: set<string> := {};
    var queries := [entry.query, entry.ticker + " 주가"];
    assert queries[0..] == queries;
    for qi := 0 to |queries|
      invariant |batch| < BatchLimit
      invariant batch + Accepted(table, Responses(search, queries[qi..]), seen, rfc)
             == Accepted(table, Responses(search, queries), {}, rfc)
    {
      var items := search(queries[qi]);
      ResponsesStep(search, queries, qi);
      batch, seen := ScanItems(table, items, Responses(search, queries[qi + 1..]), batch, seen, rfc);
      if |batch| >= BatchLimit {
        return;
      }
    }
    assert batch + Accepted(table, Responses(search, queries[|queries|..]), seen, rfc) == batch;
  }

  /** The URLs of `items` that come from an allowed source. */
  function AllowedUrls(items: seq<RawItem>): set<string> {
    set i | 0 <= i < |items| && IsAllowedSource(ItemUrl(items[i])) :: ItemUrl(items[i])
  }

  /** What the scan keeps for an article: built from one of the items, from an allowed source. */
  predicate KeptFrom(table: seq<TickerQuery>, items: seq<RawItem>, a: Article, rfc: RfcParser) {
    IsAllowedSource(a.url) && BuiltFrom(table, items, a, rfc)
  }

  predicate BuiltFrom(table: seq<TickerQuery>, items: seq<RawItem>, a: Article, rfc: RfcParser) {
    exists i :: 0 <= i < |items| && a == MakeArticle(table, items[i], rfc)
  }

  lemma AllowedUrlsCons(items: seq<RawItem>)
    requires items != []
    ensures AllowedUrls(items)
         == AllowedUrls(items[1..]) + (if IsAllowedSource(ItemUrl(items[0])) then {ItemUrl(items[0])} else {})
  {
    var t := items[1..];
    forall u | u in AllowedUrls(items) ensures u in AllowedUrls(t) || (IsAllowedSource(ItemUrl(items[0])) && u == ItemUrl(items[0])) {
      var i :| 0 <= i < |items| && IsAllowedSource(ItemUrl(items[i])) && ItemUrl(items[i]) == u;
      assert i > 0 ==> items[i] == t[i - 1];
    }
    forall u | u in AllowedUrls(t) ensures u in AllowedUrls(items) {
      var i :| 0 <= i < |t| && IsAllowedSource(ItemUrl(t[i])) && ItemUrl(t[i]) == u;
      assert t[i] == items[i + 1];
    }
  }

  lemma TakeUrl(urls: set<string>, u: string, seen: set<string>)
    requires u !in seen
    ensures {u} + (urls - (seen + {u})) == (urls + {u}) - seen
  {
  }

  /** The scan keeps the allowed URLs not taken before. */
  lemma {:induction false} AcceptedUrls(table: seq<TickerQuery>, items: seq<RawItem>, seen: set<string>, rfc: RfcParser)
    ensures UrlSet(Accepted(table, items, seen, rfc)) == AllowedUrls(items) - seen
    decreases |items|
  {
    if items != [] {
      var url := ItemUrl(items[0]);
      var t := items[1..];
      AllowedUrlsCons(items);
      if url in seen || !IsAllowedSource(url) {
        AcceptedUrls(table, t, seen, rfc);
      } else {
        AcceptedUrls(table, t, seen + {url}, rfc);
        UrlsCons(MakeArticle(table, items[0], rfc), Accepted(table, t, seen + {url}, rfc));
        TakeUrl(AllowedUrls(t), url, seen);
      }
    }
  }

  /** The scan keeps each URL once. */
  lemma {:induction false} AcceptedDistinct(table: seq<TickerQuery>, items: seq<RawItem>, seen: set<string>, rfc: RfcParser)
    ensures DistinctUrls(Accepted(table, items, seen, rfc))
    decreases |items|
  {
    if items != [] {
      var url := ItemUrl(items[0]);
      var seen' := if url in seen || !IsAllowedSource(url) then seen else seen + {url};
      AcceptedDistinct(table, items[1..], seen', rfc);
      AcceptedUrls(table, items[1..], seen', rfc);
      UrlsCons(MakeArticle(table, items[0], rfc), Accepted(table, items[1..], seen', rfc));
    }
  }

  lemma BuiltFromTail(table: seq<TickerQuery>, items: seq<RawItem>, rfc: RfcParser)
    requires items != []
    ensures forall a :: BuiltFrom(table, items[1..], a, rfc) ==> BuiltFrom(table, items, a, rfc)
  {
    forall a | BuiltFrom(table, items[1..], a, rfc) ensures BuiltFrom(table, items, a, rfc) {
      var i :| 0 <= i < |items[1..]| && a == MakeArticle(table, items[1..][i], rfc);
      assert items[1..][i] == items[i + 1];
    }
  }

  /** Every kept article is built from one of the items, with an allowed URL. */
  lemma AcceptedKept(table: seq<TickerQuery>, items: seq<RawItem>, seen: set<string>, rfc: RfcParser)
    ensures forall a :: a in Accepted(table, items, seen, rfc) ==> KeptFrom(table, items, a, rfc)
  {
    AcceptedAllowed(table, items, seen, rfc);
    AcceptedBuilt(table, items, seen, rfc);
  }

  lemma {:induction false} AcceptedAllowed(table: seq<TickerQuery>, items: seq<RawItem>, seen: set<string>, rfc: RfcParser)
    ensures forall a :: a in Accepted(table, items, seen, rfc) ==> IsAllowedSource(a.url)
    decreases |items|
  {
    if items != [] {
      var url := ItemUrl(items[0]);
      if url in seen || !IsAllowedSource(url) {
        AcceptedAllowed(table, items[1..], seen, rfc);
      } else {
        AcceptedAllowed(table, items[1..], seen + {url}, rfc);
      }
    }
  }

  lemma {:induction false} AcceptedBuilt(table: seq<TickerQuery>, items: seq<RawItem>, seen: set<string>, rfc: RfcParser)
    ensures forall a :: a in Accepted(table, items, seen, rfc) ==> BuiltFrom(table, items, a, rfc)
    decreases |items|
  {
    if items != [] {
      var url := ItemUrl(items[0]);
      BuiltFromTail(table, items, rfc);
      AcceptedBuilt(table, items[1..], seen, rfc);
      AcceptedBuilt(table, items[1..], seen + {url}, rfc);
      AcceptedCons(table, items, seen, rfc);
      assert BuiltFrom(table, items, MakeArticle(table, items[0], rfc), rfc);
    }
  }

  /** A kept article is the first item's, or is kept from the rest with or without its URL marked seen. */
  lemma AcceptedCons(table: seq<TickerQuery>, items: seq<RawItem>, seen: set<string>, rfc: RfcParser)
    requires items != []
    ensures forall a :: a in Accepted(table, items, seen, rfc) ==>
      || a == MakeArticle(table, items[0], rfc)
      || a in Accepted(table, items[1..], seen, rfc)
      || a in Accepted(table, items[1..], seen + {ItemUrl(items[0])}, rfc)
  {
    var url := ItemUrl(items[0]);
    if url in seen || !IsAllowedSource(url) {
      assert Accepted(table, items, seen, rfc) == Accepted(table, items[1..], seen, rfc);
    } else {
      AcceptedFirst(table, items, seen, rfc);
    }
  }

  /**
    A ticker's batch: at most 10 articles with distinct URLs, each from an allowed
    source and built from an item of the two responses; when it holds fewer than 10,
    it covers every allowed URL the responses carry.
  */
  lemma BatchFacts(table: seq<TickerQuery>, entry: TickerQuery, search: Search, rfc: RfcParser)
    ensures var b := BatchOf(table, entry, search, rfc);
      && |b| <= BatchLimit
      && DistinctUrls(b)
      && (forall k :: 0 <= k < |b| ==> KeptFrom(table, Responses(search, Queries(entry)), b[k], rfc))
      && (|b| < BatchLimit ==> UrlSet(b) == AllowedUrls(Responses(search, Queries(entry))))
  {
    var items := Responses(search, Queries(entry));
    var r := Accepted(table, items, {}, rfc);
    AcceptedUrls(table, items, {}, rfc);
    AcceptedDistinct(table, items, {}, rfc);
    AcceptedKept(table, items, {}, rfc);
    var b := Take(r, BatchLimit);
    assert forall k :: 0 <= k < |b| ==> b[k] == r[k];
  }

  /** `existing_stocks`: ticker to stored article list, in the dict's order. */
  type Store = Dict<seq<Article>>

  /** The test of the retention filter. */
  function InWindow(cutoff: DateTime, rfc: RfcParser): Article -> bool {
    (a: Article) => IsWithinRetention(a.date, cutoff, rfc)
  }

  /** `[a for a in merged if is_within_retention(a.get("date"), cutoff_date)]`. */
  function Retained(arts: seq<Article>, cutoff: DateTime, rfc: RfcParser): (r: seq<Article>)
    ensures forall a :: a in r <==> a in arts && IsWithinRetention(a.date, cutoff, rfc)
    ensures IsSubseq(r, arts)
  {
    FilterIsSubseq(InWindow(cutoff, rfc), arts);
    Filter(InWindow(cutoff, rfc), arts)
  }

  /** What the loop over the table carries: the store and `today_new_count`. */
  datatype RunState = RunState(store: Store, todayNew: nat)

  /** The list stored for a ticker: its new batch merged into its old list, cut to the window. */
  function NewList(stored: seq<Article>, batch: seq<Article>, cutoff: DateTime, rfc: RfcParser): seq<Article> {
    Retained(Merged(stored, batch), cutoff, rfc)
  }

  /** One pass of the loop, for one table entry. */
  function Step(table: seq<TickerQuery>, st: RunState, entry: TickerQuery, search: Search, cutoff: DateTime, rfc: RfcParser): RunState {
    var batch := BatchOf(table, entry, search, rfc);
    RunState(Put(st.store, entry.ticker, NewList(Get(st.store, entry.ticker).GetOr([]), batch, cutoff, rfc)),
             st.todayNew + |batch|)
  }

  /** The state once the loop has visited `entries`, in order, starting from the loaded store. */
  function RunOver(table: seq<TickerQuery>, entries: seq<TickerQuery>, existing: Store,
                   search: Search, cutoff: DateTime, rfc: RfcParser): RunState
    decreases |entries|
  {
    if entries == [] then RunState(existing, 0)
    else Step(table, RunOver(table, entries[..|entries| - 1], existing, search, cutoff, rfc), entries[|entries| - 1], search, cutoff, rfc)
  }

  /**
    The loop of `main()` over the table: collect the ticker's batch, count it, merge it
    into the ticker's stored list (`[]` when it has none), keep what is in the window.
  */
  method RunUpdate(table: seq<TickerQuery>, existing: Store, search: Search, cutoff: DateTime, rfc: RfcParser)
    returns (store: Store, todayNew: nat)
    ensures RunState(store, todayNew) == RunOver(table, table, existing, search, cutoff, rfc)
  {
    store, todayNew := existing, 0;
    for i := 0 to |table|
      invariant RunState(store, todayNew) == RunOver(table, table[..i], existing, search, cutoff, rfc)
    {
      assert table[..i + 1][..i] == table[..i];
      var entry := table[i];
      var batch := CollectBatch(table, entry, search, rfc);
      todayNew := todayNew + |batch|;
      var oldArticles := Get(store, entry.ticker).GetOr([]);
      var merged := MergeArticles(oldArticles, batch);
      var retained := Retained(merged, cutoff, rfc);
      store := Put(store, entry.ticker, retained);
    }
    assert table[..|table|] == table;
  }

  /** The tickers of the entries are pairwise different, as the keys of `TICKER_QUERIES` are. */
  predicate DistinctTickers(entries: seq<TickerQuery>) {
    forall i, j :: 0 <= i < j < |entries| ==> entries[i].ticker != entries[j].ticker
  }

  function Tickers(entries: seq<TickerQuery>): set<string> {
    set i | 0 <= i < |entries| :: entries[i].ticker
  }

  /** One pass updates its own ticker's entry and no other. */
  lemma StepGet(table: seq<TickerQuery>, st: RunState, entry: TickerQuery, search: Search, cutoff: DateTime, rfc: RfcParser, k: string)
    ensures Get(Step(table, st, entry, search, cutoff, rfc).store, k)
         == if k == entry.ticker then Some(NewList(Get(st.store, k).GetOr([]), BatchOf(table, entry, search, rfc), cutoff, rfc))
            else Get(st.store, k)
  {
  }

  /** The last pass of a run, seen from one key. */
  lemma RunLast(table: seq<TickerQuery>, entries: seq<TickerQuery>, existing: Store,
                search: Search, cutoff: DateTime, rfc: RfcParser, k: string)
    requires entries != []
    ensures var init := entries[..|entries| - 1];
      var e := entries[|entries| - 1];
      var before := RunOver(table, init, existing, search, cutoff, rfc).store;
      Get(RunOver(table, entries, existing, search, cutoff, rfc).store, k)
        == if k == e.ticker then Some(NewList(Get(before, k).GetOr([]), BatchOf(table, e, search, rfc), cutoff, rfc))
           else Get(before, k)
  {
    var init := entries[..|entries| - 1];
    StepGet(table, RunOver(table, init, existing, search, cutoff, rfc), entries[|entries| - 1], search, cutoff, rfc, k);
  }

  /** A ticker the table does not name keeps the list it was loaded with, untouched. */
  lemma {:induction false} RunOthers(table: seq<TickerQuery>, entries: seq<TickerQuery>, existing: Store,
                                     search: Search, cutoff: DateTime, rfc: RfcParser, k: string)
    requires k !in Tickers(entries)
    ensures Get(RunOver(table, entries, existing, search, cutoff, rfc).store, k) == Get(existing, k)
    decreases |entries|
  {
    if entries != [] {
      var init := entries[..|entries| - 1];
      assert Tickers(init) <= Tickers(entries) by {
        forall i | 0 <= i < |init| ensures init[i].ticker in Tickers(entries) {
          assert init[i] == entries[i];
        }
      }
      assert entries[|entries| - 1].ticker in Tickers(entries);
      RunOthers(table, init, existing, search, cutoff, rfc, k);
      StepGet(table, RunOver(table, init, existing, search, cutoff, rfc), entries[|entries| - 1], search, cutoff, rfc, k);
    }
  }

  /** The last entry's ticker, new to the run, gets its list from the loaded store. */
  lemma RunTickerLast(table: seq<TickerQuery>, entries: seq<TickerQuery>, existing: Store,
                      search: Search, cutoff: DateTime, rfc: RfcParser)
    requires DistinctTickers(entries) && entries != []
    ensures var e := entries[|entries| - 1];
      Get(RunOver(table, entries, existing, search, cutoff, rfc).store, e.ticker)
        == Some(NewList(Get(existing, e.ticker).GetOr([]), BatchOf(table, e, search, rfc), cutoff, rfc))
  {
    var n := |entries| - 1;
    var init := entries[..n];
    assert entries[n].ticker !in Tickers(init) by {
      forall j | 0 <= j < |init| ensures init[j].ticker != entries[n].ticker {
        assert init[j] == entries[j];
      }
    }
    RunOthers(table, init, existing, search, cutoff, rfc, entries[n].ticker);
    RunLast(table, entries, existing, search, cutoff, rfc, entries[n].ticker);
  }

  /**
    After the loop, every ticker of the table holds its batch merged into the list it
    was loaded with, cut to the window.
  */
  lemma {:induction false} RunTicker(table: seq<TickerQuery>, entries: seq<TickerQuery>, existing: Store,
                                     search: Search, cutoff: DateTime, rfc: RfcParser, i: nat)
    requires DistinctTickers(entries) && i < |entries|
    ensures Get(RunOver(table, entries, existing, search, cutoff, rfc).store, entries[i].ticker)
         == Some(NewList(Get(existing, entries[i].ticker).GetOr([]), BatchOf(table, entries[i], search, rfc), cutoff, rfc))
    decreases |entries|
  {
    var n := |entries| - 1;
    if i < n {
      var init := entries[..n];
      assert DistinctTickers(init);
      assert init[i] == entries[i];
      RunTicker(table, init, existing, search, cutoff, rfc, i);
      RunLast(table, entries, existing, search, cutoff, rfc, entries[i].ticker);
    } else {
      RunTickerLast(table, entries, existing, search, cutoff, rfc);
    }
  }

  /** The store stays a well-formed dict. */
  lemma {:induction false} RunValid(table: seq<TickerQuery>, entries: seq<TickerQuery>, existing: Store,
                                    search: Search, cutoff: DateTime, rfc: RfcParser)
    requires Dicts.Valid(existing)
    ensures Dicts.Valid(RunOver(table, entries, existing, search, cutoff, rfc).store)
    decreases |entries|
  {
    if entries != [] {
      RunValid(table, entries[..|entries| - 1], existing, search, cutoff, rfc);
    }
  }

  /** `today_new_count` is at most 10 per visited ticker. */
  lemma {:induction false} RunTodayNew(table: seq<TickerQuery>, entries: seq<TickerQuery>, existing: Store,
                                       search: Search, cutoff: DateTime, rfc: RfcParser)
    ensures RunOver(table, entries, existing, search, cutoff, rfc).todayNew <= BatchLimit * |entries|
    decreases |entries|
  {
    if entries != [] {
      RunTodayNew(table, entries[..|entries| - 1], existing, search, cutoff, rfc);
      BatchFacts(table, entries[|entries| - 1], search, rfc);
    }
  }

  /**
    A stored list after the update: distinct non-empty URLs, every article within the
    window and taken from the batch or the old list, and every article of the batch
    that is within the window kept.
  */
  lemma NewListFacts(stored: seq<Article>, batch: seq<Article>, cutoff: DateTime, rfc: RfcParser)
    requires DistinctUrls(batch) && NoEmptyUrl(batch)
    ensures DistinctUrls(NewList(stored, batch, cutoff, rfc)) && NoEmptyUrl(NewList(stored, batch, cutoff, rfc))
    ensures forall a :: a in NewList(stored, batch, cutoff, rfc) <==> a in Merged(stored, batch) && IsWithinRetention(a.date, cutoff, rfc)
    ensures forall a :: a in NewList(stored, batch, cutoff, rfc) ==> a in batch || a in stored
    ensures forall a :: a in batch && IsWithinRetention(a.date, cutoff, rfc) ==> a in NewList(stored, batch, cutoff, rfc)
  {
    var m := Merged(stored, batch);
    MergedUrls(stored, batch);
    FilterPairwise(InWindow(cutoff, rfc), m, (a: Article, b: Article) => a.url != b.url);
    assert forall a :: InWindow(cutoff, rfc)(a) == IsWithinRetention(a.date, cutoff, rfc);
    SubseqElements(m, batch + stored);
    forall a | a in batch ensures a in m {
      var i :| 0 <= i < |batch| && batch[i] == a;
      assert (batch + stored)[i] == a;
      assert FirstOfUrl(batch + stored, i) by {
        forall j | 0 <= j < i ensures (batch + stored)[j].url != a.url {
          assert (batch + stored)[j] == batch[j];
        }
      }
      FirstOfUrlKept(stored, batch, i);
    }
  }

  /** Every batch has distinct, non-empty URLs. */
  lemma BatchUrls(table: seq<TickerQuery>, entry: TickerQuery, search: Search, rfc: RfcParser)
    ensures DistinctUrls(BatchOf(table, entry, search, rfc)) && NoEmptyUrl(BatchOf(table, entry, search, rfc))
  {
    BatchFacts(table, entry, search, rfc);
  }

  /** `sum(len(v) for v in existing_stocks.values())`. */
  function TotalArticles(stocks: Stocks): (n: nat)
    ensures forall k :: 0 <= k < |stocks| ==> |stocks[k].1| <= n
    ensures n == 0 <==> forall k :: 0 <= k < |stocks| ==> stocks[k].1 == []
    decreases |stocks|
  {
    if stocks == [] then 0 else |stocks[0].1| + TotalArticles(stocks[1..])
  }

  /** `sum(1 for v in existing_stocks.values() if len(v) > 0)`. */
  function TickersWithNews(stocks: Stocks): (n: nat)
    ensures n <= |stocks|
    ensures n == 0 <==> forall k :: 0 <= k < |stocks| ==> stocks[k].1 == []
    decreases |stocks|
  {
    if stocks == [] then 0 else (if |stocks[0].1| > 0 then 1 else 0) + TickersWithNews(stocks[1..])
  }

  /** Tickers with news number at most the tickers and at most the articles; none exactly when no article is stored. */
  lemma {:induction false} StatsBounds(stocks: Stocks)
    ensures TickersWithNews(stocks) <= |stocks|
    ensures TickersWithNews(stocks) <= TotalArticles(stocks)
    ensures TickersWithNews(stocks) == 0 <==> TotalArticles(stocks) == 0
    decreases |stocks|
  {
    if stocks != [] {
      StatsBounds(stocks[1..]);
    }
  }

  /** The `stats` block of the saved file. */
  datatype Stats = Stats(totalArticles: nat, tickersWithNews: nat, todayNew: nat, coMentionPairs: nat)

  /**
    `main()` without the file and console I/O: the cutoff 90 days before `now` (the
    local time in Korea), the loop over the table, the co-mention counts of the whole
    store and the statistics.
  */
  method UpdateNews(table: seq<TickerQuery>, existing: Store, search: Search, now: DateTime, rfc: RfcParser)
    returns (store: Store, coMentions: Entries, stats: Stats)
    requires Calendar.Valid(now) && Ordinal(now) > RetentionDays
    requires Dicts.Valid(existing)
    ensures Dicts.Valid(store)
    ensures RunOver(table, table, existing, search, Cutoff(now), rfc).store == store
    ensures coMentions == CoMentionCounts(Items(store))
    ensures stats == Stats(TotalArticles(Items(store)), TickersWithNews(Items(store)),
                           RunOver(table, table, existing, search, Cutoff(now), rfc).todayNew, |coMentions|)
  {
    var cutoff := Cutoff(now);
    var todayNew;
    store, todayNew := RunUpdate(table, existing, search, cutoff, rfc);
    RunValid(table, table, existing, search, cutoff, rfc);
    coMentions := CalculateCoMentions(Items(store));
    stats := Stats(TotalArticles(Items(store)), TickersWithNews(Items(store)), todayNew, |coMentions|);
  }
}
