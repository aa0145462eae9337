/**
  `calculate_co_mentions`: how often two tickers are named together, over every stored
  article of every ticker, keeping pairs seen at least twice, most frequent first.
*/
module CoMentions {
  import opened Wrappers
  import opened Seqs
  import opened Dicts
  import opened Articles
  import opened StrOrder

  /** `stocks_data`: ticker to article list, in the dict's order. */
  type Stocks = seq<(string, seq<Article>)>

  /** `co_mention_count`: pair key to count, keys in insertion order. */
  type Counts = Dict<int>

  /** The items of a counts dict, in some order. */
  type Entries = seq<(string, int)>

  /** The key `f"{a}-{b}"` of a pair. */
  function PairKey(a: string, b: string): string {
    a + "-" + b
  }

  /** Keys pairing `l[a]` with each of `l[b..]`, in order. */
  function Row(l: seq<string>, a: nat, b: nat): seq<string>
    requires a < |l| && b <= |l|
  {
    seq(|l| - b, k requires 0 <= k < |l| - b => PairKey(l[a], l[b + k]))
  }

  /** The keys of the two index loops over a sorted list: `l[i]-l[j]` for all `i < j`. */
  function PairKeys(l: seq<string>): seq<string>
    decreases |l|
  {
    if l == [] then [] else Row(l, 0, 1) + PairKeys(l[1..])
  }

  /** `set(art["mentions"])` with the article's own ticker added. */
  function ArticleSet(ticker: string, art: Article): set<string> {
    art.mentions + {ticker}
  }

  function TickerSets(ticker: string, arts: seq<Article>): seq<set<string>> {
    seq(|arts|, k requires 0 <= k < |arts| => ArticleSet(ticker, arts[k]))
  }

  /** The ticker set of every (ticker, article) entry, in iteration order. */
  function EntrySets(stocks: Stocks): seq<set<string>>
    decreases |stocks|
  {
    if stocks == [] then [] else TickerSets(stocks[0].0, stocks[0].1) + EntrySets(stocks[1..])
  }

  /** Every pair key the loops produce, in the order they produce them. */
  ghost function KeyStream(sets: seq<set<string>>): seq<string>
    decreases |sets|
  {
    if sets == [] then [] else PairKeys(SortedOf(sets[0])) + KeyStream(sets[1..])
  }

  /** `d[k] = d.get(k, 0) + 1`. */
  function Increment(d: Counts, k: string): Counts {
    Put(d, k, Get(d, k).GetOr(0) + 1)
  }

  /** Counting each key of `keys` in turn into `d`. */
  function TallyFrom(d: Counts, keys: seq<string>): Counts
    decreases |keys|
  {
    if keys == [] then d else TallyFrom(Increment(d, keys[0]), keys[1..])
  }

  /**
    Inserting `x` into a list sorted by decreasing count, after every entry whose count
    is at least `x`'s: the step of a stable sort on `-count`.
  */
  function InsertDesc(x: (string, int), s: Entries): (r: Entries)
    ensures |r| == |s| + 1
    decreases |s|
  {
    if s == [] then [x]
    else if s[0].1 >= x.1 then [s[0]] + InsertDesc(x, s[1..])
    else [x] + s
  }

  /** `sorted(d.items(), key=lambda x: -x[1])`, a stable sort by decreasing count. */
  function SortDesc(d: Entries): (r: Entries)
    ensures |r| == |d|
    decreases |d|
  {
    if d == [] then [] else InsertDesc(d[|d| - 1], SortDesc(d[..|d| - 1]))
  }

  predicate AtLeastTwo(e: (string, int)) {
    e.1 >= 2
  }

  /** The dict `calculate_co_mentions(stocks_data)` returns. */
  ghost function CoMentionCounts(stocks: Stocks): Entries {
    Filter(AtLeastTwo, SortDesc(Items(Tally(KeyStream(EntrySets(stocks))))))
  }

  lemma EntrySetsFrom(stocks: Stocks, i: nat)
    requires i < |stocks|
    ensures EntrySets(stocks[i..]) == TickerSets(stocks[i].0, stocks[i].1) + EntrySets(stocks[i + 1..])
  {
    assert stocks[i..][1..] == stocks[i + 1..];
  }

  lemma TickerSetsFrom(ticker: string, arts: seq<Article>, i: nat)
    requires i < |arts|
    ensures TickerSets(ticker, arts[i..]) == [ArticleSet(ticker, arts[i])] + TickerSets(ticker, arts[i + 1..])
  {
  }

  lemma {:induction false} KeyStreamConcat(x: seq<set<string>>, y: seq<set<string>>)
    ensures KeyStream(x + y) == KeyStream(x) + KeyStream(y)
    decreases |x|
  {
    if x == [] {
      assert x + y == y;
    } else {
      var z := x + y;
      assert z[0] == x[0];
      assert z[1..] == x[1..] + y;
      KeyStreamConcat(x[1..], y);
    }
  }

  lemma {:induction false} TallyFromValid(d: Counts, keys: seq<string>)
    requires Valid(d)
    ensures Valid(TallyFrom(d, keys))
    decreases |keys|
  {
    if keys != [] {
      TallyFromValid(Increment(d, keys[0]), keys[1..]);
    }
  }

  /** The counts of a key stream, from an empty dict. */
  function Tally(keys: seq<string>): (r: Counts)
    ensures Valid(r)
  {
    TallyFromValid(Empty, keys);
    TallyFrom(Empty, keys)
  }

  lemma TallyStep(d: Counts, k: string, rest: seq<string>)
    ensures TallyFrom(d, [k] + rest) == TallyFrom(Increment(d, k), rest)
  {
    assert ([k] + rest)[1..] == rest;
  }

  lemma {:induction false} TallyFromConcat(d: Counts, a: seq<string>, b: seq<string>)
    ensures TallyFrom(d, a + b) == TallyFrom(TallyFrom(d, a), b)
    decreases |a|
  {
    if a != [] {
      assert (a + b)[0] == a[0] && (a + b)[1..] == a[1..] + b;
      TallyFromConcat(Increment(d, a[0]), a[1..], b);
    } else {
      assert a + b == b;
    }
  }

  lemma PairKeysFrom(l: seq<string>, a: nat)
    requires a < |l|
    ensures PairKeys(l[a..]) == Row(l, a, a + 1) + PairKeys(l[a + 1..])
  {
    assert l[a..][1..] == l[a + 1..];
    assert Row(l[a..], 0, 1) == Row(l, a, a + 1);
  }

  lemma RowStep(l: seq<string>, a: nat, b: nat)
    requires a < |l| && b < |l|
    ensures Row(l, a, b) == [PairKey(l[a], l[b])] + Row(l, a, b + 1)
  {
  }

  lemma RowTallyStep(d: Counts, sorted: seq<string>, a: nat, b: nat, rest: seq<string>)
    requires a < b < |sorted|
    ensures TallyFrom(d, Row(sorted, a, b) + rest)
         == TallyFrom(Increment(d, PairKey(sorted[a], sorted[b])), Row(sorted, a, b + 1) + rest)
  {
    RowStep(sorted, a, b);
    assert Row(sorted, a, b) + rest == [PairKey(sorted[a], sorted[b])] + (Row(sorted, a, b + 1) + rest);
    TallyStep(d, PairKey(sorted[a], sorted[b]), Row(sorted, a, b + 1) + rest);
  }

  /** The inner loop: `l[a]` paired with every later element. */
  method CountRow(counts: Counts, sorted: seq<string>, a: nat) returns (out: Counts)
    requires a < |sorted|
    ensures out == TallyFrom(counts, Row(sorted, a, a + 1))
  {
    out := counts;
    assert Row(sorted, a, a + 1) + [] == Row(sorted, a, a + 1);
    for b := a + 1 to |sorted|
      invariant TallyFrom(out, Row(sorted, a, b) + []) == TallyFrom(counts, Row(sorted, a, a + 1))
    {
      RowTallyStep(out, sorted, a, b, []);
      var pair := sorted[a] + "-" + sorted[b];
      out := Increment(out, pair);
    }
    assert Row(sorted, a, |sorted|) + [] == [];
  }

  lemma PairKeysTallyStep(d: Counts, sorted: seq<string>, a: nat)
    requires a < |sorted|
    ensures TallyFrom(d, PairKeys(sorted[a..])) == TallyFrom(TallyFrom(d, Row(sorted, a, a + 1)), PairKeys(sorted[a + 1..]))
  {
    PairKeysFrom(sorted, a);
    TallyFromConcat(d, Row(sorted, a, a + 1), PairKeys(sorted[a + 1..]));
  }

  /** The two index loops of `calculate_co_mentions` over one sorted ticker list. */
  method CountPairs(counts: Counts, sorted: seq<string>) returns (out: Counts)
    ensures out == TallyFrom(counts, PairKeys(sorted))
  {
    out := counts;
    assert sorted[0..] == sorted;
    for a := 0 to |sorted|
      invariant TallyFrom(out, PairKeys(sorted[a..])) == TallyFrom(counts, PairKeys(sorted))
    {
      PairKeysTallyStep(out, sorted, a);
      out := CountRow(out, sorted, a);
    }
    assert sorted[|sorted|..] == [];
  }

  lemma ArticleTallyStep(d: Counts, ticker: string, arts: seq<Article>, i: nat)
    requires i < |arts|
    ensures TallyFrom(d, KeyStream(TickerSets(ticker, arts[i..])))
         == TallyFrom(TallyFrom(d, PairKeys(SortedOf(ArticleSet(ticker, arts[i])))), KeyStream(TickerSets(ticker, arts[i + 1..])))
  {
    TickerSetsFrom(ticker, arts, i);
    TallyFromConcat(d, PairKeys(SortedOf(ArticleSet(ticker, arts[i]))), KeyStream(TickerSets(ticker, arts[i + 1..])));
  }

  /** The loop over one ticker's articles. */
  method CountTicker(counts: Counts, ticker: string, articles: seq<Article>) returns (out: Counts)
    ensures out == TallyFrom(counts, KeyStream(TickerSets(ticker, articles)))
  {
    out := counts;
    assert articles[0..] == articles;
    for ai := 0 to |articles|
      invariant TallyFrom(out, KeyStream(TickerSets(ticker, articles[ai..]))) == TallyFrom(counts, KeyStream(TickerSets(ticker, articles)))
    {
      ArticleTallyStep(out, ticker, articles, ai);
      var sorted := SortedList(articles[ai].mentions + {ticker});
      out := CountPairs(out, sorted);
    }
    assert TickerSets(ticker, articles[|articles|..]) == [];
  }

  lemma StocksTallyStep(d: Counts, stocks: Stocks, i: nat)
    requires i < |stocks|
    ensures TallyFrom(d, KeyStream(EntrySets(stocks[i..])))
         == TallyFrom(TallyFrom(d, KeyStream(TickerSets(stocks[i].0, stocks[i].1))), KeyStream(EntrySets(stocks[i + 1..])))
  {
    EntrySetsFrom(stocks, i);
    KeyStreamConcat(TickerSets(stocks[i].0, stocks[i].1), EntrySets(stocks[i + 1..]));
    TallyFromConcat(d, KeyStream(TickerSets(stocks[i].0, stocks[i].1)), KeyStream(EntrySets(stocks[i + 1..])));
  }

  /**
    `calculate_co_mentions(stocks_data)`: every entry's sorted ticker list is paired
    index by index into the counts, which are then sorted and cut at 2.
  */
  method CalculateCoMentions(stocks: Stocks) returns (result: Entries)
    ensures result == CoMentionCounts(stocks)
  {
    var counts: Counts := Empty;
    assert stocks[0..] == stocks;
    for si := 0 to |stocks|
      invariant TallyFrom(counts, KeyStream(EntrySets(stocks[si..]))) == TallyFrom(Empty, KeyStream(EntrySets(stocks)))
    {
      StocksTallyStep(counts, stocks, si);
      counts := CountTicker(counts, stocks[si].0, stocks[si].1);
    }
    assert EntrySets(stocks[|stocks|..]) == [];
    assert counts == Tally(KeyStream(EntrySets(stocks)));
    result := Filter(AtLeastTwo, SortDesc(Items(counts)));
  }

  /** Number of occurrences of `x` in `s`. */
  function CountOf(s: seq<string>, x: string): nat
    decreases |s|
  {
    if s == [] then 0 else (if s[0] == x then 1 else 0) + CountOf(s[1..], x)
  }

  lemma {:induction false} CountOfConcat(s: seq<string>, t: seq<string>, x: string)
    ensures CountOf(s + t, x) == CountOf(s, x) + CountOf(t, x)
    decreases |s|
  {
    if s == [] {
      assert s + t == t;
    } else {
      assert (s + t)[0] == s[0] && (s + t)[1..] == s[1..] + t;
      CountOfConcat(s[1..], t, x);
    }
  }

  lemma {:induction false} CountOfPositive(s: seq<string>, x: string)
    ensures CountOf(s, x) > 0 <==> x in s
    decreases |s|
  {
    if s != [] {
      CountOfPositive(s[1..], x);
      assert x in s <==> s[0] == x || x in s[1..];
    }
  }

  lemma IncrementGet(d: Counts, k0: string, k: string)
    ensures Get(Increment(d, k0), k) == if k == k0 then Some(Get(d, k).GetOr(0) + 1) else Get(d, k)
  {
  }

  /**
    Counting a stream of keys into a dict: a key ends up with its previous count plus
    its number of occurrences, and is absent only when it was absent and never seen.
  */
  lemma {:induction false} TallyFromGet(d: Counts, keys: seq<string>, k: string)
    ensures Get(TallyFrom(d, keys), k)
         == if Get(d, k).Some? || k in keys then Some(Get(d, k).GetOr(0) + CountOf(keys, k)) else None
    decreases |keys|
  {
    if keys != [] {
      var d', rest := Increment(d, keys[0]), keys[1..];
      assert TallyFrom(d, keys) == TallyFrom(d', rest);
      IncrementGet(d, keys[0], k);
      TallyFromGet(d', rest, k);
      FirstKey(keys, k);
    }
  }

  lemma FirstKey(keys: seq<string>, k: string)
    requires keys != []
    ensures k in keys <==> k == keys[0] || k in keys[1..]
    ensures CountOf(keys, k) == (if k == keys[0] then 1 else 0) + CountOf(keys[1..], k)
  {
    assert keys == [keys[0]] + keys[1..];
  }

  predicate DistinctKeys(s: Entries) {
    forall i, j :: 0 <= i < j < |s| ==> s[i].0 != s[j].0
  }

  predicate NonIncreasing(s: Entries) {
    forall i, j :: 0 <= i < j < |s| ==> s[i].1 >= s[j].1
  }

  /** The entries with count `c`. */
  function CountIs(c: int): ((string, int)) -> bool {
    (e: (string, int)) => e.1 == c
  }

  lemma {:induction false} InsertDescPermutes(x: (string, int), s: Entries)
    ensures multiset(InsertDesc(x, s)) == multiset(s) + multiset{x}
    decreases |s|
  {
    if s != [] {
      InsertDescPermutes(x, s[1..]);
      assert s == [s[0]] + s[1..];
    }
  }

  lemma {:induction false} InsertDescSorted(x: (string, int), s: Entries)
    requires NonIncreasing(s)
    ensures NonIncreasing(InsertDesc(x, s))
    decreases |s|
  {
    if s != [] && s[0].1 >= x.1 {
      InsertDescSorted(x, s[1..]);
      InsertDescBound(x, s[1..], s[0].1);
      var r := InsertDesc(x, s[1..]);
      assert forall k :: 1 <= k <= |r| ==> ([s[0]] + r)[k] == r[k - 1];
    }
  }

  /** Inserting keeps every count at most a bound that `x` and all of `s` respect. */
  lemma {:induction false} InsertDescBound(x: (string, int), s: Entries, c: int)
    requires x.1 <= c && forall k :: 0 <= k < |s| ==> s[k].1 <= c
    ensures forall k :: 0 <= k < |InsertDesc(x, s)| ==> InsertDesc(x, s)[k].1 <= c
    decreases |s|
  {
    if s != [] && s[0].1 >= x.1 {
      InsertDescBound(x, s[1..], c);
      var r := InsertDesc(x, s[1..]);
      assert forall k :: 1 <= k <= |r| ==> ([s[0]] + r)[k] == r[k - 1];
    }
  }

  lemma {:induction false} NoneWithCount(s: Entries, c: int)
    requires forall k :: 0 <= k < |s| ==> s[k].1 < c
    ensures Filter(CountIs(c), s) == []
    decreases |s|
  {
    if s != [] {
      NoneWithCount(s[1..], c);
    }
  }

  /**
    Inserting keeps the entries of each count in their order and puts `x` after the
    entries of its own count.
  */
  lemma {:induction false} InsertDescStable(x: (string, int), s: Entries, c: int)
    requires NonIncreasing(s)
    ensures Filter(CountIs(c), InsertDesc(x, s)) == Filter(CountIs(c), s) + (if x.1 == c then [x] else [])
    decreases |s|
  {
    if s == [] {
    } else if s[0].1 >= x.1 {
      InsertDescStable(x, s[1..], c);
      assert ([s[0]] + InsertDesc(x, s[1..]))[1..] == InsertDesc(x, s[1..]);
    } else {
      assert ([x] + s)[1..] == s;
      if x.1 == c {
        NoneWithCount(s, c);
      }
    }
  }

  lemma {:induction false} InsertDescDistinct(x: (string, int), s: Entries)
    requires DistinctKeys(s) && forall k :: 0 <= k < |s| ==> s[k].0 != x.0
    ensures DistinctKeys(InsertDesc(x, s))
    decreases |s|
  {
    if s != [] && s[0].1 >= x.1 {
      InsertDescDistinct(x, s[1..]);
      InsertDescPermutes(x, s[1..]);
      var r := InsertDesc(x, s[1..]);
      forall k | 0 <= k < |r| ensures r[k].0 != s[0].0 {
        assert r[k] in multiset(r);
        if r[k] != x {
          assert r[k] in multiset(s[1..]);
          var j :| 0 <= j < |s[1..]| && s[1..][j] == r[k];
          assert s[j + 1] == r[k];
        }
      }
      assert forall k :: 1 <= k <= |r| ==> ([s[0]] + r)[k] == r[k - 1];
    }
  }

  /**
    `sorted(..., key=lambda x: -x[1])`: a permutation, in non-increasing count order,
    that keeps the entries of each count in their original order.
  */
  lemma {:induction false} SortDescSorts(d: Entries)
    ensures multiset(SortDesc(d)) == multiset(d)
    ensures NonIncreasing(SortDesc(d))
    ensures forall c :: Filter(CountIs(c), SortDesc(d)) == Filter(CountIs(c), d)
    decreases |d|
  {
    if d != [] {
      var init, last := d[..|d| - 1], d[|d| - 1];
      assert d == init + [last];
      SortDescSorts(init);
      InsertDescPermutes(last, SortDesc(init));
      InsertDescSorted(last, SortDesc(init));
      forall c ensures Filter(CountIs(c), SortDesc(d)) == Filter(CountIs(c), d) {
        InsertDescStable(last, SortDesc(init), c);
        FilterConcat(CountIs(c), init, [last]);
      }
    }
  }

  lemma {:induction false} SortDescDistinct(d: Entries)
    requires DistinctKeys(d)
    ensures DistinctKeys(SortDesc(d))
    decreases |d|
  {
    if d != [] {
      var init, last := d[..|d| - 1], d[|d| - 1];
      SortDescDistinct(init);
      SortDescSorts(init);
      forall k | 0 <= k < |SortDesc(init)| ensures SortDesc(init)[k].0 != last.0 {
        var e := SortDesc(init)[k];
        assert e in multiset(SortDesc(init));
        assert e in multiset(init);
        var j :| 0 <= j < |init| && init[j] == e;
        assert d[j] == e;
      }
      InsertDescDistinct(last, SortDesc(init));
    }
  }

  /** Counting from the empty dict: a key is there exactly when it occurs, with its number of occurrences. */
  lemma TallyGet(keys: seq<string>, k: string)
    ensures Get(Tally(keys), k) == if k in keys then Some(CountOf(keys, k)) else None
  {
    var none: Option<int> := None;
    assert Get(Empty, k) == none && none.GetOr(0) == 0;
    TallyFromGet(Empty, keys, k);
    var t := TallyFrom(Empty, keys);
    assert Get(t, k) == if k in keys then Some(0 + CountOf(keys, k)) else None;
    assert Tally(keys) == t;
  }

  /** The keys of `keys` not in `seen`, each once, in order of first occurrence. */
  function FirstSeen(keys: seq<string>, seen: set<string>): seq<string>
    decreases |keys|
  {
    if keys == [] then []
    else if keys[0] in seen then FirstSeen(keys[1..], seen)
    else [keys[0]] + FirstSeen(keys[1..], seen + {keys[0]})
  }

  /** A Python dict keeps insertion order: new keys are appended in order of first occurrence. */
  lemma {:induction false} TallyFromKeys(d: Counts, keys: seq<string>)
    ensures TallyFrom(d, keys).keys == d.keys + FirstSeen(keys, d.values.Keys)
    decreases |keys|
  {
    if keys == [] {
      assert d.keys + [] == d.keys;
    } else {
      var d' := Increment(d, keys[0]);
      TallyFromKeys(d', keys[1..]);
      if keys[0] in d.values {
        assert d'.values.Keys == d.values.Keys;
      } else {
        assert d'.values.Keys == d.values.Keys + {keys[0]};
        assert d'.keys + FirstSeen(keys[1..], d'.values.Keys) == d.keys + ([keys[0]] + FirstSeen(keys[1..], d'.values.Keys));
      }
    }
  }

  predicate ByCountDesc(a: (string, int), b: (string, int)) {
    a.1 >= b.1
  }

  predicate KeysDiffer(a: (string, int), b: (string, int)) {
    a.0 != b.0
  }

  /**
    The dict `calculate_co_mentions` returns: every pair key occurring at least twice in
    the key stream, with its number of occurrences, each key once, most frequent first,
    and keys of equal count in the order the counting first met them.
  */
  lemma CoMentionCountsResult(stocks: Stocks)
    ensures forall k, v :: (k, v) in CoMentionCounts(stocks)
              <==> v >= 2 && CountOf(KeyStream(EntrySets(stocks)), k) == v
    ensures DistinctKeys(CoMentionCounts(stocks))
    ensures NonIncreasing(CoMentionCounts(stocks))
    ensures forall c :: c >= 2 ==>
              Filter(CountIs(c), CoMentionCounts(stocks)) == Filter(CountIs(c), Items(Tally(KeyStream(EntrySets(stocks)))))
  {
    var ks := KeyStream(EntrySets(stocks));
    var counts := Tally(ks);
    var items := Items(counts);
    var sorted := SortDesc(items);
    SortDescSorts(items);
    SortDescDistinct(items);
    forall k, v ensures (k, v) in CoMentionCounts(stocks) <==> v >= 2 && CountOf(ks, k) == v {
      ItemsBindings(counts, k, v);
      TallyGet(ks, k);
      CountOfPositive(ks, k);
      assert (k, v) in sorted <==> (k, v) in multiset(items);
    }
    FilterPairwise(AtLeastTwo, sorted, KeysDiffer);
    FilterPairwise(AtLeastTwo, sorted, ByCountDesc);
    forall c | c >= 2 ensures Filter(CountIs(c), CoMentionCounts(stocks)) == Filter(CountIs(c), items) {
      FilterNarrower(CountIs(c), AtLeastTwo, sorted);
    }
  }

  /** With a dash-free first ticker, the first `-` of a pair key ends that ticker. */
  lemma FirstDash(a: string, b: string)
    requires '-' !in a
    ensures PairKey(a, b)[|a|] == '-'
    ensures forall i :: 0 <= i < |a| ==> PairKey(a, b)[i] != '-'
  {
    forall i | 0 <= i < |a| ensures PairKey(a, b)[i] != '-' {
      assert PairKey(a, b)[i] == a[i];
    }
  }

  /** With a dash-free first ticker, a pair key names its two tickers unambiguously. */
  lemma PairKeyInjective(a: string, b: string, c: string, d: string)
    requires '-' !in a && '-' !in c
    ensures PairKey(a, b) == PairKey(c, d) <==> a == c && b == d
  {
    if PairKey(a, b) == PairKey(c, d) {
      var k := PairKey(a, b);
      FirstDash(a, b);
      FirstDash(c, d);
      assert |a| == |c|;
      assert a == k[..|a|] && c == PairKey(c, d)[..|c|];
      assert b == k[|a| + 1..] && d == PairKey(c, d)[|c| + 1..];
    }
  }

  predicate Distinct(s: seq<string>) {
    forall i, j :: 0 <= i < j < |s| ==> s[i] != s[j]
  }

  lemma {:induction false} CountOfDistinct(s: seq<string>, y: string)
    requires Distinct(s)
    ensures CountOf(s, y) == if y in s then 1 else 0
    decreases |s|
  {
    if s != [] {
      assert Distinct(s[1..]);
      CountOfDistinct(s[1..], y);
      assert y in s <==> y == s[0] || y in s[1..];
      assert y == s[0] ==> y !in s[1..];
    }
  }

  lemma SortedDistinct(l: seq<string>)
    requires StrictlySorted(l)
    ensures Distinct(l)
  {
    forall i, j | 0 <= i < j < |l| ensures l[i] != l[j] {
      LexIrreflexive(l[i]);
    }
  }

  /** The row of `l[a]` holds the key of `(x, y)` once per `y` after position `b` when `l[a]` is `x`. */
  lemma {:induction false} RowCount(l: seq<string>, a: nat, b: nat, x: string, y: string)
    requires a < |l| && b <= |l|
    requires '-' !in l[a] && '-' !in x
    ensures CountOf(Row(l, a, b), PairKey(x, y)) == if l[a] == x then CountOf(l[b..], y) else 0
    decreases |l| - b
  {
    if b < |l| {
      RowStep(l, a, b);
      assert l[b..] == [l[b]] + l[b + 1..];
      RowCount(l, a, b + 1, x, y);
      PairKeyInjective(l[a], l[b], x, y);
      CountOfConcat([PairKey(l[a], l[b])], Row(l, a, b + 1), PairKey(x, y));
      CountOfConcat([l[b]], l[b + 1..], y);
    } else {
      assert Row(l, a, b) == [] && l[b..] == [];
    }
  }

  /** Over a sorted, dash-free list, the key of `x < y` occurs once if both are in it, else never. */
  lemma {:induction false} PairKeysCount(l: seq<string>, x: string, y: string)
    requires StrictlySorted(l) && forall i :: 0 <= i < |l| ==> '-' !in l[i]
    requires '-' !in x && LexLess(x, y)
    ensures CountOf(PairKeys(l), PairKey(x, y)) == if x in l && y in l then 1 else 0
    decreases |l|
  {
    if l != [] {
      var t := l[1..];
      assert StrictlySorted(t);
      PairKeysCount(t, x, y);
      RowCount(l, 0, 1, x, y);
      CountOfConcat(Row(l, 0, 1), PairKeys(t), PairKey(x, y));
      SortedDistinct(t);
      CountOfDistinct(t, y);
      LexIrreflexive(x);
      LexAsymmetric(x, y);
      assert forall j :: 0 <= j < |t| ==> LexLess(l[0], t[j]);
      assert x in t ==> LexLess(l[0], x);
      assert forall z :: z in l <==> z == l[0] || z in t;
    }
  }

  /** The number of sets holding both `x` and `y`. */
  function CountBoth(sets: seq<set<string>>, x: string, y: string): nat
    decreases |sets|
  {
    if sets == [] then 0 else (if x in sets[0] && y in sets[0] then 1 else 0) + CountBoth(sets[1..], x, y)
  }

  predicate DashFreeSets(sets: seq<set<string>>) {
    forall i :: 0 <= i < |sets| ==> forall t :: t in sets[i] ==> '-' !in t
  }

  lemma {:induction false} KeyStreamCount(sets: seq<set<string>>, x: string, y: string)
    requires DashFreeSets(sets) && '-' !in x && LexLess(x, y)
    ensures CountOf(KeyStream(sets), PairKey(x, y)) == CountBoth(sets, x, y)
    decreases |sets|
  {
    if sets != [] {
      var l := SortedOf(sets[0]);
      assert forall i :: 0 <= i < |l| ==> l[i] in l;
      PairKeysCount(l, x, y);
      CountOfConcat(PairKeys(l), KeyStream(sets[1..]), PairKey(x, y));
      assert DashFreeSets(sets[1..]);
      KeyStreamCount(sets[1..], x, y);
    }
  }

  /** No ticker of the stored data, neither a dict key nor a mention, contains `-`. */
  predicate DashFreeStocks(stocks: Stocks) {
    forall i :: 0 <= i < |stocks| ==>
      && '-' !in stocks[i].0
      && forall j :: 0 <= j < |stocks[i].1| ==> forall t :: t in stocks[i].1[j].mentions ==> '-' !in t
  }

  lemma {:induction false} EntrySetsDashFree(stocks: Stocks)
    requires DashFreeStocks(stocks)
    ensures DashFreeSets(EntrySets(stocks))
    decreases |stocks|
  {
    if stocks != [] {
      assert DashFreeStocks(stocks[1..]);
      EntrySetsDashFree(stocks[1..]);
      assert DashFreeSets(TickerSets(stocks[0].0, stocks[0].1));
    }
  }

  /**
    The count stored for tickers `x < y` is the number of stored (ticker, article)
    entries whose tickers, mentions plus the entry's own, include both; the pair is
    present exactly when that number is at least 2.
  */
  lemma CoMentionPairCount(stocks: Stocks, x: string, y: string, v: int)
    requires DashFreeStocks(stocks) && '-' !in x && LexLess(x, y)
    ensures (PairKey(x, y), v) in CoMentionCounts(stocks) <==> v >= 2 && v == CountBoth(EntrySets(stocks), x, y)
  {
    CoMentionCountsResult(stocks);
    EntrySetsDashFree(stocks);
    KeyStreamCount(EntrySets(stocks), x, y);
  }

  /** `x` and `y` are both in `s`, `x` first in sorted order. */
  predicate PairIn(s: set<string>, x: string, y: string) {
    x in s && y in s && LexLess(x, y)
  }

  /** Every key of `PairKeys(l)` pairs an element of `l` with a later one. */
  lemma {:induction false} PairKeysMembers(l: seq<string>, k: string)
    requires k in PairKeys(l)
    ensures exists i, j :: 0 <= i < j < |l| && k == PairKey(l[i], l[j])
    decreases |l|
  {
    var t := l[1..];
    var row := Row(l, 0, 1);
    assert PairKeys(l) == row + PairKeys(t);
    if k in row {
      var m :| 0 <= m < |row| && row[m] == k;
      assert k == PairKey(l[0], l[1 + m]);
    } else {
      PairKeysMembers(t, k);
      var i, j :| 0 <= i < j < |t| && k == PairKey(t[i], t[j]);
      assert k == PairKey(l[i + 1], l[j + 1]);
    }
  }

  /** Every key of the stream pairs two tickers of one set, smaller first. */
  lemma {:induction false} KeyStreamMembers(sets: seq<set<string>>, k: string)
    requires k in KeyStream(sets)
    ensures exists n, x, y :: 0 <= n < |sets| && PairIn(sets[n], x, y) && k == PairKey(x, y)
    decreases |sets|
  {
    var l := SortedOf(sets[0]);
    assert KeyStream(sets) == PairKeys(l) + KeyStream(sets[1..]);
    if k in PairKeys(l) {
      PairKeysMembers(l, k);
      var i, j :| 0 <= i < j < |l| && k == PairKey(l[i], l[j]);
      assert l[i] in l && l[j] in l;
      assert PairIn(sets[0], l[i], l[j]);
    } else {
      KeyStreamMembers(sets[1..], k);
      var n, x, y :| 0 <= n < |sets[1..]| && PairIn(sets[1..][n], x, y) && k == PairKey(x, y);
      assert sets[n + 1] == sets[1..][n];
    }
  }

  /**
    Every key of the returned dict is `f"{x}-{y}"` for two tickers with `x < y` that an
    entry names together, and its value is the number of entries naming both.
  */
  lemma CoMentionKeys(stocks: Stocks, k: string, v: int)
    requires DashFreeStocks(stocks)
    requires (k, v) in CoMentionCounts(stocks)
    ensures exists x, y :: LexLess(x, y) && k == PairKey(x, y) && v == CountBoth(EntrySets(stocks), x, y)
  {
    var sets := EntrySets(stocks);
    CoMentionCountsResult(stocks);
    CountOfPositive(KeyStream(sets), k);
    KeyStreamMembers(sets, k);
    var n, x, y :| 0 <= n < |sets| && PairIn(sets[n], x, y) && k == PairKey(x, y);
    EntrySetsDashFree(stocks);
    CoMentionPairCount(stocks, x, y, v);
  }
}
