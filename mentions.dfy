/**
  `extract_mentioned_tickers`: which companies of the ticker table an article talks
  about, by symbol or by a word of the company's search query.
*/
module Mentions {
  import opened Text

  /** One entry of `TICKER_QUERIES`: a ticker symbol and the search query used for it. */
  datatype TickerQuery = TickerQuery(ticker: string, query: string)

  /** `TICKER_QUERIES`, in its declaration order (the order the daily run visits tickers). */
  const TickerQueries: seq<TickerQuery> := [
    TickerQuery("NVDA", "엔비디아"), TickerQuery("AVGO", "브로드컴"), TickerQuery("ASML", "ASML"),
    TickerQuery("AMD", "AMD"), TickerQuery("QCOM", "퀄컴"), TickerQuery("TXN", "텍사스인스트루먼트"),
    TickerQuery("ARM", "ARM 반도체"), TickerQuery("AMAT", "어플라이드머티리얼즈"), TickerQuery("INTC", "인텔 반도체"),
    TickerQuery("ADI", "아날로그디바이시스"), TickerQuery("MU", "마이크론"), TickerQuery("LRCX", "램리서치"),
    TickerQuery("KLAC", "KLA"), TickerQuery("MRVL", "마벨테크놀로지"), TickerQuery("NXPI", "NXP반도체"),
    TickerQuery("MCHP", "마이크로칩"), TickerQuery("MPWR", "모놀리식파워"), TickerQuery("STX", "시게이트"),
    TickerQuery("WDC", "웨스턴디지털"), TickerQuery("MSFT", "마이크로소프트"), TickerQuery("CSCO", "시스코"),
    TickerQuery("PLTR", "팔란티어"), TickerQuery("CDNS", "케이던스"), TickerQuery("SNPS", "시놉시스"),
    TickerQuery("ADBE", "어도비"), TickerQuery("INTU", "인튜이트"), TickerQuery("ADP", "ADP"),
    TickerQuery("WDAY", "워크데이"), TickerQuery("DDOG", "데이터독"), TickerQuery("VRSK", "버리스크"),
    TickerQuery("CTSH", "코그니전트"), TickerQuery("CSGP", "코스타그룹"), TickerQuery("PAYX", "페이첵스"),
    TickerQuery("MSTR", "마이크로스트래티지"), TickerQuery("PANW", "팔로알토네트웍스"), TickerQuery("CRWD", "크라우드스트라이크"),
    TickerQuery("FTNT", "포티넷"), TickerQuery("ZS", "지스케일러"), TickerQuery("TEAM", "아틀라시안"),
    TickerQuery("ADSK", "오토데스크"), TickerQuery("SHOP", "쇼피파이"), TickerQuery("ROP", "로퍼테크놀로지스"),
    TickerQuery("TRI", "톰슨로이터"), TickerQuery("GOOGL", "구글 알파벳"), TickerQuery("META", "메타 페이스북"),
    TickerQuery("NFLX", "넷플릭스"), TickerQuery("APP", "앱러빈"), TickerQuery("DASH", "도어대시"),
    TickerQuery("EA", "일렉트로닉아츠"), TickerQuery("TTWO", "테이크투"), TickerQuery("PDD", "핀둬둬 테무"),
    TickerQuery("WBD", "워너브라더스"), TickerQuery("CHTR", "차터커뮤니케이션"), TickerQuery("CMCSA", "컴캐스트"),
    TickerQuery("AMZN", "아마존"), TickerQuery("BKNG", "부킹홀딩스"), TickerQuery("MELI", "메르카도리브레"),
    TickerQuery("ABNB", "에어비앤비"), TickerQuery("PYPL", "페이팔"), TickerQuery("MAR", "메리어트"),
    TickerQuery("ROST", "로스스토어스"), TickerQuery("WMT", "월마트"), TickerQuery("AAPL", "애플"),
    TickerQuery("COST", "코스트코"), TickerQuery("PEP", "펩시코"), TickerQuery("TMUS", "T모바일"),
    TickerQuery("SBUX", "스타벅스"), TickerQuery("MDLZ", "몬델리즈"), TickerQuery("MNST", "몬스터비버리지"),
    TickerQuery("KHC", "크래프트하인즈"), TickerQuery("KDP", "큐리그닥터페퍼"), TickerQuery("CCEP", "코카콜라유로패시픽"),
    TickerQuery("CEG", "컨스텔레이션에너지"), TickerQuery("XEL", "엑셀에너지"), TickerQuery("AEP", "아메리칸일렉트릭파워"),
    TickerQuery("EXC", "엑셀론"), TickerQuery("ISRG", "인튜이티브서지컬"), TickerQuery("AMGN", "암젠"),
    TickerQuery("VRTX", "버텍스제약"), TickerQuery("GILD", "길리어드"), TickerQuery("REGN", "리제네론"),
    TickerQuery("GEHC", "GE헬스케어"), TickerQuery("DXCM", "덱스콤"), TickerQuery("IDXX", "아이덱스"),
    TickerQuery("ALNY", "알나일람"), TickerQuery("INSM", "인스메드"), TickerQuery("LIN", "린데"),
    TickerQuery("TSLA", "테슬라"), TickerQuery("HON", "하니웰"), TickerQuery("AXON", "액슨엔터프라이즈"),
    TickerQuery("CSX", "CSX"), TickerQuery("CPRT", "코파트"), TickerQuery("ODFL", "올드도미니언"),
    TickerQuery("FAST", "파스널"), TickerQuery("FANG", "다이아몬드백에너지"), TickerQuery("BKR", "베이커휴즈"),
    TickerQuery("FER", "페로비알"), TickerQuery("PCAR", "팩카"), TickerQuery("ORLY", "오라일리오토"),
    TickerQuery("CTAS", "신타스")
  ]

  function TickerSet(table: seq<TickerQuery>): set<string> {
    set k | 0 <= k < |table| :: table[k].ticker
  }

  /** Tickers of at least three characters occurring in the (upper-cased) text. */
  function SymbolMentions(table: seq<TickerQuery>, combined: string): (r: set<string>)
    ensures r <= TickerSet(table)
    ensures forall t :: t in r ==> |t| >= 3 && Contains(combined, t)
  {
    set k | 0 <= k < |table| && |table[k].ticker| >= 3 && Contains(combined, table[k].ticker) :: table[k].ticker
  }

  /** Every word of two or more characters in `words` (a query's keywords), mapped to `t`. */
  function WordsOwnedBy(words: seq<string>, t: string): map<string, string> {
    map w | w in words && |w| >= 2 :: t
  }

  /**
    `kr_to_ticker`: each keyword mapped to the ticker of the last table entry whose
    query has it, since a later assignment overwrites an earlier one.
  */
  function KeywordOwners(table: seq<TickerQuery>): map<string, string>
    decreases |table|
  {
    if table == [] then map[]
    else
      var e := table[|table| - 1];
      KeywordOwners(table[..|table| - 1]) + WordsOwnedBy(Split(e.query), e.ticker)
  }

  /** Owners of the keywords occurring in the text, compared case-sensitively. */
  function KeywordMentions(owners: map<string, string>, text: string): set<string> {
    set w | w in owners && Contains(text, w) :: owners[w]
  }

  /** The set `extract_mentioned_tickers(title, desc)` returns, as a set. */
  function MentionsOf(table: seq<TickerQuery>, title: string, desc: string): set<string> {
    SymbolMentions(table, Upper(title + " " + desc)) + KeywordMentions(KeywordOwners(table), title + " " + desc)
  }

  lemma SymbolMentionsStep(table: seq<TickerQuery>, combined: string, i: nat)
    requires i < |table|
    ensures var t := table[i].ticker;
      SymbolMentions(table[..i + 1], combined)
        == SymbolMentions(table[..i], combined) + (if |t| >= 3 && Contains(combined, t) then {t} else {})
  {
    assert forall k :: 0 <= k < i ==> table[..i + 1][k] == table[..i][k];
  }

  lemma KeywordOwnersStep(table: seq<TickerQuery>, i: nat)
    requires i < |table|
    ensures KeywordOwners(table[..i + 1]) == KeywordOwners(table[..i]) + WordsOwnedBy(Split(table[i].query), table[i].ticker)
  {
    assert table[..i + 1][..i] == table[..i];
  }

  /** Adding one word to the words already processed, all mapped to the same ticker. */
  lemma WordStep(base: map<string, string>, words: seq<string>, j: nat, t: string)
    requires j < |words|
    ensures base + WordsOwnedBy(words[..j + 1], t)
         == if |words[j]| >= 2 then (base + WordsOwnedBy(words[..j], t))[words[j] := t]
            else base + WordsOwnedBy(words[..j], t)
  {
    assert words[..j + 1] == words[..j] + [words[j]];
  }

  /** The first loop of `extract_mentioned_tickers`: symbols in the upper-cased text. */
  method ScanSymbols(table: seq<TickerQuery>, combined: string) returns (mentions: set<string>)
    ensures mentions == SymbolMentions(table, combined)
  {
    mentions := {};
    for i := 0 to |table|
      invariant mentions == SymbolMentions(table[..i], combined)
    {
      var t := table[i].ticker;
      SymbolMentionsStep(table, combined, i);
      if |t| >= 3 && Contains(combined, t) {
        mentions := mentions + {t};
      }
    }
    assert table[..|table|] == table;
  }

  /** The nested loops of `extract_mentioned_tickers` that fill `kr_to_ticker`. */
  method BuildKeywordOwners(table: seq<TickerQuery>) returns (owners: map<string, string>)
    ensures owners == KeywordOwners(table)
  {
    owners := map[];
    for i := 0 to |table|
      invariant owners == KeywordOwners(table[..i])
    {
      var t := table[i].ticker;
      var words := Split(table[i].query);
      ghost var base := owners;
      for j := 0 to |words|
        invariant owners == base + WordsOwnedBy(words[..j], t)
      {
        WordStep(base, words, j, t);
        if |words[j]| >= 2 {
          owners := owners[words[j] := t];
        }
      }
      assert words[..|words|] == words;
      KeywordOwnersStep(table, i);
    }
    assert table[..|table|] == table;
  }

  /** The last loop of `extract_mentioned_tickers`: keywords found in the text. */
  method ScanKeywords(owners: map<string, string>, text: string, found: set<string>) returns (mentions: set<string>)
    ensures mentions == found + KeywordMentions(owners, text)
  {
    mentions := found;
    var keys := owners.Keys;
    while keys != {}
      invariant keys <= owners.Keys
      invariant mentions == found + set w | w in owners && w !in keys && Contains(text, w) :: owners[w]
      decreases keys
    {
      var w :| w in keys;
      if Contains(text, w) {
        mentions := mentions + {owners[w]};
      }
      keys := keys - {w};
    }
  }

  /** `extract_mentioned_tickers(title, desc)`, its three loops in order. */
  method ExtractMentionedTickers(table: seq<TickerQuery>, title: string, desc: string) returns (mentions: set<string>)
    ensures mentions == MentionsOf(table, title, desc)
  {
    var symbols := ScanSymbols(table, Upper(title + " " + desc));
    var owners := BuildKeywordOwners(table);
    mentions := ScanKeywords(owners, title + " " + desc, symbols);
  }

  /** Every keyword is owned by a ticker of the table. */
  lemma {:induction false} OwnersAreTickers(table: seq<TickerQuery>)
    ensures forall w :: w in KeywordOwners(table) ==> KeywordOwners(table)[w] in TickerSet(table)
    decreases |table|
  {
    if table != [] {
      var n := |table| - 1;
      OwnersAreTickers(table[..n]);
      assert forall k :: 0 <= k < n ==> table[..n][k] == table[k];
    }
  }

  /** `w` is a keyword of the entry's query: one of its words, two or more characters long. */
  predicate IsKeywordOf(e: TickerQuery, w: string) {
    w in Split(e.query) && |w| >= 2
  }

  lemma WordsOwnedByDomain(words: seq<string>, t: string, w: string)
    ensures w in WordsOwnedBy(words, t) <==> w in words && |w| >= 2
  {
  }

  /** The keywords are exactly the two-or-more-character words of the table's queries. */
  lemma {:induction false} KeywordOwnersDomain(table: seq<TickerQuery>, w: string)
    ensures w in KeywordOwners(table) <==> exists k :: 0 <= k < |table| && IsKeywordOf(table[k], w)
    decreases |table|
  {
    if table == [] {
      assert KeywordOwners(table) == map[];
    } else {
      var n := |table| - 1;
      var prefix := table[..n];
      KeywordOwnersDomain(prefix, w);
      assert KeywordOwners(table) == KeywordOwners(prefix) + WordsOwnedBy(Split(table[n].query), table[n].ticker);
      if w in KeywordOwners(table) {
        if w in KeywordOwners(prefix) {
          var k :| 0 <= k < n && IsKeywordOf(prefix[k], w);
          assert prefix[k] == table[k];
          assert IsKeywordOf(table[k], w);
        } else {
          WordsOwnedByDomain(Split(table[n].query), table[n].ticker, w);
        }
      }
      if exists k :: 0 <= k < |table| && IsKeywordOf(table[k], w) {
        var k :| 0 <= k < |table| && IsKeywordOf(table[k], w);
        if k < n {
          assert prefix[k] == table[k];
          assert w in KeywordOwners(prefix);
        } else {
          assert k == n;
          WordsOwnedByDomain(Split(table[n].query), table[n].ticker, w);
        }
      }
    }
  }

  /**
    A keyword shared by several queries belongs to the last table entry that has it,
    because each later entry overwrites the map entry.
  */
  lemma {:induction false} LastOwnerWins(table: seq<TickerQuery>, i: nat, w: string)
    requires i < |table| && w in Split(table[i].query) && |w| >= 2
    requires forall j :: i < j < |table| ==> w !in Split(table[j].query)
    ensures w in KeywordOwners(table) && KeywordOwners(table)[w] == table[i].ticker
    decreases |table|
  {
    var n := |table| - 1;
    if i < n {
      LastOwnerWins(table[..n], i, w);
    }
  }

  /** Every mentioned ticker is a ticker of the table. */
  lemma MentionsAreTickers(table: seq<TickerQuery>, title: string, desc: string)
    ensures MentionsOf(table, title, desc) <= TickerSet(table)
  {
    OwnersAreTickers(table);
  }

  /** A ticker of three or more characters found in the upper-cased text is mentioned. */
  lemma SymbolMentioned(table: seq<TickerQuery>, title: string, desc: string, k: nat)
    requires k < |table| && |table[k].ticker| >= 3
    requires Contains(Upper(title + " " + desc), table[k].ticker)
    ensures table[k].ticker in MentionsOf(table, title, desc)
  {
  }

  /**
    A keyword found in the text mentions its owner, and nothing excludes the ticker
    the article was collected for: an article about a company that names the company
    mentions it.
  */
  lemma KeywordMentioned(table: seq<TickerQuery>, title: string, desc: string, i: nat, w: string)
    requires i < |table| && w in Split(table[i].query) && |w| >= 2
    requires forall j :: i < j < |table| ==> w !in Split(table[j].query)
    requires Contains(title + " " + desc, w)
    ensures table[i].ticker in MentionsOf(table, title, desc)
  {
    LastOwnerWins(table, i, w);
  }

  lemma SharedWordIsKeyword()
    ensures "반도체" in Split("인텔 반도체")
  {
    var a, b := "인텔", "반도체";
    assert NoSpace(a) && NoSpace(b);
    SplitTwoWords(a, b);
    assert a + " " + b == "인텔 반도체";
  }

  lemma SharedWordInText()
    ensures Contains("반도체 업황" + " " + "", "반도체")
  {
    assert OccursAt("반도체 업황" + " " + "", "반도체", 0);
  }

  /**
    With the queries "ARM 반도체" and "인텔 반도체" in this order, the shared word "반도체"
    belongs to INTC, and text containing it mentions INTC.
  */
  lemma SharedKeywordGoesToLast()
    ensures var table := [TickerQuery("ARM", "ARM 반도체"), TickerQuery("INTC", "인텔 반도체")];
      var owners := KeywordOwners(table);
      "반도체" in owners && owners["반도체"] == "INTC" && "INTC" in MentionsOf(table, "반도체 업황", "")
  {
    var table := [TickerQuery("ARM", "ARM 반도체"), TickerQuery("INTC", "인텔 반도체")];
    SharedWordIsKeyword();
    SharedWordInText();
    LastOwnerWins(table, 1, "반도체");
    KeywordMentioned(table, "반도체 업황", "", 1, "반도체");
  }
}
