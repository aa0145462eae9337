# Daily news collector: a verified model

This project models the daily news collector of a NASDAQ-100 dashboard,
`scripts/fetch_news.py`, in Dafny. For every ticker of `TICKER_QUERIES`, the script
does the following:

- It searches a news service with two queries.
- It keeps up to 10 new articles from allowed financial news sites. It cleans their
  HTML and detects which tickers they mention.
- It merges the new articles into the ticker's stored list, deduplicating by URL with
  the new article winning.
- It drops articles older than 90 days.

After the last ticker, it recomputes the co-mention counts of ticker pairs over the
whole store, together with a few statistics.

The model has one module per concern.

- `Text` holds the Python string built-ins the script uses: `in`, `strip()`,
  `split()`, `replace()`, ASCII `upper()`/`lower()`, slicing and `split("T")[0]`.
- `Seqs` holds subsequences and an order-preserving filter.
- `Dicts` models an insertion-ordered Python dict. Its keys are a sequence and its
  values a map.
- `StrOrder` holds Python's `<` on strings and `sorted()` of a set.
- `Calendar` holds naive datetimes, their order, day numbers and the cutoff
  `now - timedelta(days=90)`.
- `IsoDates` holds `isoformat()` and `strptime(s, "%Y-%m-%d")`.
- `Html` is `clean_html`.
- `Sources` is `ALLOWED_DOMAINS` and `is_allowed_source`.
- `Mentions` is `TICKER_QUERIES` and `extract_mentioned_tickers`.
- `Retention` is `parse_date` and `is_within_retention`.
- `Articles` is the article record and `merge_articles`.
- `CoMentions` is `calculate_co_mentions`.
- `Collector` is the per-ticker batch loop, the update loop of `main()`, and the
  statistics.

Parts of the code work by updating state in loops: the merge, the co-mention count,
mention extraction, and the batch and update loops of `main()`. Each of these is a
method with loop invariants. The method is proved equal to a function, and the
properties are lemmas about that function.

Some behaviours of the code are worth stating plainly:

- Deduplication is by exact URL only. There is no URL canonicalisation,
  title-based near-duplicate check, relevance filter, domain block-list, or cleaning
  pass over stored data.
- Only the tickers of the table have their stored lists merged and re-filtered.
- An article's mentions may include the ticker the article was collected for.
- Query keywords are matched against the original-case text. Only the ticker
  symbols are matched against the upper-cased text.
- In the co-mention result, equal counts keep first-insertion order, because the
  sort on `-count` is stable (`CoMentions.CoMentionCountsResult`).
- The cutoff keeps the run's time of day, while an ISO date is read as midnight. An
  ISO date on the cutoff's own day is therefore dropped unless the run started at
  00:00:00 (`Retention.IsoDayBoundary`, `Retention.NinetyDayWindow`).

## Model

| member | source | states |
|---|---|---|
| Sources.AnyOccurs | scripts/fetch_news.py:43 | `any(d in hay for d in domains)` holds exactly when some domain of the list occurs in `hay` |
| Sources.IsAllowedSource | scripts/fetch_news.py:39-43 | a URL is accepted iff it is non-empty and one of the 13 domains occurs in its lower-cased text; the empty URL is rejected |
| Sources.DomainsAreLowercase | scripts/fetch_news.py:23-37 | every allowed domain is already lower-case |
| Sources.DomainAnywhereAccepted | scripts/fetch_news.py:42-43 | any text containing an allowed domain anywhere (host, path or query) is accepted |
| Sources.CaseInsensitive | scripts/fetch_news.py:42 | a URL and its lower-cased form get the same verdict |
| Text.Strip | scripts/fetch_news.py:116 | `strip()` returns a slice of the input with only whitespace cut on both sides, and the result neither starts nor ends with whitespace |
| Text.ReplaceAll | scripts/fetch_news.py:113-115 | `replace` leaves text without the pattern unchanged and never lengthens it when the replacement is shorter |
| Text.ReplaceAllSkips | scripts/fetch_news.py:113-115 | a stretch in which no occurrence of the pattern starts is copied unchanged, and replacing goes on after it |
| Text.ReplaceAllFirst | scripts/fetch_news.py:113-115 | the first occurrence of the pattern is replaced, the text before it is kept, and replacing resumes right after the occurrence |
| Text.Split | scripts/fetch_news.py:161 | `split()` yields non-empty words without whitespace whose concatenation is the input with whitespace removed |
| Text.SplitSkipsSpace | scripts/fetch_news.py:161 | leading whitespace does not change the words |
| Text.SplitFirstWord | scripts/fetch_news.py:161 | a word followed by whitespace is the first word, and splitting goes on after it: words are the maximal non-blank runs |
| Text.SplitOneWord | scripts/fetch_news.py:161 | text without whitespace is a single word |
| Text.SplitTwoWords | scripts/fetch_news.py:161 | a two-word query such as `"인텔 반도체"` splits into exactly those two words |
| Text.Take | scripts/fetch_news.py:275 | `desc[:200]` is the input's prefix of length at most 200, and the whole input when it is shorter |
| Text.BeforeFirst | scripts/fetch_news.py:142 | `split("T")[0]` is the prefix before the first `T` and contains no `T` |
| Text.Upper | scripts/fetch_news.py:153 | `upper()` maps each character, keeping the length |
| Text.Lower | scripts/fetch_news.py:42 | `lower()` maps each character, keeping the length |
| Html.StripTags | scripts/fetch_news.py:112 | removing `<[^>]+>` never lengthens the text |
| Html.DecodeEntities | scripts/fetch_news.py:113-115 | the five replacements never lengthen the text and leave text without `&` unchanged |
| Html.DecodeSingleLessThan | scripts/fetch_news.py:113-115 | one `&lt;` in text with no other `&` becomes `<`, with everything around it unchanged |
| Html.NextClose | scripts/fetch_news.py:112 | the first `>` at or after a position, or the end of the text |
| Html.CleanHtml | scripts/fetch_news.py:111-116 | the cleaned text has no leading or trailing whitespace |
| Html.StripTagsIsSubseq | scripts/fetch_news.py:112 | removing `<[^>]+>` keeps a subsequence of the input, in order |
| Html.StripTagsTagFree | scripts/fetch_news.py:112 | no match of `<[^>]+>` is left after removal |
| Html.StripTagsOfTagFree | scripts/fetch_news.py:112 | text without a match is left unchanged |
| Html.StripTagsIdempotent | scripts/fetch_news.py:112 | removing tags twice is removing them once |
| Html.StripTagsKeepsNoClose | scripts/fetch_news.py:112 | removing tags never introduces a `>` |
| Html.CleanPlainText | scripts/fetch_news.py:111-116 | text without `<` or `&` is only stripped of surrounding whitespace |
| Html.DoublyEscapedLessThan | scripts/fetch_news.py:113-116 | because `&amp;` is decoded before `&lt;`, `clean_html("&amp;lt;")` is `"<"` |
| Mentions.SymbolMentions | scripts/fetch_news.py:153-157 | symbol mentions are table tickers of three or more characters that occur in the upper-cased text |
| Mentions.ScanSymbols | scripts/fetch_news.py:153-157 | the symbol loop adds exactly the tickers of three or more characters that occur in the upper-cased text |
| Mentions.BuildKeywordOwners | scripts/fetch_news.py:159-163 | the keyword loop builds exactly `KeywordOwners(table)`, each word of two or more characters mapped to the last ticker using it |
| Mentions.ScanKeywords | scripts/fetch_news.py:158-166 | the keyword pass adds exactly the owners of keywords occurring in the original-case text |
| Mentions.ExtractMentionedTickers | scripts/fetch_news.py:152-167 | the returned set is the symbol mentions plus the keyword mentions |
| Mentions.MentionsAreTickers | scripts/fetch_news.py:152-167 | every mention is a ticker of the table |
| Mentions.OwnersAreTickers | scripts/fetch_news.py:159-163 | every keyword owner is a ticker of the table |
| Mentions.KeywordOwnersDomain | scripts/fetch_news.py:160-163 | a word is a keyword iff some query has it as a word of two or more characters |
| Mentions.LastOwnerWins | scripts/fetch_news.py:160-163 | a keyword shared by several queries belongs to the last table entry using it |
| Mentions.SymbolMentioned | scripts/fetch_news.py:155-157 | a ticker of three or more characters occurring in the upper-cased text is mentioned |
| Mentions.KeywordMentioned | scripts/fetch_news.py:164-166 | the last owner of a keyword occurring in the text is mentioned |
| Mentions.SharedKeywordGoesToLast | scripts/fetch_news.py:160-166 | with `ARM` before `INTC`, the shared word `반도체` belongs to `INTC`, and a text with that word mentions `INTC` |
| Retention.ParseDate | scripts/fetch_news.py:119-132 | `None` exactly for the empty input; the input itself when the RFC 2822 parser fails |
| Retention.IsWithinRetention | scripts/fetch_news.py:135-149 | a missing or empty date, an unreadable `%Y-%m-%d` prefix before the first `T`, and an unreadable RFC 2822 date all keep the article |
| Retention.RetentionOfParsedDate | scripts/fetch_news.py:119-149 | a date that `parse_date` produced from a readable RFC 2822 date is kept exactly when its calendar day at midnight is not before the cutoff |
| Retention.BeforeAcrossDays | scripts/fetch_news.py:147 | between different calendar days, comparing datetimes is comparing days |
| Retention.IsoDayBoundary | scripts/fetch_news.py:140-147 | an ISO date is kept iff its day is after the cutoff's day, or is the cutoff's day and the cutoff is at midnight |
| Retention.NinetyDayWindow | scripts/fetch_news.py:143-233 | with the cutoff of `now`, an ISO date is kept iff it is fewer than 90 days before `now`'s day, or exactly 90 days before and `now` is midnight |
| Calendar.BeforeIsStrictOrder | scripts/fetch_news.py:147 | Python's `<` on naive datetimes (`Calendar.Before`) is irreflexive, asymmetric, transitive and total |
| Calendar.Ordinal | scripts/fetch_news.py:147 | `toordinal()` places a day within its year's range of day numbers, with 0001-01-01 as day 1 |
| Calendar.PrevDay | scripts/fetch_news.py:233 | the previous day is valid, keeps the time of day and has day number one less |
| Calendar.MinusDays | scripts/fetch_news.py:233 | subtracting `n` days keeps the time of day and lowers the day number by `n` |
| Calendar.Cutoff | scripts/fetch_news.py:233 | the cutoff is valid, has `now`'s time of day and lies 90 days earlier |
| Calendar.DateOrderIsDayOrder | scripts/fetch_news.py:147 | midnights compare as their day numbers do |
| IsoDates.Pad | scripts/fetch_news.py:126 | zero padding gives exactly `width` digits that read back as `n` |
| IsoDates.FormatDate | scripts/fetch_news.py:126 | the date part of `isoformat()` has 10 characters and no `T` |
| IsoDates.IsoFormat | scripts/fetch_news.py:126 | `isoformat()` contains `T`, and the part before its first `T` is the date part |
| IsoDates.ParseIsoDate | scripts/fetch_news.py:143 | a date `strptime` accepts is valid and at midnight |
| IsoDates.ParseFormattedDate | scripts/fetch_news.py:126-143 | `strptime("%Y-%m-%d")` reads back exactly the date `isoformat()` wrote |
| Articles.MergeArticles | scripts/fetch_news.py:187-206 | the two loops compute `Merged(existing, incoming)`, one left-to-right dedup of `incoming + existing` |
| Articles.DedupUrlsFresh | scripts/fetch_news.py:195-204 | kept articles have non-empty URLs not seen before the scan |
| Articles.DedupDistinct | scripts/fetch_news.py:189-204 | no URL is kept twice |
| Articles.DedupUrlSet | scripts/fetch_news.py:189-204 | the kept URLs are exactly the non-empty input URLs not seen before |
| Articles.DedupIsSubseq | scripts/fetch_news.py:189-204 | the output is an order-preserving subsequence of the input |
| Articles.DedupMembers | scripts/fetch_news.py:189-204 | an article is kept iff it is the first of the input with its (non-empty, unseen) URL |
| Articles.DedupOfDistinct | scripts/fetch_news.py:189-204 | input with distinct, non-empty, unseen URLs is kept whole |
| Articles.MergedUrls | scripts/fetch_news.py:187-206 | the merge has distinct non-empty URLs, covers every non-empty URL of either list, and is a subsequence of `new + existing` |
| Articles.NewArticleWins | scripts/fetch_news.py:192-197 | when URLs collide, the kept article is the first new one with that URL |
| Articles.FirstOfUrlKept | scripts/fetch_news.py:189-204 | the first article with each non-empty URL is kept |
| Articles.MergeIdempotent | scripts/fetch_news.py:187-206 | merging a merge result with no new articles returns it unchanged |
| Seqs.Filter | scripts/fetch_news.py:295 | the comprehension keeps exactly the elements satisfying the test |
| Seqs.FilterIsSubseq | scripts/fetch_news.py:295 | filtering keeps the order |
| Seqs.FilterNarrower | scripts/fetch_news.py:224-226 | filtering by a stronger test after a weaker one is filtering by the stronger one |
| StrOrder.LexLess | scripts/fetch_news.py:217 | Python's `<` on strings never holds between equal strings, and the empty string is below every other |
| StrOrder.LexTransitive | scripts/fetch_news.py:217 | Python's `<` on strings is transitive |
| StrOrder.LexTotal | scripts/fetch_news.py:217 | two different strings are ordered one way or the other |
| StrOrder.SortedOf | scripts/fetch_news.py:217 | `sorted(s)` is strictly increasing with exactly the members of `s` |
| StrOrder.SortedUnique | scripts/fetch_news.py:217 | a set has only one increasing enumeration |
| StrOrder.SortedList | scripts/fetch_news.py:217 | taking the least element until none is left yields `sorted(s)` |
| Dicts.Put | scripts/fetch_news.py:221 | `d[k] = v` binds `k` to `v`, leaves other keys alone and keeps the dict well formed; an existing key keeps its place in the order and a new key goes last |
| Dicts.Items | scripts/fetch_news.py:225 | `items()` lists the keys in insertion order with their values |
| Dicts.ItemsBindings | scripts/fetch_news.py:225 | a pair is among the items iff the dict binds that key to that value |
| CoMentions.CalculateCoMentions | scripts/fetch_news.py:209-227 | the nested loops and the final sort and filter compute `CoMentionCounts(stocks)` |
| CoMentions.TallyGet | scripts/fetch_news.py:221 | after counting a key stream, a key holds its number of occurrences, and is absent only if it never occurred |
| CoMentions.TallyFromKeys | scripts/fetch_news.py:221 | counting appends keys to the dict in order of first occurrence |
| CoMentions.InsertDescStable | scripts/fetch_news.py:225 | inserting by count keeps the relative order of equal counts |
| CoMentions.InsertDesc | scripts/fetch_news.py:225 | one insertion step of the sort adds exactly one entry |
| CoMentions.SortDesc | scripts/fetch_news.py:225 | the sort keeps the number of entries (its order and permutation facts are `SortDescSorts`) |
| CoMentions.SortDescSorts | scripts/fetch_news.py:225 | `sorted(key=-count)` is a permutation, non-increasing in count, and stable for each count |
| CoMentions.SortDescDistinct | scripts/fetch_news.py:225 | sorting keeps keys distinct |
| CoMentions.CoMentionCountsResult | scripts/fetch_news.py:209-227 | the result holds `(k, v)` iff `v >= 2` and `k` occurs `v` times among all pair keys; keys are distinct, counts non-increasing, equal counts in first-insertion order |
| CoMentions.PairKeyInjective | scripts/fetch_news.py:220 | for dash-free first tickers, `"A-B"` determines `A` and `B` |
| CoMentions.PairKeysCount | scripts/fetch_news.py:218-220 | the pair keys of a sorted, dash-free list contain `"x-y"` (with `x < y`) once if both occur and never otherwise |
| CoMentions.KeyStreamCount | scripts/fetch_news.py:213-221 | over all entries, `"x-y"` is counted once per (ticker, article) set holding both `x` and `y` |
| CoMentions.CoMentionPairCount | scripts/fetch_news.py:209-227 | for dash-free tickers and `x < y`, `("x-y", v)` is in the result iff `v >= 2` and `v` is the number of entries whose set holds both |
| CoMentions.CoMentionKeys | scripts/fetch_news.py:215-226 | every result key is `"x-y"` with `x < y`, and its value counts the entries holding both |
| Collector.ItemUrl | scripts/fetch_news.py:261 | `originallink or link`: the original link when it is non-empty, otherwise the link; empty only when both are |
| Collector.Queries | scripts/fetch_news.py:257 | the two queries: the table query, then the ticker followed by `" 주가"` |
| Collector.MakeArticle | scripts/fetch_news.py:261-279 | the record has the item's URL, the parsed date, a description of at most 200 characters, and mentions among the table's tickers |
| Collector.BuildArticle | scripts/fetch_news.py:268-279 | the statements building a record compute `MakeArticle` |
| Collector.ScanItems | scripts/fetch_news.py:260-282 | the item loop either ends below 10 articles with the scan continuing exactly as one scan from the start, or stops at the first 10 of that scan; only allowed URLs are marked seen |
| Collector.CollectBatch | scripts/fetch_news.py:254-286 | the two queries' loops produce `BatchOf`: the first 10 articles accepted from both responses |
| Collector.AcceptedUrls | scripts/fetch_news.py:261-266 | the scan keeps exactly the allowed URLs not seen before |
| Collector.AcceptedDistinct | scripts/fetch_news.py:262-266 | the scan keeps each URL once |
| Collector.AcceptedKept | scripts/fetch_news.py:261-279 | every kept article has an allowed URL and is built from one of the items |
| Collector.BatchFacts | scripts/fetch_news.py:254-286 | a batch has at most 10 articles with distinct allowed URLs, each built from a response item; below 10, it covers every allowed URL of both responses |
| Collector.BatchUrls | scripts/fetch_news.py:262-266 | batch URLs are distinct and non-empty |
| Collector.Retained | scripts/fetch_news.py:295 | the comprehension keeps exactly the articles within retention, in their order |
| Collector.RunUpdate | scripts/fetch_news.py:247-297 | the loop over the table computes `RunOver`: each ticker's stored list replaced in turn, and the batch sizes summed |
| Collector.StepGet | scripts/fetch_news.py:291-297 | one pass sets its own ticker to the retained merge of its old list and batch, and changes no other key |
| Collector.RunOthers | scripts/fetch_news.py:249-297 | tickers outside the table keep their loaded lists |
| Collector.RunTicker | scripts/fetch_news.py:288-297 | each table ticker ends with `filter(is_within_retention, merge_articles(old[t], batch[t]))` |
| Collector.RunValid | scripts/fetch_news.py:297 | the store stays a well-formed dict |
| Collector.RunTodayNew | scripts/fetch_news.py:247-288 | `today_new` is at most 10 per ticker |
| Collector.NewListFacts | scripts/fetch_news.py:291-295 | a stored list has distinct non-empty URLs; it holds an article iff the merge holds it and it is within retention; it draws only on the batch and the old list; and it keeps every batch article within retention |
| Collector.TotalArticles | scripts/fetch_news.py:304 | the total is at least each list's length, and zero iff every list is empty |
| Collector.TickersWithNews | scripts/fetch_news.py:305 | the count is at most the number of tickers, and zero iff every list is empty |
| Collector.StatsBounds | scripts/fetch_news.py:304-305 | `tickers_with_news` is at most the number of tickers and of articles, and is zero iff no article is stored |
| Collector.UpdateNews | scripts/fetch_news.py:230-305 | the whole update: cutoff 90 days before `now`, the loop's store, co-mentions of the final store, and the four statistics |

## Left out

- `search_naver_news` and the credentials (scripts/fetch_news.py:17-18, 96-108) are
  network and configuration I/O. The search is the parameter `Search`, which gives
  the items for a query: `[]` when the request fails or the answer has no `items`.
  The page size `display=20` belongs to that function.
- `load_existing_news`, the output path, `os.makedirs`, the JSON dump and the file
  size (scripts/fetch_news.py:170-184, 240-243, 307-332) are file I/O. The loaded
  store is an input and the new store an output. The `updated`, `updated_kst` and
  `retention_days` fields are text formatting of `now`, and are not modelled.
- Console output (`print`) and `time.sleep(0.05)` (line 286) do not affect the data.
- `datetime.now(kst)` (line 232) is the parameter `now`: the Korea wall-clock time.
- `email.utils.parsedate_to_datetime` is the abstract parameter `RfcParser`. How it
  reads RFC 2822 dates, and which texts it rejects, is not modelled.
  `.replace(tzinfo=None)` is modelled as keeping the wall-clock fields.
- Text.Upper: maps only ASCII letters, not Python's full Unicode case mapping. Korean
  text and the ASCII ticker symbols are unaffected. Python also upper-cases some
  non-ASCII characters into ASCII letters: U+0131 DOTLESS I becomes `I`, and the
  ligature U+FB00 becomes `FF`. A text that spells a ticker symbol that way is a
  symbol mention in Python but not in `Mentions.SymbolMentions`.
- Text.Lower: maps only ASCII letters. Python also lowers some non-ASCII letters *into*
  ASCII: U+212A KELVIN SIGN becomes `k`, and U+0130 becomes `i` plus a combining dot.
  So a URL that spells an allowed domain with such a character (`han\u212Ayung.com`, with a
  Kelvin sign for the `k`) passes `is_allowed_source` in Python but is rejected by
  `Sources.IsAllowedSource`.
- IsoDates.ParseIsoDate: accepts only ASCII digits. Python's `\d` in `strptime` also
  accepts other Unicode decimal digits.
- Mentions.ExtractMentionedTickers: returns a set, because `list(set(...))` has no
  order the program relies on. Only the membership of the list is ever read.
- Calendar.Cutoff: requires `now` to be more than 90 days after 0001-01-01. Python
  raises `OverflowError` there.
- CoMentions.CoMentionPairCount: requires tickers without `-`. Otherwise two
  different pairs could render as the same key. The table's symbols have no `-`, but
  no lemma proves this about the 100-entry constant.
- Collector.RunTicker: requires the table's tickers to be distinct, as the keys of a
  Python dict are. This is not proved about the 100-entry constant.
- Collector.UpdateNews: takes the ticker table as a parameter. The program's own
  table is the constant `Mentions.TickerQueries`.
- The store is assumed to be a well-formed dict (`Dicts.Valid`): distinct keys in
  insertion order. Stored articles with missing fields are read as empty strings, or
  as `None` for the date.
- scripts/fetch_market_data.py and fetch_logos.py are not part of this model. They
  have no merge logic.
