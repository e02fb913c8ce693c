# Research assistant core, modelled in Dafny

This project models the processing core of the vocational-education research
assistant in `main.py`. Discovery hands it a list of candidate documents. The
core does the following:

- drops duplicate and weak candidates;
- fetches each candidate's text through a small URL-keyed cache (`MemoryManager`);
- writes an extractive Indonesian summary;
- mines statistics with regular expressions;
- scores each source from 0.0 to 5.0 and keeps those scoring at least 1.0;
- sorts the kept sources by score and cuts them to `max_sources`;
- tallies the final list for the metadata file.

The model has one module per concern:

| module | contents |
|---|---|
| `Options` | the optional value |
| `Text` | lower-casing, substring tests, `strip`, `split`, `join` and the sentence split |
| `Sorting` | the stable descending sort |
| `Records` | candidates, `Source` and the extracted-data dictionary |
| `Cache` | the class `MemoryManager` |
| `Scoring` | the relevance score |
| `DataPoints` | `extract_important_data` |
| `Summary` | `generate_summary_id` |
| `Pipeline` | the dedup filter, `extract_content`, `process_source_parallel` and the sequential part of `run_search`, inside the class `ResearchAssistant` |
| `Metadata` | the counting aggregates of `save_metadata` |

Scores are natural numbers in hundredths of a point, so 0.4 is 40 and the cap
5.0 is 500. Sentence scores are in halves of a point. Every weight and
threshold of the source is therefore exact.

The environment becomes parameters of the assistant:

- `web` says what fetching a URL yields: a failure, a PDF, or an HTML page given as its cleaned text;
- `findall` plays the part of `re.findall`;
- `currentYear` stands for the clock.

The only property assumed of `findall`, and only where a lemma needs it, is
this: a pattern finds nothing in a text that lacks the pattern's literal
anchor.

What the sequential loop of `run_search` adds is stated through three ghost
definitions in `Pipeline`:

- `SourceFrom` says that a source is the one `process_source_parallel` builds from a candidate and a text: the candidate's fields, the text, its summary, its data points and its score;
- `NewSourcesFrom` says that a list of sources is built, in order, from a list of candidates and the texts fetched for their URLs;
- `Gathered` picks the candidates that the loop turns into sources;
- `Scanned` counts the candidates the loop processes, and so claims, before the room fills up;
- `CacheOrderAfter` is the cache's key order once those candidates are processed.

The assistant's ghost field `keeps` says whether a candidate's fetched text
passes the gate of `process_source_parallel` (`Keeps`). Its invariant ties
the two together. The invariant also says that every cached text is the
text a fresh fetch of its URL yields, so the cache is fixed by its key order
(`CacheHolds`), and the contracts state the key order exactly.

## Model

| member | source | states |
|---|---|---|
| Text.Lower | main.py:615 | lower-casing keeps the length, lowers every character, and leaves no upper-case letter |
| Text.LoweredNeverContainsUpper | main.py:615-619 | a lower-cased text never contains a string with an upper-case letter in it |
| Text.CountContained | main.py:679 | the number of keywords found is at most the number of keywords, and zero exactly when none occurs |
| Text.CountContainedAppend | main.py:679 | counting over two keyword lists one after the other adds the two counts |
| Text.FirstContained | main.py:702-705 | the scan stops at the first keyword found: that keyword occurs and no earlier one does, and it finds none exactly when no keyword occurs |
| Text.Take | main.py:635 | `s[:n]` is the prefix of `s` of length `min(n, len(s))` |
| Text.Strip | main.py:610 | the stripped text is no longer than the original and neither begins nor ends with whitespace |
| Text.StripAfterLeadingSpaces | main.py:610 | stripping is stripping on the right what follows the leading whitespace run |
| Text.StripRemovesOnlySpace | main.py:610 | only surrounding whitespace is removed: the stripped text is, character for character, what follows the leading whitespace run, and everything after it is whitespace |
| Text.StripIsPiece | main.py:610 | the stripped text occurs inside the original |
| Text.Words | main.py:643 | `split()` yields non-empty runs without whitespace |
| Text.WordsOfJoin | main.py:646 | splitting words joined by single spaces gives the same words back |
| Text.WordsOfConcat | main.py:649-653 | prefixing a text that ends in whitespace prefixes its words, so the context sentence adds exactly its own words |
| Text.WordsOfJoinWithSuffix | main.py:646 | after gluing "..." to the 200 kept words there are still 200 words, with "..." on the last |
| Text.SplitSentences | main.py:598 | `re.split(r'[.!?]+')` yields one more piece than there are runs of '.', '!' and '?'; no piece contains one of them, and the pieces with the runs put back between them give the text back |
| Sorting.InsertDesc | main.py:634 | inserting keeps a permutation and keeps the keys non-increasing |
| Sorting.SortDesc | main.py:956 | the sort is a permutation of its input, with non-increasing keys |
| Sorting.InsertDescKeepsTies | main.py:956 | inserting an element keeps the relative order of the elements that share any key value |
| Sorting.SortDescIsStable | main.py:956 | the sort is stable: for every key value, the elements carrying it keep their input order |
| Records.FromCandidate | main.py:831-837 | a new `Source` copies the candidate's five fields and has the dataclass defaults |
| Cache.MemoryManager.constructor | main.py:101-111 | a new manager has an empty cache |
| Cache.MemoryManager.SizeIsEntryCount | main.py:121 | `len(content_cache)` equals the length of the key order |
| Cache.MemoryManager.GetContent | main.py:125-135 | `get_content` returns the cached text exactly when the URL is cached |
| Cache.MemoryManager.Store | main.py:123 | assigning a key maps it to the text, appends a new key to the order and leaves an existing key in place |
| Cache.MemoryManager.Delete | main.py:143-144 | deleting a key removes it from the map and from its place in the order |
| Cache.MemoryManager.CleanupCache | main.py:137-146 | cleanup keeps exactly the older half of the keys (`len // 2`), with their texts unchanged |
| Cache.MemoryManager.AddContent | main.py:113-123 | a full cache is first halved, then the URL maps to the text; the other survivors keep their texts, and a cache within its bound stays within it |
| Scoring.TitlePoints | main.py:672-680 | the title term is at most 2.5, and reaches 2.5 exactly when at least seven title keywords occur |
| Scoring.ContentPoints | main.py:682-693 | the content term is at most 1.5, is zero for empty content, and is zero exactly when no content phrase occurs |
| Scoring.AuthorityBonus | main.py:695-707 | the authority term is 0 or 1.0, and 1.0 exactly when some credible domain occurs in the lower-cased URL |
| Scoring.RecencyMonotone | main.py:709-717 | a later year never gets a smaller recency bonus; the bonus is 0.3 within one year and 0 beyond three |
| Scoring.RelevanceScore | main.py:659-729 | the score is at most 5.0 and at least the authority bonus; reaching 1.0 needs the authority bonus, a title keyword or a content phrase |
| Scoring.TitleSmkNeverMatches | main.py:673-679 | the keyword "SMK" is tested against the lower-cased title, so it never matches and at most 16 of the 17 keywords count |
| Scoring.ScoreReadsOnlyScoredFields | main.py:659-729 | sources that agree on title, content, URL and year get the same score |
| DataPoints.FirstMatchIndex | main.py:790-794 | the chosen pattern is the first that matches: it matches, every earlier one finds nothing, and there is none exactly when no pattern matches |
| DataPoints.AllMatches | main.py:810-812 | the growth list is empty exactly when no growth pattern matches |
| DataPoints.YearGroups | main.py:797 | every year group is "2" and a digit from 0 to 5, and "20" followed by it occurs in the text |
| DataPoints.YearGroupsFound | main.py:797 | there is a year group exactly when some year from 2020 to 2025 is written in the text |
| DataPoints.FirstMatch | main.py:790-794 | the inner pattern loop returns the first match of the first matching pattern, or nothing when none matches |
| DataPoints.CollectGrowth | main.py:809-812 | the growth loop gathers every growth pattern's matches, in pattern order |
| DataPoints.AddMetrics | main.py:789-794 | each metric gets the first match of its first matching pattern, or no entry; other keys are untouched |
| DataPoints.ExtractImportantData | main.py:731-818 | the dictionary has percentages (at most 8) and numbers (at most 15), and each metric as above; 'years_mentioned' is present exactly when a year occurs and holds the distinct year groups; 'growth_indicators' is present exactly when a growth pattern matches and holds the first three matches |
| DataPoints.SmkPatternsNeverMatch | main.py:753-791 | the upper-case "SMK" patterns never match the lower-cased content, so the school count comes only from the third pattern and the participation rate never from the first |
| Summary.SentenceScoreZero | main.py:614-630 | a sentence scores zero exactly when it has no keyword, no digit and no mention of Indonesia |
| Summary.SentenceSmkNeverMatches | main.py:602-620 | "SMK" never matches the lower-cased sentence, so a sentence scores at most 16.5 points |
| Summary.ScoredSentences | main.py:608-631 | every kept sentence is at least 20 characters long, scores above zero, and carries its own score |
| Summary.ScoredSentencesArePicked | main.py:609-631 | the scored list is the entries of the qualifying pieces, in pool order |
| Summary.ScoredPositions | main.py:609-631 | each scored sentence is the entry of a qualifying piece at a recorded pool position; the positions rise, and every qualifying piece's position is among them |
| Summary.ScoredSentencesComplete | main.py:609-631 | every piece that, once stripped, is long enough and scores has its entry in the scored list |
| Summary.ScoredSentencesEmpty | main.py:630-638 | nothing is scored exactly when no piece of the pool, once stripped, is long enough and scores |
| Summary.ScoredSentencesFromPool | main.py:609-631 | every scored sentence is a stripped piece of the pool |
| Summary.TopSentencesAreBest | main.py:634-635 | the top seven and the rest are exactly the scored sentences, and no chosen sentence scores lower than one left out |
| Summary.SelectionBounds | main.py:633-638 | at most seven sentences are selected; when any scored, each selected one is long enough and scores |
| Summary.ScoreSentences | main.py:608-631 | the scoring loop yields, in pool order, the stripped pieces that are long enough and score, each with its score |
| Summary.SelectSentences | main.py:598-638 | the ranking loop computes the selection: the seven best (ties in order), or the first three pieces when none scored |
| Summary.CapWords | main.py:645-646 | a text over 200 words becomes its first 200 words with "..." on the last; a shorter one is unchanged |
| Summary.FitSummary | main.py:642-657 | the adjusted summary has at most 200 words; a text of 50 to 200 words is unchanged, a shorter one gets the context sentence in front and is capped |
| Summary.GenerateSummaryId | main.py:586-657 | the summary is the adjusted join of the selected sentences and has at most 200 words |
| Pipeline.FetchedContent | main.py:534-584 | a page's text is kept whole up to 10000 characters and otherwise cut to 10000 plus "..."; a failure gives "" and a PDF the fixed notice |
| Pipeline.OnlyPagesKept | main.py:849 | a failed fetch or a PDF never yields a source: "" and the 49-character PDF notice are not over 50 characters |
| Pipeline.Kept | main.py:905-915 | the duplicate filter without its quota never returns more candidates than it is given |
| Pipeline.KeptSound | main.py:912-914 | every kept candidate has a URL and a title of more than ten characters, and no URL is kept twice |
| Pipeline.KeptCoversAcceptable | main.py:908-914 | the URL of every acceptable candidate is among the kept URLs |
| Pipeline.KeptPositions | main.py:908-914 | every kept candidate is an element of the input at a recorded position |
| Pipeline.KeptPositionsRise | main.py:908-914 | kept candidates keep their input order |
| Pipeline.KeptFirstOccurrenceWins | main.py:912-914 | a kept candidate is the first acceptable one with its URL |
| Pipeline.KeptOfPrefix | main.py:916-917 | stopping the filter early yields a prefix of what it would keep on the whole input |
| Pipeline.Quota | main.py:916 | the stop test `len >= max_sources * 1.5` fires at the first count with `2 * count >= 3 * max_sources` (at least one) |
| Pipeline.UniqueCandidates | main.py:905-917 | the filter loop yields the first `Quota(max_sources)` candidates of the unbounded filter |
| Pipeline.UniqueCandidatesSound | main.py:905-917 | the filter's output is an ordered choice of acceptable candidates, each the first with its URL, with no URL twice and at most the quota; when it stops short of the quota it has every acceptable URL |
| Pipeline.UrlsDistinctPermutation | main.py:956 | reordering sources keeps their URLs distinct |
| Pipeline.Analyse | main.py:849-857 | a long enough text is summarised, mined and scored; the score equals that of the bare fetched source, since it reads neither summary nor data |
| Pipeline.Assess | main.py:849-863 | a source is kept only when its stripped text is over 50 characters and it scores at least 1.0; a long text refused scored below 1.0; a kept one carries the candidate's fields, its summary, its data and its own score |
| Pipeline.AppendKeepsSourcesOk | main.py:949-951 | appending a kept source whose URL was unclaimed, and claiming it, keeps the list sound: bounded, claimed, scored 1.0 to 5.0, URLs distinct |
| Pipeline.RankKeepsSourcesOk | main.py:956-957 | sorting sound sources keeps them sound, and the cut to `max_sources` loses none |
| Pipeline.NewSourcesFromUrls | main.py:831-837 | each source built keeps the URL of its candidate |
| Pipeline.GatheredSourcesUnclaimed | main.py:840-843 | the sources built from the candidates picked have URLs that were unclaimed at the start |
| Pipeline.Gathered | main.py:945-951 | the candidates the sequential loop turns into sources: no more than the room left, each one of the input, unclaimed and kept |
| Pipeline.GatheredTaken | main.py:946-951 | while there is room, the next candidate is picked exactly when its URL is unclaimed and not seen earlier in the loop, and its text is kept |
| Pipeline.GatheredFull | main.py:946-947 | once the room is used up, the remaining candidates add nothing |
| Pipeline.GatheredComplete | main.py:945-951 | when the room is not used up, every unclaimed, first-seen candidate whose text is kept is picked |
| Pipeline.ScannedFromIsFirstFull | main.py:945-947 | the loop scans up to the first prefix after which the room is filled, or to the end; every shorter prefix left room |
| Pipeline.GatheredGrows | main.py:945-951 | scanning more candidates never picks fewer |
| Pipeline.ScannedIs | main.py:945-947 | the loop scans exactly `n` candidates when the room is filled after `n` (or `n` is the end) and was not after `n - 1` |
| Pipeline.CacheOrderAfter | main.py:840-843 | after the loop, the cache's keys are old keys or URLs of processed candidates that were unclaimed at the start |
| Pipeline.CacheOrderAfterStep | main.py:840-843 | one more candidate adds its URL with `add_content`'s key order exactly when it was unclaimed and the fetch gave a page |
| Pipeline.RankedSourcesOrigin | main.py:945-957 | after ranking, the sources are the earlier ones plus sources whose URLs were unclaimed at the start |
| Pipeline.ResearchAssistant.constructor | main.py:173-180 | a new assistant has no sources, no claimed URLs and an empty cache |
| Pipeline.ResearchAssistant.CacheHolds | main.py:93-146 | a sound cache maps each of its keys to the text a fresh fetch of that URL gives, so the key order fixes it |
| Pipeline.ResearchAssistant.ExtractContent | main.py:519-584 | the result is always the fetched content; a non-empty cached text is returned untouched; otherwise the fetched content is returned, and only a page's text is cached, with the key order `add_content` gives and the other entries unchanged |
| Pipeline.ResearchAssistant.ProcessSource | main.py:820-867 | a claimed URL is refused at once; otherwise the URL is claimed and a page is cached with `add_content`'s key order and the other entries unchanged; a source comes back exactly when the fetched text is kept (over 50 stripped characters, score at least 1.0), and it is the source built from the candidate and that text, scored 1.0 to 5.0 |
| Pipeline.ResearchAssistant.Admit | main.py:949-951 | one loop step claims the URL, caches a page of an unclaimed URL with `add_content`'s key order, and appends the source built from the candidate exactly when its URL was unclaimed and its text is kept, and nothing otherwise |
| Pipeline.ResearchAssistant.CollectSources | main.py:945-953 | the loop only appends, and what it appends are, in order, the sources built from the candidates `Gathered` picks; their URLs were unclaimed; exactly the URLs of the first `Scanned` candidates are claimed, and the cache's key order is `CacheOrderAfter` of them |
| Pipeline.ResearchAssistant.ProcessCandidates | main.py:945-951 | the loop processes exactly the first `Scanned` candidates, claims their URLs, leaves the key order `CacheOrderAfter` of them, and appends the sources built from what `Gathered` picks of them |
| Pipeline.ResearchAssistant.ProcessNext | main.py:946-951 | one turn of the loop carries the loop state from `n` candidates to `n + 1` |
| Pipeline.ResearchAssistant.RankSources | main.py:956-957 | the sources become their stable sort by non-increasing score |
| Pipeline.ResearchAssistant.CollectAndRank | main.py:945-957 | the sources become the stable sort of the old ones followed by the sources built from the candidates picked; none is lost, and every new one has an unclaimed URL; exactly the URLs of the candidates scanned are claimed, and the cache's key order is `CacheOrderAfter` of them |
| Pipeline.ResearchAssistant.RunSearch | main.py:869-961 | discovery's URLs are claimed; the sources become the stable sort of the old ones followed by the sources built from the candidates `Gathered` picks out of the deduplicated results; none is lost, no new one has a URL claimed before; the claimed URLs are exactly the old ones, discovery's and those of the candidates scanned; the cache keeps the older half of the keys the loop left, so it is at most half full |
| Pipeline.ResearchAssistant.HalveCache | main.py:959 | the cleanup keeps the older half of the keys with their texts, so at most half the capacity stays in use |
| Metadata.CountWherePartition | main.py:1368-1370 | three tests of which each element passes exactly one split a list into counts that add up to its length |
| Metadata.Scores | main.py:1362 | the score list has one entry per source, in order |
| Metadata.QualityBucketsPartition | main.py:1368-1370 | the high, medium and low quality counts add up to the number of sources |
| Metadata.Highest | main.py:1365 | the highest score is one of the scores and no score exceeds it |
| Metadata.Lowest | main.py:1366 | the lowest score is one of the scores and none is below it |
| Metadata.Median | main.py:1367 | the median is one of the scores, between the lowest and the highest |
| Metadata.MedianSplitsScores | main.py:1367 | in sorted order, no score before the median's place is smaller and none after it larger, with `len // 2` scores after it in ascending order |
| Metadata.AuthorTypeOf | main.py:1386-1390 | 'government' exactly when a government marker occurs in the lower-cased URL; 'international' exactly when none does and an international one does |
| Metadata.AuthorMarkersAreCredited | main.py:1386-1390 | every government or international source earned the authority bonus of the score |
| Metadata.DecimalInjective | main.py:1396 | different numbers are written differently |
| Metadata.RangeLabelSameRange | main.py:1396 | two scores get the same range label exactly when they have the same whole points |
| Metadata.TallyCounts | main.py:1374-1398 | each tally maps a key to the number of sources with that key, and has a key exactly when some source has it |
| Metadata.AuthorTypesPartition | main.py:1385-1393 | the author-type counts add up to the number of sources |
| Metadata.SourceDistribution | main.py:1374-1398 | the distribution loop fills the type, year, author-type and range dictionaries with the tallies of the sources |
| Metadata.TotalsVanishWithCounts | main.py:1400-1410 | the total content length and total metric count are at least the numbers of sources with content and with data, and zero exactly when those are |

## Left out

- Scoring.RelevanceScore: the model sums in exact hundredths, where the source sums floats. The two can differ at a threshold. Take a source with no title keyword, six content phrases, no credible domain and a recency bonus of 0.1. Python computes 0.9999999999999999 and rejects it; the model computes exactly 1.0 and keeps it.
- Text.Lower: only ASCII letters are lower-cased, where Python's `str.lower` covers all of Unicode. Digits are likewise ASCII only, where `\d` accepts every Unicode digit.
- Summary.GenerateSummaryId: besides its equality to `FitSummary` of the selected sentences, only the bound of at most 200 words is proved about the summary's length. The code does not keep the "100-200 words" of its docstring: a summary can end with as few as the context sentence's words.
- The thread-pool branch of `run_search` (main.py:922-940) is not modelled. `--parallel` is a `store_true` flag whose default is already true (main.py:1471), so that branch runs whenever there are more than five unique candidates. Only the sequential branch (main.py:942-953) is modelled. Concurrency is out of scope.
- Discovery (`search_google_scholar`, `search_government_sources`, `search_international_sources`) and the collection loop of `run_search` (main.py:880-902) are left out: they are network access and HTML scraping. Their output is the `allResults` parameter of `RunSearch`. The URLs they mark as processed (main.py:376, 468, 502) are its `discoveredUrls` parameter. Those URLs are then refused by `process_source_parallel` (main.py:840-841), which `RunSearch`'s contract shows.
- HTML parsing and text cleaning in `extract_content` (main.py:546-570) are left out: `web` delivers a page as its cleaned text. Response headers are reduced to "PDF or not", and any exception to a failed fetch.
- Regular-expression matching is abstract (`DataPoints.Matcher`). `DataPoints.Regex` records each pattern's text, but its semantics are not modelled. The year pattern and the sentence split are written out.
- `MemoryManager`'s `max_memory_bytes` and `current_memory` are never read. `gc.collect`, logging and `time.sleep` have no effect on the data. All of these are left out.
- The citation bonus of `calculate_relevance_score` (main.py:719-727) is dead code. `Source` has no `citations` attribute, so the bonus never applies.
- 'years_mentioned' is `list(set(...))`, whose order Python leaves unspecified, so it is modelled as a set.
- Metadata.SourceDistribution: 'by_year' is keyed by the year itself rather than by `str(year)`. The decimal text of an integer determines the integer, so the grouping is the same.
- The averages and the success rate of `save_metadata` are left out, because they are floating-point divisions. So are the rest of the report writers, the Excel export and the JSON files (main.py:973-1436), which are file I/O.
- `metadata` of `Source` is never filled by the core, so it is not modelled. `summaryEn` is modelled and stays empty, as the core never writes it.
- A candidate dictionary lacking a key is not modelled: every `Candidate` carries all five fields.
