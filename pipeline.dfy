/**
 * The candidate pipeline of `ResearchAssistant`: the duplicate filter of
 * `run_search` (main.py:905-917), `extract_content` reduced to its cache
 * and truncation logic (main.py:519-584), the per-candidate gate of
 * `process_source_parallel` (main.py:820-867) and the sequential
 * accumulation, sort and truncation of `run_search` (main.py:942-960).
 *
 * The world outside is given to the assistant when it is made: `web` says
 * what fetching a URL yields (an HTML page arrives as its cleaned text),
 * `findall` is the regular-expression matcher and `currentYear` the year
 * the clock would report.
 */
module Pipeline {
  import opened Options
  import opened Text
  import opened Sorting
  import opened Records
  import opened Cache
  import opened Scoring
  import opened DataPoints
  import opened Summary

  /** The outcome of fetching a URL. */
  datatype Fetched =
    | FetchFailed          // any network or HTTP error
    | PdfDocument          // a response whose content type is a PDF
    | Page(text: string)   // an HTML page, as its whitespace-normalised text

  const MaxContentLength: nat := 10000
  const PdfNotice: string := "PDF document - content extraction not implemented"
  const MinContentLength: nat := 50
  const MinRelevance: nat := 100

  /** The text `extract_content` returns for a fresh fetch. */
  function FetchedContent(f: Fetched): (r: string)
    ensures |r| <= MaxContentLength + 3
    ensures f.Page? && |f.text| <= MaxContentLength ==> r == f.text
    ensures f.Page? && |f.text| > MaxContentLength ==>
              |r| == MaxContentLength + 3 && r[..MaxContentLength] == f.text[..MaxContentLength] && r[MaxContentLength..] == "..."
    ensures f.FetchFailed? ==> r == ""
    ensures f.PdfDocument? ==> r == PdfNotice
  {
    match f
    case FetchFailed => ""
    case PdfDocument => PdfNotice
    case Page(text) =>
      if |text| > MaxContentLength then text[..MaxContentLength] + "..." else text
  }

  /** What the duplicate filter accepts on its own: a URL, and a title of more than ten characters. */
  predicate Acceptable(c: Candidate) {
    c.url != "" && |c.title| > 10
  }

  /** The URLs of `cs`. */
  function Urls(cs: seq<Candidate>): set<string> {
    if cs == [] then {} else Urls(cs[..|cs| - 1]) + {cs[|cs| - 1].url}
  }

  /** `Urls(cs)` holds the URL of every element of `cs`. */
  lemma {:induction false} UrlsHasElements(cs: seq<Candidate>)
    ensures forall k :: 0 <= k < |cs| ==> cs[k].url in Urls(cs)
  {
    if cs != [] {
      var init := cs[..|cs| - 1];
      UrlsHasElements(init);
      assert forall k :: 0 <= k < |init| ==> init[k] == cs[k];
    }
  }

  /**
   * The reference for the duplicate filter, without its stopping bound: the
   * acceptable candidates of `all` whose URL no earlier kept candidate has,
   * in their order.
   */
  function Kept(all: seq<Candidate>): (r: seq<Candidate>)
    ensures |r| <= |all|
  {
    if all == [] then []
    else
      var rest := Kept(all[..|all| - 1]);
      var c := all[|all| - 1];
      if Acceptable(c) && c.url !in Urls(rest) then rest + [c] else rest
  }

  /** Every kept candidate is acceptable, and no two have the same URL. */
  lemma {:induction false} KeptSound(all: seq<Candidate>)
    ensures forall k :: 0 <= k < |Kept(all)| ==> Acceptable(Kept(all)[k])
    ensures forall k, l :: 0 <= k < l < |Kept(all)| ==> Kept(all)[k].url != Kept(all)[l].url
  {
    if all != [] {
      var init := all[..|all| - 1];
      var rest := Kept(init);
      var c := all[|all| - 1];
      KeptSound(init);
      if Acceptable(c) && c.url !in Urls(rest) {
        UrlsHasElements(rest);
        var r := rest + [c];
        assert Kept(all) == r;
        forall k, l | 0 <= k < l < |r| ensures r[k].url != r[l].url {
          assert r[k] == rest[k];
          if l < |rest| { assert r[l] == rest[l]; }
        }
      }
    }
  }

  /** Every acceptable candidate has its URL among the kept ones. */
  lemma {:induction false} KeptCoversAcceptable(all: seq<Candidate>)
    ensures forall j :: 0 <= j < |all| && Acceptable(all[j]) ==> all[j].url in Urls(Kept(all))
  {
    if all != [] {
      var init := all[..|all| - 1];
      var rest := Kept(init);
      var c := all[|all| - 1];
      KeptCoversAcceptable(init);
      if Acceptable(c) && c.url !in Urls(rest) {
        assert (rest + [c])[..|rest|] == rest;
        assert Urls(Kept(all)) == Urls(rest) + {c.url};
      }
      forall j | 0 <= j < |all| - 1 && Acceptable(all[j]) ensures all[j].url in Urls(Kept(all)) {
        assert all[j] == init[j];
      }
    }
  }

  /**
   * Where each kept candidate sits in the input.
   */
  ghost function KeptPositions(all: seq<Candidate>): (r: seq<nat>)
    ensures |r| == |Kept(all)|
    ensures forall k :: 0 <= k < |r| ==> r[k] < |all| && all[r[k]] == Kept(all)[k]
  {
    if all == [] then []
    else
      var init := all[..|all| - 1];
      var rest := KeptPositions(init);
      assert forall k :: 0 <= k < |rest| ==> all[rest[k]] == init[rest[k]];
      if Acceptable(all[|all| - 1]) && all[|all| - 1].url !in Urls(Kept(init)) then
        assert Kept(all) == Kept(init) + [all[|all| - 1]];
        rest + [|all| - 1]
      else
        assert Kept(all) == Kept(init);
        rest
  }

  /** The positions rise, so the kept candidates are a subsequence of the input. */
  lemma {:induction false} KeptPositionsRise(all: seq<Candidate>)
    ensures forall k, l :: 0 <= k < l < |KeptPositions(all)| ==> KeptPositions(all)[k] < KeptPositions(all)[l]
  {
    if all != [] {
      var init := all[..|all| - 1];
      var pos := KeptPositions(all);
      var rest := KeptPositions(init);
      KeptPositionsRise(init);
      if Acceptable(all[|all| - 1]) && all[|all| - 1].url !in Urls(Kept(init)) {
        assert pos == rest + [|all| - 1];
        forall k, l | 0 <= k < l < |pos| ensures pos[k] < pos[l] {
          assert pos[k] == rest[k] && rest[k] < |init|;
          if l < |rest| { assert pos[l] == rest[l]; }
        }
      } else {
        assert pos == rest;
      }
    }
  }

  /** No acceptable candidate before a kept one has its URL: the first occurrence of a URL wins. */
  lemma {:induction false} KeptFirstOccurrenceWins(all: seq<Candidate>)
    ensures forall k, j :: 0 <= k < |KeptPositions(all)| && 0 <= j < KeptPositions(all)[k] && Acceptable(all[j]) ==>
              all[j].url != Kept(all)[k].url
  {
    if all != [] {
      var init := all[..|all| - 1];
      var pos := KeptPositions(all);
      var rest := KeptPositions(init);
      KeptFirstOccurrenceWins(init);
      forall k, j | 0 <= k < |pos| && 0 <= j < pos[k] && Acceptable(all[j])
        ensures all[j].url != Kept(all)[k].url
      {
        assert all[j] == init[j];
        if k < |rest| {
          assert pos[k] == rest[k] && Kept(all)[k] == Kept(init)[k];
        } else {
          KeptCoversAcceptable(init);
        }
      }
    }
  }

  /** Scanning a prefix of the input keeps a prefix of what scanning all of it keeps. */
  lemma {:induction false} KeptOfPrefix(all: seq<Candidate>, i: nat)
    requires i <= |all|
    ensures |Kept(all[..i])| <= |Kept(all)|
    ensures Kept(all)[..|Kept(all[..i])|] == Kept(all[..i])
  {
    if i < |all| {
      var init := all[..|all| - 1];
      assert init[..i] == all[..i];
      KeptOfPrefix(init, i);
    } else {
      assert all[..i] == all;
    }
  }

  /**
   * How many candidates the filter keeps before it stops: the first count
   * that reaches 1.5 times `maxSources` (the test runs after each append, so
   * at least one is kept).
   */
  function Quota(maxSources: nat): (q: nat)
    ensures q >= 1 && 2 * q >= 3 * maxSources
    ensures q == 1 || 2 * (q - 1) < 3 * maxSources
  {
    if maxSources == 0 then 1 else (3 * maxSources + 1) / 2
  }

  /** One more candidate scanned: it is kept exactly when it is acceptable and its URL unseen. */
  lemma KeptStep(all: seq<Candidate>, i: nat)
    requires i < |all|
    ensures var rest := Kept(all[..i]);
            Kept(all[..i + 1]) == if Acceptable(all[i]) && all[i].url !in Urls(rest) then rest + [all[i]] else rest
    ensures Urls(Kept(all[..i]) + [all[i]]) == Urls(Kept(all[..i])) + {all[i].url}
  {
    assert all[..i + 1][..i] == all[..i];
    var rest := Kept(all[..i]);
    assert (rest + [all[i]])[..|rest|] == rest;
  }

  /** A scan that reached the quota at `all[i - 1]` kept the first `Quota` kept candidates. */
  lemma KeptReachesQuota(all: seq<Candidate>, i: nat, maxSources: nat)
    requires i <= |all| && 2 * |Kept(all[..i])| >= 3 * maxSources
    requires Kept(all[..i]) != []
    requires |Kept(all[..i])| == 1 || 2 * (|Kept(all[..i])| - 1) < 3 * maxSources
    ensures Kept(all[..i]) == Take(Kept(all), Quota(maxSources))
  {
    KeptOfPrefix(all, i);
    assert |Kept(all[..i])| == Quota(maxSources);
    assert |Take(Kept(all), Quota(maxSources))| == Quota(maxSources);
  }

  /** A scan that ran to the end under the quota kept every kept candidate. */
  lemma KeptUnderQuota(all: seq<Candidate>, maxSources: nat)
    requires 2 * |Kept(all)| < 3 * maxSources || Kept(all) == []
    ensures Kept(all) == Take(Kept(all), Quota(maxSources))
  {
  }

  /**
   * The duplicate filter of `run_search`: the acceptable candidates whose URL
   * was not seen before, in order, stopping once 1.5 times `maxSources` are
   * kept.
   */
  method UniqueCandidates(all: seq<Candidate>, maxSources: nat) returns (unique: seq<Candidate>)
    ensures unique == Take(Kept(all), Quota(maxSources))
  {
    var seenUrls: set<string> := {};
    unique := [];
    var i := 0;
    while i < |all|
      invariant i <= |all|
      invariant unique == Kept(all[..i]) && seenUrls == Urls(unique)
      invariant 2 * |unique| < 3 * maxSources || unique == []
    {
      KeptStep(all, i);
      var result := all[i];
      if result.url != "" && result.url !in seenUrls && |result.title| > 10 {
        seenUrls := seenUrls + {result.url};
        unique := unique + [result];
        if 2 * |unique| >= 3 * maxSources {
          KeptReachesQuota(all, i + 1, maxSources);
          return;
        }
      }
      i := i + 1;
    }
    assert all[..i] == all;
    KeptUnderQuota(all, maxSources);
  }

  /**
   * What the filter delivers: a subsequence of its input, each the first
   * acceptable candidate with its URL, no URL twice, at most the quota, and,
   * when it did not stop early, every acceptable URL of the input.
   */
  lemma UniqueCandidatesSound(all: seq<Candidate>, maxSources: nat)
    ensures var unique := Take(Kept(all), Quota(maxSources));
            var pos := KeptPositions(all);
            && |unique| <= Quota(maxSources)
            && (forall k :: 0 <= k < |unique| ==> pos[k] < |all| && all[pos[k]] == unique[k] && Acceptable(unique[k]))
            && (forall k, l :: 0 <= k < l < |unique| ==> pos[k] < pos[l] && unique[k].url != unique[l].url)
            && (forall k, j :: 0 <= k < |unique| && 0 <= j < pos[k] && Acceptable(all[j]) ==> all[j].url != unique[k].url)
            && (|unique| < Quota(maxSources) ==>
                  forall j :: 0 <= j < |all| && Acceptable(all[j]) ==> all[j].url in Urls(unique))
  {
    KeptSound(all);
    KeptCoversAcceptable(all);
    KeptPositionsRise(all);
    KeptFirstOccurrenceWins(all);
  }

  function ScoreKey(s: Source): int { s.relevanceScore }

  predicate UrlsDistinct(s: seq<Source>) {
    forall k, l :: 0 <= k < l < |s| ==> s[k].url != s[l].url
  }

  lemma {:induction false} DistinctUrlsSingleCopies(s: seq<Source>, x: Source)
    requires UrlsDistinct(s)
    ensures multiset(s)[x] <= 1
  {
    if s != [] {
      DistinctUrlsSingleCopies(s[1..], x);
      assert s == [s[0]] + s[1..];
      if s[0] == x {
        forall j | 0 <= j < |s| - 1 ensures s[1..][j] != x {
          assert s[0].url != s[j + 1].url;
        }
      }
    }
  }

  lemma TwoCopies<T>(b: seq<T>, k: nat, l: nat)
    requires k < l < |b| && b[k] == b[l]
    ensures multiset(b)[b[k]] >= 2
  {
    assert b == b[..l] + [b[l]] + b[l + 1..];
    assert b[k] in b[..l];
  }

  /** Reordering sources keeps their URLs distinct. */
  lemma UrlsDistinctPermutation(a: seq<Source>, b: seq<Source>)
    requires multiset(a) == multiset(b) && UrlsDistinct(a)
    ensures UrlsDistinct(b)
  {
    forall k, l | 0 <= k < l < |b| ensures b[k].url != b[l].url {
      if b[k] == b[l] {
        DistinctUrlsSingleCopies(a, b[k]);
        TwoCopies(b, k, l);
      } else {
        assert b[k] in multiset(a) && b[l] in multiset(a);
        var i :| 0 <= i < |a| && a[i] == b[k];
        var j :| 0 <= j < |a| && a[j] == b[l];
        assert i != j;
      }
    }
  }

  /**
   * The work `process_source_parallel` does on a text long enough to keep:
   * the summary, the data points and the score, which reads none of the
   * first two.
   */
  method Analyse(c: Candidate, text: string, findall: Matcher, currentYear: int) returns (s: Source)
    ensures s.title == c.title && s.author == c.author && s.year == c.year
    ensures s.url == c.url && s.fileType == c.fileType && s.content == text && s.summaryEn == ""
    ensures s.summaryId == FitSummary(Join(". ", Selection(text)), c.title)
    ensures ExtractedFrom(s.extractedData, text, findall)
    ensures s.relevanceScore == RelevanceScore(FromCandidate(c).(content := text), currentYear)
    ensures s.relevanceScore == RelevanceScore(s, currentYear)
    ensures s.relevanceScore <= MaxScore
  {
    s := FromCandidate(c).(content := text);
    ghost var fetched := s;
    var summary := GenerateSummaryId(text, c.title);
    s := s.(summaryId := summary);
    var data := ExtractImportantData(text, findall);
    s := s.(extractedData := data);
    ScoreReadsOnlyScoredFields(fetched, s, currentYear);
    var score := RelevanceScore(s, currentYear);
    s := s.(relevanceScore := score);
    ScoreReadsOnlyScoredFields(fetched, s, currentYear);
  }

  /**
   * Whether `process_source_parallel` keeps a candidate whose text is
   * `text`: the stripped text is longer than 50 characters and the source
   * scores at least 1.0.
   */
  predicate Keeps(c: Candidate, text: string, currentYear: int) {
    |Strip(text)| > MinContentLength && RelevanceScore(FromCandidate(c).(content := text), currentYear) >= MinRelevance
  }

  /**
   * Only a page can yield a source: a failed fetch gives "", and the PDF
   * notice is 49 characters long, not over 50.
   */
  lemma OnlyPagesKept(c: Candidate, f: Fetched, currentYear: int)
    requires !f.Page?
    ensures !Keeps(c, FetchedContent(f), currentYear)
  {
    assert |PdfNotice| == 49;
  }

  /**
   * `s` is the source `process_source_parallel` builds from candidate `c`
   * and text `text`: the candidate's fields, the text, its summary, its data
   * points and its score.
   */
  ghost predicate SourceFrom(s: Source, c: Candidate, text: string, findall: Matcher, currentYear: int) {
    && s.title == c.title && s.author == c.author && s.year == c.year
    && s.url == c.url && s.fileType == c.fileType
    && s.content == text && s.summaryEn == ""
    && s.summaryId == FitSummary(Join(". ", Selection(text)), c.title)
    && ExtractedFrom(s.extractedData, text, findall)
    && s.relevanceScore == RelevanceScore(FromCandidate(c).(content := text), currentYear)
  }

  /**
   * `added` are the sources built, in order, from the candidates `picked`,
   * each from the text fetched for its URL.
   */
  ghost predicate NewSourcesFrom(added: seq<Source>, picked: seq<Candidate>, web: string -> Fetched, findall: Matcher, currentYear: int) {
    && |added| == |picked|
    && forall k {:trigger SourceFrom(added[k], picked[k], FetchedContent(web(picked[k].url)), findall, currentYear)} ::
         0 <= k < |added| ==> SourceFrom(added[k], picked[k], FetchedContent(web(picked[k].url)), findall, currentYear)
  }

  /** Each source built keeps the URL of its candidate. */
  lemma NewSourcesFromUrls(added: seq<Source>, picked: seq<Candidate>, web: string -> Fetched, findall: Matcher, currentYear: int)
    requires NewSourcesFrom(added, picked, web, findall, currentYear)
    ensures forall k :: 0 <= k < |added| ==> added[k].url == picked[k].url
  {
    forall k | 0 <= k < |added| ensures added[k].url == picked[k].url {
      assert SourceFrom(added[k], picked[k], FetchedContent(web(picked[k].url)), findall, currentYear);
    }
  }

  /** The sources built from what `Gathered` picks have URLs that were not claimed before. */
  lemma GatheredSourcesUnclaimed(s: seq<Source>, before: nat, cs: seq<Candidate>, claimed: set<string>, room: nat,
                                 keep: Candidate -> bool, web: string -> Fetched, findall: Matcher, currentYear: int)
    requires before <= |s| && NewSourcesFrom(s[before..], Gathered(cs, claimed, room, keep), web, findall, currentYear)
    ensures forall k :: before <= k < |s| ==> s[k].url !in claimed
  {
    var picked := Gathered(cs, claimed, room, keep);
    NewSourcesFromUrls(s[before..], picked, web, findall, currentYear);
    forall k | before <= k < |s| ensures s[k].url !in claimed {
      assert s[k] == s[before..][k - before];
    }
  }

  /** A single source built from its candidate. */
  lemma NewSourcesFromOne(s: Source, c: Candidate, web: string -> Fetched, findall: Matcher, currentYear: int)
    requires SourceFrom(s, c, FetchedContent(web(c.url)), findall, currentYear)
    ensures NewSourcesFrom([s], [c], web, findall, currentYear)
  {
  }

  lemma NewSourcesFromAppend(a: seq<Source>, p: seq<Candidate>, b: seq<Source>, q: seq<Candidate>,
                             web: string -> Fetched, findall: Matcher, currentYear: int)
    requires NewSourcesFrom(a, p, web, findall, currentYear) && NewSourcesFrom(b, q, web, findall, currentYear)
    ensures NewSourcesFrom(a + b, p + q, web, findall, currentYear)
  {
    forall k | 0 <= k < |a + b|
      ensures SourceFrom((a + b)[k], (p + q)[k], FetchedContent(web((p + q)[k].url)), findall, currentYear)
    {
      if k < |a| {
        assert (a + b)[k] == a[k] && (p + q)[k] == p[k];
      } else {
        assert (a + b)[k] == b[k - |a|] && (p + q)[k] == q[k - |a|];
      }
    }
  }

  /**
   * The gate of `process_source_parallel` once the text is fetched: a text
   * whose stripped form is longer than 50 characters is summarised, mined
   * and scored, and kept when it scores at least 1.0.
   */
  method Assess(c: Candidate, text: string, findall: Matcher, currentYear: int) returns (r: Option<Source>)
    ensures r.Some? <==> Keeps(c, text, currentYear)
    ensures r.Some? ==>
              && SourceFrom(r.value, c, text, findall, currentYear)
              && r.value.relevanceScore == RelevanceScore(r.value, currentYear)
              && MinRelevance <= r.value.relevanceScore <= MaxScore
  {
    if text != "" && |Strip(text)| > MinContentLength {
      var source := Analyse(c, text, findall, currentYear);
      if source.relevanceScore >= MinRelevance {
        return Some(source);
      }
    }
    return None;
  }

  /**
   * The collected sources are sound: at most `maxSources` of them, each with
   * a claimed URL and a score from 1.0 to 5.0, no two with the same URL.
   */
  predicate SourcesOk(s: seq<Source>, claimed: set<string>, maxSources: nat) {
    && |s| <= maxSources
    && (forall k :: 0 <= k < |s| ==> s[k].url in claimed && MinRelevance <= s[k].relevanceScore <= MaxScore)
    && UrlsDistinct(s)
  }

  /** Appending a kept source whose URL was unclaimed, and claiming it, keeps the sources sound. */
  lemma AppendKeepsSourcesOk(s: seq<Source>, x: Source, claimed: set<string>, maxSources: nat)
    requires SourcesOk(s, claimed, maxSources) && |s| < maxSources
    requires x.url !in claimed && MinRelevance <= x.relevanceScore <= MaxScore
    ensures SourcesOk(s + [x], claimed + {x.url}, maxSources)
  {
    forall k, l | 0 <= k < l < |s| + 1 ensures (s + [x])[k].url != (s + [x])[l].url {
      if l == |s| { assert s[k].url in claimed; }
    }
  }

  /** Sorting by score keeps sound sources sound, and then the cut to `maxSources` loses none. */
  lemma RankKeepsSourcesOk(s: seq<Source>, sorted: seq<Source>, claimed: set<string>, maxSources: nat)
    requires SourcesOk(s, claimed, maxSources) && sorted == SortDesc(s, ScoreKey)
    ensures SourcesOk(sorted, claimed, maxSources)
    ensures Take(sorted, maxSources) == sorted
  {
    UrlsDistinctPermutation(s, sorted);
    forall k | 0 <= k < |sorted|
      ensures sorted[k].url in claimed && MinRelevance <= sorted[k].relevanceScore <= MaxScore
    {
      assert sorted[k] in multiset(s);
    }
  }

  /**
   * After ranking, the sources are the earlier ones plus sources whose URLs
   * were not claimed when the run began.
   */
  lemma RankedSourcesOrigin(before: seq<Source>, gathered: seq<Source>, ranked: seq<Source>, claimed: set<string>)
    requires |before| <= |gathered| && gathered[..|before|] == before
    requires forall k :: |before| <= k < |gathered| ==> gathered[k].url !in claimed
    requires multiset(ranked) == multiset(gathered)
    ensures multiset(before) <= multiset(ranked)
    ensures forall x :: x in ranked ==> x in before || x.url !in claimed
  {
    assert gathered == before + gathered[|before|..];
    forall x | x in ranked ensures x in before || x.url !in claimed {
      assert x in multiset(gathered);
      var k :| 0 <= k < |gathered| && gathered[k] == x;
      if k < |before| { assert before[k] == x; }
    }
  }

  /** `Urls` of a prefix grows by one URL per candidate. */
  lemma UrlsOfPrefix(cs: seq<Candidate>, i: nat)
    requires i < |cs|
    ensures Urls(cs[..i + 1]) == Urls(cs[..i]) + {cs[i].url}
  {
    assert cs[..i + 1][..i] == cs[..i];
  }

  /** `Urls` of a prefix is part of `Urls` of the whole. */
  lemma {:induction false} UrlsOfPrefixIncluded(cs: seq<Candidate>, i: nat)
    requires i <= |cs|
    ensures Urls(cs[..i]) <= Urls(cs)
    decreases |cs| - i
  {
    if i < |cs| {
      UrlsOfPrefix(cs, i);
      UrlsOfPrefixIncluded(cs, i + 1);
    } else {
      assert cs[..i] == cs;
    }
  }

  /**
   * The reference for the sequential loop of `run_search`: the candidates of
   * `cs` that yield a source, in order, when the URLs in `claimed` were
   * claimed before the loop and `room` more sources fit. A candidate is
   * processed while there is room; it yields a source when its URL is not
   * claimed (neither before the loop nor by an earlier candidate) and
   * `keep` holds of it: the text fetched for it is kept.
   */
  function Gathered(cs: seq<Candidate>, claimed: set<string>, room: nat, keep: Candidate -> bool): (r: seq<Candidate>)
    ensures |r| <= room
    ensures forall k :: 0 <= k < |r| ==> r[k] in cs && r[k].url !in claimed && keep(r[k])
  {
    if cs == [] then []
    else
      var init := cs[..|cs| - 1];
      var g := Gathered(init, claimed, room, keep);
      var c := cs[|cs| - 1];
      assert forall k :: 0 <= k < |g| ==> g[k] in cs by {
        forall k | 0 <= k < |g| ensures g[k] in cs {
          var j :| 0 <= j < |init| && init[j] == g[k];
          assert cs[j] == g[k];
        }
      }
      if |g| < room && c.url !in claimed + Urls(init) && keep(c) then
        g + [c]
      else
        g
  }

  /** One more candidate scanned by the sequential loop. */
  lemma GatheredStep(cs: seq<Candidate>, i: nat, claimed: set<string>, room: nat, keep: Candidate -> bool)
    requires i < |cs|
    ensures var g := Gathered(cs[..i], claimed, room, keep);
            Gathered(cs[..i + 1], claimed, room, keep) ==
              if |g| < room && cs[i].url !in claimed + Urls(cs[..i]) && keep(cs[i]) then g + [cs[i]] else g
  {
    assert cs[..i + 1][..i] == cs[..i];
  }

  /**
   * One step of the sequential loop keeps its invariant: the sources added
   * so far are built from what `Gathered` picks out of the candidates seen.
   */
  lemma CollectStep(cs: seq<Candidate>, i: nat, claimed: set<string>, room: nat, keep: Candidate -> bool,
                    before: seq<Source>, prev: seq<Source>, next: seq<Source>,
                    web: string -> Fetched, findall: Matcher, currentYear: int)
    requires i < |cs| && |before| <= |prev| <= |next| && next[..|prev|] == prev
    requires NewSourcesFrom(prev[|before|..], Gathered(cs[..i], claimed, room, keep), web, findall, currentYear)
    requires NewSourcesFrom(next[|prev|..],
                            if cs[i].url !in claimed + Urls(cs[..i]) && keep(cs[i]) then [cs[i]] else [],
                            web, findall, currentYear)
    requires |Gathered(cs[..i], claimed, room, keep)| < room
    ensures NewSourcesFrom(next[|before|..], Gathered(cs[..i + 1], claimed, room, keep), web, findall, currentYear)
  {
    GatheredTaken(cs, i, claimed, room, keep);
    NewSourcesFromExtend(before, prev, next, Gathered(cs[..i], claimed, room, keep),
                         if cs[i].url !in claimed + Urls(cs[..i]) && keep(cs[i]) then [cs[i]] else [],
                         web, findall, currentYear);
  }

  /** While there is room, the candidate scanned is picked exactly when it is unclaimed, new and kept. */
  lemma GatheredTaken(cs: seq<Candidate>, i: nat, claimed: set<string>, room: nat, keep: Candidate -> bool)
    requires i < |cs| && |Gathered(cs[..i], claimed, room, keep)| < room
    ensures Gathered(cs[..i + 1], claimed, room, keep) ==
              Gathered(cs[..i], claimed, room, keep) +
              if cs[i].url !in claimed + Urls(cs[..i]) && keep(cs[i]) then [cs[i]] else []
  {
    var g := Gathered(cs[..i], claimed, room, keep);
    GatheredStep(cs, i, claimed, room, keep);
    if !(cs[i].url !in claimed + Urls(cs[..i]) && keep(cs[i])) {
      assert g + [] == g;
    }
  }

  /** Sources appended after `prev` that stem from `x` extend those after `before` that stem from `g`. */
  lemma NewSourcesFromExtend(before: seq<Source>, prev: seq<Source>, next: seq<Source>,
                             g: seq<Candidate>, x: seq<Candidate>,
                             web: string -> Fetched, findall: Matcher, currentYear: int)
    requires |before| <= |prev| <= |next| && next[..|prev|] == prev
    requires NewSourcesFrom(prev[|before|..], g, web, findall, currentYear)
    requires NewSourcesFrom(next[|prev|..], x, web, findall, currentYear)
    ensures NewSourcesFrom(next[|before|..], g + x, web, findall, currentYear)
  {
    assert next[|before|..] == prev[|before|..] + next[|prev|..];
    NewSourcesFromAppend(prev[|before|..], g, next[|prev|..], x, web, findall, currentYear);
  }

  /** Once the room is used up, the rest of the candidates add nothing. */
  lemma {:induction false} GatheredFull(cs: seq<Candidate>, i: nat, claimed: set<string>, room: nat, keep: Candidate -> bool)
    requires i <= |cs| && |Gathered(cs[..i], claimed, room, keep)| >= room
    ensures Gathered(cs, claimed, room, keep) == Gathered(cs[..i], claimed, room, keep)
  {
    if i < |cs| {
      var init := cs[..|cs| - 1];
      assert init[..i] == cs[..i];
      GatheredFull(init, i, claimed, room, keep);
    } else {
      assert cs[..i] == cs;
    }
  }

  /**
   * While there is room, every candidate whose URL is claimed neither before
   * the loop nor by an earlier candidate, and whose text is kept, yields a
   * source.
   */
  lemma {:induction false} GatheredComplete(cs: seq<Candidate>, claimed: set<string>, room: nat, keep: Candidate -> bool)
    requires |Gathered(cs, claimed, room, keep)| < room
    ensures forall j :: 0 <= j < |cs| && cs[j].url !in claimed + Urls(cs[..j]) && keep(cs[j]) ==>
              cs[j] in Gathered(cs, claimed, room, keep)
  {
    if cs != [] {
      var init := cs[..|cs| - 1];
      var g := Gathered(init, claimed, room, keep);
      var r := Gathered(cs, claimed, room, keep);
      assert |g| <= |r| && forall x :: x in g ==> x in r;
      GatheredComplete(init, claimed, room, keep);
      forall j | 0 <= j < |cs| && cs[j].url !in claimed + Urls(cs[..j]) && keep(cs[j])
        ensures cs[j] in r
      {
        if j < |init| {
          assert init[..j] == cs[..j] && init[j] == cs[j];
        } else {
          assert cs[..j] == init;
        }
      }
    }
  }

  /**
   * How far the sequential loop gets from index `i` on: it stops at the
   * first index where `Gathered` has filled the room, or at the end of `cs`.
   */
  function ScannedFrom(cs: seq<Candidate>, i: nat, claimed: set<string>, room: nat, keep: Candidate -> bool): (n: nat)
    requires i <= |cs|
    ensures i <= n <= |cs|
    decreases |cs| - i
  {
    if i == |cs| || |Gathered(cs[..i], claimed, room, keep)| >= room then i
    else ScannedFrom(cs, i + 1, claimed, room, keep)
  }

  /**
   * `ScannedFrom` is the first index from `i` on where the room is filled,
   * or the end of `cs`.
   */
  lemma {:induction false} ScannedFromIsFirstFull(cs: seq<Candidate>, i: nat, claimed: set<string>, room: nat, keep: Candidate -> bool)
    requires i <= |cs|
    ensures var n := ScannedFrom(cs, i, claimed, room, keep);
            && (n == |cs| || |Gathered(cs[..n], claimed, room, keep)| >= room)
            && forall j :: i <= j < n ==> |Gathered(cs[..j], claimed, room, keep)| < room
    decreases |cs| - i
  {
    if !(i == |cs| || |Gathered(cs[..i], claimed, room, keep)| >= room) {
      ScannedFromIsFirstFull(cs, i + 1, claimed, room, keep);
    }
  }

  /** The number of candidates the sequential loop processes (and so claims). */
  function Scanned(cs: seq<Candidate>, claimed: set<string>, room: nat, keep: Candidate -> bool): nat
    ensures Scanned(cs, claimed, room, keep) <= |cs|
  {
    ScannedFrom(cs, 0, claimed, room, keep)
  }

  /** Scanning more candidates never picks fewer. */
  lemma {:induction false} GatheredGrows(cs: seq<Candidate>, i: nat, j: nat, claimed: set<string>, room: nat, keep: Candidate -> bool)
    requires i <= j <= |cs|
    ensures |Gathered(cs[..i], claimed, room, keep)| <= |Gathered(cs[..j], claimed, room, keep)|
    decreases j - i
  {
    if i < j {
      GatheredStep(cs, i, claimed, room, keep);
      GatheredGrows(cs, i + 1, j, claimed, room, keep);
    }
  }

  lemma {:induction false} ScannedFromUpTo(cs: seq<Candidate>, i: nat, n: nat, claimed: set<string>, room: nat, keep: Candidate -> bool)
    requires i <= n <= |cs| && (n == |cs| || |Gathered(cs[..n], claimed, room, keep)| >= room)
    requires forall j :: i <= j < n ==> |Gathered(cs[..j], claimed, room, keep)| < room
    ensures ScannedFrom(cs, i, claimed, room, keep) == n
    decreases n - i
  {
    if i < n {
      ScannedFromUpTo(cs, i + 1, n, claimed, room, keep);
    }
  }

  /**
   * The loop scans exactly `n` candidates when the room is filled after the
   * first `n`, or they are all of `cs`, and was not yet filled after `n - 1`.
   */
  lemma ScannedIs(cs: seq<Candidate>, n: nat, claimed: set<string>, room: nat, keep: Candidate -> bool)
    requires n <= |cs| && (n == |cs| || |Gathered(cs[..n], claimed, room, keep)| >= room)
    requires n == 0 || |Gathered(cs[..n - 1], claimed, room, keep)| < room
    ensures Scanned(cs, claimed, room, keep) == n
  {
    forall j | 0 <= j < n ensures |Gathered(cs[..j], claimed, room, keep)| < room {
      GatheredGrows(cs, j, n - 1, claimed, room, keep);
    }
    ScannedFromUpTo(cs, 0, n, claimed, room, keep);
  }

  /**
   * The key order of the content cache after the sequential loop has
   * processed `cs`, starting from `order`: a candidate whose URL is not yet
   * claimed is fetched, and a page's text is added with `add_content`.
   */
  function CacheOrderAfter(cs: seq<Candidate>, claimed: set<string>, order: seq<string>,
                           web: string -> Fetched, maxCacheSize: nat): (r: seq<string>)
    ensures forall u :: u in r ==> u in order || (u !in claimed && u in Urls(cs))
  {
    if cs == [] then order
    else
      var init := cs[..|cs| - 1];
      var o := CacheOrderAfter(init, claimed, order, web, maxCacheSize);
      var c := cs[|cs| - 1];
      assert Urls(cs) == Urls(init) + {c.url};
      if c.url !in claimed + Urls(init) && web(c.url).Page? then
        var kept := if |o| >= maxCacheSize then o[..|o| / 2] else o;
        assert forall u :: u in kept ==> u in o;
        OrderAfterAdd(o, c.url, maxCacheSize)
      else
        o
  }

  /** One more candidate processed by the sequential loop. */
  lemma CacheOrderAfterStep(cs: seq<Candidate>, i: nat, claimed: set<string>, order: seq<string>,
                            web: string -> Fetched, maxCacheSize: nat)
    requires i < |cs|
    ensures var o := CacheOrderAfter(cs[..i], claimed, order, web, maxCacheSize);
            CacheOrderAfter(cs[..i + 1], claimed, order, web, maxCacheSize) ==
              if cs[i].url !in claimed + Urls(cs[..i]) && web(cs[i].url).Page? then OrderAfterAdd(o, cs[i].url, maxCacheSize) else o
  {
    assert cs[..i + 1][..i] == cs[..i];
  }

  class ResearchAssistant {
    const maxSources: nat
    const web: string -> Fetched
    const findall: Matcher
    const currentYear: int
    const memoryManager: MemoryManager
    /** Whether `process_source_parallel` keeps a candidate once its text is fetched. */
    ghost const keeps: Candidate -> bool
    var processedUrls: set<string>
    var sources: seq<Source>

    /**
     * The cache is sound, within its bound, and holds for each URL the text
     * a fresh fetch of it yields (only `extract_content` writes to it).
     */
    ghost predicate CacheOk()
      reads memoryManager
    {
      && memoryManager.Valid()
      && |memoryManager.order| <= memoryManager.maxCacheSize
      && (forall u :: u in memoryManager.contentCache ==> memoryManager.contentCache[u] == FetchedContent(web(u)))
    }

    /**
     * The cache is sound, every URL in it was claimed (`extract_content`
     * runs only after its URL has been claimed), the sources are sound, and
     * `keeps` is the verdict `Keeps` gives on the text fetched for a
     * candidate.
     */
    ghost predicate Valid()
      reads this, memoryManager
    {
      && CacheOk()
      && SourcesOk(sources, processedUrls, maxSources)
      && (forall u :: u in memoryManager.contentCache ==> u in processedUrls)
      && (forall c {:trigger Keeps(c, FetchedContent(web(c.url)), currentYear)} ::
            keeps(c) == Keeps(c, FetchedContent(web(c.url)), currentYear))
    }

    /** A sound cache is fixed by its key order: each key maps to the text fetched for it. */
    lemma CacheHolds()
      requires CacheOk()
      ensures memoryManager.contentCache == map u | u in memoryManager.order :: FetchedContent(web(u))
    {
    }

    constructor (maxSources: nat, web: string -> Fetched, findall: Matcher, currentYear: int)
      ensures Valid() && fresh(memoryManager)
      ensures this.maxSources == maxSources && this.web == web
      ensures this.findall == findall && this.currentYear == currentYear
      ensures processedUrls == {} && sources == []
      ensures memoryManager.contentCache == map[]
    {
      this.maxSources := maxSources;
      this.web := web;
      this.findall := findall;
      this.currentYear := currentYear;
      keeps := (c: Candidate) => Keeps(c, FetchedContent(web(c.url)), currentYear);
      memoryManager := new MemoryManager();
      processedUrls := {};
      sources := [];
    }

    /**
     * `extract_content`: a non-empty cached text is returned as it is;
     * otherwise the URL is fetched, and only a page's text is cached, cut to
     * 10000 characters and "..." first.
     */
    method ExtractContent(url: string) returns (content: string)
      requires CacheOk()
      modifies memoryManager
      ensures CacheOk()
      ensures content == FetchedContent(web(url))
      ensures |content| <= MaxContentLength + 3
      ensures forall u :: u in memoryManager.contentCache ==> u in old(memoryManager.contentCache) || u == url
      ensures var cache := old(memoryManager.contentCache);
              if url in cache && cache[url] != "" then
                content == cache[url] && unchanged(memoryManager)
              else
                && content == FetchedContent(web(url))
                && (web(url).Page? ==>
                      && memoryManager.order == OrderAfterAdd(old(memoryManager.order), url, memoryManager.maxCacheSize)
                      && memoryManager.contentCache[url] == content
                      && (forall u :: u in memoryManager.contentCache && u != url ==> memoryManager.contentCache[u] == cache[u]))
                && (!web(url).Page? ==> unchanged(memoryManager))
    {
      var cached := memoryManager.GetContent(url);
      if cached.Some? && cached.value != "" {
        return cached.value;
      }
      match web(url)
      case FetchFailed =>
        content := "";
      case PdfDocument =>
        content := PdfNotice;
      case Page(text) =>
        content := text;
        if |content| > MaxContentLength {
          content := content[..MaxContentLength] + "...";
        }
        memoryManager.AddContent(url, content);
    }

    /**
     * `process_source_parallel`: a URL already claimed is refused at once;
     * otherwise it is claimed, whatever happens next, its text is fetched
     * (the cache cannot hold it, since only claimed URLs are cached), and the
     * source is kept exactly when that text is kept.
     */
    method ProcessSource(c: Candidate) returns (r: Option<Source>)
      requires Valid()
      modifies this, memoryManager
      ensures Valid()
      ensures processedUrls == old(processedUrls) + {c.url}
      ensures sources == old(sources)
      ensures c.url in old(processedUrls) ==> unchanged(memoryManager)
      ensures c.url !in old(processedUrls) && !web(c.url).Page? ==> unchanged(memoryManager)
      ensures c.url !in old(processedUrls) && web(c.url).Page? ==>
                && memoryManager.order == OrderAfterAdd(old(memoryManager.order), c.url, memoryManager.maxCacheSize)
                && memoryManager.contentCache[c.url] == FetchedContent(web(c.url))
                && (forall u :: u in memoryManager.contentCache && u != c.url ==>
                      u in old(memoryManager.contentCache) && memoryManager.contentCache[u] == old(memoryManager.contentCache)[u])
      ensures r.Some? <==> c.url !in old(processedUrls) && keeps(c)
      ensures r.Some? ==> r.value.url == c.url && MinRelevance <= r.value.relevanceScore <= MaxScore
      ensures NewSourcesFrom(if r.Some? then [r.value] else [], if r.Some? then [c] else [], web, findall, currentYear)
    {
      if c.url in processedUrls {
        return None;
      }
      processedUrls := processedUrls + {c.url};
      var text := ExtractContent(c.url);
      r := Assess(c, text, findall, currentYear);
      if r.Some? {
        NewSourcesFromOne(r.value, c, web, findall, currentYear);
      }
    }

    /** One step of the sequential loop: the candidate is processed and a kept source appended. */
    method Admit(c: Candidate)
      requires Valid() && |sources| < maxSources
      modifies this, memoryManager
      ensures Valid()
      ensures processedUrls == old(processedUrls) + {c.url}
      ensures memoryManager.order ==
                if c.url !in old(processedUrls) && web(c.url).Page? then
                  OrderAfterAdd(old(memoryManager.order), c.url, memoryManager.maxCacheSize)
                else old(memoryManager.order)
      ensures |old(sources)| <= |sources| <= |old(sources)| + 1
      ensures sources[..|old(sources)|] == old(sources)
      ensures NewSourcesFrom(sources[|old(sources)|..],
                             if c.url !in old(processedUrls) && keeps(c) then [c] else [],
                             web, findall, currentYear)
    {
      ghost var before := sources;
      ghost var claimed := processedUrls;
      var source := ProcessSource(c);
      if source.Some? {
        AppendKeepsSourcesOk(before, source.value, claimed, maxSources);
        sources := sources + [source.value];
        assert sources[|before|..] == [source.value];
      } else {
        assert sources[|before|..] == [];
      }
    }

    /**
     * The sequential loop of `run_search`: candidates are processed in order,
     * and the loop stops as soon as `maxSources` sources are collected. The
     * sources it appends are built from the candidates `Gathered` picks, in
     * their order.
     */
    method CollectSources(unique: seq<Candidate>)
      requires Valid()
      modifies this, memoryManager
      ensures Valid()
      ensures old(processedUrls) <= processedUrls <= old(processedUrls) + Urls(unique)
      ensures var n := Scanned(unique, old(processedUrls), maxSources - |old(sources)|, keeps);
              && processedUrls == old(processedUrls) + Urls(unique[..n])
              && memoryManager.order ==
                   CacheOrderAfter(unique[..n], old(processedUrls), old(memoryManager.order), web, memoryManager.maxCacheSize)
      ensures |old(sources)| <= |sources| && sources[..|old(sources)|] == old(sources)
      ensures NewSourcesFrom(sources[|old(sources)|..], Gathered(unique, old(processedUrls), maxSources - |old(sources)|, keeps),
                             web, findall, currentYear)
      ensures forall k :: |old(sources)| <= k < |sources| ==> sources[k].url !in old(processedUrls)
    {
      ghost var claimed := processedUrls;
      ghost var before := sources;
      ghost var room: nat := maxSources - |sources|;
      var n := ProcessCandidates(unique);
      if n < |unique| {
        GatheredFull(unique, n, claimed, room, keeps);
      } else {
        assert unique[..n] == unique;
      }
      UrlsOfPrefixIncluded(unique, n);
      GatheredSourcesUnclaimed(sources, |before|, unique, claimed, room, keeps, web, findall, currentYear);
    }

    /**
     * The state of the sequential loop after the first `n` candidates of
     * `unique`, started with the URLs `claimed`, the sources `before`, the
     * cache key order `order` and room for `room` more sources: the URLs of
     * those candidates are claimed, the cache saw each unclaimed one fetched,
     * the sources built from what `Gathered` picks are appended, and the
     * room was not yet filled before the last of them was processed.
     */
    ghost predicate Scanning(unique: seq<Candidate>, n: nat, claimed: set<string>, room: nat,
                             order: seq<string>, before: seq<Source>)
      reads this, memoryManager
    {
      && n <= |unique|
      && processedUrls == claimed + Urls(unique[..n])
      && memoryManager.order == CacheOrderAfter(unique[..n], claimed, order, web, memoryManager.maxCacheSize)
      && |before| <= |sources| && sources[..|before|] == before
      && NewSourcesFrom(sources[|before|..], Gathered(unique[..n], claimed, room, keeps), web, findall, currentYear)
      && (n == 0 || |Gathered(unique[..n - 1], claimed, room, keeps)| < room)
    }

    /**
     * The loop itself: the first `n` candidates are processed, where `n` is
     * where the room fills up or the end of `unique`.
     */
    method ProcessCandidates(unique: seq<Candidate>) returns (n: nat)
      requires Valid()
      modifies this, memoryManager
      ensures Valid()
      ensures n == Scanned(unique, old(processedUrls), maxSources - |old(sources)|, keeps)
      ensures processedUrls == old(processedUrls) + Urls(unique[..n])
      ensures memoryManager.order ==
                CacheOrderAfter(unique[..n], old(processedUrls), old(memoryManager.order), web, memoryManager.maxCacheSize)
      ensures |old(sources)| <= |sources| && sources[..|old(sources)|] == old(sources)
      ensures NewSourcesFrom(sources[|old(sources)|..], Gathered(unique[..n], old(processedUrls), maxSources - |old(sources)|, keeps),
                             web, findall, currentYear)
      ensures n < |unique| ==> |Gathered(unique[..n], old(processedUrls), maxSources - |old(sources)|, keeps)| >= maxSources - |old(sources)|
    {
      ghost var claimed := processedUrls;
      ghost var before := sources;
      ghost var room: nat := maxSources - |sources|;
      ghost var order := memoryManager.order;
      n := 0;
      assert unique[..0] == [];
      while n < |unique| && |sources| < maxSources
        invariant Valid() && Scanning(unique, n, claimed, room, order, before)
      {
        ProcessNext(unique, n, claimed, room, order, before);
        n := n + 1;
      }
      ScannedIs(unique, n, claimed, room, keeps);
    }

    /** One turn of the sequential loop: the candidate at `n` is processed. */
    method ProcessNext(unique: seq<Candidate>, n: nat, ghost claimed: set<string>, ghost room: nat,
                       ghost order: seq<string>, ghost before: seq<Source>)
      requires Valid() && Scanning(unique, n, claimed, room, order, before)
      requires n < |unique| && |sources| < maxSources && room == maxSources - |before|
      modifies this, memoryManager
      ensures Valid() && Scanning(unique, n + 1, claimed, room, order, before)
    {
      UrlsOfPrefix(unique, n);
      ghost var prev := sources;
      Admit(unique[n]);
      CollectStep(unique, n, claimed, room, keeps, before, prev, sources, web, findall, currentYear);
      CacheOrderAfterStep(unique, n, claimed, order, web, memoryManager.maxCacheSize);
    }

    /**
     * The sort of `run_search` by non-increasing score (ties keep their
     * order) and the cut to `maxSources`.
     */
    method RankSources()
      requires Valid()
      modifies this
      ensures Valid()
      ensures processedUrls == old(processedUrls)
      ensures sources == SortDesc(old(sources), ScoreKey)
      ensures NonIncreasing(sources, ScoreKey)
      ensures multiset(sources) == multiset(old(sources))
    {
      var sorted := SortDesc(sources, ScoreKey);
      RankKeepsSourcesOk(sources, sorted, processedUrls, maxSources);
      sources := Take(sorted, maxSources);
    }

    /**
     * The candidates are processed in order and the sources ranked. `added`
     * are the new sources, built in order from the candidates `Gathered`
     * picks.
     */
    method CollectAndRank(unique: seq<Candidate>) returns (ghost added: seq<Source>)
      requires Valid()
      modifies this, memoryManager
      ensures Valid()
      ensures old(processedUrls) <= processedUrls
      ensures var n := Scanned(unique, old(processedUrls), maxSources - |old(sources)|, keeps);
              && processedUrls == old(processedUrls) + Urls(unique[..n])
              && memoryManager.order ==
                   CacheOrderAfter(unique[..n], old(processedUrls), old(memoryManager.order), web, memoryManager.maxCacheSize)
      ensures NewSourcesFrom(added, Gathered(unique, old(processedUrls), maxSources - |old(sources)|, keeps),
                             web, findall, currentYear)
      ensures sources == SortDesc(old(sources) + added, ScoreKey)
      ensures NonIncreasing(sources, ScoreKey)
      ensures forall s :: s in sources ==> s in old(sources) || s.url !in old(processedUrls)
      ensures multiset(old(sources)) <= multiset(sources)
    {
      ghost var claimed := processedUrls;
      ghost var before := sources;
      CollectSources(unique);
      ghost var gathered := sources;
      added := gathered[|before|..];
      assert gathered == before + added;
      RankSources();
      RankedSourcesOrigin(before, gathered, sources, claimed);
    }

    /**
     * The sequential branch of `run_search` on the discovered candidates:
     * duplicates are filtered out, the candidates are processed, the sources
     * ranked and the cache halved. `discoveredUrls` are the URLs that the
     * government and international discovery claimed while producing their
     * candidates; none of them can yield a new source. `added` are the new
     * sources, built in order from the candidates `Gathered` picks out of
     * the filtered ones.
     */
    method RunSearch(allResults: seq<Candidate>, discoveredUrls: set<string>) returns (ghost added: seq<Source>)
      requires Valid()
      modifies this, memoryManager
      ensures Valid()
      ensures old(processedUrls) + discoveredUrls <= processedUrls
      ensures var unique := Take(Kept(allResults), Quota(maxSources));
              var n := Scanned(unique, old(processedUrls) + discoveredUrls, maxSources - |old(sources)|, keeps);
              var collected := CacheOrderAfter(unique[..n], old(processedUrls) + discoveredUrls, old(memoryManager.order),
                                               web, memoryManager.maxCacheSize);
              && processedUrls == old(processedUrls) + discoveredUrls + Urls(unique[..n])
              && memoryManager.order == collected[..|collected| / 2]
      ensures NewSourcesFrom(added, Gathered(Take(Kept(allResults), Quota(maxSources)), old(processedUrls) + discoveredUrls,
                                             maxSources - |old(sources)|, keeps),
                             web, findall, currentYear)
      ensures sources == SortDesc(old(sources) + added, ScoreKey)
      ensures NonIncreasing(sources, ScoreKey)
      ensures forall s :: s in sources ==> s in old(sources) || s.url !in old(processedUrls) + discoveredUrls
      ensures multiset(old(sources)) <= multiset(sources)
      ensures 2 * |memoryManager.order| <= memoryManager.maxCacheSize
    {
      Claim(discoveredUrls);
      var unique := UniqueCandidates(allResults, maxSources);
      added := CollectAndRank(unique);
      HalveCache();
    }

    /** Marks `urls` as processed; the sources and the cache stay as they are. */
    method Claim(urls: set<string>)
      requires Valid()
      modifies this
      ensures Valid()
      ensures processedUrls == old(processedUrls) + urls
      ensures sources == old(sources)
    {
      processedUrls := processedUrls + urls;
    }

    /**
     * The cache cleanup that ends a search: the older half of the keys stays
     * with its texts, so at most half the cache capacity stays in use.
     */
    method HalveCache()
      requires Valid()
      modifies memoryManager
      ensures Valid()
      ensures memoryManager.order == old(memoryManager.order)[..old(|memoryManager.order|) / 2]
      ensures forall u :: u in memoryManager.contentCache ==>
                u in old(memoryManager.contentCache) && memoryManager.contentCache[u] == old(memoryManager.contentCache)[u]
      ensures 2 * |memoryManager.order| <= memoryManager.maxCacheSize
    {
      memoryManager.CleanupCache();
    }
  }
}
