/**
 * The counting aggregates of `save_metadata` (main.py:1360-1409) over the
 * final list of sources: the quality metrics, the distribution of the
 * sources by file type, year, author type and score range, and the content
 * analysis. Scores are in hundredths of a point, as everywhere else.
 */
module Metadata {
  import opened Text
  import opened Sorting
  import opened Records
  import opened Scoring

  const HighQuality: nat := 400
  const MediumQuality: nat := 200

  // ---------------------------------------------------------------------
  // Counting

  /** `len([x for x in s if p(x)])`. */
  function CountWhere<T>(s: seq<T>, p: T -> bool): (n: nat)
    ensures n <= |s|
  {
    if s == [] then 0
    else CountWhere(s[..|s| - 1], p) + (if p(s[|s| - 1]) then 1 else 0)
  }

  /** Three tests of which every element passes exactly one split a list three ways. */
  lemma {:induction false} CountWherePartition<T>(s: seq<T>, p: T -> bool, q: T -> bool, r: T -> bool)
    requires forall x :: (if p(x) then 1 else 0) + (if q(x) then 1 else 0) + (if r(x) then 1 else 0) == 1
    ensures CountWhere(s, p) + CountWhere(s, q) + CountWhere(s, r) == |s|
  {
    if s != [] {
      CountWherePartition(s[..|s| - 1], p, q, r);
      var x := s[|s| - 1];
      assert (if p(x) then 1 else 0) + (if q(x) then 1 else 0) + (if r(x) then 1 else 0) == 1;
    }
  }

  // ---------------------------------------------------------------------
  // Quality metrics

  /** `scores = [s.relevance_score for s in self.sources]`. */
  function Scores(sources: seq<Source>): (scores: seq<nat>)
    ensures |scores| == |sources|
    ensures forall i :: 0 <= i < |sources| ==> scores[i] == sources[i].relevanceScore
  {
    seq(|sources|, i requires 0 <= i < |sources| => sources[i].relevanceScore)
  }

  predicate IsHighQuality(score: nat) { score >= HighQuality }
  predicate IsMediumQuality(score: nat) { MediumQuality <= score < HighQuality }
  predicate IsLowQuality(score: nat) { score < MediumQuality }

  /** 'high_quality_sources', 'medium_quality_sources' and 'low_quality_sources'. */
  function QualityCounts(scores: seq<nat>): (counts: (nat, nat, nat)) {
    (CountWhere(scores, IsHighQuality), CountWhere(scores, IsMediumQuality), CountWhere(scores, IsLowQuality))
  }

  /** The three quality buckets hold every source exactly once. */
  lemma QualityBucketsPartition(scores: seq<nat>)
    ensures QualityCounts(scores).0 + QualityCounts(scores).1 + QualityCounts(scores).2 == |scores|
  {
    CountWherePartition(scores, IsHighQuality, IsMediumQuality, IsLowQuality);
  }

  /** `max(scores)`; `save_metadata` asks for it only when there are sources. */
  function Highest(scores: seq<nat>): (m: nat)
    requires scores != []
    ensures m in scores
    ensures forall i :: 0 <= i < |scores| ==> scores[i] <= m
  {
    if |scores| == 1 then scores[0]
    else
      var rest := Highest(scores[1..]);
      assert rest in scores;
      if scores[0] >= rest then scores[0] else rest
  }

  /** `min(scores)`. */
  function Lowest(scores: seq<nat>): (m: nat)
    requires scores != []
    ensures m in scores
    ensures forall i :: 0 <= i < |scores| ==> m <= scores[i]
  {
    if |scores| == 1 then scores[0]
    else
      var rest := Lowest(scores[1..]);
      assert rest in scores;
      if scores[0] <= rest then scores[0] else rest
  }

  function Score(n: nat): int { n }

  /**
   * `sorted(scores)[len(scores) // 2]`: position `len // 2` of the ascending
   * order is position `len - 1 - len // 2` of the descending one.
   */
  function Median(scores: seq<nat>): (m: nat)
    requires scores != []
    ensures m in scores
    ensures Lowest(scores) <= m <= Highest(scores)
  {
    var sorted := SortDesc(scores, Score);
    var k := |sorted| - 1 - |sorted| / 2;
    assert sorted[k] in multiset(sorted);
    sorted[k]
  }

  /** At least half of the scores, counted as the source's index does, lie on each side of the median. */
  lemma MedianSplitsScores(scores: seq<nat>)
    requires scores != []
    ensures var sorted := SortDesc(scores, Score);
            var k := |sorted| - 1 - |sorted| / 2;
            && (forall i :: 0 <= i < k ==> sorted[i] >= Median(scores))
            && (forall i :: k < i < |sorted| ==> sorted[i] <= Median(scores))
            && |sorted| - k == |scores| / 2 + 1
  {
    var sorted := SortDesc(scores, Score);
    var k := |sorted| - 1 - |sorted| / 2;
    forall i | 0 <= i < k ensures sorted[i] >= sorted[k] {
      assert Score(sorted[i]) >= Score(sorted[k]);
    }
    forall i | k < i < |sorted| ensures sorted[i] <= sorted[k] {
      assert Score(sorted[k]) >= Score(sorted[i]);
    }
  }

  // ---------------------------------------------------------------------
  // Author type

  datatype AuthorType = Government | International | Academic

  const GovernmentMarkers: seq<string> := ["bps.go.id", "kemendikbud", "kemnaker"]
  const InternationalMarkers: seq<string> := ["worldbank", "unesco", "oecd"]

  /**
   * 'government' when the lower-cased URL names a ministry or the statistics
   * bureau, else 'international' when it names an international body, else
   * 'academic'.
   */
  function AuthorTypeOf(url: string): (t: AuthorType)
    ensures t == Government <==> exists j :: 0 <= j < |GovernmentMarkers| && Contains(Lower(url), GovernmentMarkers[j])
    ensures t == International <==>
              && (forall j :: 0 <= j < |GovernmentMarkers| ==> !Contains(Lower(url), GovernmentMarkers[j]))
              && (exists j :: 0 <= j < |InternationalMarkers| && Contains(Lower(url), InternationalMarkers[j]))
  {
    var lowered := Lower(url);
    if FirstContained(GovernmentMarkers, lowered).Some? then Government
    else if FirstContained(InternationalMarkers, lowered).Some? then International
    else Academic
  }

  lemma ContainsWithin(s: string, mid: string, sub: string)
    requires Contains(s, mid) && Contains(mid, sub)
    ensures Contains(s, sub)
  {
    var i :| 0 <= i <= |s| - |mid| && OccursAt(s, mid, i);
    var j :| 0 <= j <= |mid| - |sub| && OccursAt(mid, sub, j);
    forall k | 0 <= k < |sub| ensures s[i + j + k] == sub[k] {
      assert s[i..i + |mid|][j + k] == mid[j + k];
      assert mid[j..j + |sub|][k] == mid[j + k];
    }
    assert s[i + j..i + j + |sub|] == sub;
    assert OccursAt(s, sub, i + j);
  }

  /**
   * Every marker of a government or international author contains one of
   * the domains `calculate_relevance_score` credits ("bps.go.id" contains
   * "bps", and the other five are credited domains themselves), so such a
   * source always received the authority bonus.
   */
  lemma {:induction false} AuthorMarkersAreCredited(url: string)
    ensures AuthorTypeOf(url) != Academic ==> AuthorityBonus(url) == AuthorityPoints
  {
    var lowered := Lower(url);
    if AuthorTypeOf(url) == Government {
      var j :| 0 <= j < |GovernmentMarkers| && Contains(lowered, GovernmentMarkers[j]);
      if j == 0 {
        assert OccursAt(GovernmentMarkers[0], CredibleSources[0], 0);
        ContainsWithin(lowered, GovernmentMarkers[0], CredibleSources[0]);
      } else {
        assert GovernmentMarkers[j] == CredibleSources[j];
      }
    } else if AuthorTypeOf(url) == International {
      var j :| 0 <= j < |InternationalMarkers| && Contains(lowered, InternationalMarkers[j]);
      var k := if j == 2 then 6 else j + 3;
      assert InternationalMarkers[j] == CredibleSources[k];
    }
  }

  // ---------------------------------------------------------------------
  // Score ranges

  function Digit(d: nat): (c: char)
    requires d < 10
    ensures IsDigit(c)
  {
    ('0' as int + d) as char
  }

  /** `str(n)` for a natural number. */
  function Decimal(n: nat): (r: string)
    ensures r != []
    ensures forall i :: 0 <= i < |r| ==> IsDigit(r[i])
  {
    if n < 10 then [Digit(n)] else Decimal(n / 10) + [Digit(n % 10)]
  }

  /** Different numbers are written differently. */
  lemma {:induction false} DecimalInjective(a: nat, b: nat)
    requires Decimal(a) == Decimal(b)
    ensures a == b
  {
    if a >= 10 && b >= 10 {
      var x, y := Decimal(a), Decimal(b);
      assert x[..|x| - 1] == Decimal(a / 10) && y[..|y| - 1] == Decimal(b / 10);
      DecimalInjective(a / 10, b / 10);
      assert Digit(a % 10) == x[|x| - 1] == Digit(b % 10);
    } else if a < 10 && b < 10 {
      assert Decimal(a)[0] == Digit(a);
    }
  }

  /**
   * `f"{int(s)}-{int(s)+1}"`: the whole points of the score and the next
   * whole number. Scores are never negative, so `int` rounds down.
   */
  function RangeLabel(score: nat): string {
    Decimal(score / 100) + "-" + Decimal(score / 100 + 1)
  }

  /** In a number written before a dash, the first dash comes right after the number. */
  lemma FirstDash(x: string, rest: string)
    requires forall i :: 0 <= i < |x| ==> IsDigit(x[i])
    ensures (x + "-" + rest)[|x|] == '-'
    ensures forall i :: 0 <= i < |x| ==> (x + "-" + rest)[i] != '-'
  {
    var l := x + "-" + rest;
    forall i | 0 <= i < |x| ensures l[i] != '-' {
      assert l[i] == x[i];
    }
  }

  /** Two numbers written before a dash can be told apart by where the dash is. */
  lemma SplitAtDash(x: string, x2: string, y: string, y2: string)
    requires forall i :: 0 <= i < |x| ==> IsDigit(x[i])
    requires forall i :: 0 <= i < |y| ==> IsDigit(y[i])
    requires x + "-" + x2 == y + "-" + y2
    ensures x == y
  {
    var l, r := x + "-" + x2, y + "-" + y2;
    FirstDash(x, x2);
    FirstDash(y, y2);
    assert |x| == |y|;
    assert l[..|x|] == x && r[..|y|] == y;
  }

  /** Two scores share a range label exactly when they have the same whole points. */
  lemma RangeLabelSameRange(a: nat, b: nat)
    ensures RangeLabel(a) == RangeLabel(b) <==> a / 100 == b / 100
  {
    if RangeLabel(a) == RangeLabel(b) {
      SplitAtDash(Decimal(a / 100), Decimal(a / 100 + 1), Decimal(b / 100), Decimal(b / 100 + 1));
      DecimalInjective(a / 100, b / 100);
    }
  }

  // ---------------------------------------------------------------------
  // Source distribution

  /** `d.get(k, 0)`. */
  function Lookup<K(==)>(d: map<K, nat>, k: K): nat {
    if k in d then d[k] else 0
  }

  /** `d[k] = d.get(k, 0) + 1`. */
  function Bump<K(==)>(d: map<K, nat>, k: K): map<K, nat> {
    d[k := Lookup(d, k) + 1]
  }

  /** The dictionary built by bumping the key of each source in turn. */
  function Tally<K(==)>(sources: seq<Source>, key: Source -> K): map<K, nat> {
    if sources == [] then map[]
    else Bump(Tally(sources[..|sources| - 1], key), key(sources[|sources| - 1]))
  }

  /** How many of the sources have key `k`. */
  function Occurrences<K(==)>(sources: seq<Source>, key: Source -> K, k: K): (n: nat)
    ensures n <= |sources|
  {
    if sources == [] then 0
    else Occurrences(sources[..|sources| - 1], key, k) + (if key(sources[|sources| - 1]) == k then 1 else 0)
  }

  /**
   * The tally counts every key: a key is present exactly when some source has
   * it, and then with the number of sources that have it.
   */
  lemma {:induction false} TallyCounts<K>(sources: seq<Source>, key: Source -> K)
    ensures forall k :: Lookup(Tally(sources, key), k) == Occurrences(sources, key, k)
    ensures forall k :: k in Tally(sources, key) <==> Occurrences(sources, key, k) > 0
  {
    if sources != [] {
      TallyCounts(sources[..|sources| - 1], key);
    }
  }

  lemma TallyStep<K>(sources: seq<Source>, i: nat, key: Source -> K)
    requires i < |sources|
    ensures Tally(sources[..i + 1], key) == Bump(Tally(sources[..i], key), key(sources[i]))
  {
    assert sources[..i + 1][..i] == sources[..i];
  }

  function FileTypeKey(s: Source): string { s.fileType }

  /** `str(source.year)`: different years give different strings, so the year itself is the key. */
  function YearKey(s: Source): int { s.year }

  function AuthorKey(s: Source): AuthorType { AuthorTypeOf(s.url) }

  function RangeKey(s: Source): string { RangeLabel(s.relevanceScore) }

  /** The four author types split the sources: their counts add up to the number of sources. */
  lemma {:induction false} AuthorTypesPartition(sources: seq<Source>)
    ensures Occurrences(sources, AuthorKey, Government) + Occurrences(sources, AuthorKey, International)
            + Occurrences(sources, AuthorKey, Academic) == |sources|
  {
    if sources != [] {
      AuthorTypesPartition(sources[..|sources| - 1]);
    }
  }

  /** The distribution loop of `save_metadata`, filling the four dictionaries in one pass. */
  method SourceDistribution(sources: seq<Source>)
    returns (byType: map<string, nat>, byYear: map<int, nat>, byAuthorType: map<AuthorType, nat>,
             byRelevanceRange: map<string, nat>)
    ensures byType == Tally(sources, FileTypeKey)
    ensures byYear == Tally(sources, YearKey)
    ensures byAuthorType == Tally(sources, AuthorKey)
    ensures byRelevanceRange == Tally(sources, RangeKey)
  {
    byType, byYear, byAuthorType, byRelevanceRange := map[], map[], map[], map[];
    var i := 0;
    while i < |sources|
      invariant 0 <= i <= |sources|
      invariant byType == Tally(sources[..i], FileTypeKey)
      invariant byYear == Tally(sources[..i], YearKey)
      invariant byAuthorType == Tally(sources[..i], AuthorKey)
      invariant byRelevanceRange == Tally(sources[..i], RangeKey)
    {
      TallyStep(sources, i, FileTypeKey);
      TallyStep(sources, i, YearKey);
      TallyStep(sources, i, AuthorKey);
      TallyStep(sources, i, RangeKey);
      var source := sources[i];
      byType := Bump(byType, source.fileType);
      byYear := Bump(byYear, source.year);
      var authorType := AuthorTypeOf(source.url);
      byAuthorType := Bump(byAuthorType, authorType);
      var scoreRange := RangeLabel(source.relevanceScore);
      byRelevanceRange := Bump(byRelevanceRange, scoreRange);
      i := i + 1;
    }
    assert sources[..i] == sources;
  }

  // ---------------------------------------------------------------------
  // Content analysis

  /** `sum(len(s.content) for s in sources if s.content)`. */
  function TotalContentLength(sources: seq<Source>): nat {
    if sources == [] then 0
    else TotalContentLength(sources[..|sources| - 1]) + |sources[|sources| - 1].content|
  }

  predicate HasContent(s: Source) { s.content != "" }

  predicate HasData(s: Source) { s.extractedData != map[] }

  /** `sum(len(s.extracted_data) for s in sources if s.extracted_data)`. */
  function TotalExtractedMetrics(sources: seq<Source>): nat {
    if sources == [] then 0
    else TotalExtractedMetrics(sources[..|sources| - 1]) + |sources[|sources| - 1].extractedData|
  }

  /**
   * Every source counted in 'sources_with_content' adds at least one
   * character, and every source counted in 'sources_with_data' at least one
   * metric, so each total is zero exactly when its count is.
   */
  lemma {:induction false} TotalsVanishWithCounts(sources: seq<Source>)
    ensures TotalContentLength(sources) >= CountWhere(sources, HasContent)
    ensures TotalExtractedMetrics(sources) >= CountWhere(sources, HasData)
    ensures TotalContentLength(sources) == 0 <==> CountWhere(sources, HasContent) == 0
    ensures TotalExtractedMetrics(sources) == 0 <==> CountWhere(sources, HasData) == 0
  {
    if sources != [] {
      var last := sources[|sources| - 1];
      TotalsVanishWithCounts(sources[..|sources| - 1]);
      if HasData(last) {
        assert last.extractedData != map[];
        var k :| k in last.extractedData;
        assert |last.extractedData| >= 1 by {
          assert k in last.extractedData.Keys;
        }
      }
    }
  }
}
