/**
 * `calculate_relevance_score` (main.py:659-729): a sum of separately capped
 * terms, capped again at 5.0. Points are kept in hundredths (0.4 is 40), so
 * every weight and cap is exact. The current year, which the source reads
 * from the clock, is a parameter.
 */
module Scoring {
  import opened Options
  import opened Text
  import opened Records

  const TitleKeywords: seq<string> := [
    "vokasi", "vocational", "kejuruan", "digital", "teknologi", "akses",
    "inequality", "indonesia", "SMK", "politeknik", "edtech", "pembelajaran",
    "keterampilan", "skills", "training", "education", "pendidikan"
  ]

  const ContentKeywords: seq<string> := [
    "smk", "politeknik", "edtech", "pembelajaran digital",
    "keterampilan digital", "platform pembelajaran", "industri 4.0",
    "transformasi digital", "kompetensi", "sertifikasi", "pelatihan kerja",
    "akses internet", "kesenjangan digital", "literasi digital"
  ]

  const CredibleSources: seq<string> := [
    "bps", "kemendikbud", "kemnaker", "worldbank", "unesco", "scholar.google",
    "oecd", "adb", "researchgate", "ieee", "springer", "elsevier"
  ]

  const TitleWeight: nat := 40
  const TitleCap: nat := 250
  const ContentWeight: nat := 15
  const ContentCap: nat := 150
  const AuthorityPoints: nat := 100
  const MaxScore: nat := 500

  function Min(a: int, b: int): int { if a <= b then a else b }

  /** Title term: 0.4 per title keyword found in the lower-cased title, at most 2.5. */
  function TitlePoints(title: string): (p: nat)
    ensures p <= TitleCap
    ensures p == TitleCap <==> CountContained(TitleKeywords, Lower(title)) >= 7
  {
    Min(TitleWeight * CountContained(TitleKeywords, Lower(title)), TitleCap)
  }

  /**
   * Content term: 0.15 per phrase found in the lower-cased content, at most
   * 1.5, and nothing at all for empty content.
   */
  function ContentPoints(content: string): (p: nat)
    ensures p <= ContentCap
    ensures content == "" ==> p == 0
    ensures p == 0 <==> forall j :: 0 <= j < |ContentKeywords| ==> !Contains(Lower(content), ContentKeywords[j])
  {
    if content == "" then 0
    else Min(ContentWeight * CountContained(ContentKeywords, Lower(content)), ContentCap)
  }

  /**
   * Authority term: the scan over the credible domains stops at the first
   * one found in the lower-cased URL, so the bonus is a flat 1.0 however
   * many of them occur.
   */
  function AuthorityBonus(url: string): (b: nat)
    ensures b == 0 || b == AuthorityPoints
    ensures b == AuthorityPoints <==> exists j :: 0 <= j < |CredibleSources| && Contains(Lower(url), CredibleSources[j])
  {
    match FirstContained(CredibleSources, Lower(url))
    case Some(_) => AuthorityPoints
    case None => 0
  }

  /** Recency term, by how many years before `currentYear` the source appeared. */
  function RecencyBonus(year: int, currentYear: int): nat {
    var yearDiff := currentYear - year;
    if yearDiff <= 1 then 30
    else if yearDiff <= 2 then 20
    else if yearDiff <= 3 then 10
    else 0
  }

  /** A source of a later year never gets a smaller recency bonus; the largest is 0.3. */
  lemma RecencyMonotone(older: int, newer: int, currentYear: int)
    requires older <= newer
    ensures RecencyBonus(older, currentYear) <= RecencyBonus(newer, currentYear) <= 30
    ensures newer >= currentYear - 1 ==> RecencyBonus(newer, currentYear) == 30
    ensures older < currentYear - 3 ==> RecencyBonus(older, currentYear) == 0
  {
  }

  /**
   * The score. It reads only the title, content, URL and year of the source
   * (and the current year). The citation bonus of the source (main.py:720-727)
   * tests for a `citations` attribute that `Source` does not have, so it
   * never adds anything and has no term here.
   */
  function RelevanceScore(s: Source, currentYear: int): (r: nat)
    ensures r <= MaxScore
    ensures r >= AuthorityBonus(s.url)
    ensures r >= AuthorityPoints ==>
              || AuthorityBonus(s.url) == AuthorityPoints
              || CountContained(TitleKeywords, Lower(s.title)) > 0
              || ContentPoints(s.content) > 0
  {
    Min(TitlePoints(s.title) + ContentPoints(s.content) + AuthorityBonus(s.url)
        + RecencyBonus(s.year, currentYear), MaxScore)
  }

  /**
   * "SMK" is in the title keyword list but is tested against the lower-cased
   * title, so it never matches: at most 16 of the 17 keywords can count.
   */
  lemma TitleSmkNeverMatches(title: string)
    ensures TitleKeywords[8] == "SMK"
    ensures !Contains(Lower(title), TitleKeywords[8])
    ensures CountContained(TitleKeywords, Lower(title)) <= |TitleKeywords| - 1
  {
    var t := Lower(title);
    LoweredNeverContainsUpper(title, "SMK", 0);
    assert TitleKeywords == TitleKeywords[..8] + [TitleKeywords[8]] + TitleKeywords[9..];
    CountContainedAppend(TitleKeywords[..8] + [TitleKeywords[8]], TitleKeywords[9..], t);
    CountContainedAppend(TitleKeywords[..8], [TitleKeywords[8]], t);
  }

  /** Scoring reads nothing but the title, content, URL and year. */
  lemma ScoreReadsOnlyScoredFields(s: Source, t: Source, currentYear: int)
    requires s.title == t.title && s.content == t.content
    requires s.url == t.url && s.year == t.year
    ensures RelevanceScore(s, currentYear) == RelevanceScore(t, currentYear)
  {
  }
}
