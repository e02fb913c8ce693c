/**
 * `extract_important_data` (main.py:731-818): generic percentages and
 * numbers, a table of named metrics whose first matching pattern wins, the
 * years mentioned, and growth indicators.
 *
 * Regular-expression matching is abstract: a `Matcher` plays the part of
 * `re.findall`. The one thing assumed of it, where a lemma needs it, is that
 * a pattern finds nothing in a text that lacks the pattern's anchor, a
 * literal piece every match of the pattern contains. The year pattern
 * `20(2[0-5])` is simple enough to be scanned for directly.
 */
module DataPoints {
  import opened Options
  import opened Text
  import opened Records

  /** Which of a metric's three patterns. */
  datatype Slot = First | Second | Third

  /** The verbs of the growth patterns. */
  datatype Trend = Meningkat | Turun | Naik | Increase | Decrease

  /**
   * The regular expressions of the extractor, by name: `Regex` gives each
   * one's text and `Anchor` a literal that every match of it contains.
   */
  datatype Pattern =
    | PercentPattern
    | NumberPattern
    | MetricPattern(metric: MetricName, slot: Slot)
    | GrowthPattern(trend: Trend)

  function Regex(p: Pattern): string {
    match p
    case PercentPattern => @"(\d+(?:\.\d+)?)\s*%"
    case NumberPattern => @"\b(\d{1,3}(?:[.,]\d{3})*(?:[.,]\d+)?)\b"
    case MetricPattern(m, slot) => MetricRegex(m, slot)
    case GrowthPattern(t) =>
      match t
      case Meningkat => @"meningkat\s+(\d+(?:\.\d+)?)\s*%"
      case Turun => @"turun\s+(\d+(?:\.\d+)?)\s*%"
      case Naik => @"naik\s+(\d+(?:\.\d+)?)\s*%"
      case Increase => @"increase(?:d)?\s+by\s+(\d+(?:\.\d+)?)\s*%"
      case Decrease => @"decrease(?:d)?\s+by\s+(\d+(?:\.\d+)?)\s*%"
  }

  function MetricRegex(m: MetricName, slot: Slot): string {
    var rate := @"[^0-9]*(\d+(?:\.\d+)?)\s*%";
    var count := @"(\d+(?:[.,]\d{3})*)";
    match (m, slot)
    case (PartisipasiSmk, First) => @"partisipasi\s+SMK" + rate
    case (PartisipasiSmk, Second) => @"enrollment\s+rate" + rate
    case (PartisipasiSmk, Third) => @"tingkat\s+partisipasi" + rate
    case (PengangguranLulusan, First) => @"pengangguran\s+lulusan" + rate
    case (PengangguranLulusan, Second) => @"unemployment\s+rate" + rate
    case (PengangguranLulusan, Third) => @"tingkat\s+pengangguran" + rate
    case (AksesInternet, First) => @"akses\s+internet" + rate
    case (AksesInternet, Second) => @"internet\s+penetration" + rate
    case (AksesInternet, Third) => "konektivitas" + rate
    case (JumlahSmk, First) => @"SMK\s+sebanyak[^0-9]*" + count
    case (JumlahSmk, Second) => count + @"\s+SMK"
    case (JumlahSmk, Third) => @"sekolah\s+menengah\s+kejuruan[^0-9]*" + count
    case (LiterasiDigital, First) => @"literasi\s+digital" + rate
    case (LiterasiDigital, Second) => @"digital\s+literacy" + rate
    case (LiterasiDigital, Third) => @"kemampuan\s+digital" + rate
    case (PenetrasiTeknologi, First) => @"penetrasi\s+teknologi" + rate
    case (PenetrasiTeknologi, Second) => @"technology\s+adoption" + rate
    case (PenetrasiTeknologi, Third) => @"adopsi\s+teknologi" + rate
    case (KesiapanKerja, First) => @"kesiapan\s+kerja" + rate
    case (KesiapanKerja, Second) => @"job\s+readiness" + rate
    case (KesiapanKerja, Third) => @"work\s+readiness" + rate
  }

  /** A literal piece of text that every match of the pattern contains. */
  function Anchor(p: Pattern): string {
    match p
    case PercentPattern => "%"
    case NumberPattern => ""
    case GrowthPattern(t) =>
      (match t
       case Meningkat => "meningkat"
       case Turun => "turun"
       case Naik => "naik"
       case Increase => "increase"
       case Decrease => "decrease")
    case MetricPattern(m, slot) =>
      match (m, slot)
      case (PartisipasiSmk, First) => "SMK"
      case (PartisipasiSmk, Second) => "enrollment"
      case (PartisipasiSmk, Third) => "partisipasi"
      case (PengangguranLulusan, First) => "lulusan"
      case (PengangguranLulusan, Second) => "unemployment"
      case (PengangguranLulusan, Third) => "pengangguran"
      case (AksesInternet, First) => "internet"
      case (AksesInternet, Second) => "penetration"
      case (AksesInternet, Third) => "konektivitas"
      case (JumlahSmk, First) => "SMK"
      case (JumlahSmk, Second) => "SMK"
      case (JumlahSmk, Third) => "kejuruan"
      case (LiterasiDigital, First) => "literasi"
      case (LiterasiDigital, Second) => "literacy"
      case (LiterasiDigital, Third) => "kemampuan"
      case (PenetrasiTeknologi, First) => "penetrasi"
      case (PenetrasiTeknologi, Second) => "adoption"
      case (PenetrasiTeknologi, Third) => "adopsi"
      case (KesiapanKerja, First) => "kesiapan"
      case (KesiapanKerja, Second) => "job"
      case (KesiapanKerja, Third) => "work"
  }

  /**
   * `re.findall(pattern, text)` for the one-group patterns used here: the
   * captured group of each match, left to right.
   */
  type Matcher = (Pattern, string) -> seq<string>

  ghost predicate HonoursAnchors(findall: Matcher) {
    forall p, t :: findall(p, t) != [] ==> Contains(t, Anchor(p))
  }

  const MaxPercentages: nat := 8
  const MaxNumbers: nat := 15
  const MaxGrowthIndicators: nat := 3

  /** The metric table, in its order. */
  const MetricOrder: seq<MetricName> := [
    PartisipasiSmk, PengangguranLulusan, AksesInternet, JumlahSmk,
    LiterasiDigital, PenetrasiTeknologi, KesiapanKerja
  ]

  /** Where a metric sits in the table. */
  function MetricIndex(m: MetricName): (i: nat)
    ensures i < |MetricOrder| && MetricOrder[i] == m
  {
    match m
    case PartisipasiSmk => 0
    case PengangguranLulusan => 1
    case AksesInternet => 2
    case JumlahSmk => 3
    case LiterasiDigital => 4
    case PenetrasiTeknologi => 5
    case KesiapanKerja => 6
  }

  /** The table lists each metric once. */
  lemma MetricIndexOfOrder(i: nat)
    requires i < |MetricOrder|
    ensures MetricIndex(MetricOrder[i]) == i
  {
  }

  /** The patterns tried for each metric, in order, against the lower-cased content. */
  function MetricPatterns(m: MetricName): seq<Pattern> {
    [MetricPattern(m, First), MetricPattern(m, Second), MetricPattern(m, Third)]
  }

  const GrowthPatterns: seq<Pattern> := [
    GrowthPattern(Meningkat), GrowthPattern(Turun), GrowthPattern(Naik),
    GrowthPattern(Increase), GrowthPattern(Decrease)
  ]

  /**
   * The index of the first pattern that finds anything in `text`: the loop
   * that tries a metric's patterns and breaks at the first match.
   */
  function FirstMatchIndex(patterns: seq<Pattern>, text: string, findall: Matcher): (r: Option<nat>)
    ensures r.Some? ==> r.value < |patterns| && findall(patterns[r.value], text) != []
    ensures r.Some? ==> forall j :: 0 <= j < r.value ==> findall(patterns[j], text) == []
    ensures r.None? <==> forall j :: 0 <= j < |patterns| ==> findall(patterns[j], text) == []
  {
    if patterns == [] then None
    else if findall(patterns[0], text) != [] then Some(0)
    else match FirstMatchIndex(patterns[1..], text, findall)
      case None => None
      case Some(i) => Some(i + 1)
  }

  /** What every pattern finds, pattern after pattern (`growth_data.extend(...)`). */
  function AllMatches(patterns: seq<Pattern>, text: string, findall: Matcher): (r: seq<string>)
    ensures r == [] <==> forall j :: 0 <= j < |patterns| ==> findall(patterns[j], text) == []
  {
    if patterns == [] then []
    else
      var init := patterns[..|patterns| - 1];
      assert forall j :: 0 <= j < |init| ==> init[j] == patterns[j];
      AllMatches(init, text, findall) + findall(patterns[|patterns| - 1], text)
  }

  lemma ContainsInSuffix(s: string, n: nat, x: string)
    requires n <= |s| && Contains(s[n..], x)
    ensures Contains(s, x)
  {
    var i :| 0 <= i <= |s[n..]| - |x| && OccursAt(s[n..], x, i);
    assert s[n + i..n + i + |x|] == s[n..][i..i + |x|];
    assert OccursAt(s, x, n + i);
  }

  /** A year from 2020 to 2025 is written at position `i` of `s`. */
  predicate YearAt(s: string, i: int) {
    0 <= i && i + 4 <= |s| && s[i] == '2' && s[i + 1] == '0' && s[i + 2] == '2' && '0' <= s[i + 3] <= '5'
  }

  /**
   * `re.findall(r'20(2[0-5])', s)`: for each "202d" with d in 0..5, scanning
   * left to right without overlap, the captured "2d", which is two digits
   * long and not a four-digit year.
   */
  function YearGroups(s: string): (gs: seq<string>)
    ensures forall k :: 0 <= k < |gs| ==> |gs[k]| == 2 && gs[k][0] == '2' && '0' <= gs[k][1] <= '5'
    ensures forall k :: 0 <= k < |gs| ==> Contains(s, "20" + gs[k])
    decreases |s|
  {
    if |s| < 4 then []
    else if s[0] == '2' && s[1] == '0' && s[2] == '2' && '0' <= s[3] <= '5' then
      var rest := YearGroups(s[4..]);
      assert OccursAt(s, "20" + s[2..4], 0) by { assert s[..4] == "20" + s[2..4]; }
      forall k | 0 <= k < |rest| ensures Contains(s, "20" + rest[k]) {
        ContainsInSuffix(s, 4, "20" + rest[k]);
      }
      [s[2..4]] + rest
    else
      var rest := YearGroups(s[1..]);
      forall k | 0 <= k < |rest| ensures Contains(s, "20" + rest[k]) {
        ContainsInSuffix(s, 1, "20" + rest[k]);
      }
      rest
  }

  /** There is a group exactly when some year from 2020 to 2025 is written in `s`. */
  lemma {:induction false} YearGroupsFound(s: string)
    ensures YearGroups(s) != [] <==> exists i :: YearAt(s, i)
    decreases |s|
  {
    if |s| < 4 {
      assert forall i :: !YearAt(s, i);
    } else if s[0] == '2' && s[1] == '0' && s[2] == '2' && '0' <= s[3] <= '5' {
      assert YearAt(s, 0);
    } else {
      YearGroupsFound(s[1..]);
      YearAtShift(s);
    }
  }

  /** Past a first character that starts no year, the years written in `s` are those of `s[1..]`. */
  lemma YearAtShift(s: string)
    requires s != [] && !YearAt(s, 0)
    ensures (exists i :: YearAt(s, i)) <==> (exists i :: YearAt(s[1..], i))
  {
    if exists i :: YearAt(s, i) {
      var i :| YearAt(s, i);
      assert YearAt(s[1..], i - 1);
    }
    if exists i :: YearAt(s[1..], i) {
      var i :| YearAt(s[1..], i);
      assert YearAt(s, i + 1);
    }
  }

  /** The `extracted_data` entry of metric `m`: the first match of its earliest matching pattern. */
  function MetricEntry(m: MetricName, text: string, findall: Matcher): Option<DataValue> {
    match FirstMatchIndex(MetricPatterns(m), text, findall)
    case None => None
    case Some(i) => Some(Single(findall(MetricPatterns(m)[i], text)[0]))
  }

  function Get(data: ExtractedData, key: DataKey): Option<DataValue> {
    if key in data then Some(data[key]) else None
  }

  /**
   * The inner loop over one metric's patterns: the first match of the first
   * pattern that matches, or None when none does.
   */
  method FirstMatch(patterns: seq<Pattern>, text: string, findall: Matcher) returns (r: Option<string>)
    ensures r.None? <==> FirstMatchIndex(patterns, text, findall).None?
    ensures r.Some? ==> r.value == findall(patterns[FirstMatchIndex(patterns, text, findall).value], text)[0]
  {
    var j := 0;
    while j < |patterns|
      invariant 0 <= j <= |patterns|
      invariant forall k :: 0 <= k < j ==> findall(patterns[k], text) == []
    {
      var matches := findall(patterns[j], text);
      if matches != [] {
        return Some(matches[0]);
      }
      j := j + 1;
    }
    return None;
  }

  /** The growth indicators loop: every growth pattern's matches, in pattern order. */
  method CollectGrowth(text: string, findall: Matcher) returns (growth: seq<string>)
    ensures growth == AllMatches(GrowthPatterns, text, findall)
  {
    growth := [];
    var g := 0;
    while g < |GrowthPatterns|
      invariant 0 <= g <= |GrowthPatterns|
      invariant growth == AllMatches(GrowthPatterns[..g], text, findall)
    {
      assert GrowthPatterns[..g + 1][..g] == GrowthPatterns[..g];
      growth := growth + findall(GrowthPatterns[g], text);
      g := g + 1;
    }
    assert GrowthPatterns[..g] == GrowthPatterns;
  }

  /**
   * The loop over the metric table: each metric gets the first match of its
   * earliest matching pattern, or no entry; other keys are left alone.
   */
  method AddMetrics(data0: ExtractedData, text: string, findall: Matcher) returns (data: ExtractedData)
    requires forall m :: Metric(m) !in data0
    ensures forall m :: Get(data, Metric(m)) == MetricEntry(m, text, findall)
    ensures forall k: DataKey :: !k.Metric? ==> Get(data, k) == Get(data0, k)
  {
    data := data0;
    var i := 0;
    while i < |MetricOrder|
      invariant 0 <= i <= |MetricOrder|
      invariant forall k: DataKey :: !k.Metric? ==> Get(data, k) == Get(data0, k)
      invariant forall m :: Get(data, Metric(m)) == if MetricIndex(m) < i then MetricEntry(m, text, findall) else None
    {
      var metric := MetricOrder[i];
      MetricIndexOfOrder(i);
      var value := FirstMatch(MetricPatterns(metric), text, findall);
      ghost var prev := data;
      if value.Some? {
        data := data[Metric(metric) := Single(value.value)];
      }
      assert Get(data, Metric(metric)) == MetricEntry(metric, text, findall);
      forall m | m != metric ensures Get(data, Metric(m)) == Get(prev, Metric(m)) && MetricIndex(m) != i {
      }
      i := i + 1;
    }
  }

  /**
   * What `extract_important_data` promises of the dictionary it returns.
   * 'percentages' and 'numbers' are always present; a metric is present
   * exactly when one of its patterns matches, with the first match of the
   * earliest matching pattern; 'years_mentioned' and 'growth_indicators' are
   * present only when non-empty.
   */
  ghost predicate ExtractedFrom(data: ExtractedData, content: string, findall: Matcher) {
    && Percentages in data && data[Percentages] == Items(Take(findall(PercentPattern, content), MaxPercentages))
    && Numbers in data && data[Numbers] == Items(Take(findall(NumberPattern, content), MaxNumbers))
    && |data[Percentages].items| <= MaxPercentages && |data[Numbers].items| <= MaxNumbers
    && (forall m :: Get(data, Metric(m)) == MetricEntry(m, Lower(content), findall))
    && (YearsMentioned in data <==> YearGroups(content) != [])
    && (YearsMentioned in data ==> data[YearsMentioned] == Distinct(set g | g in YearGroups(content)))
    && (GrowthIndicators in data <==> AllMatches(GrowthPatterns, Lower(content), findall) != [])
    && (GrowthIndicators in data ==>
          && data[GrowthIndicators] == Items(Take(AllMatches(GrowthPatterns, Lower(content), findall), MaxGrowthIndicators))
          && 0 < |data[GrowthIndicators].items| <= MaxGrowthIndicators)
  }

  /** Fills the `extracted_data` dictionary. */
  method ExtractImportantData(content: string, findall: Matcher) returns (data: ExtractedData)
    ensures ExtractedFrom(data, content, findall)
  {
    var lowered := Lower(content);
    var percentages := findall(PercentPattern, content);
    var numbers := findall(NumberPattern, content);
    data := map[Percentages := Items(Take(percentages, MaxPercentages)),
                Numbers := Items(Take(numbers, MaxNumbers))];

    assert Get(data, Percentages) == Some(Items(Take(percentages, MaxPercentages)));
    assert Get(data, Numbers) == Some(Items(Take(numbers, MaxNumbers)));
    assert Get(data, YearsMentioned) == None && Get(data, GrowthIndicators) == None;
    data := AddMetrics(data, lowered, findall);
    assert Get(data, Percentages) == Some(Items(Take(percentages, MaxPercentages)));
    assert Get(data, Numbers) == Some(Items(Take(numbers, MaxNumbers)));
    assert Get(data, YearsMentioned) == None && Get(data, GrowthIndicators) == None;

    var years := YearGroups(content);
    if years != [] {
      data := data[YearsMentioned := Distinct(set g | g in years)];
    }

    var growth := CollectGrowth(lowered, findall);
    if growth != [] {
      data := data[GrowthIndicators := Items(Take(growth, MaxGrowthIndicators))];
    }
  }

  /**
   * The patterns that spell "SMK" in upper case are applied to the
   * lower-cased content and never match, so the school count can only come
   * from the "sekolah menengah kejuruan" pattern and the participation rate
   * never from the "partisipasi SMK" one.
   */
  lemma SmkPatternsNeverMatch(content: string, findall: Matcher)
    requires HonoursAnchors(findall)
    ensures findall(MetricPatterns(PartisipasiSmk)[0], Lower(content)) == []
    ensures findall(MetricPatterns(JumlahSmk)[0], Lower(content)) == []
    ensures findall(MetricPatterns(JumlahSmk)[1], Lower(content)) == []
    ensures FirstMatchIndex(MetricPatterns(JumlahSmk), Lower(content), findall) != Some(0)
    ensures FirstMatchIndex(MetricPatterns(JumlahSmk), Lower(content), findall) != Some(1)
    ensures FirstMatchIndex(MetricPatterns(PartisipasiSmk), Lower(content), findall) != Some(0)
  {
    LoweredNeverContainsUpper(content, "SMK", 0);
  }
}
