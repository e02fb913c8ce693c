/**
 * The records that flow through the pipeline: the candidate dictionaries the
 * discovery functions produce, the `Source` dataclass (main.py:56-91) and the
 * `extracted_data` dictionary, written as a closed set of keys.
 */
module Records {

  /** The named metrics of `extract_important_data`, in the order of its table. */
  datatype MetricName =
    | PartisipasiSmk
    | PengangguranLulusan
    | AksesInternet
    | JumlahSmk
    | LiterasiDigital
    | PenetrasiTeknologi
    | KesiapanKerja

  /**
   * The keys `extract_important_data` may set: 'percentages', 'numbers', one
   * key per metric, 'years_mentioned' and 'growth_indicators'.
   */
  datatype DataKey =
    | Percentages
    | Numbers
    | Metric(name: MetricName)
    | YearsMentioned
    | GrowthIndicators

  /**
   * A value of `extracted_data`: a list of matches, one matched string, or the
   * list built from a set (whose order Python leaves unspecified).
   */
  datatype DataValue =
    | Items(items: seq<string>)
    | Single(value: string)
    | Distinct(members: set<string>)

  type ExtractedData = map<DataKey, DataValue>

  /**
   * A discovery result. Google Scholar results also carry 'source' and
   * 'citations', which `process_source_parallel` never reads.
   */
  datatype Candidate = Candidate(
    title: string,
    author: string,
    year: int,
    url: string,
    fileType: string)

  /**
   * The `Source` dataclass. Relevance scores are kept in hundredths of a point
   * (a score of 2.35 is 235). The dataclass has no `citations` field, and
   * `metadata` is never filled, so neither appears here.
   */
  datatype Source = Source(
    title: string,
    author: string,
    year: int,
    url: string,
    fileType: string,
    summaryId: string,
    summaryEn: string,
    extractedData: ExtractedData,
    relevanceScore: nat,
    content: string)

  /** `Source(title=..., author=..., year=..., url=..., file_type=...)` with defaults. */
  function FromCandidate(c: Candidate): (s: Source)
    ensures s.title == c.title && s.author == c.author && s.year == c.year
    ensures s.url == c.url && s.fileType == c.fileType
    ensures s.summaryId == "" && s.summaryEn == "" && s.content == "" && s.relevanceScore == 0
    ensures s.extractedData == map[]
  {
    Source(c.title, c.author, c.year, c.url, c.fileType, "", "", map[], 0, "")
  }
}
