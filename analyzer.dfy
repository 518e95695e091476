/** `analyze_logs`: the two-field summary of the worst finding in a report. */
module Analyzer {
  import opened Wrappers
  import opened Strings
  import opened Report
  import opened SeverityNames
  import opened Severity

  /** The returned dictionary `{"severity": ..., "vuln_name": ...}`. */
  datatype Summary = Summary(severity: string, vulnName: string)

  /** The exceptions `analyze_logs` can raise on a parsed report. */
  datatype AnalysisError =
    | NotAMapping                  // `AttributeError`: `.get` on a top-level value that is not a mapping
    | UnknownSeverity(name: string) // `ValueError`: `name` is not in the ranking list

  /** The answer for a report that is missing or empty. */
  const NoData := Summary("Unknown", "No data")

  /** The answer for a report that lists no vulnerability. */
  const NoVulnerabilities := Summary("Low", "No vulnerabilities found \U{1F6E1}\U{FE0F}")

  /** `top_vuln.get("Severity", "Unknown").capitalize()`: the severity as
      written, or "Unknown", with its first letter upper case and every other
      letter lower case. */
  function SeverityLabel(v: Vulnerability): (r: string)
    ensures |r| == |v.severity.GetOr("Unknown")|
    ensures |r| > 0 ==> !IsAsciiLower(r[0]) && SameIgnoringCase(v.severity.GetOr("Unknown")[0], r[0])
    ensures forall i :: 0 < i < |r| ==> !IsAsciiUpper(r[i]) && SameIgnoringCase(v.severity.GetOr("Unknown")[i], r[i])
  {
    CapitalizeLetters(v.severity.GetOr("Unknown"));
    Capitalize(v.severity.GetOr("Unknown"))
  }

  /** A ranked record's label is the capitalized name of its rank, whatever
      the case its `Severity` was written in; a record without `Severity` is
      labelled "Unknown", the label of its rank. */
  lemma LabelOfRank(v: Vulnerability)
    requires Ranked(v)
    ensures SeverityLabel(v) == SeverityLabels[Rank(v)]
  {
    var s := v.severity.GetOr("Unknown");
    var k := Rank(v);
    assert Upper(s) == SeverityOrder[k] by {
      if v.severity.None? {
        assert Upper("Unknown") == "UNKNOWN";
      }
    }
    CapitalizeOfUpper(s);
    CapitalizedName(k);
  }

  /** The summary of the chosen record: the label of its rank, and its
      `VulnerabilityID` or "Unnamed vuln" when the key is absent. */
  function Describe(v: Vulnerability): (r: Summary)
    ensures Ranked(v) ==> r.severity == SeverityLabels[Rank(v)]
    ensures v.vulnerabilityId.None? ==> r.vulnName == "Unnamed vuln"
    ensures v.vulnerabilityId.Some? ==> r.vulnName == v.vulnerabilityId.value
  {
    if Ranked(v) then LabelOfRank(v); Summary(SeverityLabel(v), v.vulnerabilityId.GetOr("Unnamed vuln"))
    else Summary(SeverityLabel(v), v.vulnerabilityId.GetOr("Unnamed vuln"))
  }

  /** Ranking, sorting and picking on the flattened list: the error of the
      first record with an unknown severity, the fixed answer for an empty
      list, or the summary of the first record of the least rank. */
  function PickTop(vulns: seq<Vulnerability>): (r: Result<Summary, AnalysisError>)
    ensures r.Failure? <==> !AllRanked(vulns)
    ensures r.Failure? ==> exists i :: && 0 <= i < |vulns| && !Ranked(vulns[i])
                                       && (forall j :: 0 <= j < i ==> Ranked(vulns[j]))
                                       && r.error == UnknownSeverity(SeverityName(vulns[i]))
    ensures vulns == [] ==> r == Success(NoVulnerabilities)
    ensures AllRanked(vulns) && vulns != [] ==> r == Success(Describe(vulns[FirstMostSevere(vulns)]))
  {
    match Decorate(vulns)
    case Failure(name) => Failure(UnknownSeverity(name))
    case Success(_) =>
      var sorted := SortBySeverity(vulns);
      if sorted == [] then Success(NoVulnerabilities)
      else
        SortHeadIsFirstMostSevere(vulns);
        Success(Describe(sorted[0]))
  }

  /** Every summary `PickTop` returns carries one of the five labels. */
  lemma PickTopLabel(vulns: seq<Vulnerability>)
    requires PickTop(vulns).Success?
    ensures PickTop(vulns).value.severity in SeverityLabels
  {
    if vulns == [] {
      assert SeverityLabels[3] == "Low";
    } else {
      LabelOfRank(vulns[FirstMostSevere(vulns)]);
    }
  }

  /** Any CRITICAL finding wins over every other, wherever it stands; among
      several the first wins. */
  lemma FirstCriticalWins(vulns: seq<Vulnerability>, c: nat)
    requires AllRanked(vulns)
    requires c < |vulns| && Rank(vulns[c]) == 0
    requires forall j :: 0 <= j < c ==> Rank(vulns[j]) != 0
    ensures PickTop(vulns) == Success(Describe(vulns[c]))
  {
    FirstMostSevereIsUnique(vulns, c);
  }

  /** A report whose results list no vulnerability has nothing to rank. */
  lemma {:induction false} NothingListed(results: seq<ScanResult>)
    requires forall i :: 0 <= i < |results| ==> VulnerabilitiesOf(results[i]) == []
    ensures PickTop(Flatten(results)) == Success(NoVulnerabilities)
  {
    FlattenEmpty(results);
  }

  /** `analyze_logs(report_data)`. */
  method AnalyzeLogs(data: ReportData) returns (r: Result<Summary, AnalysisError>)
    ensures !Truthy(data) ==> r == Success(NoData)
    ensures Truthy(data) && data.NonMapping? ==> r == Failure(NotAMapping)
    ensures Truthy(data) && data.Mapping? ==> r == PickTop(Flatten(ResultsOf(data)))
    ensures r.Success? ==> r.value.severity in SeverityLabels
  {
    if !Truthy(data) {
      assert SeverityLabels[4] == "Unknown";
      return Success(NoData);
    }
    if data.NonMapping? {
      return Failure(NotAMapping);
    }
    var vulns := CollectVulnerabilities(ResultsOf(data));
    r := PickTop(vulns);
    if r.Success? {
      PickTopLabel(vulns);
    }
  }
}
