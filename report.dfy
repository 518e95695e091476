/** The parsed Trivy report as the analyzer sees it, its loading, and the
    flattening of `Results[*].Vulnerabilities[*]` into one list. */
module Report {
  import opened Wrappers

  /** One entry of a target's `Vulnerabilities` list; a missing key is `None`. */
  datatype Vulnerability = Vulnerability(severity: Option<string>, vulnerabilityId: Option<string>)

  /** One entry of the report's `Results` list (one scanned target). */
  datatype ScanResult = ScanResult(vulnerabilities: Option<seq<Vulnerability>>)

  /** The top-level JSON value. A mapping is described by its `Results` key and
      by whether it holds any other key (which decides its truthiness); any
      other JSON value matters only through its truthiness. */
  datatype ReportData =
    | Mapping(results: Option<seq<ScanResult>>, hasOtherKeys: bool)
    | NonMapping(truthy: bool)

  /** The empty mapping `{}`. */
  const EmptyReport := Mapping(None, false)

  /** Python's truth value of the top-level value: a mapping is true when it
      has a key. */
  predicate Truthy(data: ReportData)
    ensures Truthy(data) <==> data != EmptyReport && data != NonMapping(false)
  {
    match data
    case Mapping(results, other) => results.Some? || other
    case NonMapping(t) => t
  }

  /** `load_trivy_report`: the parsed file, or `{}` when opening or parsing
      failed (`None` stands for any such failure). */
  function LoadTrivyReport(parsed: Option<ReportData>): (data: ReportData)
    ensures parsed.Some? ==> data == parsed.value
    ensures parsed.None? ==> data.Mapping? && !Truthy(data)
  {
    match parsed
    case Some(d) => d
    case None => EmptyReport
  }

  /** `report_data.get("Results", [])` on a mapping. */
  function ResultsOf(data: ReportData): (r: seq<ScanResult>)
    requires data.Mapping?
    ensures data.results.None? ==> r == []
    ensures data.results.Some? ==> r == data.results.value
  {
    data.results.GetOr([])
  }

  /** `result.get("Vulnerabilities", [])`. */
  function VulnerabilitiesOf(result: ScanResult): (r: seq<Vulnerability>)
    ensures result.vulnerabilities.None? ==> r == []
    ensures result.vulnerabilities.Some? ==> r == result.vulnerabilities.value
  {
    result.vulnerabilities.GetOr([])
  }

  /** The vulnerabilities of all results, result by result, each in its own order. */
  function Flatten(results: seq<ScanResult>): (r: seq<Vulnerability>)
    ensures results == [] ==> r == []
    ensures |results| == 1 ==> r == VulnerabilitiesOf(results[0])
  {
    if results == [] then [] else VulnerabilitiesOf(results[0]) + Flatten(results[1..])
  }

  /** Flattening distributes over concatenation of the results list. */
  lemma {:induction false} FlattenAppend(a: seq<ScanResult>, b: seq<ScanResult>)
    ensures Flatten(a + b) == Flatten(a) + Flatten(b)
  {
    if a == [] {
      assert a + b == b;
    } else {
      assert (a + b)[1..] == a[1..] + b;
      FlattenAppend(a[1..], b);
    }
  }

  /** A vulnerability is in the flattened list exactly when some result lists it. */
  lemma {:induction false} FlattenMembership(results: seq<ScanResult>, v: Vulnerability)
    ensures v in Flatten(results) <==> exists i :: 0 <= i < |results| && v in VulnerabilitiesOf(results[i])
  {
    if results != [] {
      FlattenMembership(results[1..], v);
      if v in Flatten(results[1..]) {
        var i :| 0 <= i < |results[1..]| && v in VulnerabilitiesOf(results[1..][i]);
        assert v in VulnerabilitiesOf(results[i + 1]);
      }
      if exists i :: 0 <= i < |results| && v in VulnerabilitiesOf(results[i]) {
        var i :| 0 <= i < |results| && v in VulnerabilitiesOf(results[i]);
        if i > 0 {
          assert v in VulnerabilitiesOf(results[1..][i - 1]);
        }
      }
    }
  }

  /** The flattened list is empty exactly when every result lacks
      `Vulnerabilities` or lists none. */
  lemma {:induction false} FlattenEmpty(results: seq<ScanResult>)
    ensures Flatten(results) == [] <==> forall i :: 0 <= i < |results| ==> VulnerabilitiesOf(results[i]) == []
  {
    if results != [] {
      FlattenEmpty(results[1..]);
      assert forall i :: 1 <= i < |results| ==> results[i] == results[1..][i - 1];
    }
  }

  /** The nested loops of `analyze_logs` that append every vulnerability of
      every result to a list, in order. */
  method CollectVulnerabilities(results: seq<ScanResult>) returns (vulns: seq<Vulnerability>)
    ensures vulns == Flatten(results)
  {
    vulns := [];
    var i := 0;
    while i < |results|
      invariant 0 <= i <= |results|
      invariant vulns == Flatten(results[..i])
    {
      var list := VulnerabilitiesOf(results[i]);
      var j := 0;
      while j < |list|
        invariant 0 <= j <= |list|
        invariant vulns == Flatten(results[..i]) + list[..j]
      {
        vulns := vulns + [list[j]];
        j := j + 1;
        assert list[..j] == list[..j - 1] + [list[j - 1]];
      }
      assert results[..i + 1] == results[..i] + [results[i]];
      FlattenAppend(results[..i], [results[i]]);
      assert Flatten([results[i]]) == list + Flatten([]);
      i := i + 1;
    }
    assert results[..i] == results;
  }
}
