# Trivy report analyzer, modelled in Dafny

This project models `analyze_logs` from `analyzer.py`. The function takes a
parsed Trivy scan report and returns a two-field summary of its worst finding:
`{"severity": ..., "vuln_name": ...}`. The model also covers the one part of
`load_trivy_report` that matters to the analyzer: any failure to load the file
turns into the empty mapping `{}`.

`analyze_logs` works in three steps:

1. **Flatten.** Nested loops append `Results[*].Vulnerabilities[*]`, target
   by target, into one list. A missing `Results` or `Vulnerabilities` key
   counts as an empty list. In the model this is the method
   `Report.CollectVulnerabilities`, proved against the function `Report.Flatten`.
2. **Rank and sort.** The list is sorted with a key function. The key is the
   position of the record's upper-cased `Severity` (a missing one counts as
   `"UNKNOWN"`) in `["CRITICAL", "HIGH", "MEDIUM", "LOW", "UNKNOWN"]`.
   `list.index` raises `ValueError` for any other name. CPython computes every
   key before it compares anything, so a single unknown severity makes the
   call fail, even in a one-element list. The error is the one for the first
   bad record. The model says this with `Severity.Decorate`. The sort itself
   is a stable insertion sort on (key, record) pairs (`KeySort.SortByKey`),
   lifted to records by `Severity.SortBySeverity`.
3. **Pick.** A falsy report gives the "No data" summary. An empty list gives
   the "No vulnerabilities found" summary. Otherwise the result is the first
   sorted record's `Severity` passed through `capitalize()` (or `"Unknown"`),
   plus its `VulnerabilityID` (or `"Unnamed vuln"`). This is `Analyzer.PickTop`,
   and the whole function is the method `Analyzer.AnalyzeLogs`.

Raised exceptions are modelled as values of `Analyzer.AnalysisError`:
- `UnknownSeverity(name)` for the `ValueError` of `list.index`;
- `NotAMapping` for the `AttributeError` of `.get` on a truthy top-level value
  that is not a mapping.

Three consequences of the code are easy to miss:
- An unknown severity raises `ValueError`; it is not normalised to UNKNOWN.
- A report whose list of findings is empty but which is itself non-empty
  (for example `{"Results": []}`) yields the "No vulnerabilities found"
  summary, not "No data".
- There is no lowercase top-level `vulnerabilities` shape, and a top-level
  list is not accepted as the list of findings: `.get` on a list raises.

Files:
- `wrappers.dfy`: `Option` and `Result`.
- `strings.dfy`: ASCII `upper`, `lower` and `capitalize`.
- `report.dfy`: the JSON shape, loading, and flattening.
- `sort.dfy`: a generic stable insertion sort on keyed pairs.
- `names.dfy`: the five severity names and their capitalized labels.
- `severity.dfy`: ranking, key computation, the severity sort, and the first
  most severe record.
- `analyzer.dfy`: the pick and `analyze_logs`.

## Model

| member | source | states |
|---|---|---|
| Report.LoadTrivyReport | analyzer.py:5-12 | A loaded report is passed on unchanged. Any failure gives a mapping that is falsy, the `{}` of the `except` branch. |
| Report.FlattenAppend | analyzer.py:20-23 | Flattening the concatenation of two result lists concatenates their flattenings, so the order of targets is kept. |
| Report.FlattenMembership | analyzer.py:20-23 | A record is in the flattened list iff some result lists it. Nothing is invented and nothing is lost. |
| Report.FlattenEmpty | analyzer.py:20-23 | The flattened list is empty iff every result's `Vulnerabilities` is missing or empty. |
| Report.CollectVulnerabilities | analyzer.py:20-23 | The nested append loops build exactly the in-order concatenation of every result's `Vulnerabilities` list, where a missing key contributes nothing. |
| Strings.UpperChar | analyzer.py:29 | The upper-cased character is not a lower-case letter, and it is the same letter as the input. |
| Strings.LowerChar | analyzer.py:37 | The lower-cased character is not an upper-case letter, and it is the same letter as the input. |
| Strings.UpperLetters | analyzer.py:29 | `upper()` keeps every character up to case and leaves no lower-case letter. |
| Strings.CapitalizeLetters | analyzer.py:37 | `capitalize()` keeps every character up to case. Its first character is not lower case, and no later one is upper case. |
| Strings.UpperIgnoresCase | analyzer.py:29 | Two strings that differ only in the case of letters have the same `upper()`. |
| Strings.CapitalizeOfUpper | analyzer.py:29-37 | Capitalizing the upper-cased name gives the same text as capitalizing the name as written. |
| SeverityNames.CapitalizedName | analyzer.py:26-37 | The capitalized form of each of the five names is the matching label, from "Critical" to "Unknown". |
| Severity.IndexOf | analyzer.py:29 | `list.index` gives the first position holding the name. It fails exactly when the name is absent. |
| Severity.Rank | analyzer.py:26-29 | A ranked record's key is a position below 5 that holds its upper-cased severity name. |
| Severity.RankFromName | analyzer.py:26-29 | A record whose upper-cased severity is the k-th name is ranked, with key k, because the five names are distinct. |
| Severity.RankIgnoresCase | analyzer.py:29 | Two severities that differ only in letter case are both ranked or both unranked, and they get the same key. |
| Severity.MissingSeverityIsUnknown | analyzer.py:29 | A record without `Severity` is ranked with the last key, that of UNKNOWN. |
| Severity.FirstUnranked | analyzer.py:27-30 | There is no answer iff every record is ranked. Otherwise the answer is the first record whose name `index` rejects. |
| Severity.Decorate | analyzer.py:27-30 | Key computation succeeds iff every severity is one of the five names. On success, each record is paired with its key, in order. On failure, the error names the first unranked record's upper-cased severity. |
| Severity.SortBySeverity | analyzer.py:27-30 | The sorted list is a permutation of the input, and its keys never decrease from CRITICAL to UNKNOWN. |
| Severity.SortBySeverityIsStable | analyzer.py:27-30 | For each key, the records with that key come out in their input order (a stable sort). |
| KeySort.Insert | analyzer.py:27-30 | Inserting into a sorted list keeps it sorted and adds exactly one element. The new element comes first exactly when the list is empty or its key is at most the head's key. |
| KeySort.SortByKey | analyzer.py:27-30 | The sort's result is sorted and is a permutation of its input. |
| KeySort.InsertOfKey | analyzer.py:27-30 | Insertion puts the new element before every element with the same key that is already present. |
| KeySort.SortIsStable | analyzer.py:27-30 | For each key, the sorted list holds the elements with that key in their input order. |
| KeySort.SortKeepsItems | analyzer.py:27-30 | Dropping the keys of the sorted pairs gives a permutation of the input records. |
| KeySort.FirstLeast | analyzer.py:27-35 | The chosen index has the least key, and every earlier index has a strictly greater key. |
| KeySort.SortHeadIsFirstLeast | analyzer.py:27-35 | The head of the stable sort is the first element with the least key. |
| Severity.FirstMostSevere | analyzer.py:27-35 | The chosen record has the least rank of all, and it is the earliest record of that rank. |
| Severity.FirstMostSevereIsUnique | analyzer.py:27-35 | Any record with both properties is the one `FirstMostSevere` picks. |
| Severity.SortHeadIsFirstMostSevere | analyzer.py:27-35 | `sorted_vulns[0]` is the earliest record of the most severe rank present. |
| Strings.Upper | analyzer.py:29 | `str.upper` keeps the length. Character by character it is stated by `Strings.UpperLetters`. |
| Strings.Lower | analyzer.py:37 | `str.lower`, used for the tail of `capitalize`, keeps the length. Its letters are stated through `Strings.CapitalizeLetters`. |
| Strings.Capitalize | analyzer.py:37 | `str.capitalize` keeps the length. Character by character it is stated by `Strings.CapitalizeLetters`, and `Strings.CapitalizeOfUpper` shows it ignores the input's case. |
| Report.Truthy | analyzer.py:16 | `not report_data` holds exactly for the empty mapping `{}` and for a falsy value that is not a mapping. |
| Report.ResultsOf | analyzer.py:21 | `report_data.get("Results", [])`: the `Results` list when the key is present, otherwise the empty list. |
| Report.VulnerabilitiesOf | analyzer.py:22 | `result.get("Vulnerabilities", [])`: the list when the key is present, otherwise the empty list. |
| Report.Flatten | analyzer.py:20-23 | No results flatten to nothing, and one result flattens to its own list. With `Report.FlattenAppend` this fixes `Flatten` as the in-order concatenation. |
| Severity.SeverityName | analyzer.py:29 | The name a record is ranked by is "UNKNOWN" when `Severity` is absent. Otherwise it has the length of the written severity. It never holds a lower-case letter. |
| Severity.Ranked | analyzer.py:26-29 | `severity_order.index` succeeds exactly when the record's name is one of the five. |
| Analyzer.SeverityLabel | analyzer.py:37 | The reported severity is the written `Severity`, or "Unknown", with the same letters, the first not lower case and the others not upper case. |
| Analyzer.Describe | analyzer.py:35-39 | The summary's severity is the label of the record's rank. Its name is the `VulnerabilityID`, or "Unnamed vuln" when the key is absent. |
| Analyzer.LabelOfRank | analyzer.py:29-37 | The reported severity is the label of the record's rank, whatever the case of `Severity`. It is "Unknown" when the key is absent. |
| Analyzer.PickTop | analyzer.py:26-39 | Picking fails iff some severity is unknown, and then it fails with the first such name. An empty list gives the "No vulnerabilities found" summary. Otherwise the summary describes the earliest record of the most severe rank. |
| Analyzer.PickTopLabel | analyzer.py:33-37 | Every summary the pick returns carries one of the five labels. |
| Analyzer.FirstCriticalWins | analyzer.py:27-35 | The first CRITICAL record is reported, wherever it stands in the list. |
| Analyzer.NothingListed | analyzer.py:21-33 | Results that list no vulnerability yield exactly `{"severity": "Low", "vuln_name": "No vulnerabilities found 🛡️"}`. |
| Analyzer.AnalyzeLogs | analyzer.py:15-39 | A falsy report (such as the `{}` of a failed load) gives exactly the "No data" summary. A truthy value that is not a mapping gives the `AttributeError`. A mapping gives the pick on its flattened findings. Every summary's severity is one of the five labels. |

## Left out

- Reading the file and parsing JSON in `load_trivy_report`, and its `print` of the error: these are file I/O and console output. The model takes the parse result as an `Option`, with `None` standing for any exception.
- `app/main.py`, `app.py`, `ollama.py` and `app/meme_generator.py` are not part of this model. They hold environment loading, LLM and RAG calls, HTTP and webhook posts, Flask routes, random choice and image drawing: network I/O and foreign libraries, with no local logic.
- Strings.Upper: models `str.upper` on ASCII letters only. Python also maps other letters (for example `'ß'.upper() == 'SS'` and `'ı'.upper() == 'I'`), which can change lengths and can make a non-ASCII severity match one of the five names.
- Strings.Capitalize: likewise ASCII only. Python's `capitalize` title-cases the first character and lower-cases the rest over all of Unicode.
- Report.Vulnerability: entries are typed. A `Severity` that is not a string, an entry of `Results` or `Vulnerabilities` that is not a mapping, and a `Results` or `Vulnerabilities` value that is `null` or not a list all make the code raise `TypeError` or `AttributeError` (or iterate over a string or mapping). A `VulnerabilityID` is returned unchanged whatever its JSON type, so `"VulnerabilityID": null` gives `None` as the name, not "Unnamed vuln", and a number comes back as a number. `Option<string>` cannot express these values: a JSON `null` is a present key, not a missing one.
- Report.ReportData: a top-level mapping is reduced to its `Results` key and whether it has other keys. The other keys are not read by the analyzer.
- Report.LoadTrivyReport: `json.load` can return a top-level value of any JSON type. The model keeps only whether such a value is a mapping and its truthiness.
- The order in which CPython's `sorted` compares elements (timsort) is not modelled. The model uses an insertion sort, and both are stable sorts by the same key, so their results are equal.
