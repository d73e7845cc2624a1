/** Vulnerability report merge, `merge_vulnerability_reports`: the `Results`
    of the filesystem scan and of the per-package scans are joined with
    Python's `+`. For the two lists the scanners write this is plain
    concatenation: nothing is deduplicated and nothing is reordered. */
module Merge {
  import opened Wrappers
  import opened Json
  import SbomScan

  /** `extract_vulns(path)`: `read_json(path).get("Results", [])`. */
  function ExtractVulns(f: JsonFile): (r: Result<Json, PyError>)
    ensures f.Missing? ==> r == Success(JArr([]))
    ensures f.Unparsable? ==> r == Failure(JsonDecodeError)
    ensures f.Parsed? && !f.doc.JObj? ==> r == Failure(AttributeError)
    ensures f.Parsed? && f.doc.JObj? && "Results" !in Keys(f.doc.members) ==> r == Success(JArr([]))
    ensures f.Parsed? && f.doc.JObj? && "Results" in Keys(f.doc.members) ==> r.Success? && ("Results", r.value) in f.doc.members
  {
    var data :- ReadJson(f);
    Get(data, "Results", JArr([]))
  }

  /** The report file `f` lists exactly the findings `items`. */
  predicate HoldsFindings(f: JsonFile, items: seq<Json>) {
    ExtractVulns(f) == Success(JArr(items))
  }

  /** `merge_vulnerability_reports(vuln1_path, vuln2_path, ...)`: the
      `{"Results": merged}` document written. The left report is read first,
      so its exception is the one raised when both are bad. */
  function MergeVulnerabilityReports(f1: JsonFile, f2: JsonFile): (r: Result<Json, PyError>)
    ensures ExtractVulns(f1).Failure? ==> r == Failure(ExtractVulns(f1).error)
    ensures ExtractVulns(f1).Success? && ExtractVulns(f2).Failure? ==> r == Failure(ExtractVulns(f2).error)
    ensures ExtractVulns(f1).Success? && ExtractVulns(f2).Success? ==>
      && (r.Success? <==> Add(ExtractVulns(f1).value, ExtractVulns(f2).value).Success?)
      && (r.Success? ==> r.value == JObj([("Results", Add(ExtractVulns(f1).value, ExtractVulns(f2).value).value)]))
      && (r.Failure? ==> r.error == TypeError)
    ensures forall xs, ys :: HoldsFindings(f1, xs) && HoldsFindings(f2, ys) ==> r == Success(ResultsDoc(xs + ys))
    ensures r.Success? ==> exists merged :: r.value == JObj([("Results", merged)])
  {
    var left :- ExtractVulns(f1);
    var right :- ExtractVulns(f2);
    var merged :- Add(left, right);
    Success(JObj([("Results", merged)]))
  }

  /** The `Results` list of a merged document. */
  function MergedFindings(doc: Json): Option<seq<Json>> {
    if doc.JObj? && Find(doc.members, "Results").Some? && Find(doc.members, "Results").value.JArr?
    then Some(Find(doc.members, "Results").value.items)
    else None
  }

  /** The merged report lists every finding of both reports, as many times as
      they appear there together, its length is the sum of theirs, and it is
      the left report's findings followed by the right report's. */
  lemma MergeIsConcatenation(f1: JsonFile, f2: JsonFile, xs: seq<Json>, ys: seq<Json>)
    requires HoldsFindings(f1, xs) && HoldsFindings(f2, ys)
    ensures MergeVulnerabilityReports(f1, f2).Success?
    ensures MergedFindings(MergeVulnerabilityReports(f1, f2).value).Some?
    ensures var m := MergedFindings(MergeVulnerabilityReports(f1, f2).value).value;
      && |m| == |xs| + |ys|
      && multiset(m) == multiset(xs) + multiset(ys)
      && m[..|xs|] == xs && m[|xs|..] == ys
  {
    var m := xs + ys;
    assert Find([("Results", JArr(m))], "Results") == Some(JArr(m));
    assert m[..|xs|] == xs && m[|xs|..] == ys;
  }

  /** Reports whose `Results` are not both lists do not merge as lists: a
      list joined with anything else that is not a list raises `TypeError`,
      and two strings are joined as one string. */
  lemma MergeOfNonLists(f1: JsonFile, f2: JsonFile, x: Json, y: Json)
    requires ExtractVulns(f1) == Success(x) && ExtractVulns(f2) == Success(y)
    ensures x.JArr? && !y.JArr? ==> MergeVulnerabilityReports(f1, f2) == Failure(TypeError)
    ensures !x.JArr? && y.JArr? ==> MergeVulnerabilityReports(f1, f2) == Failure(TypeError)
    ensures x.JNull? || y.JNull? ==> MergeVulnerabilityReports(f1, f2) == Failure(TypeError)
    ensures x.JStr? && y.JStr? ==> MergeVulnerabilityReports(f1, f2) == Success(JObj([("Results", JStr(x.s + y.s))]))
  {
  }

  /** A report file that is missing, or an object without "Results",
      contributes nothing: the merge is the other report's findings. */
  lemma MissingReportContributesNothing(f: JsonFile, ys: seq<Json>)
    requires HoldsFindings(f, ys)
    ensures HoldsFindings(Missing, [])
    ensures HoldsFindings(Parsed(EmptyObject), [])
    ensures MergeVulnerabilityReports(Missing, f) == Success(ResultsDoc(ys))
    ensures MergeVulnerabilityReports(f, Missing) == Success(ResultsDoc(ys))
  {
    assert [] + ys == ys;
    assert ys + [] == ys;
  }

  /** The merge does not deduplicate: merging a non-empty report with itself
      lists every finding twice, so the merge is not idempotent. */
  lemma MergeKeepsDuplicates(f: JsonFile, xs: seq<Json>)
    requires HoldsFindings(f, xs) && xs != []
    ensures MergeVulnerabilityReports(f, f) == Success(ResultsDoc(xs + xs))
    ensures MergeVulnerabilityReports(f, f) != Success(ResultsDoc(xs))
  {
    assert |xs + xs| != |xs|;
  }

  /** The document the per-package scan writes reads back as its findings, so
      the final merged report is the filesystem findings followed by the
      per-package findings, in scan order. */
  lemma MergeOfScanReport(fs: JsonFile, xs: seq<Json>, refs: seq<SbomScan.ImageRef>, scan: SbomScan.Scanner)
    requires HoldsFindings(fs, xs)
    ensures HoldsFindings(Parsed(ResultsDoc(SbomScan.Collected(refs, scan))), SbomScan.Collected(refs, scan))
    ensures MergeVulnerabilityReports(fs, Parsed(ResultsDoc(SbomScan.Collected(refs, scan))))
      == Success(ResultsDoc(xs + SbomScan.Collected(refs, scan)))
  {
  }
}
