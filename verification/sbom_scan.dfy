/** Per-package vulnerability scanning, `scan_sbom_artifacts`: every SBOM
    artifact that has a truthy name and a truthy version is scanned on its own;
    a scan that fails for any reason adds nothing and the loop goes on; the
    `Results` of the scans that succeed are concatenated in artifact order and
    written out as `{"Results": [...]}`. */
module SbomScan {
  import opened Wrappers
  import opened Json

  /** The `name:version` identity one scan is run against. */
  datatype ImageRef = ImageRef(name: Json, version: Json)

  /** The vulnerability scanner as an oracle: the JSON document the scan
      printed, or None when the scan raised (the process failed or could not be
      started, or its output was not JSON). The script catches every such
      exception. */
  type Scanner = ImageRef -> Option<Json>

  /** What a scan run did: the scans it asked for, in order, and the findings
      it collected. */
  datatype ScanRun = ScanRun(calls: seq<ImageRef>, results: seq<Json>)

  predicate AllObjects(artifacts: seq<Json>) {
    forall i :: 0 <= i < |artifacts| ==> artifacts[i].JObj?
  }

  /** `artifact.get("name", "")` and `artifact.get("version", "")`. */
  function RefOf(artifact: Json): (ref: ImageRef)
    requires artifact.JObj?
    ensures "name" !in Keys(artifact.members) ==> ref.name == JStr("")
    ensures "name" in Keys(artifact.members) ==> ("name", ref.name) in artifact.members
    ensures "version" !in Keys(artifact.members) ==> ref.version == JStr("")
    ensures "version" in Keys(artifact.members) ==> ("version", ref.version) in artifact.members
  {
    ImageRef(Get(artifact, "name", JStr("")).value, Get(artifact, "version", JStr("")).value)
  }

  /** The guard `if not pkg or not version: continue` lets the artifact
      through. */
  function Scannable(ref: ImageRef): (b: bool)
    ensures b <==> ref.name !in Falsy && ref.version !in Falsy
  {
    Truthy(ref.name) && Truthy(ref.version)
  }

  /** The identity of every artifact, in SBOM order. */
  function RefsOf(artifacts: seq<Json>): (refs: seq<ImageRef>)
    requires AllObjects(artifacts)
    ensures |refs| == |artifacts|
    ensures forall i :: 0 <= i < |artifacts| ==> refs[i] == RefOf(artifacts[i])
  {
    seq(|artifacts|, i requires 0 <= i < |artifacts| && AllObjects(artifacts) => RefOf(artifacts[i]))
  }

  /** The identities that pass the guard, in order. */
  function ScannableOnly(refs: seq<ImageRef>): (kept: seq<ImageRef>)
    ensures |kept| <= |refs|
    ensures forall k :: 0 <= k < |kept| ==> Scannable(kept[k])
  {
    if |refs| == 0 then []
    else
      var n := |refs| - 1;
      ScannableOnly(refs[..n]) + (if Scannable(refs[n]) then [refs[n]] else [])
  }

  /** The identities of the artifacts that pass the guard, in SBOM order. */
  function ScannableRefs(artifacts: seq<Json>): seq<ImageRef>
    requires AllObjects(artifacts)
  {
    ScannableOnly(RefsOf(artifacts))
  }

  /** What one scan adds to the list: `json_output.get("Results", [])` fed to
      `list.extend`. Any exception on the way (no output, output that is not a
      dict, `Results` that cannot be iterated) is caught and adds nothing. */
  function Contribution(output: Option<Json>): (items: seq<Json>)
    ensures output.None? ==> items == []
    ensures output.Some? && !output.value.JObj? ==> items == []
  {
    match output
    case None => []
    case Some(doc) =>
      match Get(doc, "Results", JArr([]))
      case Failure(_) => []
      case Success(results) =>
        match Iterate(results)
        case Failure(_) => []
        case Success(items) => items
  }

  /** One scan adds its `Results` list when it printed a dict holding one,
      and nothing when it printed a dict without `Results`. A `Results` value
      that is not a list is fed to `extend` all the same: a string adds its
      characters, a dict its keys, and anything else raises `TypeError`,
      which is caught and adds nothing. */
  lemma ContributionCases(output: Option<Json>)
    ensures output.Some? && output.value.JObj? && "Results" !in Keys(output.value.members)
      ==> Contribution(output) == []
    ensures output.Some? && output.value.JObj? && Find(output.value.members, "Results").Some?
      && Find(output.value.members, "Results").value.JArr?
      ==> Contribution(output) == Find(output.value.members, "Results").value.items
    ensures output.Some? && output.value.JObj? && Find(output.value.members, "Results").Some?
      ==> (var results := Find(output.value.members, "Results").value;
           Contribution(output) == if Iterate(results).Success? then Iterate(results).value else [])
  {
  }

  /** Every scan of `refs` raises. */
  predicate AllScansFail(refs: seq<ImageRef>, scan: Scanner) {
    forall k :: 0 <= k < |refs| ==> scan(refs[k]).None?
  }

  /** The findings collected from scanning `refs` in order. */
  function Collected(refs: seq<ImageRef>, scan: Scanner): (found: seq<Json>)
    ensures refs == [] ==> found == []
  {
    if |refs| == 0 then []
    else
      var n := |refs| - 1;
      Collected(refs[..n], scan) + Contribution(scan(refs[n]))
  }

  lemma ScannableOnlyStep(refs: seq<ImageRef>, ref: ImageRef)
    ensures ScannableOnly(refs + [ref]) == ScannableOnly(refs) + (if Scannable(ref) then [ref] else [])
  {
    assert (refs + [ref])[..|refs|] == refs;
  }

  lemma ScannableRefsStep(artifacts: seq<Json>, i: nat)
    requires i < |artifacts| && AllObjects(artifacts[..i]) && artifacts[i].JObj?
    ensures AllObjects(artifacts[..i + 1])
    ensures ScannableRefs(artifacts[..i + 1]) == ScannableRefs(artifacts[..i])
      + (if Scannable(RefOf(artifacts[i])) then [RefOf(artifacts[i])] else [])
  {
    assert RefsOf(artifacts[..i + 1]) == RefsOf(artifacts[..i]) + [RefOf(artifacts[i])];
    ScannableOnlyStep(RefsOf(artifacts[..i]), RefOf(artifacts[i]));
  }

  lemma CollectedStep(refs: seq<ImageRef>, ref: ImageRef, scan: Scanner)
    ensures Collected(refs + [ref], scan) == Collected(refs, scan) + Contribution(scan(ref))
  {
    assert (refs + [ref])[..|refs|] == refs;
  }

  /** The loop of `scan_sbom_artifacts`. An artifact that is not a dict makes
      `artifact.get` raise outside the `try`, which ends the whole run. */
  method ScanArtifacts(artifacts: seq<Json>, scan: Scanner) returns (r: Result<ScanRun, PyError>)
    ensures r.Success? <==> AllObjects(artifacts)
    ensures r.Failure? ==> r.error == AttributeError
    ensures r.Success? ==> r.value.calls == ScannableRefs(artifacts)
    ensures r.Success? ==> r.value.results == Collected(r.value.calls, scan)
  {
    var calls: seq<ImageRef> := [];
    var results: seq<Json> := [];
    for i := 0 to |artifacts|
      invariant AllObjects(artifacts[..i])
      invariant calls == ScannableRefs(artifacts[..i])
      invariant results == Collected(calls, scan)
    {
      if !artifacts[i].JObj? {
        assert !AllObjects(artifacts);
        return Failure(AttributeError);
      }
      ScannableRefsStep(artifacts, i);
      var ref := RefOf(artifacts[i]);
      if Scannable(ref) {
        CollectedStep(calls, ref, scan);
        calls := calls + [ref];
        results := results + Contribution(scan(ref));
      }
    }
    assert artifacts[..|artifacts|] == artifacts;
    return Success(ScanRun(calls, results));
  }

  /** The artifacts an SBOM document lists: `sbom_data.get("artifacts", [])`,
      then iterated. */
  function ArtifactsOf(sbom: Json): (r: Result<seq<Json>, PyError>)
    ensures sbom.JObj? && "artifacts" !in Keys(sbom.members) ==> r == Success([])
    ensures sbom.JObj? && "artifacts" in Keys(sbom.members) ==> r == Iterate(Find(sbom.members, "artifacts").value)
    ensures !sbom.JObj? ==> r == Failure(AttributeError)
  {
    var listed :- Get(sbom, "artifacts", JArr([]));
    Iterate(listed)
  }

  /** `scan_sbom_artifacts(sbom_file, ...)`: the scans made and the
      `{"Results": [...]}` document written. */
  method ScanSbomArtifacts(sbomFile: JsonFile, scan: Scanner) returns (r: Result<(seq<ImageRef>, Json), PyError>)
    ensures sbomFile.Missing? ==> r == Success(([], ResultsDoc([])))
    ensures sbomFile.Unparsable? ==> r == Failure(JsonDecodeError)
    ensures sbomFile.Parsed? ==>
      (r.Success? <==> ArtifactsOf(sbomFile.doc).Success? && AllObjects(ArtifactsOf(sbomFile.doc).value))
    ensures sbomFile.Parsed? && ArtifactsOf(sbomFile.doc).Failure? ==> r == Failure(ArtifactsOf(sbomFile.doc).error)
    ensures sbomFile.Parsed? && ArtifactsOf(sbomFile.doc).Success? && !AllObjects(ArtifactsOf(sbomFile.doc).value)
      ==> r == Failure(AttributeError)
    ensures sbomFile.Parsed? && r.Success? ==>
      && ArtifactsOf(sbomFile.doc).Success?
      && AllObjects(ArtifactsOf(sbomFile.doc).value)
      && r.value.0 == ScannableRefs(ArtifactsOf(sbomFile.doc).value)
    ensures r.Success? ==> forall k :: 0 <= k < |r.value.0| ==> Scannable(r.value.0[k])
    ensures r.Success? ==> r.value.1 == ResultsDoc(Collected(r.value.0, scan))
  {
    var sbom :- ReadJson(sbomFile);
    var artifacts :- ArtifactsOf(sbom);
    var run :- ScanArtifacts(artifacts, scan);
    return Success((run.calls, ResultsDoc(run.results)));
  }

  // ---------------------------------------------------------------------------
  // Properties of the accumulation

  lemma {:induction false} CollectedAppend(a: seq<ImageRef>, b: seq<ImageRef>, scan: Scanner)
    ensures Collected(a + b, scan) == Collected(a, scan) + Collected(b, scan)
    decreases |b|
  {
    if |b| > 0 {
      var n := |b| - 1;
      var front, last := b[..n], b[n];
      assert Collected(a + b, scan) == Collected(a + front, scan) + Contribution(scan(last)) by {
        assert a + b == (a + front) + [last];
        CollectedStep(a + front, last, scan);
      }
      assert Collected(b, scan) == Collected(front, scan) + Contribution(scan(last)) by {
        assert b == front + [last];
        CollectedStep(front, last, scan);
      }
      CollectedAppend(a, front, scan);
    } else {
      assert a + b == a;
    }
  }

  /** When every scan raises, nothing is collected. */
  lemma {:induction false} NoFindingsWhenEveryScanFails(refs: seq<ImageRef>, scan: Scanner)
    requires AllScansFail(refs, scan)
    ensures Collected(refs, scan) == []
  {
    if |refs| > 0 {
      var n := |refs| - 1;
      assert AllScansFail(refs[..n], scan) by {
        forall k | 0 <= k < n
          ensures scan(refs[..n][k]).None?
        {
          assert refs[..n][k] == refs[k];
        }
      }
      NoFindingsWhenEveryScanFails(refs[..n], scan);
      assert scan(refs[n]).None?;
    }
  }

  /** A scan that fails contributes nothing and does not disturb the scans
      after it: the findings are those of the run without that artifact. */
  lemma FailedScanContributesNothing(before: seq<ImageRef>, failed: ImageRef, after: seq<ImageRef>, scan: Scanner)
    requires scan(failed).None?
    ensures Collected(before + [failed] + after, scan) == Collected(before + after, scan)
  {
    CollectedAppend(before + [failed], after, scan);
    CollectedStep(before, failed, scan);
    CollectedAppend(before, after, scan);
  }

  /** The findings are determined by what the scanner says about the scanned
      identities only: two scanners that agree there give the same findings. */
  lemma {:induction false} CollectedOnlyConsultsScannedRefs(refs: seq<ImageRef>, scan: Scanner, scan': Scanner)
    requires forall k :: 0 <= k < |refs| ==> scan(refs[k]) == scan'(refs[k])
    ensures Collected(refs, scan) == Collected(refs, scan')
  {
    if |refs| > 0 {
      var n := |refs| - 1;
      var front := refs[..n];
      forall k | 0 <= k < |front|
        ensures scan(front[k]) == scan'(front[k])
      {
        assert front[k] == refs[k];
      }
      CollectedOnlyConsultsScannedRefs(front, scan, scan');
      assert scan(refs[n]) == scan'(refs[n]);
      CollectedStep(front, refs[n], scan);
      CollectedStep(front, refs[n], scan');
      assert front + [refs[n]] == refs;
    }
  }

  lemma {:induction false} ScannableOnlyAppend(a: seq<ImageRef>, b: seq<ImageRef>)
    ensures ScannableOnly(a + b) == ScannableOnly(a) + ScannableOnly(b)
    decreases |b|
  {
    if |b| > 0 {
      var n := |b| - 1;
      assert a + b == (a + b[..n]) + [b[n]];
      ScannableOnlyAppend(a, b[..n]);
      ScannableOnlyStep(a + b[..n], b[n]);
      ScannableOnlyStep(b[..n], b[n]);
      assert b[..n] + [b[n]] == b;
    } else {
      assert a + b == a;
    }
  }

  lemma RefsOfAppend(a: seq<Json>, b: seq<Json>)
    requires AllObjects(a) && AllObjects(b)
    ensures AllObjects(a + b)
    ensures RefsOf(a + b) == RefsOf(a) + RefsOf(b)
  {
    var ab := a + b;
    forall i | 0 <= i < |ab|
      ensures ab[i].JObj? && ab[i] == if i < |a| then a[i] else b[i - |a|]
    {
    }
    var x, y, z := RefsOf(ab), RefsOf(a), RefsOf(b);
    forall i | 0 <= i < |x|
      ensures x[i] == (y + z)[i]
    {
      if i < |a| {
        assert x[i] == RefOf(a[i]);
      } else {
        assert x[i] == RefOf(b[i - |a|]);
      }
    }
  }

  /** An artifact whose name or version is empty or missing is never scanned:
      the scans asked for are those of the SBOM without it. */
  lemma SkippedArtifactIsNeverScanned(before: seq<Json>, skipped: Json, after: seq<Json>)
    requires AllObjects(before) && AllObjects(after)
    requires skipped.JObj? && !Scannable(RefOf(skipped))
    ensures AllObjects(before + [skipped] + after)
    ensures ScannableRefs(before + [skipped] + after) == ScannableRefs(before + after)
  {
    var ref := RefOf(skipped);
    RefsOfAppend(before + [skipped], after);
    RefsOfAppend(before, [skipped]);
    RefsOfAppend(before, after);
    assert RefsOf([skipped]) == [ref];
    ScannableOnlyAppend(RefsOf(before) + [ref], RefsOf(after));
    ScannableOnlyStep(RefsOf(before), ref);
    ScannableOnlyAppend(RefsOf(before), RefsOf(after));
  }

  lemma {:induction false} ScannableOnlyKeeps(refs: seq<ImageRef>, i: nat)
    requires i < |refs| && Scannable(refs[i])
    ensures refs[i] in ScannableOnly(refs)
  {
    var n := |refs| - 1;
    if i < n {
      ScannableOnlyKeeps(refs[..n], i);
    }
  }

  /** Conversely, every artifact that passes the guard is scanned. */
  lemma ScannableArtifactIsScanned(artifacts: seq<Json>, i: nat)
    requires AllObjects(artifacts) && i < |artifacts|
    requires Scannable(RefOf(artifacts[i]))
    ensures RefOf(artifacts[i]) in ScannableRefs(artifacts)
  {
    ScannableOnlyKeeps(RefsOf(artifacts), i);
  }

  /** An artifact without a "name" key has `""` as its name, which is falsy, so
      it is skipped whatever its version. */
  lemma NamelessArtifactIsSkipped(members: seq<(string, Json)>)
    requires "name" !in Keys(members)
    ensures !Scannable(RefOf(JObj(members)))
  {
  }
}
