# AIBOM generator: verified model of the decision logic

`generate_aibom.py` builds an AI bill of materials for a model directory.
Around it sits subprocess and file plumbing: `syft` writes an SBOM, `trivy`
scans the directory and each SBOM artifact, and JSON reports are written out.
This project models, as pure Dafny functions over immutable data, the parts
of the script whose output is determined by their inputs:

- `read_requirements`: the dependency dict. Manifest lines are stripped and
  blank lines dropped. Each declared name, with its casing kept, maps to the
  installed version found under its lower-cased name, or to `"Not Installed"`.
- `read_json`: a missing file reads as `{}`.
- `detect_basic_ai_risks`: two fixed warnings, in a fixed order.
- The architecture preview: text longer than 500 characters is cut to 500
  characters plus `"..."`.
- `scan_sbom_artifacts`: the artifact filter and the accumulation of
  findings. The scanner is an oracle.
- `merge_vulnerability_reports`: the two `Results` lists joined with `+`.
- The computable sections of the `generate_aibom` document, assembled from
  the pieces above.

Modules, one per file:

| file | module | contents |
|---|---|---|
| wrappers.dfy | Wrappers | `Option` and `Result`, with `:-` support |
| text.dfy | Text | `str.strip()` over Python's whitespace set, `str.lower()`, substring test |
| json.dfy | Json | JSON values, and the Python operations the script applies to them (`in`, `.get`, iteration, `+`, truthiness), with their exceptions |
| requirements.dfy | Requirements | `read_requirements` |
| risks.dfy | Risks | `detect_basic_ai_risks` |
| architecture.dfy | Architecture | the preview, and `extract_model_architecture` |
| sbom_scan.dfy | SbomScan | `scan_sbom_artifacts` |
| merge.dfy | Merge | `merge_vulnerability_reports` |
| aibom.dfy | Aibom | the computable sections of `generate_aibom` |

Inputs the script gets from the operating system are parameters of the model:

- **`JsonFile`** is the state of a JSON file: `Missing`, `Unparsable`, or `Parsed(doc)`.
- **`Manifest`** is the state of `requirements.txt`: `NoManifest`, or its lines.
- **`seq<Distribution>`** is what `importlib.metadata.distributions()` yields, in order.
- **`Scanner`** is the trivy image scan. It gives the parsed JSON output, or `None` when the scan raised.

Two behaviours of the code worth knowing:

- **Merging reports.** The merge does not deduplicate. It concatenates the two lists and is not idempotent; `Merge.MergeKeepsDuplicates` shows a finding listed twice.
- **Malformed JSON.** `read_json` raises `JSONDecodeError` on a file that exists but is not valid JSON; only a missing file reads as `{}`. The model returns `Failure(JsonDecodeError)`, and that failure propagates to every caller.

## Model

| member | source | states |
|---|---|---|
| Text.Strip | generate_aibom.py:40 | the stripped line is no longer than the line and neither starts nor ends with whitespace |
| Text.StripCutsSpace | generate_aibom.py:40 | the stripped line is the slice of the line between a whitespace-only prefix and a whitespace-only suffix |
| Text.StripBlank | generate_aibom.py:40 | a line strips to the empty string exactly when it is all whitespace, which is what `if line.strip()` drops |
| Text.StripIdempotent | generate_aibom.py:40 | stripping twice is stripping once |
| Text.LowerChar | generate_aibom.py:41-42 | a capital ASCII letter becomes its small letter (code point + 32); every other character is unchanged |
| Text.Lower | generate_aibom.py:41-42 | lower-casing keeps the length, maps each character independently and leaves no capital letter |
| Text.LowerAgree | generate_aibom.py:41-42 | two names have the same lower-case form exactly when they have the same length and agree letter by letter up to ASCII case |
| Text.LowerIdempotent | generate_aibom.py:41 | lower-casing a lower-cased name changes nothing |
| Json.Truthy | generate_aibom.py:157 | a value is truthy exactly when it is not one of `None`, `False`, `0`, `""`, `[]`, `{}` |
| Json.ReadJson | generate_aibom.py:45-49 | a missing file reads as `{}`; an existing file reads as its document; only an unparsable file raises, with `JSONDecodeError` |
| Json.Get | generate_aibom.py:155-156 | `.get` succeeds exactly on a dict (otherwise `AttributeError`) and gives the default for an absent key and the stored value for a present one |
| Json.Contains | generate_aibom.py:94-96 | `in` tests dict keys, list elements or substrings, and raises `TypeError` on anything else |
| Json.Iterate | generate_aibom.py:154 | iteration succeeds exactly on a list, dict or string: list items, dict keys, or one-character strings |
| Json.Add | generate_aibom.py:179 | `+` joins two lists or two strings and sums two numbers; any other pair raises `TypeError` |
| Requirements.NonEmptyMembership | generate_aibom.py:40 | a string survives the blank-line filter exactly when it is non-empty and was in the input |
| Requirements.Packages | generate_aibom.py:40 | there are no more packages than lines, and each is non-empty and neither starts nor ends with whitespace |
| Requirements.PackagesStep | generate_aibom.py:40 | one more manifest line adds its stripped text at the end of the packages, or nothing when it is blank, so the packages follow the lines' order |
| Requirements.PackagesFollowManifest | generate_aibom.py:40 | of two packages, the one whose first occurrence comes first is the one whose first declaring manifest line comes first |
| Requirements.DedupFollowsManifest | generate_aibom.py:40-42 | the deduplicated packages are in strictly increasing order of their first declaring manifest line |
| Requirements.PackagesMembership | generate_aibom.py:40 | a name is a package exactly when some manifest line strips to it and it is non-empty |
| Requirements.BuildIndex | generate_aibom.py:41 | the installed index has a key exactly for each lower-cased distribution name |
| Requirements.IndexLastWins | generate_aibom.py:41 | when several distributions share a lower-cased name, the index holds the version of the last one |
| Requirements.Resolve | generate_aibom.py:42 | a name whose lower-case form is not in the index is "Not Installed"; otherwise its version is one the index holds |
| Requirements.ResolveAgainstDistributions | generate_aibom.py:41-42 | a package gets the version of the last installed distribution whose lower-cased name matches its lower-cased name |
| Requirements.ResolveUninstalled | generate_aibom.py:41-42 | a package no installed distribution matches case-insensitively is "Not Installed" |
| Requirements.Put | generate_aibom.py:42 | storing a key in the dict keeps the keys' order and appends a new key at the end; the key gets the new version; other entries are untouched |
| Requirements.Inventory | generate_aibom.py:42 | the comprehension's dict has distinct keys, each mapped to its installed version or "Not Installed" |
| Requirements.Dedup | generate_aibom.py:42 | the dict's keys are the packages without repeats: same members, each once |
| Requirements.DedupFirstSeenOrder | generate_aibom.py:42 | the keys a dict built from a list gets are in the order of their first occurrence in that list |
| Requirements.InventoryOrder | generate_aibom.py:42 | the dict's keys are the deduplicated package list, in first-seen order |
| Requirements.ReadRequirements | generate_aibom.py:37-43 | no manifest gives `{}`; otherwise the keys are exactly the stripped non-blank lines, case kept, each once, in the order of the first manifest line that declares them, and each value is the installed version under the lower-cased key or "Not Installed" |
| Requirements.CaseInsensitiveLookup | generate_aibom.py:41-42 | the line "NumPy" with an installed "numpy" 1.26.0 gives `{"NumPy": "1.26.0"}` |
| Requirements.CaseVariantsStayDistinct | generate_aibom.py:41-42 | two names differing only in case, such as "NumPy" and "numpy", become two entries in order, both mapped to the version found under their common lower-cased name |
| Requirements.CaseVariantManifest | generate_aibom.py:40-42 | a manifest whose packages are two such case variants `p` then `q` gives exactly the keys `p`, `q` in that order, with the same version |
| Requirements.BlankManifest | generate_aibom.py:40-42 | a manifest of blank lines gives `{}` |
| Risks.DetectBasicAiRisks | generate_aibom.py:92-98 | at most two warnings; each is present exactly when its key is not in the model info; explainability comes first; a non-container model info raises `TypeError` |
| Risks.RisksOfObject | generate_aibom.py:94-97 | for a dict, each warning is present exactly when its key is absent from the dict's keys |
| Risks.RisksWithoutModelInfo | generate_aibom.py:118 | with no model-info file, both warnings are given, explainability first |
| Architecture.Preview | generate_aibom.py:77 | text of at most 500 characters is kept whole; longer text becomes 503 characters ending in "..."; the first 500 characters are kept |
| Architecture.PreviewIdempotent | generate_aibom.py:77 | previewing a preview changes nothing |
| Architecture.PreviewUnchangedIff | generate_aibom.py:77 | a text is its own preview exactly when it is at most 500 characters, or 503 characters ending in "..." |
| Architecture.PreviewSeesOnlyPrefix | generate_aibom.py:77 | long texts that agree on their first 500 characters have the same preview |
| Architecture.ModelArchitecture | generate_aibom.py:72-82 | an unreadable model file gives `{}`; otherwise the section has exactly the keys "Preview" then "File Size", holding the preview and the file size |
| SbomScan.RefOf | generate_aibom.py:155-156 | the identity's name and version are the artifact's "name" and "version" values, or `""` when the key is absent |
| SbomScan.Scannable | generate_aibom.py:157-158 | an identity passes the guard exactly when neither its name nor its version is a falsy value |
| SbomScan.ScannableOnly | generate_aibom.py:157-158 | every identity kept by the filter has a truthy name and version |
| SbomScan.Contribution | generate_aibom.py:164-167 | a scan that raised, or printed something other than a dict, adds nothing |
| SbomScan.ContributionCases | generate_aibom.py:164-167 | a dict without "Results" adds nothing; a dict with "Results" adds what iterating that value gives (the list's items, a string's characters, a dict's keys), and nothing when iterating raises `TypeError` |
| SbomScan.ScanArtifacts | generate_aibom.py:154-167 | the loop succeeds exactly when every artifact is a dict (otherwise `AttributeError`); it scans exactly the artifacts passing the guard, in order, and collects their contributions in that order |
| SbomScan.ArtifactsOf | generate_aibom.py:150-154 | an SBOM without "artifacts" has no artifacts; otherwise the artifacts are what iterating the stored value gives (`TypeError` when it cannot be iterated); an SBOM that is not a dict raises `AttributeError` |
| SbomScan.ScanSbomArtifacts | generate_aibom.py:149-172 | a missing SBOM writes `{"Results": []}`; an unparsable one raises `JSONDecodeError`; a parsed one succeeds exactly when its artifacts can be listed and are all dicts, raising the listing's error or `AttributeError` otherwise; the scans made are exactly the artifacts passing the guard, in SBOM order; the document written is `{"Results": ...}` with their collected findings |
| SbomScan.Collected | generate_aibom.py:152-165 | no scans collect no findings |
| SbomScan.CollectedStep | generate_aibom.py:159-165 | scanning one more identity appends exactly that scan's contribution to the findings |
| SbomScan.NoFindingsWhenEveryScanFails | generate_aibom.py:159-167 | when every scan raises, nothing is collected |
| SbomScan.CollectedAppend | generate_aibom.py:159-167 | the findings of two runs in sequence are the findings of the first followed by those of the second |
| SbomScan.FailedScanContributesNothing | generate_aibom.py:166-167 | a failing scan adds nothing and leaves the findings of later scans as they were |
| SbomScan.CollectedOnlyConsultsScannedRefs | generate_aibom.py:157-165 | the findings depend only on the scanner's answers for the scanned identities |
| SbomScan.SkippedArtifactIsNeverScanned | generate_aibom.py:157-158 | an artifact with a falsy name or version is never scanned: the scans made are those of the SBOM without it |
| SbomScan.ScannableArtifactIsScanned | generate_aibom.py:157-161 | every artifact passing the guard is scanned |
| SbomScan.NamelessArtifactIsSkipped | generate_aibom.py:155-158 | an artifact without a "name" key is skipped |
| Merge.ExtractVulns | generate_aibom.py:175-177 | a missing file or a dict without "Results" gives `[]`; an unparsable file raises `JSONDecodeError`; a non-dict raises `AttributeError`; otherwise the stored `Results` |
| Merge.MergeVulnerabilityReports | generate_aibom.py:174-182 | the left report's error comes first, then the right's; when both read, the result is `{"Results": left + right}` under Python's `+`, or `TypeError` when `+` rejects the pair; two reports listing `xs` and `ys` merge to `{"Results": xs + ys}` |
| Merge.MergeIsConcatenation | generate_aibom.py:179-182 | the merged document's `Results` has the summed length, holds every finding as often as both reports together, and is the left report's findings followed by the right's |
| Merge.MergeOfNonLists | generate_aibom.py:179 | a list `Results` with a non-list one, or a null `Results`, raises `TypeError`; two string `Results` are joined as one string |
| Merge.MissingReportContributesNothing | generate_aibom.py:175-179 | a missing report, or one without "Results", contributes nothing to the merge on either side |
| Merge.MergeKeepsDuplicates | generate_aibom.py:179 | merging a non-empty report with itself lists each finding twice, so the merge is not idempotent |
| Merge.MergeOfScanReport | generate_aibom.py:171-179 | the per-package report reads back as its findings, and the merged report lists the filesystem findings followed by them |
| Aibom.GenerateSections | generate_aibom.py:108-119 | an unparsable model-info or dataset file raises; model information that is not a dict, list or string raises `TypeError`; otherwise the model and dataset information are the documents read, the architecture is the model source's section, the dependencies are those of the manifest, and the warnings are those for the model information |
| Aibom.SectionsWarnAboutMissingKeys | generate_aibom.py:111-118 | for a model-info dict, the document holds that dict and warns exactly about the keys it lacks |
| Aibom.BareModelDirectory | generate_aibom.py:108-119 | a directory with only `model_info.json = {}` gives empty sections, no dependencies and both warnings |

## Left out

- Argument parsing and the model-path existence check with `exit(1)` (generate_aibom.py:15-26, 214-221): command-line glue.
- SHA-256 hashing and `extract_model_metadata` (generate_aibom.py:29-35, 51-56): a foreign library and file I/O.
- The file size in KB and the RAM in GB (generate_aibom.py:54, 88): floating-point arithmetic.
- Dataset metadata via pandas and hardware information via platform and psutil (generate_aibom.py:58-70, 84-90): foreign libraries.
- The `Generated On` timestamp and the audit log (generate_aibom.py:110, 185-194): the clock and directory listings.
- Writing JSON files and console messages: output only. The model returns the document that would be written.
- `generate_sbom` and `run_trivy_scan` (generate_aibom.py:128-147): these only run subprocesses. The per-artifact `trivy image` call (generate_aibom.py:160-164) is the `Scanner` oracle.
- `main` (generate_aibom.py:197-212): it only sequences the steps. The hand-off from the SBOM scan to the merge is stated in `Merge.MergeOfScanReport`.
- Splitting the manifest into lines with `readlines()`: the manifest is given as its lines. Only `strip` is applied to them.
- Text.Lower: models ASCII case folding only, because the full Unicode `str.lower()` table is out of scope. Non-ASCII names are left unchanged.
- Text.LowerChar: lowers the ASCII capitals only, for the same reason; Python also lowers non-ASCII capitals.
- Text.LowerAgree: states agreement up to ASCII case only, because it follows the ASCII-only `Text.Lower`.
- Json.ReadJson: does not model JSON parsing. A file is given as `Parsed(doc)` or `Unparsable`, and the parse error is a single `JsonDecodeError`. Numbers are integers only, and objects are member lists with distinct keys, as `json.load` produces them.
- Requirements.ReadRequirements: the metadata `Name` of a distribution is assumed present. A distribution without one would make `d.metadata["Name"].lower()` raise.
- SbomScan.Collected: its own contract states only the empty case. The accumulation itself is stated by `SbomScan.CollectedStep`, `SbomScan.CollectedAppend` and `SbomScan.NoFindingsWhenEveryScanFails`, because further clauses on this recursive function make the proofs about it unstable.
- SbomScan.Contribution: its own contract covers a raising scan and non-dict output. The dict cases, with and without "Results" and whatever its value, are stated by `SbomScan.ContributionCases`.
- Text.StripCutsSpace: its contract does not say the cut is maximal. That is stated separately by `Text.Strip`, which says the result neither starts nor ends with whitespace.
- Encoding errors on reading a text file: in `extract_model_architecture` they are caught and give `{}`, which is the `None` source. In `read_requirements` and `read_json` they are not modelled.
