/** Dependency resolution, `read_requirements`: every package named in
    `requirements.txt` is paired with the version installed in the running
    interpreter, found by lower-cased name, or with the sentinel
    "Not Installed". The file read and the installed-distribution query are
    inputs: the manifest as its list of lines (or its absence) and the
    installed distributions as a list of (name, version) pairs. */
module Requirements {
  import opened Text

  const NotInstalled := "Not Installed"

  /** One installed distribution: its metadata "Name" and its version. */
  datatype Distribution = Distribution(name: string, version: string)

  /** One entry of the resulting dependency dict. */
  datatype Dependency = Dependency(name: string, version: string)

  /** `requirements.txt`, as the list `f.readlines()` returns, or no file. */
  datatype Manifest = NoManifest | Manifest(lines: seq<string>)

  predicate Distinct(s: seq<string>) {
    forall i, j :: 0 <= i < j < |s| ==> s[i] != s[j]
  }

  // ---------------------------------------------------------------------------
  // Manifest lines to package names

  /** Each line stripped, `line.strip()`. */
  function StripAll(lines: seq<string>): (stripped: seq<string>)
    ensures |stripped| == |lines|
    ensures forall i :: 0 <= i < |lines| ==> stripped[i] == Strip(lines[i])
  {
    seq(|lines|, i requires 0 <= i < |lines| => Strip(lines[i]))
  }

  /** The non-empty strings of `xs`, in order: the `if line.strip()` filter. */
  function NonEmpty(xs: seq<string>): (ys: seq<string>)
    ensures |ys| <= |xs|
    ensures forall k :: 0 <= k < |ys| ==> ys[k] != ""
  {
    if |xs| == 0 then []
    else
      var n := |xs| - 1;
      NonEmpty(xs[..n]) + (if xs[n] != "" then [xs[n]] else [])
  }

  lemma {:induction false} NonEmptyMembership(xs: seq<string>, p: string)
    ensures p in NonEmpty(xs) <==> p != "" && p in xs
  {
    if |xs| > 0 {
      var n := |xs| - 1;
      NonEmptyMembership(xs[..n], p);
      assert xs == xs[..n] + [xs[n]];
    }
  }

  /** `[line.strip() for line in lines if line.strip()]`. */
  function Packages(lines: seq<string>): (ps: seq<string>)
    ensures |ps| <= |lines|
    ensures forall k :: 0 <= k < |ps| ==> ps[k] != "" && !IsSpace(ps[k][0]) && !IsSpace(ps[k][|ps[k]| - 1])
  {
    var ps := NonEmpty(StripAll(lines));
    forall k | 0 <= k < |ps|
      ensures ps[k] != "" && !IsSpace(ps[k][0]) && !IsSpace(ps[k][|ps[k]| - 1])
    {
      NonEmptyMembership(StripAll(lines), ps[k]);
    }
    ps
  }

  /** Line `i` of the manifest strips to the non-empty name `p` (so the line
      is not blank, by `StripBlank`). */
  ghost predicate Declares(lines: seq<string>, i: int, p: string) {
    0 <= i < |lines| && p != "" && Strip(lines[i]) == p
  }

  /** A name is a package exactly when some non-blank line strips to it; its
      case is kept as written. */
  lemma PackagesMembership(lines: seq<string>, p: string)
    ensures p in Packages(lines) <==> exists i :: Declares(lines, i, p)
  {
    var stripped := StripAll(lines);
    NonEmptyMembership(stripped, p);
    if p in stripped {
      var i :| 0 <= i < |stripped| && stripped[i] == p;
      if p != "" {
        assert Declares(lines, i, p);
      }
    }
    if exists i :: Declares(lines, i, p) {
      var i :| Declares(lines, i, p);
      assert stripped[i] == p;
    }
  }

  /** One more manifest line adds its stripped text at the end, unless it is
      blank: the comprehension keeps the lines' order. */
  lemma PackagesStep(lines: seq<string>, line: string)
    ensures Packages(lines + [line]) == Packages(lines) + (if Strip(line) != "" then [Strip(line)] else [])
  {
    assert StripAll(lines + [line])[..|lines|] == StripAll(lines);
  }

  /** The first manifest line from line `from` on that strips to the
      non-empty name `p`, or `|lines|` when there is none. */
  ghost function FirstDeclaringFrom(lines: seq<string>, p: string, from: nat): (i: nat)
    requires from <= |lines|
    ensures from <= i <= |lines|
    ensures i < |lines| ==> Declares(lines, i, p)
    ensures forall j :: from <= j < i ==> !Declares(lines, j, p)
    decreases |lines| - from
  {
    if from == |lines| then from
    else if Declares(lines, from, p) then from
    else FirstDeclaringFrom(lines, p, from + 1)
  }

  /** The first manifest line that strips to the non-empty name `p`, or
      `|lines|` when there is none. */
  ghost function FirstDeclaring(lines: seq<string>, p: string): (i: nat)
    ensures i <= |lines|
    ensures i < |lines| ==> Declares(lines, i, p)
    ensures forall j :: 0 <= j < i ==> !Declares(lines, j, p)
  {
    FirstDeclaringFrom(lines, p, 0)
  }

  /** The first declaring line is the first position of the name among the
      stripped lines. */
  lemma FirstDeclaringIsIndexOf(lines: seq<string>, p: string)
    requires p != "" && p in StripAll(lines)
    ensures FirstDeclaring(lines, p) == IndexOf(StripAll(lines), p)
  {
    var k := IndexOf(StripAll(lines), p);
    assert Declares(lines, k, p);
  }

  /** Filtering out empty strings keeps the relative order of first
      occurrences. */
  lemma {:induction false} NonEmptyKeepsOrder(xs: seq<string>, p: string, q: string)
    requires p in NonEmpty(xs) && q in NonEmpty(xs)
    requires p in xs && q in xs
    ensures IndexOf(NonEmpty(xs), p) < IndexOf(NonEmpty(xs), q) <==> IndexOf(xs, p) < IndexOf(xs, q)
  {
    NonEmptyMembership(xs, p);
    NonEmptyMembership(xs, q);
    var n := |xs| - 1;
    var front := xs[..n];
    var ys := NonEmpty(front);
    var zs := NonEmpty(xs);
    assert zs[..|ys|] == ys;
    NonEmptyMembership(front, p);
    NonEmptyMembership(front, q);
    if p in ys {
      IndexOfPrefix(zs, |ys|, p);
      IndexOfPrefix(xs, n, p);
    }
    if q in ys {
      IndexOfPrefix(zs, |ys|, q);
      IndexOfPrefix(xs, n, q);
    }
    if p in ys && q in ys {
      NonEmptyKeepsOrder(front, p, q);
    }
  }

  /** Distinct packages are ordered as their first declaring lines. */
  lemma PackagesFollowManifest(lines: seq<string>, p: string, q: string)
    requires p in Packages(lines) && q in Packages(lines)
    ensures IndexOf(Packages(lines), p) < IndexOf(Packages(lines), q)
      <==> FirstDeclaring(lines, p) < FirstDeclaring(lines, q)
  {
    var stripped := StripAll(lines);
    NonEmptyMembership(stripped, p);
    NonEmptyMembership(stripped, q);
    NonEmptyKeepsOrder(stripped, p, q);
    FirstDeclaringIsIndexOf(lines, p);
    FirstDeclaringIsIndexOf(lines, q);
  }

  /** The deduplicated packages are in the order of their first declaring
      lines in the manifest. */
  lemma DedupFollowsManifest(lines: seq<string>)
    ensures forall i, j :: 0 <= i < j < |Dedup(Packages(lines))| ==>
      FirstDeclaring(lines, Dedup(Packages(lines))[i]) < FirstDeclaring(lines, Dedup(Packages(lines))[j])
  {
    var ps := Packages(lines);
    var ds := Dedup(ps);
    DedupFirstSeenOrder(ps);
    forall i, j | 0 <= i < j < |ds|
      ensures FirstDeclaring(lines, ds[i]) < FirstDeclaring(lines, ds[j])
    {
      PackagesFollowManifest(lines, ds[i], ds[j]);
    }
  }

  lemma PackagesAreDeclaredLines(lines: seq<string>)
    ensures forall p :: p in Packages(lines) <==> exists i :: Declares(lines, i, p)
  {
    forall p
      ensures p in Packages(lines) <==> exists i :: Declares(lines, i, p)
    {
      PackagesMembership(lines, p);
    }
  }

  // ---------------------------------------------------------------------------
  // The installed-package index

  /** `{d.metadata["Name"].lower(): d.version for d in distributions}`: a
      later distribution with the same lower-cased name overwrites an
      earlier one. */
  function BuildIndex(dists: seq<Distribution>): (index: map<string, string>)
    ensures forall k :: k in index <==> exists i :: 0 <= i < |dists| && Lower(dists[i].name) == k
  {
    if |dists| == 0 then map[]
    else
      var n := |dists| - 1;
      var front := BuildIndex(dists[..n]);
      assert forall i :: 0 <= i < n ==> dists[..n][i] == dists[i];
      front[Lower(dists[n].name) := dists[n].version]
  }

  /** The index holds, under each lower-cased name, the version of the LAST
      distribution carrying that name. */
  lemma {:induction false} IndexLastWins(dists: seq<Distribution>, i: nat)
    requires i < |dists|
    requires forall j :: i < j < |dists| ==> Lower(dists[j].name) != Lower(dists[i].name)
    ensures Lower(dists[i].name) in BuildIndex(dists)
    ensures BuildIndex(dists)[Lower(dists[i].name)] == dists[i].version
  {
    var n := |dists| - 1;
    if i < n {
      var front := dists[..n];
      assert front[i] == dists[i];
      forall j | i < j < |front|
        ensures Lower(front[j].name) != Lower(front[i].name)
      {
        assert front[j] == dists[j];
      }
      IndexLastWins(front, i);
    }
  }

  /** `installed.get(pkg.lower(), "Not Installed")`. */
  function Resolve(index: map<string, string>, pkg: string): (version: string)
    ensures Lower(pkg) !in index ==> version == NotInstalled
    ensures Lower(pkg) in index ==> version in index.Values
  {
    if Lower(pkg) in index then index[Lower(pkg)] else NotInstalled
  }

  /** Against the installed distributions: a package no distribution matches
      case-insensitively is "Not Installed"; otherwise it gets the version of
      the last distribution whose lower-cased name matches. */
  lemma ResolveAgainstDistributions(dists: seq<Distribution>, pkg: string, i: nat)
    requires i < |dists| && Lower(dists[i].name) == Lower(pkg)
    requires forall j :: i < j < |dists| ==> Lower(dists[j].name) != Lower(pkg)
    ensures Resolve(BuildIndex(dists), pkg) == dists[i].version
  {
    IndexLastWins(dists, i);
  }

  lemma ResolveUninstalled(dists: seq<Distribution>, pkg: string)
    requires forall j :: 0 <= j < |dists| ==> Lower(dists[j].name) != Lower(pkg)
    ensures Resolve(BuildIndex(dists), pkg) == NotInstalled
  {
  }

  // ---------------------------------------------------------------------------
  // The dict comprehension, as an insertion-ordered dict

  function Names(inv: seq<Dependency>): (ns: seq<string>)
    ensures |ns| == |inv|
    ensures forall k :: 0 <= k < |inv| ==> ns[k] == inv[k].name
  {
    seq(|inv|, k requires 0 <= k < |inv| => inv[k].name)
  }

  /** `d[name] = version` on a Python dict: an existing key keeps its position
      and takes the new value; a new key goes to the end. */
  function Put(inv: seq<Dependency>, name: string, version: string): (r: seq<Dependency>)
    requires Distinct(Names(inv))
    ensures name in Names(inv) ==> Names(r) == Names(inv)
    ensures name !in Names(inv) ==> Names(r) == Names(inv) + [name]
    ensures forall k :: 0 <= k < |r| && r[k].name == name ==> r[k].version == version
    ensures forall k :: 0 <= k < |r| && r[k].name != name ==> r[k] in inv
  {
    if name in Names(inv) then
      var k := IndexOf(Names(inv), name);
      var r := inv[k := Dependency(name, version)];
      assert Names(r) == Names(inv);
      r
    else
      var r := inv + [Dependency(name, version)];
      assert Names(r) == Names(inv) + [name];
      r
  }

  /** `{pkg: installed.get(pkg.lower(), "Not Installed") for pkg in packages}`. */
  function Inventory(packages: seq<string>, index: map<string, string>): (inv: seq<Dependency>)
    ensures Distinct(Names(inv))
    ensures forall k :: 0 <= k < |inv| ==> inv[k].version == Resolve(index, inv[k].name)
  {
    if |packages| == 0 then []
    else
      var n := |packages| - 1;
      var front := Inventory(packages[..n], index);
      var r := Put(front, packages[n], Resolve(index, packages[n]));
      assert forall k :: 0 <= k < |r| && r[k].name != packages[n] ==> r[k] in front;
      r
  }

  /** First-seen-wins deduplication: the order in which a Python dict built
      from `s` lists its keys. */
  function Dedup(s: seq<string>): (r: seq<string>)
    ensures forall x :: x in r <==> x in s
    ensures Distinct(r)
  {
    if |s| == 0 then []
    else
      var n := |s| - 1;
      var front := Dedup(s[..n]);
      assert forall x :: x in s <==> x in s[..n] || x == s[n];
      if s[n] in front then front else front + [s[n]]
  }

  /** Position of the first occurrence of `x` in `s`. */
  function IndexOf(s: seq<string>, x: string): (k: nat)
    requires x in s
    ensures k < |s| && s[k] == x
    ensures forall j :: 0 <= j < k ==> s[j] != x
  {
    if s[0] == x then 0 else 1 + IndexOf(s[1..], x)
  }

  lemma IndexOfPrefix(s: seq<string>, n: nat, x: string)
    requires n <= |s|
    requires x in s[..n]
    ensures IndexOf(s, x) == IndexOf(s[..n], x)
  {
    var a := IndexOf(s, x);
    var b := IndexOf(s[..n], x);
    assert s[..n][b] == s[b];
  }

  /** Dedup keeps each name at the place of its first occurrence: its output
      is ordered by first index in the input. */
  lemma {:induction false} DedupFirstSeenOrder(s: seq<string>)
    ensures forall i, j :: 0 <= i < j < |Dedup(s)| ==> IndexOf(s, Dedup(s)[i]) < IndexOf(s, Dedup(s)[j])
  {
    if |s| > 0 {
      var n := |s| - 1;
      var p := s[..n];
      var front := Dedup(p);
      var r := Dedup(s);
      DedupFirstSeenOrder(p);
      assert forall k :: 0 <= k < |front| ==> r[k] == front[k];
      forall i, j | 0 <= i < j < |r|
        ensures IndexOf(s, r[i]) < IndexOf(s, r[j])
      {
        assert r[i] in p;
        IndexOfPrefix(s, n, r[i]);
        if j < |front| {
          IndexOfPrefix(s, n, r[j]);
        } else {
          assert r[j] == s[n] && s[n] !in p;
        }
      }
    }
  }

  /** The resolved inventory lists the package names in first-seen order. */
  lemma {:induction false} InventoryOrder(packages: seq<string>, index: map<string, string>)
    ensures Names(Inventory(packages, index)) == Dedup(packages)
  {
    if |packages| > 0 {
      InventoryOrder(packages[..|packages| - 1], index);
    }
  }

  // ---------------------------------------------------------------------------
  // read_requirements

  /** `read_requirements(path)`: no file gives the empty dict; otherwise every
      stripped non-blank line, case preserved, once, in first-seen order,
      mapped to the installed version of its lower-cased name or to
      "Not Installed". */
  function ReadRequirements(manifest: Manifest, dists: seq<Distribution>): (deps: seq<Dependency>)
    ensures manifest.NoManifest? ==> deps == []
    ensures Distinct(Names(deps))
    ensures forall k :: 0 <= k < |deps| ==> deps[k].version == Resolve(BuildIndex(dists), deps[k].name)
    ensures manifest.Manifest? ==> Names(deps) == Dedup(Packages(manifest.lines))
    ensures manifest.Manifest? ==> forall p :: p in Names(deps) <==>
      exists i :: Declares(manifest.lines, i, p)
    ensures manifest.Manifest? ==> forall i, j :: 0 <= i < j < |deps| ==>
      FirstDeclaring(manifest.lines, deps[i].name) < FirstDeclaring(manifest.lines, deps[j].name)
  {
    match manifest
    case NoManifest => []
    case Manifest(lines) =>
      var packages := Packages(lines);
      var index := BuildIndex(dists);
      PackagesAreDeclaredLines(lines);
      InventoryOrder(packages, index);
      DedupFollowsManifest(lines);
      Inventory(packages, index)
  }

  lemma NumPyIndex()
    ensures BuildIndex([Distribution("numpy", "1.26.0")]) == map["numpy" := "1.26.0"]
    ensures Lower("NumPy") == "numpy"
  {
    var dists := [Distribution("numpy", "1.26.0")];
    assert dists[..0] == [];
    assert Lower("numpy") == "numpy";
  }

  lemma StripNumPy()
    ensures Strip("NumPy\n") == "NumPy"
  {
    assert SkipLeading("NumPy\n", 0) == 0;
    assert SkipTrailing("NumPy\n", 0, 6) == 5;
  }

  lemma NumPyLines()
    ensures Packages(["NumPy\n"]) == ["NumPy"]
  {
    StripNumPy();
    assert StripAll(["NumPy\n"]) == ["NumPy"];
    assert ["NumPy"][..0] == [];
  }

  /** Lookup is case-insensitive while the key keeps the manifest's casing:
      "NumPy" against an installed "numpy" 1.26.0 resolves to 1.26.0. */
  lemma CaseInsensitiveLookup()
    ensures ReadRequirements(Manifest(["NumPy\n"]), [Distribution("numpy", "1.26.0")])
      == [Dependency("NumPy", "1.26.0")]
  {
    NumPyIndex();
    NumPyLines();
    var idx := map["numpy" := "1.26.0"];
    assert Resolve(idx, "NumPy") == "1.26.0";
    assert ["NumPy"][..0] == [];
    assert Inventory(["NumPy"], idx) == Put([], "NumPy", "1.26.0");
    assert Names([]) == [];
  }

  lemma DedupTwo(p: string, q: string)
    requires p != q
    ensures Dedup([p, q]) == [p, q]
  {
    assert Dedup([p]) == [p] by {
      assert [p][..0] == [];
    }
    assert [p, q][..1] == [p];
  }

  /** Case is preserved in the keys: two names differing only in case (say
      "NumPy" and "numpy") become two entries, in order, both resolved through
      the same lower-cased lookup. */
  lemma CaseVariantsStayDistinct(p: string, q: string, index: map<string, string>)
    requires p != q && Lower(p) == Lower(q)
    ensures Inventory([p, q], index) == [Dependency(p, Resolve(index, p)), Dependency(q, Resolve(index, p))]
  {
    var v := Resolve(index, p);
    assert Inventory([p], index) == [Dependency(p, v)] by {
      assert [p][..0] == [];
      assert Names([]) == [];
    }
    assert [p, q][..1] == [p];
    assert Names([Dependency(p, v)]) == [p];
  }

  /** The same for a manifest: its packages `p` and `q`, differing only in
      case, give two keys in manifest order with one version. */
  lemma CaseVariantManifest(lines: seq<string>, p: string, q: string, dists: seq<Distribution>)
    requires Packages(lines) == [p, q]
    requires p != q && Lower(p) == Lower(q)
    ensures Names(ReadRequirements(Manifest(lines), dists)) == [p, q]
    ensures ReadRequirements(Manifest(lines), dists)
      == [Dependency(p, Resolve(BuildIndex(dists), p)), Dependency(q, Resolve(BuildIndex(dists), p))]
  {
    DedupTwo(p, q);
    CaseVariantsStayDistinct(p, q, BuildIndex(dists));
  }

  lemma {:induction false} NonEmptyOfEmpties(xs: seq<string>)
    requires forall i :: 0 <= i < |xs| ==> xs[i] == ""
    ensures NonEmpty(xs) == []
  {
    if |xs| > 0 {
      NonEmptyOfEmpties(xs[..|xs| - 1]);
    }
  }

  lemma BlankLinesDeclareNothing(lines: seq<string>)
    requires forall i :: 0 <= i < |lines| ==> AllSpace(lines[i])
    ensures Packages(lines) == []
  {
    forall i | 0 <= i < |lines|
      ensures Strip(lines[i]) == ""
    {
      StripBlank(lines[i]);
    }
    NonEmptyOfEmpties(StripAll(lines));
  }

  /** A line that is blank after stripping never becomes a package, so a
      manifest of only blank lines gives the empty dict. */
  lemma BlankManifest(lines: seq<string>, dists: seq<Distribution>)
    requires forall i :: 0 <= i < |lines| ==> AllSpace(lines[i])
    ensures ReadRequirements(Manifest(lines), dists) == []
  {
    BlankLinesDeclareNothing(lines);
  }
}
