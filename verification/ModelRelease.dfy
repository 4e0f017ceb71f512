/** Release sets of tools/model_release.py: completeness of a set of shards, its identity, and the
    binding of a publication. Digests are a parameter. */
module ModelRelease {
  import opened Ordering
  import opened Sequences
  import opened Wrappers

  /** Where a published file can be fetched. */
  datatype Remote = Remote(repository: string, revision: string, filename: string, sha256: string, size: nat,
                           manifestFilename: string, manifestSha256: string)

  /** A qualified file: its local location comes first, published ones are appended. `linked` tells
      whether its upstream is resolved. */
  datatype File = File(filename: string, sha256: string, size: nat, component: string, index: int, count: int,
                       linked: bool, local: string, remotes: seq<Remote>)

  /** What the identity of a set is made of: no filename and no location. */
  datatype Tuple = Tuple(sha256: string, size: nat, component: string, index: int, count: int)

  function TupleOf(f: File): Tuple { Tuple(f.sha256, f.size, f.component, f.index, f.count) }

  function Names(files: seq<File>): (r: seq<string>)
    ensures |r| == |files| && forall k :: 0 <= k < |files| ==> r[k] == files[k].filename
  {
    seq(|files|, k requires 0 <= k < |files| => files[k].filename)
  }

  function Digests(files: seq<File>): (r: seq<string>)
    ensures |r| == |files| && forall k :: 0 <= k < |files| ==> r[k] == files[k].sha256
  {
    seq(|files|, k requires 0 <= k < |files| => files[k].sha256)
  }

  function Tuples(files: seq<File>): (r: seq<Tuple>)
    ensures |r| == |files| && forall k :: 0 <= k < |files| ==> r[k] == TupleOf(files[k])
  {
    seq(|files|, k requires 0 <= k < |files| => TupleOf(files[k]))
  }

  // ---- what a complete set is ----

  /** The shards of a component are numbered 1 to n, each once, and all declare n. */
  predicate ComponentComplete(files: seq<File>, c: string) {
    && (forall f, g :: f in files && g in files && f.component == c == g.component ==> f.count == g.count)
    && (forall f :: f in files && f.component == c ==> 1 <= f.index <= f.count)
    && NoSharedIndex(files, c)
    && (forall f, k :: f in files && f.component == c && 1 <= k <= f.count ==> HasShard(files, c, k))
  }

  predicate HasShard(files: seq<File>, c: string, k: int) {
    exists g :: g in files && g.component == c && g.index == k
  }

  predicate SetComplete(files: seq<File>) {
    && files != [] && Distinct(Names(files)) && Distinct(Digests(files))
    && forall f :: f in files ==> ComponentComplete(files, f.component)
  }

  /** A composite is exactly the catalog's components; a model has none; a component is unchecked. */
  predicate ScopeOk(files: seq<File>, components: seq<string>, scope: string) {
    && scope in ["model", "composite", "component"]
    && (scope == "composite" ==> components != [] && Elements(components) == set f | f in files :: f.local)
    && (scope == "model" ==> components == [])
  }

  // ---- the check of one component ----

  predicate IntLeq(a: int, b: int) { a <= b }

  function Range(n: int): (r: seq<int>)
    ensures |r| == if n < 0 then 0 else n
    ensures forall k :: 0 <= k < |r| ==> r[k] == k + 1
  {
    if n <= 0 then [] else Range(n - 1) + [n]
  }

  /** Sorting gives 1 to n exactly when every number from 1 to n occurs once and nothing else does. */
  lemma SortedIsRange(s: seq<int>, n: int)
    ensures Sort(s, IntLeq) == Range(n) <==> Distinct(s) && forall k :: k in s <==> 1 <= k <= n
  {
    SortSorted(s, IntLeq);
    var t, r := Sort(s, IntLeq), Range(n);
    RangeHas(n);
    assert forall k :: k in s <==> k in multiset(s);
    assert forall k :: k in t <==> k in multiset(t);
    if t == r {
      assert Distinct(r);
      DistinctByCount(r, s);
    }
    if Distinct(s) && forall k :: k in s <==> 1 <= k <= n {
      SameBag(s, r);
      SortedUnique(t, r, IntLeq);
    }
  }

  lemma {:induction false} RangeHas(n: int)
    ensures forall k :: k in Range(n) <==> 1 <= k <= n
    ensures Distinct(Range(n)) && Sorted(Range(n), IntLeq)
  {
    forall k | 1 <= k <= n ensures k in Range(n) { assert Range(n)[k - 1] == k; }
  }

  lemma SameBag<T>(a: seq<T>, b: seq<T>)
    requires Distinct(a) && Distinct(b) && forall x :: x in a <==> x in b
    ensures multiset(a) == multiset(b)
  {
    forall x ensures multiset(a)[x] == multiset(b)[x] {
      OnceIfDistinct(a, x);
      OnceIfDistinct(b, x);
      assert x in a <==> x in multiset(a);
      assert x in b <==> x in multiset(b);
    }
  }

  function Shards(files: seq<File>, c: string): (r: seq<File>)
    ensures forall f :: f in r <==> f in files && f.component == c
  {
    if files == [] then []
    else
      var n := |files| - 1;
      assert files == files[..n] + [files[n]];
      if files[n].component == c then Shards(files[..n], c) + [files[n]] else Shards(files[..n], c)
  }

  function Indexes(files: seq<File>): (r: seq<int>)
    ensures |r| == |files| && forall k :: 0 <= k < |files| ==> r[k] == files[k].index
  {
    seq(|files|, k requires 0 <= k < |files| => files[k].index)
  }

  predicate NoSharedIndex(files: seq<File>, c: string) {
    forall i, j :: 0 <= i < j < |files| && files[i].component == c == files[j].component
      ==> files[i].index != files[j].index
  }

  predicate Fresh(shards: seq<File>, index: int) { forall f :: f in shards ==> f.index != index }

  lemma DistinctMore(shards: seq<File>, f: File)
    ensures Distinct(Indexes(shards + [f])) <==> Distinct(Indexes(shards)) && Fresh(shards, f.index)
  {
    var all := Indexes(shards + [f]);
    assert all[|shards|] == f.index;
    assert forall i :: 0 <= i < |shards| ==> all[i] == Indexes(shards)[i] == shards[i].index;
    if Distinct(all) {
      forall g | g in shards ensures g.index != f.index {
        var k :| 0 <= k < |shards| && shards[k] == g;
        assert all[k] != all[|shards|];
      }
    }
  }

  lemma NoSharedMore(files: seq<File>, c: string)
    requires files != []
    ensures var n := |files| - 1;
            NoSharedIndex(files, c) <==>
            NoSharedIndex(files[..n], c) && (files[n].component == c ==> Fresh(Shards(files[..n], c), files[n].index))
  {
    var n := |files| - 1;
    var before := Shards(files[..n], c);
    assert forall i :: 0 <= i < n ==> files[..n][i] == files[i];
    if NoSharedIndex(files, c) && files[n].component == c {
      forall f | f in before ensures f.index != files[n].index {
        var i :| 0 <= i < n && files[..n][i] == f;
      }
    }
    if files[n].component == c && Fresh(before, files[n].index) {
      forall i | 0 <= i < n && files[i].component == c ensures files[i].index != files[n].index {
        assert files[..n][i] in before;
      }
    }
  }

  /** Numbers are distinct among a component's shards exactly when no two files share one. */
  lemma {:induction false} ShardsDistinct(files: seq<File>, c: string)
    ensures Distinct(Indexes(Shards(files, c))) <==> NoSharedIndex(files, c)
    decreases files
  {
    if files != [] {
      var n := |files| - 1;
      ShardsDistinct(files[..n], c);
      NoSharedMore(files, c);
      DistinctMore(Shards(files[..n], c), files[n]);
    }
  }

  lemma AllSame(shards: seq<File>, x: File)
    requires x in shards
    ensures |set f | f in shards :: f.count| == 1 <==> forall f :: f in shards ==> f.count == x.count
  {
    var counts := set f | f in shards :: f.count;
    assert x.count in counts && forall f :: f in shards ==> f.count in counts;
    if |counts| == 1 { OnlyElement(counts, x.count); }
    if forall f :: f in shards ==> f.count == x.count { assert counts == {x.count}; }
  }

  method CheckComponent(files: seq<File>, c: string) returns (ok: bool)
    requires exists f :: f in files && f.component == c
    ensures ok <==> ComponentComplete(files, c)
  {
    var shards := Shards(files, c);
    var counts := set f | f in shards :: f.count;
    ghost var some :| some in files && some.component == c;
    assert some in shards && some.count in counts;
    AllSame(shards, some);
    if |counts| != 1 {
      ghost var other :| other in shards && other.count != some.count;
      return false;
    }
    var count :| count in counts;
    OnlyElement(counts, count);
    assert forall f :: f in shards ==> f.count in counts;
    ok := Sort(Indexes(shards), IntLeq) == Range(count);
    SortedIsRange(Indexes(shards), count);
    ShardsDistinct(files, c);
    IndexesAre(shards, count, files, c);
  }

  lemma OnlyElement(s: set<int>, x: int)
    requires |s| == 1 && x in s
    ensures s == {x}
  {
    assert |s - {x}| == 0;
  }

  lemma IndexesAre(shards: seq<File>, count: int, files: seq<File>, c: string)
    requires shards == Shards(files, c) && forall f :: f in shards ==> f.count == count
    requires exists f :: f in files && f.component == c
    ensures (forall k :: k in Indexes(shards) <==> 1 <= k <= count) <==>
            (forall f :: f in files && f.component == c ==> 1 <= f.index <= f.count)
            && (forall f, k :: f in files && f.component == c && 1 <= k <= f.count ==> HasShard(files, c, k))
  {
    assert forall k :: k in Indexes(shards) <==> HasShard(files, c, k) by {
      forall k ensures k in Indexes(shards) <==> HasShard(files, c, k) { HasIndex(shards, files, c, k); }
    }
    var some :| some in files && some.component == c;
    assert some in shards;
    forall f | f in files && f.component == c ensures f.index in Indexes(shards) && f.count == count {
      assert f in shards && HasShard(files, c, f.index);
    }
  }

  lemma HasIndex(shards: seq<File>, files: seq<File>, c: string, k: int)
    requires shards == Shards(files, c)
    ensures k in Indexes(shards) <==> HasShard(files, c, k)
  {
    if HasShard(files, c, k) {
      var g :| g in files && g.component == c && g.index == k;
      assert g in shards;
      var i :| 0 <= i < |shards| && shards[i] == g;
      assert Indexes(shards)[i] == k;
    }
    if k in Indexes(shards) {
      var i :| 0 <= i < |shards| && Indexes(shards)[i] == k;
      assert shards[i] in shards;
    }
  }

  method CheckSet(files: seq<File>, components: seq<string>, scope: string) returns (ok: bool)
    ensures ok <==> SetComplete(files) && ScopeOk(files, components, scope)
  {
    if files == [] { return false; }
    DistinctBySize(Names(files));
    if |Elements(Names(files))| != |files| { return false; }
    DistinctBySize(Digests(files));
    if |Elements(Digests(files))| != |files| { return false; }
    var todo := set f | f in files :: f.component;
    while todo != {}
      invariant forall c :: c in todo ==> exists f :: f in files && f.component == c
      invariant forall f :: f in files ==> f.component in todo || ComponentComplete(files, f.component)
      decreases |todo|
    {
      var c :| c in todo;
      var complete := CheckComponent(files, c);
      if !complete { return false; }
      todo := todo - {c};
    }
    if scope !in ["model", "composite", "component"] { return false; }
    if scope == "composite" {
      var expected := Elements(components);
      var actual := set f | f in files :: f.local;
      ok := components != [] && expected == actual;
    } else if scope == "model" {
      ok := components == [];
    } else {
      ok := true;
    }
  }

  // ---- the identity ----

  predicate NameLeq(a: File, b: File) { TextLeq(a.filename, b.filename) }

  predicate KeyLeq(a: Tuple, b: Tuple) {
    Less(a.component, b.component) || (a.component == b.component && a.index <= b.index)
  }

  lemma NameLeqIsTotal()
    ensures Total(NameLeq) && Transitive(NameLeq)
  {
    TextLeqIsTotal();
    forall a, b ensures NameLeq(a, b) || NameLeq(b, a) { assert TextLeq(a.filename, b.filename) || TextLeq(b.filename, a.filename); }
  }

  lemma KeyLeqIsTotal()
    ensures Total(KeyLeq) && Transitive(KeyLeq)
  {
    forall a, b ensures KeyLeq(a, b) || KeyLeq(b, a) { CompareAntisymmetric(a.component, b.component); }
    forall a, b, c | KeyLeq(a, b) && KeyLeq(b, c) ensures KeyLeq(a, c) {
      StrictTotalOrder(a.component, b.component, c.component);
    }
  }

  function Listed(files: seq<File>): seq<File> { Sort(files, NameLeq) }

  function IdentityTuples(files: seq<File>): seq<Tuple> { Sort(Tuples(Listed(files)), KeyLeq) }

  // ---- the gates ----

  datatype Status = ReadyToPublish | Published | Blocked(code: string)

  /** A review of the set: what it says, the digests it is about, and three tests of its contents: its
      evidence files, its upstream, and the fields its kind demands. */
  datatype Gate = Gate(status: string, reason: string, hashes: seq<string>, evidence: bool, upstream: bool, fields: bool)

  datatype Verdict = Invalid | Passed | Blocks(code: string)

  /** The review passed, for exactly these bytes. */
  predicate Passes(gate: Gate, digests: seq<string>) {
    && gate.status == "PASS" && gate.evidence && gate.upstream && gate.fields
    && multiset(gate.hashes) == multiset(digests)
  }

  predicate Explained(gate: Gate) { gate.status == "BLOCKED" && gate.evidence && gate.reason != "" }

  /** Sorted lists of texts are equal exactly when they hold the same texts equally often. */
  lemma SortedSame(a: seq<string>, b: seq<string>)
    ensures Sort(a, TextLeq) == Sort(b, TextLeq) <==> multiset(a) == multiset(b)
  {
    TextLeqIsTotal();
    SortSorted(a, TextLeq);
    SortSorted(b, TextLeq);
    var s := Sort(a, TextLeq);
    forall i, j | 0 <= i < |s| && 0 <= j < |s| && TextLeq(s[i], s[j]) && TextLeq(s[j], s[i]) ensures s[i] == s[j] {
      CompareAntisymmetric(s[i], s[j]);
    }
    if multiset(a) == multiset(b) { SortedUnique(s, Sort(b, TextLeq), TextLeq); }
  }

  method QualifyGate(code: string, gate: Gate, hashes: seq<string>, ghost digests: seq<string>) returns (v: Verdict)
    requires hashes == Sort(digests, TextLeq)
    ensures v.Passed? <==> Passes(gate, digests)
    ensures v.Blocks? <==> Explained(gate)
    ensures v.Blocks? ==> v.code == code
  {
    if gate.status !in ["PASS", "BLOCKED"] { return Invalid; }
    if !gate.evidence { return Invalid; }
    if gate.status == "BLOCKED" {
      if gate.reason == "" { return Invalid; }
      return Blocks(code);
    }
    SortedSame(gate.hashes, digests);
    if Sort(gate.hashes, TextLeq) != hashes { return Invalid; }
    if !gate.upstream || !gate.fields { return Invalid; }
    v := Passed;
  }

  const GATE_CODES := ["BLOCKED_LICENSE", "BLOCKED_LINEAGE", "BLOCKED_VALIDATION"]
  const PROVENANCE := "BLOCKED_PROVENANCE"

  /** The codes of the first n gates that block. */
  function GateBlockers(gates: seq<Gate>, n: nat): seq<string>
    requires n <= |gates| == |GATE_CODES|
  {
    if n == 0 then []
    else if Explained(gates[n - 1]) then GateBlockers(gates, n - 1) + [GATE_CODES[n - 1]]
    else GateBlockers(gates, n - 1)
  }

  predicate Linked(files: seq<File>) { forall f :: f in files ==> f.linked }

  function Blockers(files: seq<File>, gates: seq<Gate>): seq<string>
    requires |gates| == |GATE_CODES|
  {
    GateBlockers(gates, |gates|) + if Linked(files) then [] else [PROVENANCE]
  }

  function StatusOf(blockers: seq<string>): Status {
    if blockers == [] then ReadyToPublish else Blocked(blockers[0])
  }

  predicate GatesValid(gates: seq<Gate>, digests: seq<string>) {
    forall k :: 0 <= k < |gates| ==> Passes(gates[k], digests) || Explained(gates[k])
  }

  method QualifyGates(gates: seq<Gate>, hashes: seq<string>, ghost digests: seq<string>)
    returns (ok: bool, blockers: seq<string>)
    requires |gates| == |GATE_CODES| && hashes == Sort(digests, TextLeq)
    ensures ok <==> GatesValid(gates, digests)
    ensures ok ==> blockers == GateBlockers(gates, |gates|)
  {
    blockers := [];
    for k := 0 to |gates|
      invariant blockers == GateBlockers(gates, k)
      invariant forall j :: 0 <= j < k ==> Passes(gates[j], digests) || Explained(gates[j])
    {
      var v := QualifyGate(GATE_CODES[k], gates[k], hashes, digests);
      if v.Invalid? { return false, blockers; }
      if v.Blocks? { blockers := blockers + [v.code]; }
    }
    ok := true;
  }

  lemma {:induction false} NoGateBlocks(gates: seq<Gate>, n: nat)
    requires n <= |gates| == |GATE_CODES|
    ensures GateBlockers(gates, n) == [] <==> forall k :: 0 <= k < n ==> !Explained(gates[k])
  {
    if n > 0 { NoGateBlocks(gates, n - 1); }
  }

  /** A release is ready to publish exactly when every review passed for exactly its bytes and the
      upstream of every file is resolved. */
  lemma ReadyExactly(files: seq<File>, gates: seq<Gate>)
    requires |gates| == |GATE_CODES| && GatesValid(gates, Digests(files))
    ensures StatusOf(Blockers(files, gates)) == ReadyToPublish <==>
            (forall k :: 0 <= k < |gates| ==> Passes(gates[k], Digests(files))) && Linked(files)
  {
    NoGateBlocks(gates, |gates|);
    assert forall k :: 0 <= k < |gates| ==> !(Explained(gates[k]) && Passes(gates[k], Digests(files)));
  }

  /** What project makes of an assessment: the files in order, the set's identity, the status and what
      blocks it. */
  datatype Projection = Projection(files: seq<File>, identity: string, status: Status, blockers: seq<string>)

  datatype Result<T> = Ok(value: T) | Refused

  function ProjectionOf(digest: seq<Tuple> -> string, files: seq<File>, gates: seq<Gate>): Projection
    requires |gates| == |GATE_CODES|
  {
    var blockers := Blockers(Listed(files), gates);
    Projection(Listed(files), "sha256:" + digest(IdentityTuples(files)), StatusOf(blockers), blockers)
  }

  method IdentityList(listed: seq<File>) returns (identity: seq<Tuple>)
    ensures identity == Sort(Tuples(listed), KeyLeq)
  {
    identity := [];
    for k := 0 to |listed|
      invariant identity == Tuples(listed[..k])
    {
      identity := identity + [TupleOf(listed[k])];
    }
    assert listed[..|listed|] == listed;
    identity := Sort(identity, KeyLeq);
  }

  /** `repository` tells whether the proposed repository has an admitted form. */
  method Project(digest: seq<Tuple> -> string, files: seq<File>, components: seq<string>, scope: string,
                 gates: seq<Gate>, repository: bool) returns (r: Result<Projection>)
    requires |gates| == |GATE_CODES|
    ensures r.Ok? <==>
            && SetComplete(Listed(files)) && ScopeOk(Listed(files), components, scope)
            && GatesValid(gates, Digests(Listed(files))) && repository
    ensures r.Ok? ==> r.value == ProjectionOf(digest, files, gates)
  {
    var listed := Sort(files, NameLeq);
    var ok := CheckSet(listed, components, scope);
    if !ok { return Refused; }
    var blockers;
    ok, blockers := QualifyGates(gates, Sort(Digests(listed), TextLeq), Digests(listed));
    if !ok { return Refused; }
    if exists f :: f in listed && !f.linked { blockers := blockers + [PROVENANCE]; }
    if !repository { return Refused; }
    var identity := IdentityList(listed);
    assert blockers == Blockers(listed, gates);
    r := Ok(Projection(listed, "sha256:" + digest(identity), StatusOf(blockers), blockers));
  }

  /** In a complete set the pair of component and index is a key. */
  lemma KeyIsUnique(files: seq<File>)
    requires SetComplete(files)
    ensures TieFree(Sort(Tuples(files), KeyLeq), KeyLeq)
  {
    var sorted := Sort(Tuples(files), KeyLeq);
    KeyLeqIsTotal();
    SortSorted(Tuples(files), KeyLeq);
    forall i, j | 0 <= i < |sorted| && 0 <= j < |sorted| && KeyLeq(sorted[i], sorted[j]) && KeyLeq(sorted[j], sorted[i])
      ensures sorted[i] == sorted[j]
    {
      var a := FromFile(files, sorted[i]);
      var b := FromFile(files, sorted[j]);
      StrictTotalOrder(sorted[i].component, sorted[j].component, sorted[i].component);
      SameKeySameFile(files, a, b);
    }
  }

  lemma FromFile(files: seq<File>, t: Tuple) returns (k: nat)
    requires t in Sort(Tuples(files), KeyLeq)
    ensures k < |files| && TupleOf(files[k]) == t
  {
    KeyLeqIsTotal();
    SortSorted(Tuples(files), KeyLeq);
    assert t in multiset(Sort(Tuples(files), KeyLeq));
    assert t in multiset(Tuples(files));
    assert t in Tuples(files);
    k :| 0 <= k < |files| && Tuples(files)[k] == t;
  }

  lemma SameKeySameFile(files: seq<File>, a: nat, b: nat)
    requires SetComplete(files) && a < |files| && b < |files|
    requires files[a].component == files[b].component && files[a].index == files[b].index
    ensures a == b
  {
    assert files[a] in files;
    assert ComponentComplete(files, files[a].component);
    assert NoSharedIndex(files, files[a].component);
  }

  /** The order in which an assessment lists its files changes nothing. */
  lemma OrderDoesNotMatter(a: seq<File>, b: seq<File>)
    requires multiset(a) == multiset(b)
    ensures SetComplete(Listed(a)) <==> SetComplete(Listed(b))
    ensures SetComplete(Listed(a)) ==> Listed(a) == Listed(b)
  {
    NameLeqIsTotal();
    SortSorted(a, NameLeq);
    SortSorted(b, NameLeq);
    if SetComplete(Listed(a)) { SameList(Listed(a), Listed(b)); }
    if SetComplete(Listed(b)) { SameList(Listed(b), Listed(a)); }
  }

  lemma SameList(a: seq<File>, b: seq<File>)
    requires SetComplete(a) && Sorted(a, NameLeq) && Sorted(b, NameLeq) && multiset(a) == multiset(b)
    ensures a == b
  {
    forall i, j | 0 <= i < |a| && 0 <= j < |a| && NameLeq(a[i], a[j]) && NameLeq(a[j], a[i]) ensures a[i] == a[j] {
      CompareAntisymmetric(a[i].filename, a[j].filename);
      assert Names(a)[i] == Names(a)[j];
    }
    SortedUnique(a, b, NameLeq);
  }

  /** Neither filenames nor locations enter the identity: complete sets of the same physical files
      have the same one. */
  lemma FilenamesDoNotMatter(digest: seq<Tuple> -> string, a: seq<File>, b: seq<File>)
    requires SetComplete(Listed(a)) && SetComplete(Listed(b))
    requires multiset(Tuples(Listed(a))) == multiset(Tuples(Listed(b)))
    ensures digest(IdentityTuples(a)) == digest(IdentityTuples(b))
  {
    KeyLeqIsTotal();
    SortSorted(Tuples(Listed(a)), KeyLeq);
    SortSorted(Tuples(Listed(b)), KeyLeq);
    KeyIsUnique(Listed(a));
    SortedUnique(IdentityTuples(a), IdentityTuples(b), KeyLeq);
  }

  /** With an injective digest, equal identities mean the same physical files. */
  lemma IdentityDetermines(digest: seq<Tuple> -> string, a: seq<File>, b: seq<File>)
    requires forall x, y :: digest(x) == digest(y) ==> x == y
    requires digest(IdentityTuples(a)) == digest(IdentityTuples(b))
    ensures multiset(Tuples(Listed(a))) == multiset(Tuples(Listed(b)))
  {
    KeyLeqIsTotal();
    SortSorted(Tuples(Listed(a)), KeyLeq);
    SortSorted(Tuples(Listed(b)), KeyLeq);
  }

  // ---- publication ----

  /** A published artifact as the receipt states it. */
  datatype Artifact = Artifact(filename: string, sha256: string, lfsSha256: string, size: nat,
                               manifestFilename: string, manifestSha256: string)

  datatype Registered = Registered(location: Remote, state: string)

  datatype Representation = Representation(identity: string, size: nat, registered: seq<Registered>)

  datatype Model = Model(identity: string, representations: seq<Representation>)

  datatype Catalog = Catalog(schema: string, models: seq<Model>)

  /** The receipt of a publication: `confirmed` are its gates that are true, `evidenced` whether its
      evidence files are as stated. */
  datatype Receipt = Receipt(schema: string, status: string, hidden: Option<bool>, verified: Option<bool>,
                             confirmed: set<string>, evidence: seq<string>, evidenced: bool,
                             repository: string, revision: string, artifacts: seq<Artifact>)

  /** Every gate a publication must pass, and public visibility. */
  predicate Confirmed(catalog: Catalog, receipt: Receipt) {
    && catalog.schema == "yvex.model.list.v4"
    && receipt.schema == "yvex.hub.publication.receipt.v1" && receipt.status == "PASS"
    && receipt.hidden == Some(false) && receipt.verified == Some(true)
    && (forall gate :: gate in PUBLICATION_GATES ==> gate in receipt.confirmed)
    && receipt.evidenced
  }

  const PUBLICATION_GATES :=
    ["complete_file_set", "card_rendered", "card_metadata_valid", "license_present", "all_file_identities_verified"]

  method CheckReceipt(catalog: Catalog, receipt: Receipt) returns (ok: bool)
    ensures ok <==> Confirmed(catalog, receipt)
  {
    if catalog.schema != "yvex.model.list.v4" { return false; }
    if receipt.schema != "yvex.hub.publication.receipt.v1" || receipt.status != "PASS" { return false; }
    if receipt.hidden != Some(false) || receipt.verified != Some(true) { return false; }
    for k := 0 to |PUBLICATION_GATES|
      invariant forall j :: 0 <= j < k ==> PUBLICATION_GATES[j] in receipt.confirmed
    {
      if PUBLICATION_GATES[k] !in receipt.confirmed {
        assert PUBLICATION_GATES[k] in PUBLICATION_GATES;
        return false;
      }
    }
    ok := receipt.evidenced;
  }

  /** Digests, and the tests of text forms: an immutable revision, a manifest's digest and its path. */
  datatype Forms = Forms(revision: string -> bool, manifest: Artifact -> bool,
                         receiptSha: Receipt -> string, catalogSha: Catalog -> string)

  class Release {
    var files: seq<File>
    var identity: string
    var model: string
    var repository: string
    var status: Status
    var remotes: seq<Remote>
    var receiptSha: string
    var evidence: seq<string>
    var catalogSha: string

    constructor Copy(other: Release)
      ensures files == other.files && identity == other.identity && model == other.model
      ensures repository == other.repository && status == other.status && remotes == other.remotes
      ensures receiptSha == other.receiptSha && evidence == other.evidence && catalogSha == other.catalogSha
    {
      files, identity, model := other.files, other.identity, other.model;
      repository, status, remotes := other.repository, other.status, other.remotes;
      receiptSha, evidence, catalogSha := other.receiptSha, other.evidence, other.catalogSha;
    }
  }

  function RemoteOf(receipt: Receipt, a: Artifact): Remote {
    Remote(receipt.repository, receipt.revision, a.filename, a.sha256, a.size, a.manifestFilename, a.manifestSha256)
  }

  /** The artifacts published under a name, the representations of the same bytes, and the models of
      an identity. */
  function Matches(artifacts: seq<Artifact>, filename: string): seq<Artifact> {
    Filter(artifacts, (a: Artifact) => a.filename == filename)
  }

  function Same(reps: seq<Representation>, f: File): seq<Representation> {
    Filter(reps, (r: Representation) => r.identity == f.sha256 && r.size == f.size)
  }

  function Models(models: seq<Model>, identity: string): seq<Model> {
    Filter(models, (m: Model) => m.identity == identity)
  }

  /** One published artifact has the file's name; it has the same bytes, and the catalog binds it. */
  predicate FileBound(forms: Forms, receipt: Receipt, model: Model, f: File) {
    var matches, reps := Matches(receipt.artifacts, f.filename), Same(model.representations, f);
    && |matches| == 1
    && matches[0].sha256 == f.sha256 == matches[0].lfsSha256 && matches[0].size == f.size
    && forms.manifest(matches[0])
    && |reps| == 1 && Registered(RemoteOf(receipt, matches[0]), "PUBLISHED") in reps[0].registered
  }

  predicate Bindable(forms: Forms, status: Status, repository: string, identity: string, files: seq<File>,
                     catalog: Catalog, receipt: Receipt) {
    && status == ReadyToPublish && Confirmed(catalog, receipt)
    && receipt.repository == repository && forms.revision(receipt.revision)
    && |Models(catalog.models, identity)| == 1
    && forall f :: f in files ==> FileBound(forms, receipt, Models(catalog.models, identity)[0], f)
  }

  function Bound(receipt: Receipt, f: File): File
    requires |Matches(receipt.artifacts, f.filename)| == 1
  {
    f.(remotes := f.remotes + [RemoteOf(receipt, Matches(receipt.artifacts, f.filename)[0])])
  }

  /** Files 0 to k are bound, the others still as they were. */
  predicate BoundUpTo(forms: Forms, receipt: Receipt, model: Model, was: seq<File>, files: seq<File>, k: nat) {
    && |files| == |was| && k <= |was|
    && (forall j :: 0 <= j < k ==>
          && FileBound(forms, receipt, model, was[j]) && files[j] == Bound(receipt, was[j]))
    && (forall j :: k <= j < |was| ==> files[j] == was[j])
  }

  /** One location a file, in order. */
  predicate LocationsUpTo(receipt: Receipt, was: seq<File>, locations: seq<Remote>, k: nat) {
    && |locations| == k <= |was|
    && (forall j :: 0 <= j < k ==>
          && |Matches(receipt.artifacts, was[j].filename)| == 1
          && locations[j] == RemoteOf(receipt, Matches(receipt.artifacts, was[j].filename)[0]))
  }

  /** The checks of one file, and its location. */
  method BindFile(forms: Forms, receipt: Receipt, model: Model, file: File) returns (r: Result<Remote>)
    ensures r.Ok? <==> FileBound(forms, receipt, model, file)
    ensures r.Ok? ==> r.value == RemoteOf(receipt, Matches(receipt.artifacts, file.filename)[0])
  {
    var matches := Matches(receipt.artifacts, file.filename);
    if |matches| != 1 { return Refused; }
    var remote := matches[0];
    if !(remote.sha256 == file.sha256 == remote.lfsSha256) || remote.size != file.size { return Refused; }
    if !forms.manifest(remote) { return Refused; }
    var location := RemoteOf(receipt, remote);
    var reps := Same(model.representations, file);
    if |reps| != 1 { return Refused; }
    if Registered(location, "PUBLISHED") !in reps[0].registered { return Refused; }
    r := Ok(location);
  }

  /** The loop over the files of the copy. */
  method BindFiles(forms: Forms, receipt: Receipt, model: Model, was: seq<File>)
    returns (ok: bool, files: seq<File>, locations: seq<Remote>)
    ensures ok <==> forall f :: f in was ==> FileBound(forms, receipt, model, f)
    ensures ok ==> BoundUpTo(forms, receipt, model, was, files, |was|) && LocationsUpTo(receipt, was, locations, |was|)
  {
    files, locations := was, [];
    for k := 0 to |was|
      invariant BoundUpTo(forms, receipt, model, was, files, k) && LocationsUpTo(receipt, was, locations, k)
    {
      var file := files[k];
      assert file == was[k] && file in was;
      var location := BindFile(forms, receipt, model, file);
      if location.Refused? { return false, files, locations; }
      files := files[k := file.(remotes := file.remotes + [location.value])];
      locations := locations + [location.value];
    }
    ok := true;
  }

  lemma SameTuples(forms: Forms, receipt: Receipt, model: Model, was: seq<File>, files: seq<File>)
    requires BoundUpTo(forms, receipt, model, was, files, |was|)
    ensures Tuples(files) == Tuples(was)
  {
    forall k | 0 <= k < |was| ensures TupleOf(files[k]) == TupleOf(was[k]) {
      assert files[k] == Bound(receipt, was[k]);
    }
  }

  /** Binding works on a copy: the release given is untouched, and the copy keeps the identity and
      every physical tuple, so the identity still is the digest of what is listed. */
  method BindPublication(forms: Forms, release: Release, catalog: Catalog, receipt: Receipt)
    returns (r: Result<Release>)
    ensures r.Ok? <==> Bindable(forms, release.status, release.repository, release.model, release.files, catalog, receipt)
    ensures r.Ok? ==> fresh(r.value) && r.value.status == Published
    ensures r.Ok? ==> r.value.identity == release.identity && r.value.model == release.model
    ensures r.Ok? ==> r.value.repository == release.repository
    ensures r.Ok? ==> Tuples(r.value.files) == Tuples(release.files)
    ensures r.Ok? ==> BoundUpTo(forms, receipt, Models(catalog.models, release.model)[0],
                                release.files, r.value.files, |release.files|)
    ensures r.Ok? ==> LocationsUpTo(receipt, release.files, r.value.remotes, |release.files|)
    ensures r.Ok? ==> r.value.receiptSha == forms.receiptSha(receipt) && r.value.evidence == receipt.evidence
    ensures r.Ok? ==> r.value.catalogSha == forms.catalogSha(catalog)
  {
    if release.status != ReadyToPublish { return Refused; }
    var confirmed := CheckReceipt(catalog, receipt);
    if !confirmed { return Refused; }
    if receipt.repository != release.repository || !forms.revision(receipt.revision) { return Refused; }
    var candidates := Models(catalog.models, release.model);
    if |candidates| != 1 { return Refused; }
    var result := new Release.Copy(release);
    var ok, files, locations := BindFiles(forms, receipt, candidates[0], result.files);
    if !ok { return Refused; }
    SameTuples(forms, receipt, candidates[0], release.files, files);
    result.files, result.status, result.remotes := files, Published, locations;
    result.receiptSha, result.evidence := forms.receiptSha(receipt), receipt.evidence;
    result.catalogSha := forms.catalogSha(catalog);
    if result.identity != release.identity { return Refused; }
    r := Ok(result);
  }
}
