/** What ModelRelease decides, said of the files, reviews and catalog entries themselves. */
module ReleaseMeaning {
  import opened ModelRelease
  import opened Ordering
  import opened Sequences
  import opened Wrappers

  // ---- the identity of a set ----

  /** The same physical file: bytes, size and place in the set. */
  predicate SameBytes(f: File, g: File) {
    && f.sha256 == g.sha256 && f.size == g.size
    && f.component == g.component && f.index == g.index && f.count == g.count
  }

  predicate HasFile(files: seq<File>, f: File) { exists g :: g in files && SameBytes(f, g) }

  predicate SameFiles(a: seq<File>, b: seq<File>) {
    (forall f :: f in a ==> HasFile(b, f)) && (forall f :: f in b ==> HasFile(a, f))
  }

  lemma TupleIs(f: File, g: File)
    ensures TupleOf(f) == TupleOf(g) <==> SameBytes(f, g)
  {
  }

  lemma TuplesHave(files: seq<File>, f: File)
    ensures TupleOf(f) in Tuples(files) <==> HasFile(files, f)
  {
    if TupleOf(f) in Tuples(files) {
      var k :| 0 <= k < |files| && Tuples(files)[k] == TupleOf(f);
      TupleIs(f, files[k]);
    }
    if HasFile(files, f) {
      var g :| g in files && SameBytes(f, g);
      var k :| 0 <= k < |files| && files[k] == g;
      assert Tuples(files)[k] == TupleOf(f);
    }
  }

  lemma TuplesDistinct(files: seq<File>)
    requires Distinct(Digests(files))
    ensures Distinct(Tuples(files))
  {
    forall i, j | 0 <= i < j < |files| ensures Tuples(files)[i] != Tuples(files)[j] {
      assert Digests(files)[i] != Digests(files)[j];
    }
  }

  lemma SameTuplesAre(a: seq<File>, b: seq<File>)
    requires Distinct(Digests(a)) && Distinct(Digests(b))
    ensures multiset(Tuples(a)) == multiset(Tuples(b)) <==> SameFiles(a, b)
  {
    if multiset(Tuples(a)) == multiset(Tuples(b)) {
      HaveEachOther(a, b);
      HaveEachOther(b, a);
    }
    if SameFiles(a, b) {
      TuplesDistinct(a);
      TuplesDistinct(b);
      IncludedIn(a, b);
      IncludedIn(b, a);
      SameBag(Tuples(a), Tuples(b));
    }
  }

  lemma HaveEachOther(a: seq<File>, b: seq<File>)
    requires multiset(Tuples(a)) == multiset(Tuples(b))
    ensures forall f :: f in a ==> HasFile(b, f)
  {
    forall f | f in a ensures HasFile(b, f) {
      assert SameBytes(f, f);
      TuplesHave(a, f);
      assert TupleOf(f) in multiset(Tuples(a));
      assert TupleOf(f) in multiset(Tuples(b));
      TuplesHave(b, f);
    }
  }

  lemma IncludedIn(a: seq<File>, b: seq<File>)
    requires forall f :: f in a ==> HasFile(b, f)
    ensures forall t :: t in Tuples(a) ==> t in Tuples(b)
  {
    forall t | t in Tuples(a) ensures t in Tuples(b) {
      var k :| 0 <= k < |a| && Tuples(a)[k] == t;
      assert a[k] in a;
      TuplesHave(b, a[k]);
    }
  }

  /** With an injective digest two complete sets have the same identity exactly when they consist of
      the same physical files, whatever these are called and in whatever order they are listed. */
  lemma IdentityExactly(digest: seq<Tuple> -> string, a: seq<File>, b: seq<File>)
    requires forall x, y :: digest(x) == digest(y) ==> x == y
    requires SetComplete(Listed(a)) && SetComplete(Listed(b))
    ensures digest(IdentityTuples(a)) == digest(IdentityTuples(b)) <==> SameFiles(a, b)
  {
    ListedHas(a);
    ListedHas(b);
    SameTuplesAre(Listed(a), Listed(b));
    assert SameFiles(Listed(a), Listed(b)) <==> SameFiles(a, b) by { ListedSame(a, b); }
    if digest(IdentityTuples(a)) == digest(IdentityTuples(b)) { IdentityDetermines(digest, a, b); }
    if SameFiles(a, b) { FilenamesDoNotMatter(digest, a, b); }
  }

  lemma ListedHas(files: seq<File>)
    ensures forall f :: f in Listed(files) <==> f in files
    ensures multiset(Listed(files)) == multiset(files)
  {
    NameLeqIsTotal();
    SortSorted(files, NameLeq);
    forall f ensures f in Listed(files) <==> f in files {
      assert f in Listed(files) <==> f in multiset(Listed(files));
      assert f in files <==> f in multiset(files);
    }
  }

  lemma ListedSame(a: seq<File>, b: seq<File>)
    ensures SameFiles(Listed(a), Listed(b)) <==> SameFiles(a, b)
  {
    ListedHas(a);
    ListedHas(b);
    forall f ensures HasFile(Listed(a), f) <==> HasFile(a, f) { assert true; }
    forall f ensures HasFile(Listed(b), f) <==> HasFile(b, f) { assert true; }
  }

  /** The files of a projection are those of the assessment, by strictly increasing name. */
  lemma ListedInOrder(files: seq<File>)
    requires SetComplete(Listed(files))
    ensures multiset(Listed(files)) == multiset(files) && |Listed(files)| == |files| > 0
    ensures forall i, j :: 0 <= i < j < |files| ==> Less(Listed(files)[i].filename, Listed(files)[j].filename)
  {
    var listed := Listed(files);
    ListedHas(files);
    assert |listed| == |multiset(listed)| == |multiset(files)| == |files|;
    NameLeqIsTotal();
    SortSorted(files, NameLeq);
    forall i, j | 0 <= i < j < |files| ensures Less(listed[i].filename, listed[j].filename) {
      assert NameLeq(listed[i], listed[j]);
      assert Names(listed)[i] != Names(listed)[j];
      CompareAntisymmetric(listed[i].filename, listed[j].filename);
    }
  }

  // ---- blockers and status ----

  function If(blocked: bool, code: string): seq<string> { if blocked then [code] else [] }

  /** The blockers of a projection, in order: the three reviews, then a file without resolved upstream;
      and the first of them is its status. */
  lemma BlockersExactly(files: seq<File>, license: Gate, lineage: Gate, validation: Gate)
    requires GatesValid([license, lineage, validation], Digests(files))
    ensures var blockers := Blockers(files, [license, lineage, validation]);
            && blockers == If(license.status == "BLOCKED", "BLOCKED_LICENSE")
                           + If(lineage.status == "BLOCKED", "BLOCKED_LINEAGE")
                           + If(validation.status == "BLOCKED", "BLOCKED_VALIDATION")
                           + If(exists f :: f in files && !f.linked, "BLOCKED_PROVENANCE")
            && StatusOf(blockers) == if blockers == [] then ReadyToPublish else Blocked(blockers[0])
  {
    var gates := [license, lineage, validation];
    assert forall k :: 0 <= k < 3 ==> (gates[k].status == "BLOCKED" <==> Explained(gates[k])) by {
      forall k | 0 <= k < 3 ensures gates[k].status == "BLOCKED" <==> Explained(gates[k]) {
        assert Passes(gates[k], Digests(files)) || Explained(gates[k]);
      }
    }
    assert gates[0] == license && gates[1] == lineage && gates[2] == validation;
    var a := If(license.status == "BLOCKED", "BLOCKED_LICENSE");
    var b := If(lineage.status == "BLOCKED", "BLOCKED_LINEAGE");
    var c := If(validation.status == "BLOCKED", "BLOCKED_VALIDATION");
    GateMore(gates, 0, "BLOCKED_LICENSE");
    GateMore(gates, 1, "BLOCKED_LINEAGE");
    GateMore(gates, 2, "BLOCKED_VALIDATION");
    assert GateBlockers(gates, 1) == [] + a && GateBlockers(gates, 2) == [] + a + b;
    assert GateBlockers(gates, 3) == a + b + c;
    assert Linked(files) <==> !exists f :: f in files && !f.linked;
  }

  lemma GateMore(gates: seq<Gate>, k: nat, code: string)
    requires |gates| == 3 && k < 3 && code == GATE_CODES[k]
    ensures GateBlockers(gates, k + 1) == GateBlockers(gates, k) + If(Explained(gates[k]), code)
  {
  }

  // ---- the scope ----

  /** A composite has exactly the catalog's components, at least one; a model has no components; a
      component is taken as it is; and there are no other scopes. */
  lemma ScopeExactly(files: seq<File>, components: seq<string>, scope: string)
    ensures ScopeOk(files, components, scope) <==>
            || scope == "component"
            || (scope == "model" && components == [])
            || (scope == "composite" && components != []
                && (forall path :: path in components <==> exists f :: f in files && f.local == path))
  {
    var locals := set f | f in files :: f.local;
    assert forall path :: path in locals <==> exists f :: f in files && f.local == path;
    assert forall path :: path in Elements(components) <==> path in components;
    assert (forall path :: path in components <==> path in locals) <==> Elements(components) == locals by {
      if forall path :: path in components <==> path in locals {
        assert Elements(components) == locals;
      }
    }
    assert ["model", "composite", "component"][0] == "model" && ["model", "composite", "component"][2] == "component";
    assert ["model", "composite", "component"][1] == "composite";
  }

  // ---- the binding of a publication ----

  /** Artifact k is the only one published under the name. */
  predicate OnlyNamed(artifacts: seq<Artifact>, filename: string, k: int) {
    && 0 <= k < |artifacts| && artifacts[k].filename == filename
    && forall j :: 0 <= j < |artifacts| && artifacts[j].filename == filename ==> j == k
  }

  lemma OneNamed(artifacts: seq<Artifact>, filename: string, a: Artifact)
    ensures Matches(artifacts, filename) == [a] <==>
            exists k :: OnlyNamed(artifacts, filename, k) && artifacts[k] == a
  {
    var keep := (a: Artifact) => a.filename == filename;
    FilterOne(artifacts, keep, a);
    forall k ensures Only(artifacts, keep, k) <==> OnlyNamed(artifacts, filename, k) { }
  }

  /** Representation k is the only one of these bytes. */
  predicate OnlyBytes(reps: seq<Representation>, f: File, k: int) {
    && 0 <= k < |reps| && reps[k].identity == f.sha256 && reps[k].size == f.size
    && forall j :: 0 <= j < |reps| && reps[j].identity == f.sha256 && reps[j].size == f.size ==> j == k
  }

  lemma OneBytes(reps: seq<Representation>, f: File, r: Representation)
    ensures Same(reps, f) == [r] <==> exists k :: OnlyBytes(reps, f, k) && reps[k] == r
  {
    var keep := (r: Representation) => r.identity == f.sha256 && r.size == f.size;
    FilterOne(reps, keep, r);
    forall k ensures Only(reps, keep, k) <==> OnlyBytes(reps, f, k) { }
  }

  /** The location of a published file, field by field. */
  predicate LocatedAt(receipt: Receipt, a: Artifact, f: File, r: Remote) {
    && r.repository == receipt.repository && r.revision == receipt.revision
    && r.filename == f.filename && r.sha256 == f.sha256 && r.size == f.size
    && r.manifestFilename == a.manifestFilename && r.manifestSha256 == a.manifestSha256
  }

  /** The only artifact of the file's name has its bytes, and the only catalog entry of these bytes
      lists exactly this location as published. */
  predicate BoundBy(forms: Forms, receipt: Receipt, model: Model, f: File, k: int, m: int) {
    && OnlyNamed(receipt.artifacts, f.filename, k) && OnlyBytes(model.representations, f, m)
    && var a := receipt.artifacts[k];
       && a.sha256 == f.sha256 && a.lfsSha256 == f.sha256 && a.size == f.size && forms.manifest(a)
       && exists x :: x in model.representations[m].registered && x.state == "PUBLISHED"
                      && LocatedAt(receipt, a, f, x.location)
  }

  lemma LocationIs(receipt: Receipt, a: Artifact, f: File, r: Remote)
    requires a.filename == f.filename && a.sha256 == f.sha256 && a.size == f.size
    ensures r == RemoteOf(receipt, a) <==> LocatedAt(receipt, a, f, r)
  {
  }

  lemma RegisteredIs(receipt: Receipt, a: Artifact, f: File, list: seq<Registered>)
    requires a.filename == f.filename && a.sha256 == f.sha256 && a.size == f.size
    ensures Registered(RemoteOf(receipt, a), "PUBLISHED") in list <==>
            exists x :: x in list && x.state == "PUBLISHED" && LocatedAt(receipt, a, f, x.location)
  {
    if x :| x in list && x.state == "PUBLISHED" && LocatedAt(receipt, a, f, x.location) {
      LocationIs(receipt, a, f, x.location);
      assert x == Registered(RemoteOf(receipt, a), "PUBLISHED");
    }
  }

  /** What binding a file demands, exactly. */
  lemma BoundExactly(forms: Forms, receipt: Receipt, model: Model, f: File)
    ensures FileBound(forms, receipt, model, f) <==> exists k, m :: BoundBy(forms, receipt, model, f, k, m)
  {
    if FileBound(forms, receipt, model, f) {
      var matches, reps := Matches(receipt.artifacts, f.filename), Same(model.representations, f);
      Single(matches);
      Single(reps);
      OneNamed(receipt.artifacts, f.filename, matches[0]);
      OneBytes(model.representations, f, reps[0]);
      var k :| OnlyNamed(receipt.artifacts, f.filename, k) && receipt.artifacts[k] == matches[0];
      var m :| OnlyBytes(model.representations, f, m) && model.representations[m] == reps[0];
      RegisteredIs(receipt, matches[0], f, reps[0].registered);
      assert BoundBy(forms, receipt, model, f, k, m);
    }
    if k, m :| BoundBy(forms, receipt, model, f, k, m) {
      OneNamed(receipt.artifacts, f.filename, receipt.artifacts[k]);
      OneBytes(model.representations, f, model.representations[m]);
      RegisteredIs(receipt, receipt.artifacts[k], f, model.representations[m].registered);
    }
  }

  /** What binding adds to a file: the location of its artifact, behind the locations it had. */
  lemma BoundAdds(forms: Forms, receipt: Receipt, model: Model, f: File)
    requires FileBound(forms, receipt, model, f)
    ensures exists k, r ::
              && OnlyNamed(receipt.artifacts, f.filename, k) && LocatedAt(receipt, receipt.artifacts[k], f, r)
              && Bound(receipt, f) == f.(remotes := f.remotes + [r])
  {
    var matches := Matches(receipt.artifacts, f.filename);
    Single(matches);
    OneNamed(receipt.artifacts, f.filename, matches[0]);
    var k :| OnlyNamed(receipt.artifacts, f.filename, k) && receipt.artifacts[k] == matches[0];
    var r := RemoteOf(receipt, matches[0]);
    assert LocatedAt(receipt, receipt.artifacts[k], f, r) && Bound(receipt, f) == f.(remotes := f.remotes + [r]);
  }

  /** Model k is the only one of the identity in the catalog. */
  predicate OnlyModel(models: seq<Model>, identity: string, k: int) {
    && 0 <= k < |models| && models[k].identity == identity
    && forall j :: 0 <= j < |models| && models[j].identity == identity ==> j == k
  }

  lemma OneModel(models: seq<Model>, identity: string, x: Model)
    ensures Models(models, identity) == [x] <==> exists k :: OnlyModel(models, identity, k) && models[k] == x
  {
    var keep := (m: Model) => m.identity == identity;
    FilterOne(models, keep, x);
    forall k ensures Only(models, keep, k) <==> OnlyModel(models, identity, k) { }
  }

  /** A confirmed receipt, gate by gate. */
  predicate FiveGates(receipt: Receipt) {
    && "complete_file_set" in receipt.confirmed && "card_rendered" in receipt.confirmed
    && "card_metadata_valid" in receipt.confirmed && "license_present" in receipt.confirmed
    && "all_file_identities_verified" in receipt.confirmed
  }

  lemma ConfirmedExactly(catalog: Catalog, receipt: Receipt)
    ensures Confirmed(catalog, receipt) <==>
            && catalog.schema == "yvex.model.list.v4" && receipt.schema == "yvex.hub.publication.receipt.v1"
            && receipt.status == "PASS" && receipt.hidden == Some(false) && receipt.verified == Some(true)
            && FiveGates(receipt) && receipt.evidenced
  {
    var g := PUBLICATION_GATES;
    assert g[0] == "complete_file_set" && g[1] == "card_rendered" && g[2] == "card_metadata_valid";
    assert g[3] == "license_present" && g[4] == "all_file_identities_verified" && |g| == 5;
    if Confirmed(catalog, receipt) { assert g[0] in g && g[1] in g && g[2] in g && g[3] in g && g[4] in g; }
  }

  /** Which releases a publication binds, exactly. */
  lemma BindableExactly(forms: Forms, status: Status, repository: string, identity: string, files: seq<File>,
                        catalog: Catalog, receipt: Receipt)
    ensures Bindable(forms, status, repository, identity, files, catalog, receipt) <==>
            && status == ReadyToPublish && Confirmed(catalog, receipt)
            && receipt.repository == repository && forms.revision(receipt.revision)
            && exists n :: OnlyModel(catalog.models, identity, n)
                 && forall f :: f in files ==> exists k, m :: BoundBy(forms, receipt, catalog.models[n], f, k, m)
  {
    var models := Models(catalog.models, identity);
    if Bindable(forms, status, repository, identity, files, catalog, receipt) {
      Single(models);
      OneModel(catalog.models, identity, models[0]);
      var n :| OnlyModel(catalog.models, identity, n) && catalog.models[n] == models[0];
      forall f | f in files ensures exists k, m :: BoundBy(forms, receipt, catalog.models[n], f, k, m) {
        BoundExactly(forms, receipt, catalog.models[n], f);
      }
    }
    if n :| OnlyModel(catalog.models, identity, n)
            && forall f :: f in files ==> exists k, m :: BoundBy(forms, receipt, catalog.models[n], f, k, m) {
      OneModel(catalog.models, identity, catalog.models[n]);
      forall f | f in files ensures FileBound(forms, receipt, catalog.models[n], f) {
        BoundExactly(forms, receipt, catalog.models[n], f);
      }
    }
  }
}
