/** Reconciling shard indexes with tensor headers in tools/minimax_h3_intake.py. The dictionaries
    of the source are maps here, or sequences where their insertion order is used. */
module ShardReconciliation {
  import opened Json
  import Ordering
  import opened Wrappers

  /** Path handling: the component that owns a path, and a name resolved beside a path. */
  datatype Paths = Paths(subdir: string, component: string -> Option<string>, resolve: (string, string) -> string)

  datatype Tensor = Tensor(component: string, name: string, shard: string, span: nat)

  type Metadata = seq<(string, Option<Json>)>

  predicate EndsWith(s: string, suffix: string) { |suffix| <= |s| && s[|s| - |suffix|..] == suffix }

  predicate IsShard(p: Paths, path: string) { p.subdir + "/" <= path && EndsWith(path, ".safetensors") }

  predicate IsIndex(path: string) { EndsWith(path, ".safetensors.index.json") }

  // ---- what must hold, said without dictionaries ----

  predicate NamesUnique(tensors: seq<Tensor>) {
    forall i, j :: 0 <= i < j < |tensors| && tensors[i].component == tensors[j].component
      ==> tensors[i].name != tensors[j].name
  }

  predicate ShardsOwned(p: Paths, files: seq<string>) {
    forall k :: 0 <= k < |files| && IsShard(p, files[k]) ==> p.component(files[k]).Some?
  }

  function ShardsOf(p: Paths, files: seq<string>, c: string): set<string> {
    set f | f in files && IsShard(p, f) && p.component(f) == Some(c)
  }

  function TensorsOf(tensors: seq<Tensor>, c: string): (r: seq<Tensor>)
    ensures forall t :: t in r <==> t in tensors && t.component == c
  {
    if tensors == [] then []
    else
      var n := |tensors| - 1;
      assert tensors == tensors[..n] + [tensors[n]];
      if tensors[n].component == c then TensorsOf(tensors[..n], c) + [tensors[n]] else TensorsOf(tensors[..n], c)
  }

  /** One entry of a weight map names a tensor and a shard of the same component. */
  predicate EntryOk(p: Paths, path: string, entry: (string, Json)) {
    entry.0 != "" && IsText(entry.1) && p.component(p.resolve(path, entry.1.text)) == p.component(path)
  }

  predicate DocumentOk(p: Paths, path: string, data: Option<Json>) {
    && p.component(path).Some?
    && data.Some? && data.value.Object?
    && Get(data.value.fields, "weight_map").Some? && Get(data.value.fields, "weight_map").value.Object?
    && forall e :: e in Get(data.value.fields, "weight_map").value.fields ==> EntryOk(p, path, e)
  }

  predicate IndexesOk(p: Paths, metadata: Metadata) {
    && (forall k :: 0 <= k < |metadata| && IsIndex(metadata[k].0) ==> DocumentOk(p, metadata[k].0, metadata[k].1))
    && (forall i, j :: 0 <= i < j < |metadata| && IsIndex(metadata[i].0) && IsIndex(metadata[j].0)
                       ==> p.component(metadata[i].0) != p.component(metadata[j].0))
  }

  /** The dictionary built from the entries: a later one replaces an earlier one. */
  function Weights(p: Paths, path: string, entries: seq<(string, Json)>): map<string, string> {
    if entries == [] then map[]
    else
      var n := |entries| - 1;
      var before := Weights(p, path, entries[..n]);
      if entries[n].1.Text? then before[entries[n].0 := p.resolve(path, entries[n].1.text)] else before
  }

  datatype Index = Index(path: string, weights: map<string, string>, fields: seq<(string, Json)>)

  function IndexOf(p: Paths, path: string, data: Option<Json>): Index
    requires DocumentOk(p, path, data)
  {
    Index(path, Weights(p, path, Get(data.value.fields, "weight_map").value.fields), data.value.fields)
  }

  function TotalSpan(tensors: seq<Tensor>): nat {
    if tensors == [] then 0 else TotalSpan(tensors[..|tensors| - 1]) + tensors[|tensors| - 1].span
  }

  /** A declared total size is the sum of the spans; metadata may be missing or null. */
  predicate TotalOk(fields: seq<(string, Json)>, mine: seq<Tensor>) {
    var row := Get(fields, "metadata");
    row.None? || row.value.Null?
    || (row.value.Object?
        && (Get(row.value.fields, "total_size").None?
            || Get(row.value.fields, "total_size").value == Int(TotalSpan(mine))))
  }

  /** The map an index must be: every tensor of the component to the shard whose header has it. */
  predicate MapsTensors(weights: map<string, string>, mine: seq<Tensor>) {
    && (forall name :: name in weights ==> exists t :: t in mine && t.name == name)
    && (forall t :: t in mine ==> t.name in weights && weights[t.name] == t.shard)
  }

  predicate IndexFits(files: seq<string>, shards: set<string>, mine: seq<Tensor>, index: Index) {
    && ShardsMatch(files, shards, index.weights)
    && MapsTensors(index.weights, mine)
    && TotalOk(index.fields, mine)
  }

  predicate HasIndex(p: Paths, metadata: Metadata, c: string) {
    exists k :: 0 <= k < |metadata| && IsIndex(metadata[k].0) && p.component(metadata[k].0) == Some(c)
  }

  ghost predicate Consistent(p: Paths, files: seq<string>, metadata: Metadata, tensors: seq<Tensor>) {
    && NamesUnique(tensors) && ShardsOwned(p, files) && IndexesOk(p, metadata)
    && (forall c :: ShardsOf(p, files, c) != {} && !HasIndex(p, metadata, c) ==> |ShardsOf(p, files, c)| == 1)
    && (forall k :: 0 <= k < |metadata| && IsIndex(metadata[k].0) ==> IndexAt(p, files, metadata, tensors, k))
  }

  predicate IndexAt(p: Paths, files: seq<string>, metadata: Metadata, tensors: seq<Tensor>, k: nat)
    requires k < |metadata| && DocumentOk(p, metadata[k].0, metadata[k].1)
  {
    var c := p.component(metadata[k].0).value;
    ShardsOf(p, files, c) != {}
    && IndexFits(files, ShardsOf(p, files, c), TensorsOf(tensors, c), IndexOf(p, metadata[k].0, metadata[k].1))
  }

  // ---- the dictionaries ----

  datatype Result<T> = Ok(value: T) | Fail

  function Lookup(groups: map<string, seq<Tensor>>, c: string): seq<Tensor> { if c in groups then groups[c] else [] }

  ghost predicate Groups(groups: map<string, seq<Tensor>>, tensors: seq<Tensor>) {
    forall c :: Lookup(groups, c) == TensorsOf(tensors, c)
  }

  lemma TensorsOfStep(tensors: seq<Tensor>, n: nat, c: string)
    requires n < |tensors|
    ensures TensorsOf(tensors[..n + 1], c) ==
            if tensors[n].component == c then TensorsOf(tensors[..n], c) + [tensors[n]] else TensorsOf(tensors[..n], c)
  {
    assert tensors[..n + 1][..n] == tensors[..n];
  }

  method HasName(mine: seq<Tensor>, name: string) returns (found: bool)
    ensures found <==> exists t :: t in mine && t.name == name
  {
    for k := 0 to |mine|
      invariant forall j :: 0 <= j < k ==> mine[j].name != name
    {
      if mine[k].name == name { return true; }
    }
    return false;
  }

  lemma NameTaken(tensors: seq<Tensor>, n: nat, u: Tensor)
    requires n < |tensors| && u in tensors[..n] && u.component == tensors[n].component && u.name == tensors[n].name
    ensures !NamesUnique(tensors)
  {
    var i :| 0 <= i < n && tensors[..n][i] == u;
    assert tensors[i] == u;
  }

  lemma NameNew(tensors: seq<Tensor>, n: nat)
    requires n < |tensors| && NamesUnique(tensors[..n])
    requires forall t :: t in TensorsOf(tensors[..n], tensors[n].component) ==> t.name != tensors[n].name
    ensures NamesUnique(tensors[..n + 1])
  {
    forall i, j | 0 <= i < j < n + 1 && tensors[i].component == tensors[j].component
      ensures tensors[i].name != tensors[j].name
    {
      assert tensors[..n][i] == tensors[i];
      if j < n { assert tensors[..n][j] == tensors[j]; } else { assert tensors[i] in tensors[..n]; }
    }
  }

  lemma GroupsMore(groups: map<string, seq<Tensor>>, tensors: seq<Tensor>, n: nat)
    requires n < |tensors| && Groups(groups, tensors[..n])
    ensures var t := tensors[n];
            Groups(groups[t.component := Lookup(groups, t.component) + [t]], tensors[..n + 1])
  {
    var t := tensors[n];
    var more := groups[t.component := Lookup(groups, t.component) + [t]];
    forall c ensures Lookup(more, c) == TensorsOf(tensors[..n + 1], c) {
      TensorsOfStep(tensors, n, c);
      assert Lookup(groups, c) == TensorsOf(tensors[..n], c);
    }
  }

  method GroupTensors(tensors: seq<Tensor>) returns (r: Result<map<string, seq<Tensor>>>)
    ensures r.Ok? <==> NamesUnique(tensors)
    ensures r.Ok? ==> Groups(r.value, tensors)
  {
    var groups: map<string, seq<Tensor>> := map[];
    for n := 0 to |tensors|
      invariant NamesUnique(tensors[..n]) && Groups(groups, tensors[..n])
    {
      var t := tensors[n];
      var mine := Lookup(groups, t.component);
      assert mine == TensorsOf(tensors[..n], t.component);
      var taken := HasName(mine, t.name);
      if taken {
        var u :| u in mine && u.name == t.name;
        NameTaken(tensors, n, u);
        return Fail;
      }
      NameNew(tensors, n);
      GroupsMore(groups, tensors, n);
      groups := groups[t.component := mine + [t]];
    }
    assert tensors[..|tensors|] == tensors;
    r := Ok(groups);
  }

  /** The shards of every component that has some, and these components in order of appearance. */
  ghost predicate Sharded(p: Paths, files: seq<string>, sharded: map<string, set<string>>, order: seq<string>) {
    && Ordering.Distinct(order) && (forall c :: c in sharded <==> c in order)
    && (forall c :: c in sharded ==> sharded[c] != {})
    && (forall c, f :: c in sharded && f in sharded[c] ==> f in files && IsShard(p, f) && p.component(f) == Some(c))
    && (forall f :: f in files && IsShard(p, f) ==>
          p.component(f).Some? && p.component(f).value in sharded && f in sharded[p.component(f).value])
  }

  lemma ShardedIs(p: Paths, files: seq<string>, sharded: map<string, set<string>>, order: seq<string>, c: string)
    requires Sharded(p, files, sharded, order)
    ensures ShardsOf(p, files, c) == if c in sharded then sharded[c] else {}
  {
  }

  lemma ShardedMore(p: Paths, files: seq<string>, f: string, sharded: map<string, set<string>>, order: seq<string>, c: string)
    requires Sharded(p, files, sharded, order) && IsShard(p, f) && p.component(f) == Some(c)
    ensures c !in sharded ==> Sharded(p, files + [f], sharded[c := {f}], order + [c])
    ensures c in sharded ==> Sharded(p, files + [f], sharded[c := sharded[c] + {f}], order)
  {
  }

  method GroupShards(p: Paths, files: seq<string>) returns (r: Result<(map<string, set<string>>, seq<string>)>)
    ensures r.Ok? <==> ShardsOwned(p, files)
    ensures r.Ok? ==> Sharded(p, files, r.value.0, r.value.1)
  {
    var sharded: map<string, set<string>>, order: seq<string> := map[], [];
    for n := 0 to |files|
      invariant ShardsOwned(p, files[..n]) && Sharded(p, files[..n], sharded, order)
    {
      assert files[..n + 1] == files[..n] + [files[n]];
      if IsShard(p, files[n]) {
        var c := p.component(files[n]);
        if c.None? { return Fail; }
        ShardedMore(p, files[..n], files[n], sharded, order, c.value);
        if c.value !in sharded {
          order := order + [c.value];
          sharded := sharded[c.value := {files[n]}];
        } else {
          sharded := sharded[c.value := sharded[c.value] + {files[n]}];
        }
      }
    }
    assert files[..|files|] == files;
    r := Ok((sharded, order));
  }

  method ReadIndex(p: Paths, path: string, data: Option<Json>) returns (r: Result<Index>)
    requires p.component(path).Some?
    ensures r.Ok? <==> DocumentOk(p, path, data)
    ensures r.Ok? ==> r.value == IndexOf(p, path, data)
  {
    if data.None? || !data.value.Object? { return Fail; }
    var raw := Get(data.value.fields, "weight_map");
    if raw.None? || !raw.value.Object? { return Fail; }
    var entries := raw.value.fields;
    var weights: map<string, string> := map[];
    for n := 0 to |entries|
      invariant weights == Weights(p, path, entries[..n])
      invariant forall j :: 0 <= j < n ==> EntryOk(p, path, entries[j])
    {
      var (name, shard) := entries[n];
      assert entries[..n + 1][..n] == entries[..n] && entries[n] in entries;
      if name == "" { return Fail; }
      if !IsText(shard) { return Fail; }
      var resolved := p.resolve(path, shard.text);
      if p.component(resolved) != p.component(path) { return Fail; }
      weights := weights[name := resolved];
    }
    assert entries[..|entries|] == entries;
    r := Ok(Index(path, weights, data.value.fields));
  }

  predicate IndexFor(p: Paths, metadata: Metadata, k: nat, c: string)
    requires k < |metadata|
  {
    IsIndex(metadata[k].0) && p.component(metadata[k].0) == Some(c)
  }

  /** Entry k of the metadata is either no index or the one in the dictionary. */
  predicate Stored(p: Paths, metadata: Metadata, k: nat, indexes: map<string, Index>)
    requires k < |metadata|
  {
    IsIndex(metadata[k].0) ==>
      && DocumentOk(p, metadata[k].0, metadata[k].1)
      && p.component(metadata[k].0).value in indexes
      && indexes[p.component(metadata[k].0).value] == IndexOf(p, metadata[k].0, metadata[k].1)
  }

  ghost predicate Indexed(p: Paths, metadata: Metadata, n: nat, indexes: map<string, Index>)
    requires n <= |metadata|
  {
    && (forall c :: c in indexes ==> exists k :: 0 <= k < n && IndexFor(p, metadata, k, c))
    && (forall k :: 0 <= k < n ==> Stored(p, metadata, k, indexes))
  }

  ghost predicate OneEach(p: Paths, metadata: Metadata, n: nat)
    requires n <= |metadata|
  {
    forall i, j :: 0 <= i < j < n && IsIndex(metadata[i].0) && IsIndex(metadata[j].0)
      ==> p.component(metadata[i].0) != p.component(metadata[j].0)
  }

  lemma IndexedIsOk(p: Paths, metadata: Metadata, indexes: map<string, Index>)
    requires Indexed(p, metadata, |metadata|, indexes) && OneEach(p, metadata, |metadata|)
    ensures IndexesOk(p, metadata)
  {
    forall k | 0 <= k < |metadata| && IsIndex(metadata[k].0) ensures DocumentOk(p, metadata[k].0, metadata[k].1) {
      assert Stored(p, metadata, k, indexes);
    }
  }

  lemma IndexedSkip(p: Paths, metadata: Metadata, n: nat, indexes: map<string, Index>)
    requires n < |metadata| && Indexed(p, metadata, n, indexes) && OneEach(p, metadata, n) && !IsIndex(metadata[n].0)
    ensures Indexed(p, metadata, n + 1, indexes) && OneEach(p, metadata, n + 1)
  {
    assert Stored(p, metadata, n, indexes);
  }

  lemma IndexedMore(p: Paths, metadata: Metadata, n: nat, indexes: map<string, Index>, c: string)
    requires n < |metadata| && Indexed(p, metadata, n, indexes) && OneEach(p, metadata, n)
    requires IndexFor(p, metadata, n, c) && DocumentOk(p, metadata[n].0, metadata[n].1) && c !in indexes
    ensures Indexed(p, metadata, n + 1, indexes[c := IndexOf(p, metadata[n].0, metadata[n].1)])
    ensures OneEach(p, metadata, n + 1)
  {
    var more := indexes[c := IndexOf(p, metadata[n].0, metadata[n].1)];
    forall k | 0 <= k < n + 1 ensures Stored(p, metadata, k, more) {
      if k < n { assert Stored(p, metadata, k, indexes); }
    }
    forall d | d in more ensures exists k :: 0 <= k < n + 1 && IndexFor(p, metadata, k, d) {
      if d == c { assert IndexFor(p, metadata, n, d); }
    }
    forall i | 0 <= i < n && IsIndex(metadata[i].0) ensures p.component(metadata[i].0) != p.component(metadata[n].0) {
      assert Stored(p, metadata, i, indexes);
    }
  }

  lemma SecondIndex(p: Paths, metadata: Metadata, n: nat, indexes: map<string, Index>, c: string)
    requires n < |metadata| && Indexed(p, metadata, n, indexes) && IndexFor(p, metadata, n, c) && c in indexes
    ensures !IndexesOk(p, metadata)
  {
    var k :| 0 <= k < n && IndexFor(p, metadata, k, c);
  }

  method ReadIndexes(p: Paths, metadata: Metadata) returns (r: Result<map<string, Index>>)
    ensures r.Ok? <==> IndexesOk(p, metadata)
    ensures r.Ok? ==> Indexed(p, metadata, |metadata|, r.value)
  {
    var indexes: map<string, Index> := map[];
    for n := 0 to |metadata|
      invariant Indexed(p, metadata, n, indexes) && OneEach(p, metadata, n)
    {
      var (path, data) := metadata[n];
      if IsIndex(path) {
        var c := p.component(path);
        if c.None? { return Fail; }
        if c.value in indexes {
          SecondIndex(p, metadata, n, indexes, c.value);
          return Fail;
        }
        var index := ReadIndex(p, path, data);
        if index.Fail? { return Fail; }
        IndexedMore(p, metadata, n, indexes, c.value);
        indexes := indexes[c.value := index.value];
      } else {
        IndexedSkip(p, metadata, n, indexes);
      }
    }
    IndexedIsOk(p, metadata, indexes);
    r := Ok(indexes);
  }

  /** No referenced shard is missing and no shard is unreferenced. */
  predicate ShardsMatch(files: seq<string>, shards: set<string>, weights: map<string, string>) {
    && (forall name :: name in weights ==> weights[name] in files)
    && (forall f :: f in shards ==> exists name :: name in weights && weights[name] == f)
  }

  method CheckShards(files: seq<string>, shards: set<string>, weights: map<string, string>) returns (ok: bool)
    ensures ok <==> ShardsMatch(files, shards, weights)
  {
    var referenced := set name | name in weights :: weights[name];
    assert forall name :: name in weights ==> weights[name] in referenced;
    var missing := set f | f in referenced && f !in files;
    if missing != {} {
      var f :| f in missing;
      return false;
    }
    assert forall f :: f in referenced ==> f !in missing;
    var stale := shards - referenced;
    if stale != {} {
      var f :| f in stale;
      return false;
    }
    assert forall f :: f in shards ==> f !in stale;
    return true;
  }

  method CheckNames(weights: map<string, string>, mine: seq<Tensor>) returns (ok: bool)
    ensures ok <==> MapsTensors(weights, mine)
  {
    var names := set t | t in mine :: t.name;
    assert forall t :: t in mine ==> t.name in names;
    var absent := names - weights.Keys;
    if absent != {} {
      var a :| a in absent;
      return false;
    }
    assert forall name :: name in names ==> name !in absent;
    var unknown := weights.Keys - names;
    if unknown != {} {
      var u :| u in unknown;
      return false;
    }
    assert forall name :: name in weights ==> name !in unknown;
    for k := 0 to |mine|
      invariant forall j :: 0 <= j < k ==> weights[mine[j].name] == mine[j].shard
    {
      if weights[mine[k].name] != mine[k].shard {
        assert mine[k] in mine;
        return false;
      }
    }
    return true;
  }

  /** The checks of one indexed component, as the source orders them. */
  method CheckIndex(files: seq<string>, shards: set<string>, mine: seq<Tensor>, index: Index) returns (ok: bool)
    ensures ok <==> IndexFits(files, shards, mine, index)
  {
    ok := CheckShards(files, shards, index.weights);
    if !ok { return false; }
    ok := CheckNames(index.weights, mine);
    if !ok { return false; }
    ok := CheckTotal(index.fields, mine);
  }

  method CheckTotal(fields: seq<(string, Json)>, mine: seq<Tensor>) returns (ok: bool)
    ensures ok <==> TotalOk(fields, mine)
  {
    var row := Get(fields, "metadata");
    if row.None? || row.value.Null? { return true; }
    if !row.value.Object? { return false; }
    var total := Get(row.value.fields, "total_size");
    if total.None? { return true; }
    if !IsUint(total.value) { return false; }
    var actual := 0;
    for k := 0 to |mine|
      invariant actual == TotalSpan(mine[..k])
    {
      assert mine[..k + 1][..k] == mine[..k];
      actual := actual + mine[k].span;
    }
    assert mine[..|mine|] == mine;
    ok := total.value.i == actual;
  }

  // ---- the whole reconciliation ----

  datatype Row = Row(component: string, index: Option<string>, shards: nat, tensors: nat)

  predicate ComponentOk(files: seq<string>, sharded: map<string, set<string>>, indexes: map<string, Index>,
                        mine: seq<Tensor>, c: string)
    requires c in sharded
  {
    if c in indexes then IndexFits(files, sharded[c], mine, indexes[c]) else |sharded[c]| <= 1
  }

  lemma IndexedHas(p: Paths, metadata: Metadata, indexes: map<string, Index>, c: string)
    requires Indexed(p, metadata, |metadata|, indexes)
    ensures c in indexes <==> HasIndex(p, metadata, c)
  {
    if HasIndex(p, metadata, c) {
      var k :| 0 <= k < |metadata| && IsIndex(metadata[k].0) && p.component(metadata[k].0) == Some(c);
      assert Stored(p, metadata, k, indexes);
    }
    if c in indexes {
      var k :| 0 <= k < |metadata| && IndexFor(p, metadata, k, c);
    }
  }

  /** A dictionary's index is some metadata document's. */
  lemma IndexedFrom(p: Paths, metadata: Metadata, indexes: map<string, Index>, c: string) returns (k: nat)
    requires Indexed(p, metadata, |metadata|, indexes) && c in indexes
    ensures k < |metadata| && IndexFor(p, metadata, k, c) && DocumentOk(p, metadata[k].0, metadata[k].1)
    ensures indexes[c] == IndexOf(p, metadata[k].0, metadata[k].1)
  {
    k :| 0 <= k < |metadata| && IndexFor(p, metadata, k, c);
    assert Stored(p, metadata, k, indexes);
  }

  lemma BadComponent(p: Paths, files: seq<string>, metadata: Metadata, tensors: seq<Tensor>,
                     sharded: map<string, set<string>>, order: seq<string>, indexes: map<string, Index>, c: string)
    requires Sharded(p, files, sharded, order) && Indexed(p, metadata, |metadata|, indexes) && c in sharded
    requires !ComponentOk(files, sharded, indexes, TensorsOf(tensors, c), c)
    ensures !Consistent(p, files, metadata, tensors)
  {
    ShardedIs(p, files, sharded, order, c);
    IndexedHas(p, metadata, indexes, c);
    if c in indexes {
      var k := IndexedFrom(p, metadata, indexes, c);
      assert !IndexAt(p, files, metadata, tensors, k);
    }
  }

  lemma ExtraIndex(p: Paths, files: seq<string>, metadata: Metadata, tensors: seq<Tensor>,
                   sharded: map<string, set<string>>, order: seq<string>, indexes: map<string, Index>, c: string)
    requires Sharded(p, files, sharded, order) && Indexed(p, metadata, |metadata|, indexes)
    requires c in indexes && c !in sharded
    ensures !Consistent(p, files, metadata, tensors)
  {
    ShardedIs(p, files, sharded, order, c);
    var k := IndexedFrom(p, metadata, indexes, c);
    assert !IndexAt(p, files, metadata, tensors, k);
  }

  lemma AllComponentsOk(p: Paths, files: seq<string>, metadata: Metadata, tensors: seq<Tensor>,
                        sharded: map<string, set<string>>, order: seq<string>, indexes: map<string, Index>)
    requires NamesUnique(tensors) && ShardsOwned(p, files) && IndexesOk(p, metadata)
    requires Sharded(p, files, sharded, order) && Indexed(p, metadata, |metadata|, indexes)
    requires indexes.Keys <= sharded.Keys
    requires forall c :: c in sharded ==> ComponentOk(files, sharded, indexes, TensorsOf(tensors, c), c)
    ensures Consistent(p, files, metadata, tensors)
  {
    forall c | ShardsOf(p, files, c) != {} && !HasIndex(p, metadata, c) ensures |ShardsOf(p, files, c)| == 1 {
      ShardedIs(p, files, sharded, order, c);
      IndexedHas(p, metadata, indexes, c);
    }
    forall k | 0 <= k < |metadata| && IsIndex(metadata[k].0) ensures IndexAt(p, files, metadata, tensors, k) {
      assert Stored(p, metadata, k, indexes);
      var c := p.component(metadata[k].0).value;
      assert c in sharded.Keys;
      ShardedIs(p, files, sharded, order, c);
    }
  }

  predicate RowOk(files: seq<string>, sharded: map<string, set<string>>, indexes: map<string, Index>,
                  tensors: seq<Tensor>, c: string, row: Row)
    requires c in sharded
  {
    && row.component == c && row.shards == |sharded[c]| && row.tensors == |TensorsOf(tensors, c)|
    && (row.index.Some? <==> c in indexes) && (c in indexes ==> row.index.value == indexes[c].path)
  }

  method CheckComponents(files: seq<string>, tensors: seq<Tensor>, groups: map<string, seq<Tensor>>,
                         sharded: map<string, set<string>>, sorted: seq<string>, indexes: map<string, Index>)
    returns (r: Result<seq<Row>>, ghost bad: string)
    requires Groups(groups, tensors) && forall k :: 0 <= k < |sorted| ==> sorted[k] in sharded
    ensures r.Ok? ==> |r.value| == |sorted| && forall k :: 0 <= k < |sorted| ==>
              && ComponentOk(files, sharded, indexes, TensorsOf(tensors, sorted[k]), sorted[k])
              && RowOk(files, sharded, indexes, tensors, sorted[k], r.value[k])
    ensures r.Fail? ==> bad in sharded && !ComponentOk(files, sharded, indexes, TensorsOf(tensors, bad), bad)
  {
    bad := "";
    var rows: seq<Row> := [];
    for k := 0 to |sorted|
      invariant |rows| == k
      invariant forall j :: 0 <= j < k ==> ComponentOk(files, sharded, indexes, TensorsOf(tensors, sorted[j]), sorted[j])
      invariant forall j :: 0 <= j < k ==> RowOk(files, sharded, indexes, tensors, sorted[j], rows[j])
    {
      var c := sorted[k];
      var mine := Lookup(groups, c);
      if c !in indexes {
        if |sharded[c]| > 1 { return Fail, c; }
        rows := rows + [Row(c, None, |sharded[c]|, |mine|)];
      } else {
        var ok := CheckIndex(files, sharded[c], mine, indexes[c]);
        if !ok { return Fail, c; }
        rows := rows + [Row(c, Some(indexes[c].path), |sharded[c]|, |mine|)];
      }
    }
    r := Ok(rows);
  }

  /** A row is about a component with shards, counts its shards and tensors and names its index. */
  ghost predicate RowIs(p: Paths, files: seq<string>, metadata: Metadata, tensors: seq<Tensor>, row: Row) {
    var c := row.component;
    && ShardsOf(p, files, c) != {} && row.shards == |ShardsOf(p, files, c)| && row.tensors == |TensorsOf(tensors, c)|
    && (row.index.None? ==> !HasIndex(p, metadata, c))
    && (row.index.Some? ==>
          exists k :: 0 <= k < |metadata| && IndexFor(p, metadata, k, c) && metadata[k].0 == row.index.value)
  }

  /** The rows of a reconciliation: exactly one for every component with shards, in strict order. */
  ghost predicate Report(p: Paths, files: seq<string>, metadata: Metadata, tensors: seq<Tensor>, rows: seq<Row>) {
    && (forall i, j :: 0 <= i < j < |rows| ==> Ordering.Less(rows[i].component, rows[j].component))
    && (forall k :: 0 <= k < |rows| ==> RowIs(p, files, metadata, tensors, rows[k]))
    && (forall c :: ShardsOf(p, files, c) != {} ==> exists k :: 0 <= k < |rows| && rows[k].component == c)
  }

  lemma RowReports(p: Paths, files: seq<string>, metadata: Metadata, tensors: seq<Tensor>,
                   sharded: map<string, set<string>>, order: seq<string>, indexes: map<string, Index>, c: string, row: Row)
    requires Sharded(p, files, sharded, order) && Indexed(p, metadata, |metadata|, indexes)
    requires c in sharded && RowOk(files, sharded, indexes, tensors, c, row)
    ensures RowIs(p, files, metadata, tensors, row)
  {
    ShardedIs(p, files, sharded, order, c);
    IndexedHas(p, metadata, indexes, c);
    if c in indexes { var k := IndexedFrom(p, metadata, indexes, c); }
  }

  lemma RowsReport(p: Paths, files: seq<string>, metadata: Metadata, tensors: seq<Tensor>,
                   sharded: map<string, set<string>>, order: seq<string>, indexes: map<string, Index>,
                   sorted: seq<string>, rows: seq<Row>)
    requires Sharded(p, files, sharded, order) && Indexed(p, metadata, |metadata|, indexes)
    requires forall i, j :: 0 <= i < j < |sorted| ==> Ordering.Less(sorted[i], sorted[j])
    requires |rows| == |sorted| && (forall c :: c in sorted <==> c in sharded)
    requires forall k :: 0 <= k < |sorted| ==> sorted[k] in sharded && RowOk(files, sharded, indexes, tensors, sorted[k], rows[k])
    ensures Report(p, files, metadata, tensors, rows)
  {
    forall k | 0 <= k < |rows| ensures RowIs(p, files, metadata, tensors, rows[k]) {
      RowReports(p, files, metadata, tensors, sharded, order, indexes, sorted[k], rows[k]);
    }
    forall c | ShardsOf(p, files, c) != {} ensures exists k :: 0 <= k < |rows| && rows[k].component == c {
      ShardedIs(p, files, sharded, order, c);
      var k :| 0 <= k < |sorted| && sorted[k] == c;
      assert RowOk(files, sharded, indexes, tensors, sorted[k], rows[k]);
    }
  }

  /** After the dictionaries are built: every component in order, then indexes without shards. */
  method Compare(p: Paths, files: seq<string>, metadata: Metadata, tensors: seq<Tensor>,
                 groups: map<string, seq<Tensor>>, sharded: map<string, set<string>>, order: seq<string>,
                 indexes: map<string, Index>) returns (r: Result<seq<Row>>)
    requires NamesUnique(tensors) && ShardsOwned(p, files) && IndexesOk(p, metadata)
    requires Groups(groups, tensors) && Sharded(p, files, sharded, order) && Indexed(p, metadata, |metadata|, indexes)
    ensures r.Ok? <==> Consistent(p, files, metadata, tensors)
    ensures r.Ok? ==> Report(p, files, metadata, tensors, r.value)
  {
    var sorted := Ordering.Sort(order, Ordering.TextLeq);
    Ordering.SortStrict(order);
    var rows, bad := CheckComponents(files, tensors, groups, sharded, sorted, indexes);
    if rows.Fail? {
      BadComponent(p, files, metadata, tensors, sharded, order, indexes, bad);
      return Fail;
    }
    var extra := indexes.Keys - sharded.Keys;
    if extra != {} {
      var c :| c in extra;
      ExtraIndex(p, files, metadata, tensors, sharded, order, indexes, c);
      return Fail;
    }
    NothingExtra(indexes, sharded);
    AllComponentsOk(p, files, metadata, tensors, sharded, order, indexes);
    RowsReport(p, files, metadata, tensors, sharded, order, indexes, sorted, rows.value);
    r := rows;
  }

  lemma NothingExtra(indexes: map<string, Index>, sharded: map<string, set<string>>)
    requires indexes.Keys - sharded.Keys == {}
    ensures indexes.Keys <= sharded.Keys
  {
    assert forall c :: c in indexes.Keys && c !in sharded.Keys ==> c in indexes.Keys - sharded.Keys;
  }

  /** reconcile_indexes accepts exactly the consistent inputs, and then reports exactly one
      row for every component that has shards. */
  method ReconcileIndexes(p: Paths, files: seq<string>, metadata: Metadata, tensors: seq<Tensor>)
    returns (r: Result<seq<Row>>)
    ensures r.Ok? <==> Consistent(p, files, metadata, tensors)
    ensures r.Ok? ==> Report(p, files, metadata, tensors, r.value)
  {
    var groups := GroupTensors(tensors);
    if groups.Fail? { return Fail; }
    var shards := GroupShards(p, files);
    if shards.Fail? { return Fail; }
    var (sharded, order) := shards.value;
    var indexes := ReadIndexes(p, metadata);
    if indexes.Fail? { return Fail; }
    r := Compare(p, files, metadata, tensors, groups.value, sharded, order, indexes.value);
  }

  /** What the headers say: every tensor of the component to its shard. */
  function HeaderMap(mine: seq<Tensor>): map<string, string> {
    map name | name in (set t | t in mine :: t.name) :: ShardOf(mine, name)
  }

  function ShardOf(mine: seq<Tensor>, name: string): string
    requires exists t :: t in mine && t.name == name
  {
    if mine[|mine| - 1].name == name then mine[|mine| - 1].shard else ShardOf(mine[..|mine| - 1], name)
  }

  lemma {:induction false} ShardOfIs(mine: seq<Tensor>, name: string)
    requires exists t :: t in mine && t.name == name
    ensures exists t :: t in mine && t.name == name && t.shard == ShardOf(mine, name)
    decreases mine
  {
    if mine[|mine| - 1].name != name { ShardOfIs(mine[..|mine| - 1], name); }
  }

  /** On an accepted input an index is the map the headers give, and it is onto its component's
      shards when every tensor came from a shard of its own component. */
  lemma AcceptedIndexIsExact(p: Paths, files: seq<string>, metadata: Metadata, tensors: seq<Tensor>, k: nat)
    requires Consistent(p, files, metadata, tensors) && k < |metadata| && IsIndex(metadata[k].0)
    requires forall t :: t in tensors ==> IsShard(p, t.shard) && p.component(t.shard) == Some(t.component)
    ensures DocumentOk(p, metadata[k].0, metadata[k].1)
    ensures var c := p.component(metadata[k].0).value;
            var w := IndexOf(p, metadata[k].0, metadata[k].1).weights;
            w == HeaderMap(TensorsOf(tensors, c)) && w.Values == ShardsOf(p, files, c)
  {
    assert IndexAt(p, files, metadata, tensors, k);
    var c := p.component(metadata[k].0).value;
    var w, mine := IndexOf(p, metadata[k].0, metadata[k].1).weights, TensorsOf(tensors, c);
    MapIsHeaderMap(w, mine);
    forall f ensures f in w.Values <==> f in ShardsOf(p, files, c) {
      if f in w.Values {
        var name :| name in w && w[name] == f;
        var t :| t in mine && t.name == name;
        assert t in tensors;
      }
    }
  }

  lemma MapIsHeaderMap(w: map<string, string>, mine: seq<Tensor>)
    requires MapsTensors(w, mine)
    ensures w == HeaderMap(mine)
  {
    var h := HeaderMap(mine);
    forall name ensures name in w <==> name in h {
      if name in w { var t :| t in mine && t.name == name; }
    }
    forall name | name in w ensures w[name] == h[name] {
      var t :| t in mine && t.name == name;
      ShardOfIs(mine, name);
    }
  }

  // ---- an accepted index, entry by entry ----

  /** Entry e is the last one of its name, the one a dictionary keeps. */
  predicate LastNamed(entries: seq<(string, Json)>, name: string, e: int) {
    0 <= e < |entries| && entries[e].0 == name && forall j :: e < j < |entries| ==> entries[j].0 != name
  }

  predicate AllText(entries: seq<(string, Json)>) { forall e :: 0 <= e < |entries| ==> entries[e].1.Text? }

  lemma LastNamedMore(entries: seq<(string, Json)>, name: string, e: int)
    requires entries != []
    ensures var n := |entries| - 1;
            LastNamed(entries, name, e) <==>
            if entries[n].0 == name then e == n else LastNamed(entries[..n], name, e)
  {
    var n := |entries| - 1;
    assert forall j :: 0 <= j < n ==> entries[..n][j] == entries[j];
  }

  /** The weight map sends a name to the text of its last entry, resolved beside the index, and has no
      other names. */
  lemma {:induction false} WeightsExactly(p: Paths, path: string, entries: seq<(string, Json)>, name: string, shard: string)
    requires AllText(entries)
    ensures var w := Weights(p, path, entries);
            (name in w && w[name] == shard) <==>
            exists e :: LastNamed(entries, name, e) && p.resolve(path, entries[e].1.text) == shard
    decreases entries
  {
    if entries != [] {
      var n := |entries| - 1;
      WeightsExactly(p, path, entries[..n], name, shard);
      var w := Weights(p, path, entries);
      if entries[n].0 == name {
        LastNamedMore(entries, name, n);
        if e :| LastNamed(entries, name, e) && p.resolve(path, entries[e].1.text) == shard { LastNamedMore(entries, name, e); }
      } else {
        if e :| LastNamed(entries[..n], name, e) && p.resolve(path, entries[..n][e].1.text) == shard {
          LastNamedMore(entries, name, e);
        }
        if e :| LastNamed(entries, name, e) && p.resolve(path, entries[e].1.text) == shard {
          LastNamedMore(entries, name, e);
          assert entries[..n][e] == entries[e];
        }
      }
    }
  }

  /** On an accepted input the entries of an index and the tensors of its component correspond: every
      tensor has its entry, every entry has its tensor, and the entry's text, resolved beside the
      index, is the shard whose header has the tensor. */
  lemma AcceptedEntries(p: Paths, files: seq<string>, metadata: Metadata, tensors: seq<Tensor>, k: nat,
                        entries: seq<(string, Json)>, c: string)
    requires Consistent(p, files, metadata, tensors) && k < |metadata| && IsIndex(metadata[k].0)
    requires p.component(metadata[k].0) == Some(c) && metadata[k].1.Some? && metadata[k].1.value.Object?
    requires Get(metadata[k].1.value.fields, "weight_map") == Some(Object(entries))
    ensures AllText(entries) && ShardsOf(p, files, c) != {}
    ensures forall e :: 0 <= e < |entries| ==>
              && entries[e].0 != "" && entries[e].1.text != ""
              && p.component(p.resolve(metadata[k].0, entries[e].1.text)) == Some(c)
    ensures forall t :: t in tensors && t.component == c ==>
              exists e :: LastNamed(entries, t.name, e) && p.resolve(metadata[k].0, entries[e].1.text) == t.shard
    ensures forall e :: 0 <= e < |entries| ==> exists t :: t in tensors && t.component == c && t.name == entries[e].0
  {
    var path := metadata[k].0;
    assert DocumentOk(p, path, metadata[k].1) && IndexAt(p, files, metadata, tensors, k);
    forall e | 0 <= e < |entries|
      ensures entries[e].0 != "" && IsText(entries[e].1)
      ensures p.component(p.resolve(path, entries[e].1.text)) == Some(c)
    {
      assert entries[e] in entries && EntryOk(p, path, entries[e]);
    }
    var w, mine := Weights(p, path, entries), TensorsOf(tensors, c);
    assert MapsTensors(w, mine);
    forall t | t in tensors && t.component == c
      ensures exists e :: LastNamed(entries, t.name, e) && p.resolve(path, entries[e].1.text) == t.shard
    {
      assert t in mine;
      WeightsExactly(p, path, entries, t.name, t.shard);
    }
    forall e | 0 <= e < |entries| ensures exists t :: t in tensors && t.component == c && t.name == entries[e].0 {
      NameIsKey(p, path, entries, e);
      var t :| t in mine && t.name == entries[e].0;
    }
  }

  /** On an accepted input a component with several shards has an index, and only one. */
  lemma AcceptedComponents(p: Paths, files: seq<string>, metadata: Metadata, tensors: seq<Tensor>, a: string, b: string, c: string)
    requires Consistent(p, files, metadata, tensors)
    requires a in files && b in files && a != b && IsShard(p, a) && IsShard(p, b)
    requires p.component(a) == Some(c) == p.component(b)
    ensures exists k :: 0 <= k < |metadata| && IndexFor(p, metadata, k, c)
    ensures forall i, j :: 0 <= i < j < |metadata| ==> !(IndexFor(p, metadata, i, c) && IndexFor(p, metadata, j, c))
  {
    var shards := ShardsOf(p, files, c);
    assert a in shards && b in shards;
    var rest := shards - {a};
    assert b in rest && |shards| == |rest| + 1;
    assert HasIndex(p, metadata, c);
    var k :| 0 <= k < |metadata| && IsIndex(metadata[k].0) && p.component(metadata[k].0) == Some(c);
    assert IndexFor(p, metadata, k, c);
  }

  lemma {:induction false} NameIsKey(p: Paths, path: string, entries: seq<(string, Json)>, e: nat)
    requires AllText(entries) && e < |entries|
    ensures entries[e].0 in Weights(p, path, entries)
    decreases entries
  {
    var n := |entries| - 1;
    if e < n {
      assert entries[..n][e] == entries[e];
      NameIsKey(p, path, entries[..n], e);
    }
  }

  /** The declared total is checked against the sum of the spans: additive, and one span for one tensor. */
  lemma {:induction false} SpansAdd(a: seq<Tensor>, b: seq<Tensor>)
    ensures TotalSpan(a + b) == TotalSpan(a) + TotalSpan(b)
    ensures forall t: Tensor :: TotalSpan([t]) == t.span
    decreases b
  {
    forall t: Tensor ensures TotalSpan([t]) == t.span { assert [t][..0] == []; }
    if b == [] {
      assert a + b == a;
    } else {
      assert (a + b)[..|a + b| - 1] == a + b[..|b| - 1];
      SpansAdd(a, b[..|b| - 1]);
    }
  }

  /** Shards and indexes are told by their paths. */
  lemma PathsExactly(p: Paths, path: string)
    ensures IsShard(p, path) <==> (exists rest :: path == p.subdir + "/" + rest) && (exists front :: path == front + ".safetensors")
    ensures IsIndex(path) <==> exists front :: path == front + ".safetensors.index.json"
  {
    EndsExactly(path, ".safetensors");
    EndsExactly(path, ".safetensors.index.json");
    var head := p.subdir + "/";
    if head <= path { assert path == head + path[|head|..]; }
  }

  lemma EndsExactly(s: string, suffix: string)
    ensures EndsWith(s, suffix) <==> exists front :: s == front + suffix
  {
    if EndsWith(s, suffix) { assert s == s[..|s| - |suffix|] + suffix; }
    if front :| s == front + suffix { assert s[|front|..] == suffix; }
  }
}
