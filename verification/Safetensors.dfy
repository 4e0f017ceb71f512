/** Admission of a safetensors header in tools/minimax_h3_intake.py: every descriptor is checked on
    its own, and overlapping payload ranges are found by sorting and comparing neighbours. */
module Safetensors {
  import opened Bytes
  import opened Json
  import Ordering
  import opened Wrappers

  // ---- sort and compare neighbours ----

  datatype Range = Range(start: nat, end: nat, name: string)

  predicate Positive(r: Range) { r.start < r.end }

  predicate AllPositive(s: seq<Range>) { forall k :: 0 <= k < |s| ==> Positive(s[k]) }

  predicate Apart(a: Range, b: Range) { a.end <= b.start || b.end <= a.start }

  /** Python's order of the triples. */
  predicate RangeLeq(a: Range, b: Range) {
    a.start < b.start
    || (a.start == b.start && (a.end < b.end || (a.end == b.end && Ordering.TextLeq(a.name, b.name))))
  }

  lemma RangeLeqIsTotal()
    ensures Ordering.Total(RangeLeq) && Ordering.Transitive(RangeLeq)
  {
    forall a, b ensures RangeLeq(a, b) || RangeLeq(b, a) { Ordering.CompareAntisymmetric(a.name, b.name); }
    forall a, b, c | RangeLeq(a, b) && RangeLeq(b, c) ensures RangeLeq(a, c) {
      if a.start == b.start == c.start && a.end == b.end == c.end {
        Ordering.LessTransitive(a.name, b.name, c.name);
      }
    }
  }

  predicate ApartFrom(x: Range, s: seq<Range>) { forall k :: 0 <= k < |s| ==> Apart(x, s[k]) }

  predicate AllApart(s: seq<Range>) { s == [] || (ApartFrom(s[0], s[1..]) && AllApart(s[1..])) }

  lemma {:induction false} AllApartAt(s: seq<Range>)
    ensures AllApart(s) <==> forall i, j :: 0 <= i < j < |s| ==> Apart(s[i], s[j])
  {
    if s != [] {
      AllApartAt(s[1..]);
      assert forall k :: 0 <= k < |s[1..]| ==> s[1..][k] == s[k + 1];
      if AllApart(s) {
        forall i, j | 0 <= i < j < |s| ensures Apart(s[i], s[j]) {
          if i == 0 { assert s[j] == s[1..][j - 1]; } else { assert s[i] == s[1..][i - 1] && s[j] == s[1..][j - 1]; }
        }
      }
    }
  }

  lemma {:induction false} InsertApartFrom(z: Range, x: Range, s: seq<Range>)
    ensures ApartFrom(z, Ordering.Insert(x, s, RangeLeq)) <==> Apart(z, x) && ApartFrom(z, s)
    decreases s
  {
    if s == [] {
    } else if RangeLeq(x, s[0]) {
      Front(z, x, s);
    } else {
      InsertApartFrom(z, x, s[1..]);
      Front(z, s[0], Ordering.Insert(x, s[1..], RangeLeq));
      Front(z, s[0], s[1..]);
      assert [s[0]] + s[1..] == s;
    }
  }

  lemma Front(z: Range, x: Range, s: seq<Range>)
    ensures ApartFrom(z, [x] + s) <==> Apart(z, x) && ApartFrom(z, s)
  {
    if ApartFrom(z, [x] + s) {
      assert ([x] + s)[0] == x;
      forall k | 0 <= k < |s| ensures Apart(z, s[k]) { assert ([x] + s)[k + 1] == s[k]; }
    }
  }

  lemma {:induction false} InsertAllApart(x: Range, s: seq<Range>)
    ensures AllApart(Ordering.Insert(x, s, RangeLeq)) <==> ApartFrom(x, s) && AllApart(s)
    decreases s
  {
    if s == [] {
      assert [x][1..] == [];
    } else if RangeLeq(x, s[0]) {
      assert ([x] + s)[1..] == s;
    } else {
      var t := Ordering.Insert(x, s[1..], RangeLeq);
      assert ([s[0]] + t)[1..] == t;
      InsertAllApart(x, s[1..]);
      InsertApartFrom(s[0], x, s[1..]);
      Front(x, s[0], s[1..]);
      assert [s[0]] + s[1..] == s;
    }
  }

  lemma {:induction false} SortAllApart(s: seq<Range>)
    ensures AllApart(Ordering.Sort(s, RangeLeq)) <==> AllApart(s)
  {
    if s != [] {
      SortAllApart(s[1..]);
      InsertAllApart(s[0], Ordering.Sort(s[1..], RangeLeq));
      SortApartFrom(s[0], s[1..]);
    }
  }

  lemma {:induction false} SortApartFrom(z: Range, s: seq<Range>)
    ensures ApartFrom(z, Ordering.Sort(s, RangeLeq)) <==> ApartFrom(z, s)
  {
    if s != [] {
      SortApartFrom(z, s[1..]);
      InsertApartFrom(z, s[0], Ordering.Sort(s[1..], RangeLeq));
      Front(z, s[0], s[1..]);
      assert [s[0]] + s[1..] == s;
    }
  }

  lemma {:induction false} SortPositive(s: seq<Range>)
    requires AllPositive(s)
    ensures AllPositive(Ordering.Sort(s, RangeLeq))
  {
    RangeLeqIsTotal();
    Ordering.SortSorted(s, RangeLeq);
    var t := Ordering.Sort(s, RangeLeq);
    forall k | 0 <= k < |t| ensures Positive(t[k]) {
      assert t[k] in multiset(t);
      assert t[k] in multiset(s);
    }
  }

  predicate NeighboursApart(s: seq<Range>) { forall k :: 0 <= k < |s| - 1 ==> s[k].end <= s[k + 1].start }

  /** On sorted positive ranges, comparing neighbours decides all pairs. */
  lemma SortedNeighbours(s: seq<Range>)
    requires AllPositive(s) && Ordering.Sorted(s, RangeLeq)
    ensures NeighboursApart(s) <==> AllApart(s)
  {
    AllApartAt(s);
    if NeighboursApart(s) {
      forall i, j | 0 <= i < j < |s| ensures Apart(s[i], s[j]) {
        if i + 1 < j { assert RangeLeq(s[i + 1], s[j]); }
      }
    }
    if AllApart(s) {
      forall k | 0 <= k < |s| - 1 ensures s[k].end <= s[k + 1].start {
        assert RangeLeq(s[k], s[k + 1]) && Apart(s[k], s[k + 1]);
      }
    }
  }

  lemma DecidesAllPairs(s: seq<Range>)
    requires AllPositive(s)
    ensures NeighboursApart(Ordering.Sort(s, RangeLeq)) <==> forall i, j :: 0 <= i < j < |s| ==> Apart(s[i], s[j])
  {
    RangeLeqIsTotal();
    Ordering.SortSorted(s, RangeLeq);
    SortPositive(s);
    SortedNeighbours(Ordering.Sort(s, RangeLeq));
    SortAllApart(s);
    AllApartAt(s);
  }

  /** The test accepts exactly when all positive ranges are pairwise disjoint. */
  method Disjoint(ranges: seq<Range>) returns (ok: bool)
    requires AllPositive(ranges)
    ensures ok <==> forall i, j :: 0 <= i < j < |ranges| ==> Apart(ranges[i], ranges[j])
  {
    var sorted := Ordering.Sort(ranges, RangeLeq);
    DecidesAllPairs(ranges);
    if sorted == [] { return true; }
    for k := 1 to |sorted|
      invariant forall i :: 0 <= i < k - 1 ==> sorted[i].end <= sorted[i + 1].start
    {
      if sorted[k].start < sorted[k - 1].end { return false; }
    }
    return true;
  }

  // ---- disjoint ranges cannot outgrow the payload ----

  function Total(s: seq<Range>): (t: int) { if s == [] then 0 else s[0].end - s[0].start + Total(s[1..]) }

  lemma {:induction false} InsertTotal(x: Range, s: seq<Range>)
    ensures Total(Ordering.Insert(x, s, RangeLeq)) == x.end - x.start + Total(s)
    decreases s
  {
    if s == [] {
      assert [x][1..] == [];
    } else if RangeLeq(x, s[0]) {
      assert ([x] + s)[1..] == s;
    } else {
      var t := Ordering.Insert(x, s[1..], RangeLeq);
      assert ([s[0]] + t)[1..] == t;
      InsertTotal(x, s[1..]);
    }
  }

  lemma {:induction false} SortTotal(s: seq<Range>)
    ensures Total(Ordering.Sort(s, RangeLeq)) == Total(s)
  {
    if s != [] {
      SortTotal(s[1..]);
      InsertTotal(s[0], Ordering.Sort(s[1..], RangeLeq));
    }
  }

  lemma {:induction false} NeighboursFit(s: seq<Range>, payload: nat)
    requires AllPositive(s) && NeighboursApart(s) && forall k :: 0 <= k < |s| ==> s[k].end <= payload
    ensures Total(s) <= payload - if s == [] then 0 else s[0].start
  {
    if s != [] {
      assert forall k :: 0 <= k < |s[1..]| ==> s[1..][k] == s[k + 1];
      NeighboursFit(s[1..], payload);
      if |s| > 1 { assert s[0].end <= s[0 + 1].start; }
    }
  }

  lemma TotalFits(s: seq<Range>, payload: nat)
    requires AllPositive(s) && AllApart(s) && forall k :: 0 <= k < |s| ==> s[k].end <= payload
    ensures Total(s) <= payload
  {
    var t := Ordering.Sort(s, RangeLeq);
    RangeLeqIsTotal();
    Ordering.SortSorted(s, RangeLeq);
    SortPositive(s);
    SortAllApart(s);
    SortedNeighbours(t);
    forall k | 0 <= k < |t| ensures t[k].end <= payload {
      assert t[k] in multiset(t);
      assert t[k] in multiset(s);
    }
    NeighboursFit(t, payload);
    SortTotal(s);
  }

  // ---- one descriptor ----

  const MAX_HEADER_BYTES: nat := 64 * 1024 * 1024
  const MAX_TENSORS: nat := 1_000_000

  function DtypeBytes(dtype: string): Option<nat> {
    match dtype
    case "BOOL" => Some(1)
    case "U8" => Some(1)
    case "I8" => Some(1)
    case "I16" => Some(2)
    case "U16" => Some(2)
    case "I32" => Some(4)
    case "U32" => Some(4)
    case "I64" => Some(8)
    case "U64" => Some(8)
    case "F8_E4M3" => Some(1)
    case "F8_E5M2" => Some(1)
    case "F16" => Some(2)
    case "BF16" => Some(2)
    case "F32" => Some(4)
    case "F64" => Some(8)
    case _ => None
  }

  datatype Tensor = Tensor(name: string, dtype: string, shape: seq<nat>, elements: nat, start: nat, end: nat)

  function Product(shape: seq<nat>): nat { if shape == [] then 1 else Product(shape[..|shape| - 1]) * shape[|shape| - 1] }

  predicate ShapeIs(v: Json, shape: seq<nat>) {
    v.Array? && |v.items| == |shape| && forall k :: 0 <= k < |shape| ==> v.items[k] == Int(shape[k])
  }

  /** A header's field describes this tensor: its span is what its type and shape take, and lies
      inside the payload. */
  predicate Describes(v: Json, payload: nat, t: Tensor) {
    && v.Object?
    && Get(v.fields, "dtype") == Some(Text(t.dtype)) && DtypeBytes(t.dtype).Some?
    && Get(v.fields, "shape").Some? && ShapeIs(Get(v.fields, "shape").value, t.shape)
    && Get(v.fields, "data_offsets") == Some(Array([Int(t.start), Int(t.end)]))
    && t.elements == Product(t.shape)
    && t.start <= t.end <= payload && t.end - t.start == t.elements * DtypeBytes(t.dtype).value
  }

  datatype Result<T> = Ok(value: T) | Fail

  method ParseShape(v: Json) returns (r: Result<seq<nat>>)
    ensures r.Ok? ==> ShapeIs(v, r.value)
    ensures r.Fail? ==> forall shape :: !ShapeIs(v, shape)
  {
    if !v.Array? { return Fail; }
    var shape: seq<nat> := [];
    for k := 0 to |v.items|
      invariant |shape| == k && forall j :: 0 <= j < k ==> v.items[j] == Int(shape[j])
    {
      if !IsUint(v.items[k]) {
        return Fail;
      }
      shape := shape + [v.items[k].i];
    }
    r := Ok(shape);
  }

  method Multiply(shape: seq<nat>) returns (elements: nat)
    ensures elements == Product(shape)
  {
    elements := 1;
    for k := 0 to |shape|
      invariant elements == Product(shape[..k])
    {
      assert shape[..k + 1][..k] == shape[..k];
      elements := elements * shape[k];
    }
    assert shape[..|shape|] == shape;
  }

  lemma {:induction false} SameShape(v: Json, a: seq<nat>, b: seq<nat>)
    requires ShapeIs(v, a) && ShapeIs(v, b)
    ensures a == b
  {
    forall k | 0 <= k < |a| ensures a[k] == b[k] { assert v.items[k] == Int(a[k]) && v.items[k] == Int(b[k]); }
  }

  method ParseTensor(name: string, v: Json, payload: nat) returns (r: Result<Tensor>)
    ensures r.Ok? ==> Describes(v, payload, r.value) && r.value.name == name
    ensures r.Fail? ==> forall t :: !Describes(v, payload, t)
  {
    if !v.Object? { return Fail; }
    var dtype := Get(v.fields, "dtype");
    if dtype.None? || !IsText(dtype.value) { return Fail; }
    if DtypeBytes(dtype.value.text).None? { return Fail; }
    var rawShape := Get(v.fields, "shape");
    if rawShape.None? { return Fail; }
    var shape := ParseShape(rawShape.value);
    if shape.Fail? { return Fail; }
    var offsets := Get(v.fields, "data_offsets");
    if offsets.None? || !offsets.value.Array? || |offsets.value.items| != 2 { return Fail; }
    var first, second := offsets.value.items[0], offsets.value.items[1];
    if !IsUint(first) || !IsUint(second) { return Fail; }
    var start, end := first.i, second.i;
    assert offsets.value.items == [Int(start), Int(end)];
    var elements := Multiply(shape.value);
    forall t | Describes(v, payload, t)
      ensures t.shape == shape.value && t.start == start && t.end == end && t.dtype == dtype.value.text
    {
      SameShape(rawShape.value, t.shape, shape.value);
      assert offsets.value.items[0] == Int(t.start) && offsets.value.items[1] == Int(t.end);
    }
    if end < start { return Fail; }
    if end - start != elements * DtypeBytes(dtype.value.text).value { return Fail; }
    if end > payload { return Fail; }
    r := Ok(Tensor(name, dtype.value.text, shape.value, elements, start, end));
  }

  // ---- the whole header ----

  type Fields = seq<(string, Json)>

  predicate ByName(a: (string, Json), b: (string, Json)) { Ordering.TextLeq(a.0, b.0) }

  /** One tensor for each of the first n fields but the metadata, in order. */
  predicate Inventory(fields: Fields, n: nat, payload: nat, tensors: seq<Tensor>)
    requires n <= |fields|
  {
    if n == 0 then tensors == []
    else
      var (name, v) := fields[n - 1];
      if name == "__metadata__" then v.Object? && Inventory(fields, n - 1, payload, tensors)
      else
        && tensors != [] && tensors[|tensors| - 1].name == name
        && Describes(v, payload, tensors[|tensors| - 1])
        && Inventory(fields, n - 1, payload, tensors[..|tensors| - 1])
  }

  lemma TakeTake<T>(s: seq<T>, n: nat, m: nat)
    requires m <= n <= |s|
    ensures s[..n][..m] == s[..m]
  {
  }

  /** An inventory of n fields begins with one of the first k. */
  lemma {:induction false} InventoryPrefix(fields: Fields, n: nat, payload: nat, tensors: seq<Tensor>, k: nat)
    returns (m: nat)
    requires k <= n <= |fields| && Inventory(fields, n, payload, tensors)
    ensures m <= |tensors| && Inventory(fields, k, payload, tensors[..m])
    decreases n
  {
    if k == n {
      m := |tensors|;
      assert tensors[..m] == tensors;
    } else if fields[n - 1].0 == "__metadata__" {
      m := InventoryPrefix(fields, n - 1, payload, tensors, k);
    } else {
      var before := tensors[..|tensors| - 1];
      assert Inventory(fields, n - 1, payload, before);
      m := InventoryPrefix(fields, n - 1, payload, before, k);
      TakeTake(tensors, |tensors| - 1, m);
    }
  }

  /** A field describes one tensor at most, so a header has one inventory at most. */
  lemma {:induction false} OneInventory(fields: Fields, n: nat, payload: nat, a: seq<Tensor>, b: seq<Tensor>)
    requires n <= |fields| && Inventory(fields, n, payload, a) && Inventory(fields, n, payload, b)
    ensures a == b
    decreases n
  {
    if n > 0 {
      if fields[n - 1].0 == "__metadata__" {
        OneInventory(fields, n - 1, payload, a, b);
      } else {
        var x, y := a[|a| - 1], b[|b| - 1];
        OneInventory(fields, n - 1, payload, a[..|a| - 1], b[..|b| - 1]);
        OneTensor(fields[n - 1].1, payload, x, y);
        SameEnds(a, b);
      }
    }
  }

  lemma SameEnds(a: seq<Tensor>, b: seq<Tensor>)
    requires a != [] && b != [] && a[..|a| - 1] == b[..|b| - 1] && a[|a| - 1] == b[|b| - 1]
    ensures a == b
  {
    assert a == a[..|a| - 1] + [a[|a| - 1]] && b == b[..|b| - 1] + [b[|b| - 1]];
  }

  lemma OneTensor(v: Json, payload: nat, a: Tensor, b: Tensor)
    requires Describes(v, payload, a) && Describes(v, payload, b) && a.name == b.name
    ensures a == b
  {
    SameShape(Get(v.fields, "shape").value, a.shape, b.shape);
    var items := Get(v.fields, "data_offsets").value.items;
    assert items[0] == Int(a.start) && items[1] == Int(a.end) && items[0] == Int(b.start) && items[1] == Int(b.end);
  }

  function RangeOf(t: Tensor): Range { Range(t.start, t.end, t.name) }

  /** No two tensors share a byte. */
  predicate NoOverlap(tensors: seq<Tensor>) {
    forall i, j :: 0 <= i < j < |tensors| && tensors[i].start < tensors[i].end && tensors[j].start < tensors[j].end
      ==> Apart(RangeOf(tensors[i]), RangeOf(tensors[j]))
  }

  /** The fields of a header and its tensors, said without sorting ranges or stopping early. */
  predicate BodyOk(fields: Fields, payload: nat, tensors: seq<Tensor>) {
    Inventory(fields, |fields|, payload, tensors) && |tensors| <= MAX_TENSORS && NoOverlap(tensors)
  }

  /** The frame of a header: its length, the declared size and an object. */
  predicate FrameOk(prefix: seq<byte>, size: Json, document: Option<Json>) {
    var length := Value(prefix);
    && 2 <= length <= MAX_HEADER_BYTES
    && IsUint(size) && 8 + length <= size.i
    && document.Some? && document.value.Object?
  }

  /** What a header must satisfy, in a file that some component owns. */
  predicate Admissible(component: Option<string>, prefix: seq<byte>, size: Json, document: Option<Json>,
                       tensors: seq<Tensor>) {
    && component.Some? && FrameOk(prefix, size, document)
    && BodyOk(Ordering.Sort(document.value.fields, ByName), size.i - 8 - Value(prefix), tensors)
  }

  /** The tensors with bytes, as ranges. */
  function PositiveRanges(tensors: seq<Tensor>): (r: seq<Range>)
    ensures AllPositive(r)
  {
    if tensors == [] then []
    else
      var t, before := tensors[|tensors| - 1], PositiveRanges(tensors[..|tensors| - 1]);
      if t.start < t.end then before + [RangeOf(t)] else before
  }

  lemma {:induction false} PositiveRangesAt(tensors: seq<Tensor>, x: Range)
    ensures x in PositiveRanges(tensors) <==>
            exists i :: 0 <= i < |tensors| && tensors[i].start < tensors[i].end && RangeOf(tensors[i]) == x
    decreases tensors
  {
    if tensors != [] {
      var n := |tensors| - 1;
      PositiveRangesAt(tensors[..n], x);
      assert forall i :: 0 <= i < n ==> tensors[..n][i] == tensors[i];
    }
  }

  predicate PairsApart(s: seq<Range>) { forall i, j :: 0 <= i < j < |s| ==> Apart(s[i], s[j]) }

  lemma {:induction false} RangesOverlapAsTensors(tensors: seq<Tensor>)
    ensures PairsApart(PositiveRanges(tensors)) <==> NoOverlap(tensors)
    decreases tensors
  {
    if tensors != [] {
      var n := |tensors| - 1;
      var t, s := tensors[n], PositiveRanges(tensors[..n]);
      RangesOverlapAsTensors(tensors[..n]);
      assert forall i :: 0 <= i < n ==> tensors[..n][i] == tensors[i];
      if t.start < t.end {
        if PairsApart(s + [RangeOf(t)]) {
          LastApart(s, RangeOf(t));
          forall i | 0 <= i < n && tensors[i].start < tensors[i].end ensures Apart(RangeOf(tensors[i]), RangeOf(t)) {
            PositiveRangesAt(tensors[..n], RangeOf(tensors[..n][i]));
          }
        }
        if NoOverlap(tensors) {
          forall k | 0 <= k < |s| ensures Apart(s[k], RangeOf(t)) { PositiveRangesAt(tensors[..n], s[k]); }
        }
      }
    }
  }

  lemma LastApart(s: seq<Range>, x: Range)
    requires PairsApart(s + [x])
    ensures PairsApart(s) && forall k :: 0 <= k < |s| ==> Apart(s[k], x)
  {
    forall i, j | 0 <= i < j < |s| ensures Apart(s[i], s[j]) { assert (s + [x])[i] == s[i] && (s + [x])[j] == s[j]; }
    forall k | 0 <= k < |s| ensures Apart(s[k], x) { assert (s + [x])[k] == s[k] && (s + [x])[|s|] == x; }
  }

  /** Nothing can complete a prefix of the fields that has no inventory, or too large a one. */
  ghost predicate Hopeless(fields: Fields, payload: nat, k: nat)
    requires k <= |fields|
  {
    forall ts :: Inventory(fields, k, payload, ts) ==> |ts| > MAX_TENSORS
  }

  lemma HopelessStays(fields: Fields, payload: nat, k: nat, ts: seq<Tensor>)
    requires k <= |fields| && Hopeless(fields, payload, k) && Inventory(fields, |fields|, payload, ts)
    ensures |ts| > MAX_TENSORS
  {
    var m := InventoryPrefix(fields, |fields|, payload, ts, k);
    assert |ts[..m]| > MAX_TENSORS;
  }

  lemma InventoryStep(fields: Fields, payload: nat, k: nat, tensors: seq<Tensor>, t: Tensor)
    requires k < |fields| && Inventory(fields, k, payload, tensors)
    ensures fields[k].0 == "__metadata__" && fields[k].1.Object? ==> Inventory(fields, k + 1, payload, tensors)
    ensures fields[k].0 != "__metadata__" && Describes(fields[k].1, payload, t) && t.name == fields[k].0 ==>
              Inventory(fields, k + 1, payload, tensors + [t])
  {
    assert (tensors + [t])[..|tensors|] == tensors;
  }

  /** The field loop: names in order, one descriptor after another. */
  method ParseTensors(fields: Fields, payload: nat) returns (r: Result<seq<Tensor>>)
    ensures r.Ok? ==> Inventory(fields, |fields|, payload, r.value) && |r.value| <= MAX_TENSORS
    ensures r.Fail? ==> forall ts :: Inventory(fields, |fields|, payload, ts) ==> |ts| > MAX_TENSORS
  {
    var tensors: seq<Tensor> := [];
    for k := 0 to |fields|
      invariant Inventory(fields, k, payload, tensors) && |tensors| <= MAX_TENSORS
    {
      var (name, v) := fields[k];
      if name == "__metadata__" {
        if !v.Object? {
          assert Hopeless(fields, payload, k + 1);
          Spread(fields, payload, k + 1);
          return Fail;
        }
        InventoryStep(fields, payload, k, tensors, Tensor(name, "", [], 0, 0, 0));
      } else {
        var t := ParseTensor(name, v, payload);
        if t.Fail? {
          assert Hopeless(fields, payload, k + 1);
          Spread(fields, payload, k + 1);
          return Fail;
        }
        InventoryStep(fields, payload, k, tensors, t.value);
        tensors := tensors + [t.value];
        if |tensors| > MAX_TENSORS {
          TooMany(fields, payload, k + 1, tensors);
          Spread(fields, payload, k + 1);
          return Fail;
        }
      }
    }
    r := Ok(tensors);
  }

  lemma Spread(fields: Fields, payload: nat, k: nat)
    requires k <= |fields| && Hopeless(fields, payload, k)
    ensures forall ts :: Inventory(fields, |fields|, payload, ts) ==> |ts| > MAX_TENSORS
  {
    forall ts | Inventory(fields, |fields|, payload, ts) ensures |ts| > MAX_TENSORS { HopelessStays(fields, payload, k, ts); }
  }

  lemma TooMany(fields: Fields, payload: nat, k: nat, tensors: seq<Tensor>)
    requires k <= |fields| && Inventory(fields, k, payload, tensors) && |tensors| > MAX_TENSORS
    ensures Hopeless(fields, payload, k)
  {
    forall ts | Inventory(fields, k, payload, ts) ensures |ts| > MAX_TENSORS {
      OneInventory(fields, k, payload, ts, tensors);
    }
  }

  method CollectRanges(tensors: seq<Tensor>) returns (ranges: seq<Range>)
    ensures ranges == PositiveRanges(tensors)
  {
    ranges := [];
    for k := 0 to |tensors|
      invariant ranges == PositiveRanges(tensors[..k])
    {
      assert tensors[..k + 1][..k] == tensors[..k];
      if tensors[k].end > tensors[k].start { ranges := ranges + [RangeOf(tensors[k])]; }
    }
    assert tensors[..|tensors|] == tensors;
  }

  lemma OverlapRefuses(fields: Fields, payload: nat, tensors: seq<Tensor>)
    requires Inventory(fields, |fields|, payload, tensors) && !NoOverlap(tensors)
    ensures forall ts :: !BodyOk(fields, payload, ts)
  {
    forall ts | Inventory(fields, |fields|, payload, ts) ensures ts == tensors { OneInventory(fields, |fields|, payload, ts, tensors); }
  }

  method ParseBody(fields: Fields, payload: nat) returns (r: Result<seq<Tensor>>)
    ensures r.Ok? ==> BodyOk(fields, payload, r.value)
    ensures r.Fail? ==> forall ts :: !BodyOk(fields, payload, ts)
  {
    r := ParseTensors(fields, payload);
    if r.Fail? { return; }
    var ranges := CollectRanges(r.value);
    var ok := Disjoint(ranges);
    RangesOverlapAsTensors(r.value);
    if !ok {
      OverlapRefuses(fields, payload, r.value);
      return Fail;
    }
  }

  /** parse_safetensors after its two range requests: the component that owns the path, if any, the
      eight-byte prefix, the declared size and the parsed header document. It accepts exactly the admissible headers. */
  method ParseSafetensors(component: Option<string>, prefix: seq<byte>, size: Json, document: Option<Json>)
    returns (r: Result<seq<Tensor>>)
    requires |prefix| == 8
    ensures r.Ok? ==> Admissible(component, prefix, size, document, r.value)
    ensures r.Fail? ==> forall ts :: !Admissible(component, prefix, size, document, ts)
  {
    if component.None? { return Fail; }
    var length := Value(prefix);
    if length > MAX_HEADER_BYTES { return Fail; }
    if length < 2 { return Fail; }
    if !IsUint(size) { return Fail; }
    if 8 + length > size.i { return Fail; }
    if document.None? || !document.value.Object? { return Fail; }
    r := ParseBody(Ordering.Sort(document.value.fields, ByName), size.i - 8 - length);
  }

  // ---- what an accepted header guarantees ----

  function Spans(tensors: seq<Tensor>): int {
    if tensors == [] then 0
    else Spans(tensors[..|tensors| - 1]) + tensors[|tensors| - 1].end - tensors[|tensors| - 1].start
  }

  lemma {:induction false} InventoryDescribes(fields: Fields, n: nat, payload: nat, tensors: seq<Tensor>, i: nat)
    requires n <= |fields| && Inventory(fields, n, payload, tensors) && i < |tensors|
    ensures exists k :: 0 <= k < n && fields[k].0 == tensors[i].name && Describes(fields[k].1, payload, tensors[i])
    decreases n
  {
    if fields[n - 1].0 == "__metadata__" {
      InventoryDescribes(fields, n - 1, payload, tensors, i);
    } else if i < |tensors| - 1 {
      InventoryDescribes(fields, n - 1, payload, tensors[..|tensors| - 1], i);
    }
  }

  lemma {:induction false} TotalAppend(s: seq<Range>, x: Range)
    ensures Total(s + [x]) == Total(s) + x.end - x.start
  {
    if s == [] {
      assert [x][1..] == [];
    } else {
      assert (s + [x])[1..] == s[1..] + [x];
      TotalAppend(s[1..], x);
    }
  }

  lemma {:induction false} SpansAreTotal(tensors: seq<Tensor>)
    requires forall i :: 0 <= i < |tensors| ==> tensors[i].start <= tensors[i].end
    ensures Spans(tensors) == Total(PositiveRanges(tensors))
    decreases tensors
  {
    if tensors != [] {
      var n := |tensors| - 1;
      SpansAreTotal(tensors[..n]);
      TotalAppend(PositiveRanges(tensors[..n]), RangeOf(tensors[n]));
    }
  }

  /** Every accepted span is its type's size times its shape's product and lies in the payload;
      together the spans take no more than the payload. */
  lemma AcceptedSpans(component: Option<string>, prefix: seq<byte>, size: Json, document: Option<Json>, tensors: seq<Tensor>)
    requires Admissible(component, prefix, size, document, tensors)
    ensures var payload := size.i - 8 - Value(prefix);
            && (forall i :: 0 <= i < |tensors| ==>
                  && DtypeBytes(tensors[i].dtype).Some? && tensors[i].start <= tensors[i].end <= payload
                  && tensors[i].end - tensors[i].start == Product(tensors[i].shape) * DtypeBytes(tensors[i].dtype).value)
            && Spans(tensors) <= payload
  {
    var payload := size.i - 8 - Value(prefix);
    var fields := Ordering.Sort(document.value.fields, ByName);
    forall i | 0 <= i < |tensors|
      ensures DtypeBytes(tensors[i].dtype).Some? && tensors[i].start <= tensors[i].end <= payload
      ensures tensors[i].end - tensors[i].start == Product(tensors[i].shape) * DtypeBytes(tensors[i].dtype).value
    {
      InventoryDescribes(fields, |fields|, payload, tensors, i);
    }
    var ranges := PositiveRanges(tensors);
    forall k | 0 <= k < |ranges| ensures ranges[k].end <= payload { PositiveRangesAt(tensors, ranges[k]); }
    RangesOverlapAsTensors(tensors);
    AllApartAt(ranges);
    TotalFits(ranges, payload);
    SpansAreTotal(tensors);
  }

  // ---- types, shapes and bytes ----

  predicate IsDigit(c: char) { '0' <= c <= '9' }

  function DigitsFrom(s: string, n: nat): nat {
    if s == [] || !IsDigit(s[0]) then n else DigitsFrom(s[1..], 10 * n + (s[0] as int - '0' as int))
  }

  /** The first number in a name. */
  function FirstNumber(s: string): nat {
    if s == [] then 0 else if IsDigit(s[0]) then DigitsFrom(s, 0) else FirstNumber(s[1..])
  }

  const DTYPES := {"BOOL", "U8", "I8", "I16", "U16", "I32", "U32", "I64", "U64",
                   "F8_E4M3", "F8_E5M2", "F16", "BF16", "F32", "F64"}

  /** The known types are these fifteen. */
  lemma DtypesKnown(dtype: string)
    ensures DtypeBytes(dtype).Some? <==> dtype in DTYPES
  {
  }

  lemma LetterNumber(letter: char, tens: char, ones: char)
    requires !IsDigit(letter) && IsDigit(tens) && IsDigit(ones)
    ensures FirstNumber([letter, tens, ones]) == 10 * (tens as int - '0' as int) + (ones as int - '0' as int)
  {
    assert [letter, tens, ones][1..] == [tens, ones] && [tens, ones][1..] == [ones] && [ones][1..] == [];
    assert DigitsFrom([ones], tens as int - '0' as int) == 10 * (tens as int - '0' as int) + (ones as int - '0' as int);
  }

  /** The number in a type's name is its size in bits; a boolean takes a byte. */
  lemma DtypeBits(dtype: string)
    requires DtypeBytes(dtype).Some?
    ensures 8 * DtypeBytes(dtype).value == if dtype == "BOOL" then 8 else FirstNumber(dtype)
  {
    match dtype {
      case "BOOL" =>
      case "U8" => assert FirstNumber("U8") == 8;
      case "I8" => assert FirstNumber("I8") == 8;
      case "I16" => LetterNumber('I', '1', '6');
      case "U16" => LetterNumber('U', '1', '6');
      case "I32" => LetterNumber('I', '3', '2');
      case "U32" => LetterNumber('U', '3', '2');
      case "I64" => LetterNumber('I', '6', '4');
      case "U64" => LetterNumber('U', '6', '4');
      case "F8_E4M3" => assert FirstNumber("F8_E4M3") == 8;
      case "F8_E5M2" => assert FirstNumber("F8_E5M2") == 8;
      case "F16" => LetterNumber('F', '1', '6');
      case "BF16" => assert FirstNumber("BF16") == 16;
      case "F32" => LetterNumber('F', '3', '2');
      case _ => LetterNumber('F', '6', '4');
    }
  }

  /** The element count multiplies: one for a scalar, the dimension for a vector, and the product of
      the parts for any split of a shape. */
  lemma {:induction false} ProductSplits(a: seq<nat>, b: seq<nat>)
    ensures Product(a + b) == Product(a) * Product(b) && Product([]) == 1
    ensures forall n: nat :: Product([n]) == n
    decreases b
  {
    forall n: nat ensures Product([n]) == n { assert [n][..0] == []; }
    if b == [] {
      assert a + b == a;
    } else {
      var front, last := b[..|b| - 1], b[|b| - 1];
      assert (a + b)[..|a + b| - 1] == a + front;
      ProductSplits(a, front);
      Associate(Product(a), Product(front), last);
    }
  }

  lemma Associate(x: nat, y: nat, z: nat)
    ensures x * y * z == x * (y * z)
  {
  }

  predicate Holds(t: Tensor, b: int) { t.start <= b < t.end }

  /** No two tensors overlap exactly when no byte belongs to two of them. */
  lemma NoSharedByte(tensors: seq<Tensor>)
    ensures NoOverlap(tensors) <==>
            forall i, j, b :: 0 <= i < j < |tensors| ==> !(Holds(tensors[i], b) && Holds(tensors[j], b))
  {
    if forall i, j, b :: 0 <= i < j < |tensors| ==> !(Holds(tensors[i], b) && Holds(tensors[j], b)) {
      forall i, j | 0 <= i < j < |tensors| && tensors[i].start < tensors[i].end && tensors[j].start < tensors[j].end
        ensures Apart(RangeOf(tensors[i]), RangeOf(tensors[j]))
      {
        var b := if tensors[i].start < tensors[j].start then tensors[j].start else tensors[i].start;
        assert !(Holds(tensors[i], b) && Holds(tensors[j], b));
      }
    }
  }

  /** The frame of an accepted header: at least two bytes and at most 64 MiB, inside the declared size. */
  lemma AcceptedFrame(component: Option<string>, prefix: seq<byte>, size: Json, document: Option<Json>, tensors: seq<Tensor>)
    requires Admissible(component, prefix, size, document, tensors)
    ensures 2 <= Value(prefix) <= 67_108_864 && size.Int? && 8 + Value(prefix) <= size.i && |tensors| <= 1_000_000
  {
  }

  /** Every field but the metadata is some tensor's, and the metadata is an object. */
  lemma {:induction false} InventoryCovers(fields: Fields, n: nat, payload: nat, tensors: seq<Tensor>, k: nat)
    requires k < n <= |fields| && Inventory(fields, n, payload, tensors)
    ensures if fields[k].0 == "__metadata__" then fields[k].1.Object?
            else exists i :: 0 <= i < |tensors| && tensors[i].name == fields[k].0 && Describes(fields[k].1, payload, tensors[i])
    decreases n
  {
    if k < n - 1 {
      if fields[n - 1].0 == "__metadata__" {
        InventoryCovers(fields, n - 1, payload, tensors, k);
      } else {
        var front := tensors[..|tensors| - 1];
        InventoryCovers(fields, n - 1, payload, front, k);
        if fields[k].0 != "__metadata__" {
          var i :| 0 <= i < |front| && front[i].name == fields[k].0 && Describes(fields[k].1, payload, front[i]);
          assert tensors[i] == front[i];
        }
      }
    } else if fields[k].0 != "__metadata__" {
      assert tensors[|tensors| - 1].name == fields[k].0;
    }
  }
}
