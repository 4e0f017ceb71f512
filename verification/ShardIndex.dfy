/** The shard-key index of src/core/shard_index.c: admission of a borrowed array and binary search.
    A null pointer is None. */
module ShardIndex {
  import opened Ordering
  import opened Wrappers

  datatype Entry = Entry(key: Option<string>, id: nat)

  datatype Result = Ok | Invalid | Budget | DuplicateId | DuplicateKey | NoncanonicalOrder

  /** What is wrong with entry k after those before it were admitted. */
  function Fault(entries: seq<Entry>, k: nat): Result
    requires k < |entries|
    requires k > 0 ==> entries[k - 1].key.Some?
  {
    if entries[k].key.None? || entries[k].key.value == "" then Invalid
    else if entries[k].id != k then DuplicateId
    else if k == 0 then Ok
    else if entries[k - 1].key.value == entries[k].key.value then DuplicateKey
    else if Less(entries[k].key.value, entries[k - 1].key.value) then NoncanonicalOrder
    else Ok
  }

  /** Every key is there and not empty, positions number the entries, keys increase strictly. */
  predicate Canonical(entries: seq<Entry>) {
    && (forall k :: 0 <= k < |entries| ==> entries[k].key.Some? && entries[k].key.value != "" && entries[k].id == k)
    && (forall i, j :: 0 <= i < j < |entries| ==> Less(entries[i].key.value, entries[j].key.value))
  }

  /** Everything before entry k is in order, and r is what is wrong with it. */
  predicate FirstFault(entries: seq<Entry>, k: nat, r: Result)
    requires k < |entries|
  {
    Canonical(entries[..k]) && (k > 0 ==> entries[k - 1].key.Some?) && r == Fault(entries, k)
  }

  lemma CanonicalMore(entries: seq<Entry>, k: nat)
    requires k < |entries| && Canonical(entries[..k])
    ensures k > 0 ==> entries[k - 1].key.Some?
    ensures Fault(entries, k) == Ok <==> Canonical(entries[..k + 1])
  {
    assert forall i :: 0 <= i < k ==> entries[..k][i] == entries[i];
    if k > 0 {
      assert entries[..k][k - 1] == entries[k - 1];
      if entries[k].key.Some? { CompareAntisymmetric(entries[k - 1].key.value, entries[k].key.value); }
    }
    if Fault(entries, k) == Ok {
      forall i | 0 <= i < k ensures Less(entries[i].key.value, entries[k].key.value) {
        if i < k - 1 {
          assert Less(entries[..k][i].key.value, entries[..k][k - 1].key.value);
          StrictTotalOrder(entries[i].key.value, entries[k - 1].key.value, entries[k].key.value);
        }
      }
    }
    if Canonical(entries[..k + 1]) {
      assert forall i :: 0 <= i < k + 1 ==> entries[..k + 1][i] == entries[i];
      if k > 0 { StrictTotalOrder(entries[k - 1].key.value, entries[k].key.value, entries[k - 1].key.value); }
    }
  }

  function BitLength(n: nat): nat { if n == 0 then 0 else 1 + BitLength(n / 2) }

  lemma {:induction false} BitLengthGrows(a: nat, b: nat)
    requires a <= b
    ensures BitLength(a) <= BitLength(b)
  {
    if a > 0 { BitLengthGrows(a / 2, b / 2); }
  }

  /** Looking at one entry after another. */
  function Linear(entries: seq<Entry>, key: string, k: nat): Option<nat>
    requires k <= |entries|
    decreases |entries| - k
  {
    if k == |entries| then None else if entries[k].key == Some(key) then Some(k) else Linear(entries, key, k + 1)
  }

  lemma {:induction false} LinearIs(entries: seq<Entry>, key: string, k: nat, found: nat)
    requires k <= found < |entries| && entries[found].key == Some(key)
    requires forall j :: k <= j < found ==> entries[j].key != Some(key)
    ensures Linear(entries, key, k) == Some(found)
    decreases found - k
  {
    if k < found { LinearIs(entries, key, k + 1, found); }
  }

  lemma {:induction false} LinearIsNone(entries: seq<Entry>, key: string, k: nat)
    requires k <= |entries| && forall j :: k <= j < |entries| ==> entries[j].key != Some(key)
    ensures Linear(entries, key, k) == None
    decreases |entries| - k
  {
    if k < |entries| { LinearIsNone(entries, key, k + 1); }
  }

  class Index {
    var entries: Option<seq<Entry>>
    var count: nat

    /** What init leaves behind: nothing, or an admitted array. */
    predicate Valid()
      reads this
    {
      if entries.None? then count == 0 else count == |entries.value| && count > 0 && Canonical(entries.value)
    }

    constructor ()
      ensures Valid() && entries.None?
    {
      entries, count := None, 0;
    }

    /** Accepts exactly the canonical arrays within budget; otherwise the index is empty and the
        result is the fault of the first entry that has one. */
    method Init(given: Option<seq<Entry>>, maximum: nat) returns (r: Result)
      modifies this
      ensures Valid()
      ensures r == Ok <==> given.Some? && 0 < |given.value| <= maximum && Canonical(given.value)
      ensures r == Ok ==> entries == given
      ensures r != Ok ==> entries.None?
      ensures given.Some? && given.value != [] && 0 < maximum < |given.value| <==> r == Budget
      ensures given.None? || given.value == [] || maximum == 0 ==> r == Invalid
      ensures given.Some? && 0 < |given.value| <= maximum && r != Ok ==>
                exists k :: 0 <= k < |given.value| && FirstFault(given.value, k, r)
    {
      entries, count := None, 0;
      if given.None? || |given.value| == 0 || maximum == 0 { return Invalid; }
      if |given.value| > maximum { return Budget; }
      var rows := given.value;
      for k := 0 to |rows|
        invariant Canonical(rows[..k]) && entries.None? && count == 0
      {
        CanonicalMore(rows, k);
        if rows[k].key.None? || rows[k].key.value == "" {
          NotCanonical(rows, k);
          assert FirstFault(rows, k, Invalid);
          return Invalid;
        }
        if rows[k].id != k {
          NotCanonical(rows, k);
          assert FirstFault(rows, k, DuplicateId);
          return DuplicateId;
        }
        if k != 0 {
          var order := Compare(rows[k - 1].key.value, rows[k].key.value);
          CompareAntisymmetric(rows[k - 1].key.value, rows[k].key.value);
          if order == 0 {
            NotCanonical(rows, k);
            assert FirstFault(rows, k, DuplicateKey);
            return DuplicateKey;
          }
          if order > 0 {
            NotCanonical(rows, k);
            assert FirstFault(rows, k, NoncanonicalOrder);
            return NoncanonicalOrder;
          }
        }
      }
      assert rows[..|rows|] == rows;
      entries, count := Some(rows), |rows|;
      r := Ok;
    }

    method At(id: nat) returns (e: Option<Entry>)
      requires Valid()
      ensures e.Some? <==> id < count
      ensures e.Some? ==> e.value == entries.value[id] && e.value.id == id
    {
      e := if entries.Some? && id < count then Some(entries.value[id]) else None;
    }

    /** Binary search agrees with linear search and looks at few entries. */
    method Find(key: Option<string>) returns (found: Option<nat>, comparisons: nat)
      requires Valid()
      ensures entries.Some? && key.Some? ==> found == Linear(entries.value, key.value, 0)
      ensures entries.None? || key.None? ==> found == None
      ensures found.Some? ==> found.value < count && entries.value[found.value].key == key
      ensures found.None? && key.Some? ==> forall k :: 0 <= k < count ==> entries.value[k].key != key
      ensures comparisons <= BitLength(count)
    {
      comparisons := 0;
      if entries.None? || key.None? { return None, comparisons; }
      var rows := entries.value;
      var lower, upper := 0, count;
      while lower < upper
        invariant lower <= upper <= count
        invariant forall k :: 0 <= k < lower ==> Less(rows[k].key.value, key.value)
        invariant forall k :: upper <= k < count ==> Less(key.value, rows[k].key.value)
        invariant comparisons + BitLength(upper - lower) <= BitLength(count)
        decreases upper - lower
      {
        var middle := lower + (upper - lower) / 2;
        comparisons := comparisons + 1;
        var order := Compare(rows[middle].key.value, key.value);
        CompareAntisymmetric(rows[middle].key.value, key.value);
        BitLengthGrows(upper - (middle + 1), (upper - lower) / 2);
        if order == 0 {
          Unique(rows, key.value, middle);
          return Some(middle), comparisons;
        }
        if order < 0 {
          Below(rows, key.value, middle);
          lower := middle + 1;
        } else {
          Above(rows, key.value, middle);
          upper := middle;
        }
      }
      Absent(rows, key.value, lower);
      found := None;
    }
  }

  lemma NotCanonical(entries: seq<Entry>, k: nat)
    requires k < |entries| && !Canonical(entries[..k + 1])
    ensures !Canonical(entries)
  {
    assert forall i :: 0 <= i < k + 1 ==> entries[..k + 1][i] == entries[i];
  }

  lemma Unique(entries: seq<Entry>, key: string, k: nat)
    requires Canonical(entries) && k < |entries| && entries[k].key == Some(key)
    ensures Linear(entries, key, 0) == Some(k)
  {
    forall j | 0 <= j < k ensures entries[j].key != Some(key) {
      assert Less(entries[j].key.value, entries[k].key.value);
      StrictTotalOrder(key, key, key);
    }
    LinearIs(entries, key, 0, k);
  }

  lemma Below(entries: seq<Entry>, key: string, m: nat)
    requires Canonical(entries) && m < |entries| && Less(entries[m].key.value, key)
    ensures forall k :: 0 <= k <= m ==> Less(entries[k].key.value, key)
  {
    forall k | 0 <= k < m ensures Less(entries[k].key.value, key) {
      StrictTotalOrder(entries[k].key.value, entries[m].key.value, key);
    }
  }

  lemma Above(entries: seq<Entry>, key: string, m: nat)
    requires Canonical(entries) && m < |entries| && Less(key, entries[m].key.value)
    ensures forall k :: m <= k < |entries| ==> Less(key, entries[k].key.value)
  {
    forall k | m < k < |entries| ensures Less(key, entries[k].key.value) {
      StrictTotalOrder(key, entries[m].key.value, entries[k].key.value);
    }
  }

  lemma Absent(entries: seq<Entry>, key: string, at: nat)
    requires Canonical(entries) && at <= |entries|
    requires forall k :: 0 <= k < at ==> Less(entries[k].key.value, key)
    requires forall k :: at <= k < |entries| ==> Less(key, entries[k].key.value)
    ensures forall k :: 0 <= k < |entries| ==> entries[k].key != Some(key)
    ensures Linear(entries, key, 0) == None
  {
    StrictTotalOrder(key, key, key);
    LinearIsNone(entries, key, 0);
  }
}
