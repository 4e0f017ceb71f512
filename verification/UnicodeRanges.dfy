/** Coalescing letter ranges in tools/generate_tokenizer_unicode.py. A row of UnicodeData.txt is a
    code point, a mark for the first or the last of a range (section 4.2.3 of UAX #44), and
    whether its category is a letter's. */
module UnicodeRanges {
  import Ordering
  import opened Wrappers

  datatype Mark = Single | First | Last

  datatype Row = Row(point: nat, mark: Mark, letter: bool)

  type Range = (nat, nat)

  /** Code points ascend, and a first row is followed by the last row of its range. */
  predicate WellFormed(rows: seq<Row>) {
    && (forall i, j :: 0 <= i < j < |rows| ==> rows[i].point < rows[j].point)
    && (forall k :: 0 <= k < |rows| && rows[k].mark == First ==> k + 1 < |rows| && rows[k + 1].mark == Last)
    && (forall k :: 0 <= k < |rows| && rows[k].mark == Last ==> 0 < k && rows[k - 1].mark == First)
  }

  /** Where the run of code points that row k closes begins. */
  function RunStart(rows: seq<Row>, k: nat): nat
    requires WellFormed(rows) && k < |rows|
  {
    if rows[k].mark == Last then rows[k - 1].point else rows[k].point
  }

  /** Row k says that c is a letter. */
  predicate Says(rows: seq<Row>, k: nat, c: nat)
    requires WellFormed(rows) && k < |rows|
  {
    rows[k].mark != First && rows[k].letter && RunStart(rows, k) <= c <= rows[k].point
  }

  /** One of the first n rows says that c is a letter. */
  predicate Letter(rows: seq<Row>, n: nat, c: nat)
    requires WellFormed(rows) && n <= |rows|
  {
    exists k :: 0 <= k < n && Says(rows, k, c)
  }

  /** The code points the data calls letters: single ones, and everything from a first row to the last
      row after it. */
  predicate Given(rows: seq<Row>, k: int, c: nat) {
    && 0 <= k < |rows|
    && if rows[k].mark == First
       then k + 1 < |rows| && rows[k + 1].mark == Last && rows[k + 1].letter && rows[k].point <= c <= rows[k + 1].point
       else rows[k].mark == Single && rows[k].letter && rows[k].point == c
  }

  lemma LetterExactly(rows: seq<Row>, c: nat)
    requires WellFormed(rows)
    ensures Letter(rows, |rows|, c) <==> exists k :: Given(rows, k, c)
  {
    if Letter(rows, |rows|, c) {
      var k :| 0 <= k < |rows| && Says(rows, k, c);
      if rows[k].mark == Last { assert Given(rows, k - 1, c); } else { assert Given(rows, k, c); }
    }
    if k :| Given(rows, k, c) {
      if rows[k].mark == First { assert Says(rows, k + 1, c); } else { assert Says(rows, k, c); }
    }
  }

  predicate In(r: Range, c: nat) { r.0 <= c <= r.1 }

  predicate Covers(ranges: seq<Range>, c: nat) { exists i :: 0 <= i < |ranges| && In(ranges[i], c) }

  /** Ranges are proper, ascend, and leave a gap between neighbours. */
  predicate Separated(ranges: seq<Range>) {
    && (forall i :: 0 <= i < |ranges| ==> ranges[i].0 <= ranges[i].1)
    && (forall i, j :: 0 <= i < j < |ranges| ==> ranges[i].1 + 1 < ranges[j].0)
  }

  /** All ranges end before a bound. */
  predicate Before(ranges: seq<Range>, bound: nat) { forall i :: 0 <= i < |ranges| ==> ranges[i].1 < bound }

  function Extended(ranges: seq<Range>, start: nat, end: nat): seq<Range> {
    if ranges != [] && ranges[|ranges| - 1].1 + 1 == start
    then ranges[|ranges| - 1 := (ranges[|ranges| - 1].0, end)] else ranges + [(start, end)]
  }

  lemma ExtendedSeparated(ranges: seq<Range>, start: nat, end: nat)
    requires Separated(ranges) && Before(ranges, start) && start <= end
    ensures Separated(Extended(ranges, start, end)) && Before(Extended(ranges, start, end), end + 1)
  {
  }

  lemma ExtendedCovers(ranges: seq<Range>, start: nat, end: nat, c: nat)
    requires Separated(ranges) && Before(ranges, start) && start <= end
    ensures Covers(Extended(ranges, start, end), c) <==> Covers(ranges, c) || start <= c <= end
  {
    var t := Extended(ranges, start, end);
    var n := |t| - 1;
    assert forall i :: 0 <= i < n ==> t[i] == ranges[i];
    if start <= c <= end { assert In(t[n], c); }
    if Covers(ranges, c) {
      var i :| 0 <= i < |ranges| && In(ranges[i], c);
      assert In(t[i], c);
    }
    if Covers(t, c) {
      var i :| 0 <= i < |t| && In(t[i], c);
      if i < n {
        assert In(ranges[i], c);
      } else if !(start <= c <= end) {
        assert In(ranges[i], c);
      }
    }
  }

  /** The ranges are exactly the letters of the first n rows. */
  ghost predicate Exact(rows: seq<Row>, n: nat, ranges: seq<Range>)
    requires WellFormed(rows) && n <= |rows|
  {
    forall c :: Covers(ranges, c) <==> Letter(rows, n, c)
  }

  lemma LetterMore(rows: seq<Row>, n: nat, c: nat)
    requires WellFormed(rows) && n < |rows|
    ensures Letter(rows, n + 1, c) <==> Letter(rows, n, c) || Says(rows, n, c)
  {
  }

  /** The ranges after row n. */
  function AfterRow(rows: seq<Row>, n: nat, ranges: seq<Range>): seq<Range>
    requires WellFormed(rows) && n < |rows|
  {
    if rows[n].mark != First && rows[n].letter then Extended(ranges, RunStart(rows, n), rows[n].point) else ranges
  }

  predicate Ready(rows: seq<Row>, n: nat, ranges: seq<Range>)
    requires WellFormed(rows) && n <= |rows|
  {
    Separated(ranges) && (n < |rows| ==> Before(ranges, RunStart(rows, n)))
  }

  lemma RowKeeps(rows: seq<Row>, n: nat, ranges: seq<Range>)
    requires WellFormed(rows) && n < |rows| && Ready(rows, n, ranges) && Exact(rows, n, ranges)
    ensures Ready(rows, n + 1, AfterRow(rows, n, ranges)) && Exact(rows, n + 1, AfterRow(rows, n, ranges))
  {
    var start, end := RunStart(rows, n), rows[n].point;
    ExtendedSeparated(ranges, start, end);
    forall c ensures Covers(AfterRow(rows, n, ranges), c) <==> Letter(rows, n + 1, c) {
      LetterMore(rows, n, c);
      ExtendedCovers(ranges, start, end, c);
    }
  }

  method LetterRanges(rows: seq<Row>) returns (ranges: seq<Range>)
    requires WellFormed(rows)
    ensures Separated(ranges) && Exact(rows, |rows|, ranges)
  {
    var first: Option<nat> := None;
    ranges := [];
    for n := 0 to |rows|
      invariant Ready(rows, n, ranges) && Exact(rows, n, ranges)
      invariant first == if 0 < n && rows[n - 1].mark == First then Some(rows[n - 1].point) else None
    {
      RowKeeps(rows, n, ranges);
      var point := rows[n].point;
      if rows[n].mark == First {
        first := Some(point);
        continue;
      }
      var start := if rows[n].mark == Last then first.value else point;
      first := None;
      if rows[n].letter {
        if ranges != [] && ranges[|ranges| - 1].1 + 1 == start {
          ranges := ranges[|ranges| - 1 := (ranges[|ranges| - 1].0, point)];
        } else {
          ranges := ranges + [(start, point)];
        }
      }
    }
  }

  // ---- no smaller set of ranges will do ----

  lemma {:induction false} Pigeonhole(s: seq<nat>, m: nat)
    requires Ordering.Distinct(s) && forall k :: 0 <= k < |s| ==> s[k] < m
    ensures |s| <= m
    decreases m
  {
    if m == 0 {
    } else if m - 1 in s {
      var at :| 0 <= at < |s| && s[at] == m - 1;
      var t := s[..at] + s[at + 1..];
      forall i, j | 0 <= i < j < |t| ensures t[i] != t[j] {
        assert t[i] == s[if i < at then i else i + 1] && t[j] == s[if j < at then j else j + 1];
      }
      forall k | 0 <= k < |t| ensures t[k] < m - 1 { assert t[k] == s[if k < at then k else k + 1]; }
      Pigeonhole(t, m - 1);
    } else {
      forall k | 0 <= k < |s| ensures s[k] < m - 1 { assert s[k] in s; }
      Pigeonhole(s, m - 1);
    }
  }

  /** The gap after a range is covered by nothing. */
  lemma GapUncovered(ranges: seq<Range>, i: nat)
    requires Separated(ranges) && i < |ranges|
    ensures !Covers(ranges, ranges[i].1 + 1)
  {
    forall j | 0 <= j < |ranges| ensures !In(ranges[j], ranges[i].1 + 1) {
      if j < i { assert ranges[j].1 + 1 < ranges[i].0; }
    }
  }

  /** Any ranges that cover the same code points are at least as many. */
  lemma Minimal(ranges: seq<Range>, other: seq<Range>)
    requires Separated(ranges) && forall c :: Covers(ranges, c) <==> Covers(other, c)
    ensures |ranges| <= |other|
  {
    var owners := Owners(ranges, other, |ranges|);
    forall i, j | 0 <= i < j < |owners| ensures owners[i] != owners[j] {
      GapUncovered(ranges, i);
      assert !Covers(other, ranges[i].1 + 1);
      assert !In(other[owners[i]], ranges[i].1 + 1);
    }
    Pigeonhole(owners, |other|);
  }

  /** For each of the first n ranges, one of the others that covers its start. */
  lemma {:induction false} Owners(ranges: seq<Range>, other: seq<Range>, n: nat) returns (owners: seq<nat>)
    requires n <= |ranges| && Separated(ranges) && forall c :: Covers(ranges, c) <==> Covers(other, c)
    ensures |owners| == n
    ensures forall i :: 0 <= i < n ==> owners[i] < |other| && In(other[owners[i]], ranges[i].0)
  {
    if n == 0 {
      owners := [];
    } else {
      var before := Owners(ranges, other, n - 1);
      assert In(ranges[n - 1], ranges[n - 1].0);
      assert Covers(ranges, ranges[n - 1].0);
      var k :| 0 <= k < |other| && In(other[k], ranges[n - 1].0);
      owners := before + [k];
    }
  }
}
