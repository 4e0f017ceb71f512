/** What TurnStream accepts and reports, said of the rows themselves: which values count as a channel,
    a request or a time, what a channel carried, and what became visible first. */
module TurnMeaning {
  import opened Bytes
  import opened TurnStream
  import opened Wrappers

  // ---- values ----

  /** A value that Python finds equal to a small number: an int, a float, or True for one. */
  predicate Numeral(v: Scalar, n: int) {
    v == Int(n) || v == Float(n as real) || (n == 1 && v == Bool(true)) || (n == 0 && v == Bool(false))
  }

  /** A finite number that is no bool. */
  predicate Clock(v: Scalar, x: real) { (v.Int? && v.i as real == x) || v == Float(x) }

  lemma NumeralIs(v: Scalar, n: int)
    ensures Same(v, Int(n)) <==> Numeral(v, n)
  {
  }

  // ---- what a channel carried ----

  predicate On(row: Row, channel: int) { row.Fragment? && Numeral(row.channel, channel) }

  function Joined(parts: seq<seq<byte>>): seq<byte> {
    if parts == [] then [] else parts[0] + Joined(parts[1..])
  }

  /** Part k is what fragment k decodes to if it is on the channel, and empty otherwise. */
  predicate Decoded(o: Oracles, rows: seq<Row>, channel: int, parts: seq<seq<byte>>) {
    && |parts| == |rows|
    && forall k :: 0 <= k < |rows| ==> PartOf(o, rows[k], channel, parts[k])
  }

  predicate PartOf(o: Oracles, row: Row, channel: int, part: seq<byte>) {
    if On(row, channel) then row.hex.Some? && o.fromHex(row.hex.value) == Some(part) else part == []
  }

  ghost predicate Carried(o: Oracles, rows: seq<Row>, channel: int, content: seq<byte>) {
    exists parts :: Decoded(o, rows, channel, parts) && content == Joined(parts)
  }

  lemma {:induction false} JoinedMore(parts: seq<seq<byte>>, last: seq<byte>)
    ensures Joined(parts + [last]) == Joined(parts) + last
  {
    if parts == [] {
      assert parts + [last] == [last] && [last][1..] == [];
    } else {
      assert (parts + [last])[1..] == parts[1..] + [last];
      JoinedMore(parts[1..], last);
    }
  }

  lemma DecodedMore(o: Oracles, rows: seq<Row>, row: Row, channel: int, parts: seq<seq<byte>>, last: seq<byte>)
    ensures Decoded(o, rows + [row], channel, parts + [last]) <==>
            |parts| == |rows| && Decoded(o, rows, channel, parts) && PartOf(o, row, channel, last)
  {
    if Decoded(o, rows + [row], channel, parts + [last]) {
      forall k | 0 <= k < |rows| ensures PartOf(o, rows[k], channel, parts[k]) {
        assert (rows + [row])[k] == rows[k] && (parts + [last])[k] == parts[k];
      }
      assert (rows + [row])[|rows|] == row && (parts + [last])[|rows|] == last;
    }
  }

  lemma CarriedMore(o: Oracles, rows: seq<Row>, row: Row, channel: int, content: seq<byte>, last: seq<byte>)
    requires Carried(o, rows, channel, content) && PartOf(o, row, channel, last)
    ensures Carried(o, rows + [row], channel, content + last)
  {
    var parts :| Decoded(o, rows, channel, parts) && content == Joined(parts);
    DecodedMore(o, rows, row, channel, parts, last);
    JoinedMore(parts, last);
  }

  lemma CarriedLess(o: Oracles, rows: seq<Row>, row: Row, channel: int, content: seq<byte>)
    returns (before: seq<byte>, last: seq<byte>)
    requires Carried(o, rows + [row], channel, content)
    ensures Carried(o, rows, channel, before) && PartOf(o, row, channel, last) && content == before + last
  {
    var parts :| Decoded(o, rows + [row], channel, parts) && content == Joined(parts);
    var front := parts[..|rows|];
    last := parts[|rows|];
    assert parts == front + [last];
    DecodedMore(o, rows, row, channel, front, last);
    JoinedMore(front, last);
    before := Joined(front);
  }

  /** The content of a channel is what its fragments decode to, joined in order; and it is missing
      exactly when one of them does not decode. */
  lemma {:induction false} ContentExactly(o: Oracles, rows: seq<Row>, channel: int, content: seq<byte>)
    requires AllFragments(rows)
    ensures Content(o, rows, channel) == Some(content) <==> Carried(o, rows, channel, content)
    decreases rows
  {
    if rows == [] {
      assert Decoded(o, rows, channel, []) && Joined([]) == [];
      if Carried(o, rows, channel, content) {
        var parts :| Decoded(o, rows, channel, parts) && content == Joined(parts);
        assert parts == [];
      }
    } else {
      var front, row := rows[..|rows| - 1], rows[|rows| - 1];
      assert rows == front + [row];
      NumeralIs(row.channel, channel);
      var before := Content(o, front, channel);
      if Content(o, rows, channel) == Some(content) {
        ContentExactly(o, front, channel, before.value);
        var last := if OnChannel(row, channel) then Delivery(o, row).value else [];
        CarriedMore(o, front, row, channel, before.value, last);
        assert content == before.value + last;
      }
      if Carried(o, rows, channel, content) {
        var earlier, last := CarriedLess(o, front, row, channel, content);
        ContentExactly(o, front, channel, earlier);
        if !OnChannel(row, channel) { assert earlier + [] == earlier; }
      }
    }
  }

  // ---- what became visible first ----

  /** Text that is not empty, on a channel. */
  predicate Shown(row: Row, channel: int) { On(row, channel) && row.hex.Some? && row.hex.value != "" }

  predicate ShownOn(row: Row, channels: seq<int>) { exists c :: c in channels && Shown(row, c) }

  /** The time of the first fragment shown on one of the channels, or none if none is shown. */
  ghost predicate FirstTime(rows: seq<Row>, channels: seq<int>, time: Option<Scalar>) {
    match time
    case None => forall k :: 0 <= k < |rows| ==> !ShownOn(rows[k], channels)
    case Some(s) =>
      exists k :: 0 <= k < |rows| && ShownOn(rows[k], channels) && rows[k].seconds == s
                  && forall j :: 0 <= j < k ==> !ShownOn(rows[j], channels)
  }

  lemma VisibleIs(row: Row, channels: set<int>, list: seq<int>)
    requires row.Fragment? && forall c :: c in channels <==> c in list
    ensures Visible(row, channels) <==> ShownOn(row, list)
  {
    forall c ensures OnChannel(row, c) <==> On(row, c) { NumeralIs(row.channel, c); }
  }

  lemma {:induction false} FirstExactly(rows: seq<Row>, channels: set<int>, list: seq<int>)
    requires AllFragments(rows) && forall c :: c in channels <==> c in list
    ensures FirstTime(rows, list, SecondsOf(First(rows, channels)))
    decreases rows
  {
    if rows != [] {
      VisibleIs(rows[0], channels, list);
      FirstExactly(rows[1..], channels, list);
      var rest := SecondsOf(First(rows[1..], channels));
      if !Visible(rows[0], channels) { FirstTimeMore(rows, list, rest); }
    }
  }

  lemma FirstTimeMore(rows: seq<Row>, list: seq<int>, time: Option<Scalar>)
    requires rows != [] && AllFragments(rows) && !ShownOn(rows[0], list) && FirstTime(rows[1..], list, time)
    ensures FirstTime(rows, list, time)
  {
    if time.Some? {
      var k :| 0 <= k < |rows[1..]| && ShownOn(rows[1..][k], list) && rows[1..][k].seconds == time.value
               && forall j :: 0 <= j < k ==> !ShownOn(rows[1..][j], list);
      assert rows[k + 1] == rows[1..][k];
      forall j | 0 <= j < k + 1 ensures !ShownOn(rows[j], list) {
        if j > 0 { assert rows[1..][j - 1] == rows[j]; }
      }
    } else {
      forall k | 0 <= k < |rows| ensures !ShownOn(rows[k], list) {
        if k > 0 { assert rows[1..][k - 1] == rows[k]; }
      }
    }
  }

  lemma FirstTimeUnique(rows: seq<Row>, list: seq<int>, a: Option<Scalar>, b: Option<Scalar>)
    requires AllFragments(rows) && FirstTime(rows, list, a) && FirstTime(rows, list, b)
    ensures a == b
  {
    if a.Some? && b.Some? {
      var i :| 0 <= i < |rows| && ShownOn(rows[i], list) && rows[i].seconds == a.value
               && forall j :: 0 <= j < i ==> !ShownOn(rows[j], list);
      var k :| 0 <= k < |rows| && ShownOn(rows[k], list) && rows[k].seconds == b.value
               && forall j :: 0 <= j < k ==> !ShownOn(rows[j], list);
      assert i == k;
    }
  }

  lemma Untimed(rows: seq<Row>, channels: set<int>, list: seq<int>)
    requires AllFragments(rows) && forall c :: c in channels <==> c in list
    ensures SecondsOf(First(rows, channels)) == Some(Absent) <==> FirstTime(rows, list, Some(Absent))
  {
    FirstExactly(rows, channels, list);
    if FirstTime(rows, list, Some(Absent)) {
      FirstTimeUnique(rows, list, SecondsOf(First(rows, channels)), Some(Absent));
    }
  }

  // ---- what is reported of a turn ----

  /** Channel 1 is the answer and channel 2 the reasoning. */
  ghost predicate Reported(o: Oracles, t: Turn, r: Observation) {
    && r.row == t.terminal
    && r.admitted == (if t.started.Some? && t.started.value.Started? then Some(t.started.value.seconds) else None)
    && FirstTime(t.fragments, [1, 2], r.firstVisible)
    && FirstTime(t.fragments, [1], r.firstFinal) && FirstTime(t.fragments, [2], r.firstReasoning)
    && (exists answer :: Carried(o, t.fragments, 1, answer) && r.finalSha == o.sha256(answer))
    && (exists thought :: Carried(o, t.fragments, 2, thought) && r.reasoningSha == o.sha256(thought))
  }

  lemma ObserveReports(o: Oracles, t: Turn)
    requires TurnOk(o, t)
    ensures Reported(o, t, Observe(o, t))
  {
    FirstExactly(t.fragments, {1, 2}, [1, 2]);
    FirstExactly(t.fragments, {1}, [1]);
    FirstExactly(t.fragments, {2}, [2]);
    ContentExactly(o, t.fragments, 1, Content(o, t.fragments, 1).value);
    ContentExactly(o, t.fragments, 2, Content(o, t.fragments, 2).value);
  }

  /** So each observation of a summary reports its turn. */
  lemma SummaryReports(o: Oracles, turns: seq<Turn>, k: nat)
    requires AllTurnsOk(o, turns) && k < |turns|
    ensures |Observations(o, turns)| == |turns| && Reported(o, turns[k], Observations(o, turns)[k])
  {
    ObservationAt(o, turns, k);
    ObserveReports(o, turns[k]);
  }

  // ---- which turns are correct ----

  /** A time that is there and not before another. */
  ghost predicate NotBefore(v: Scalar, s: real) { exists x :: x >= s && Clock(v, x) }

  /** An acknowledged request n at time s. */
  predicate Acknowledges(row: Row, n: int, s: real) {
    row.Started? && n > 0 && s >= 0.0 && row.request == Int(n) && Clock(row.seconds, s)
  }

  /** Everything in the turn belongs to the request and comes after its acknowledgement. */
  ghost predicate Belongs(t: Turn, n: int, s: real)
    requires t.terminal.Terminal? && AllFragments(t.fragments)
  {
    && (forall k :: 0 <= k < |t.fragments| ==> Numeral(t.fragments[k].request, n) && NotBefore(t.fragments[k].seconds, s))
    && Numeral(t.terminal.request, n) && NotBefore(t.terminal.complete, s)
  }

  lemma NotBeforeIs(v: Scalar, s: real)
    requires s >= 0.0
    ensures NotBefore(v, s) <==> Elapsed(v) && Seconds(v) >= s
  {
    if Elapsed(v) && Seconds(v) >= s { assert Clock(v, Seconds(v)); }
  }

  lemma FollowsIs(started: Row, n: int, s: real, request: Scalar, seconds: Scalar)
    requires Acknowledges(started, n, s)
    ensures StartedOk(started)
    ensures Follows(Some(started), request, seconds) <==> Numeral(request, n) && NotBefore(seconds, s)
  {
    NumeralIs(request, n);
    NotBeforeIs(seconds, s);
  }

  lemma StartedIs(row: Row) returns (n: int, s: real)
    requires StartedOk(row)
    ensures Acknowledges(row, n, s)
  {
    n, s := row.request.i, Seconds(row.seconds);
  }

  /** A turn is correct exactly when its parts are of their kinds, it belongs to its acknowledgement if
      it has one, its counts add up, its fragments are complete, both channels decode, and what
      became visible first carries a time. */
  lemma TurnExactly(o: Oracles, t: Turn)
    ensures TurnOk(o, t) <==>
            && AllFragments(t.fragments) && t.terminal.Terminal?
            && (t.started.Some? ==> exists n, s :: Acknowledges(t.started.value, n, s) && Belongs(t, n, s))
            && CountsOk(t.terminal)
            && (forall k :: 0 <= k < |t.fragments| ==> t.fragments[k].channel != Absent && t.fragments[k].hex.Some?)
            && (exists answer :: Carried(o, t.fragments, 1, answer))
            && (exists thought :: Carried(o, t.fragments, 2, thought))
            && !FirstTime(t.fragments, [1], Some(Absent)) && !FirstTime(t.fragments, [2], Some(Absent))
            && !FirstTime(t.fragments, [1, 2], Some(Absent))
  {
    if AllFragments(t.fragments) && t.terminal.Terminal? {
      BelongsExactly(t);
      ReadableExactly(o, t.fragments);
    }
  }

  lemma BelongsExactly(t: Turn)
    requires AllFragments(t.fragments) && t.terminal.Terminal?
    ensures OpenOk(t.started, t.fragments) && Follows(t.started, t.terminal.request, t.terminal.complete) <==>
            (t.started.Some? ==> exists n, s :: Acknowledges(t.started.value, n, s) && Belongs(t, n, s))
  {
    if t.started.Some? {
      if StartedOk(t.started.value) {
        var n, s := StartedIs(t.started.value);
        BelongsIs(t, n, s);
      }
      if n, s :| Acknowledges(t.started.value, n, s) && Belongs(t, n, s) { BelongsIs(t, n, s); }
    }
  }

  lemma BelongsIs(t: Turn, n: int, s: real)
    requires AllFragments(t.fragments) && t.terminal.Terminal?
    requires t.started.Some? && Acknowledges(t.started.value, n, s)
    ensures StartedOk(t.started.value)
    ensures OpenOk(t.started, t.fragments) && Follows(t.started, t.terminal.request, t.terminal.complete) <==>
            Belongs(t, n, s)
  {
    FollowsIs(t.started.value, n, s, t.terminal.request, t.terminal.complete);
    forall k | 0 <= k < |t.fragments|
      ensures Follows(t.started, t.fragments[k].request, t.fragments[k].seconds) <==>
              Numeral(t.fragments[k].request, n) && NotBefore(t.fragments[k].seconds, s)
    {
      FollowsIs(t.started.value, n, s, t.fragments[k].request, t.fragments[k].seconds);
    }
  }

  lemma DecodesExactly(o: Oracles, rows: seq<Row>, channel: int)
    requires AllFragments(rows)
    ensures Content(o, rows, channel).Some? <==> exists content :: Carried(o, rows, channel, content)
  {
    if Content(o, rows, channel).Some? { ContentExactly(o, rows, channel, Content(o, rows, channel).value); }
    if content :| Carried(o, rows, channel, content) { ContentExactly(o, rows, channel, content); }
  }

  lemma ReadableExactly(o: Oracles, rows: seq<Row>)
    requires AllFragments(rows)
    ensures Readable(o, rows) <==>
            && (forall k :: 0 <= k < |rows| ==> rows[k].channel != Absent && rows[k].hex.Some?)
            && (exists answer :: Carried(o, rows, 1, answer)) && (exists thought :: Carried(o, rows, 2, thought))
            && !FirstTime(rows, [1], Some(Absent)) && !FirstTime(rows, [2], Some(Absent))
            && !FirstTime(rows, [1, 2], Some(Absent))
  {
    DecodesExactly(o, rows, 1);
    DecodesExactly(o, rows, 2);
    Untimed(rows, {1}, [1]);
    Untimed(rows, {2}, [2]);
    Untimed(rows, {1, 2}, [1, 2]);
  }
}
