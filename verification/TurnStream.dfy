/** The native turn stream of tools/qualification_run.py: rows of three kinds, mixed with others,
    are grouped into turns and every turn is summarized.

    Times and numbers are exact. Decoding hexadecimal text and hashing are parameters. */
module TurnStream {
  import opened Bytes
  import opened Sequences
  import opened Wrappers

  /** A JSON scalar as Python holds it; Absent stands for a missing key. */
  datatype Scalar =
    | Absent | Null | Bool(b: bool) | Word(text: string)
    | Int(i: int) | Float(x: real) | Infinity(positive: bool) | NaN

  function Number(v: Scalar): Option<real> {
    match v
    case Int(i) => Some(i as real)
    case Float(x) => Some(x)
    case Bool(b) => Some(if b then 1.0 else 0.0)
    case _ => None
  }

  /** Python's ==: numbers of every type compare by value. */
  predicate Same(a: Scalar, b: Scalar) {
    if Number(a).Some? && Number(b).Some? then Number(a) == Number(b) else a == b && !a.NaN?
  }

  /** A finite, non-negative int or float, and no bool. */
  predicate Elapsed(v: Scalar) { (v.Int? && v.i >= 0) || (v.Float? && v.x >= 0.0) }

  function Seconds(v: Scalar): real
    requires Elapsed(v)
  {
    Number(v).value
  }

  datatype Row =
    | Started(request: Scalar, seconds: Scalar)
    | Fragment(request: Scalar, seconds: Scalar, channel: Scalar, hex: Option<string>)
    | Terminal(request: Scalar, complete: Scalar, prompt: Scalar, reused: Scalar, prefill: Scalar)
    | Other(kind: string)
    | NoKind

  datatype Oracles = Oracles(fromHex: string -> Option<seq<byte>>, sha256: seq<byte> -> string)

  // ---- the grammar ----

  datatype Turn = Turn(started: Option<Row>, fragments: seq<Row>, terminal: Row)

  predicate StartedOk(row: Row) { row.Started? && row.request.Int? && row.request.i > 0 && Elapsed(row.seconds) }

  /** Inside an acknowledged turn: the same request, not before its acknowledgement. */
  predicate Follows(started: Option<Row>, request: Scalar, seconds: Scalar)
    requires started.Some? ==> StartedOk(started.value)
  {
    started.Some? ==>
      Same(request, started.value.request) && Elapsed(seconds) && Seconds(started.value.seconds) <= Seconds(seconds)
  }

  predicate Countable(v: Scalar) { Number(v).Some? || v.Infinity? || v.NaN? }

  /** Python's >, on numbers. */
  predicate Greater(a: Scalar, b: Scalar)
    requires Countable(a) && Countable(b)
  {
    if a.NaN? || b.NaN? then false
    else if a.Infinity? then a.positive && b != a
    else if b.Infinity? then !b.positive
    else Number(a).value > Number(b).value
  }

  /** Python's -, on numbers. */
  function Minus(a: Scalar, b: Scalar): (d: Scalar)
    requires Countable(a) && Countable(b)
    ensures Countable(d)
  {
    if a.NaN? || b.NaN? || (a.Infinity? && a == b) then NaN
    else if a.Infinity? then a
    else if b.Infinity? then Infinity(!b.positive)
    else Float(Number(a).value - Number(b).value)
  }

  /** What was prefilled and what was reused make up the prompt, in any finite case; otherwise the
      prefill count is infinite, and so is the prompt or, downwards, the reuse. */
  predicate CountsOk(row: Row)
    requires row.Terminal?
  {
    var prompt, reused, prefill := Number(row.prompt), Number(row.reused), Number(row.prefill);
    if prompt.Some? && reused.Some? && prefill.Some? then
      prefill.value >= 0.0 && prefill.value + reused.value == prompt.value
    else
      && row.prefill == Infinity(true)
      && ((row.prompt == Infinity(true) && (reused.Some? || row.reused == Infinity(false)))
          || (prompt.Some? && row.reused == Infinity(false)))
  }

  predicate OnChannel(row: Row, channel: int)
    requires row.Fragment?
  {
    Same(row.channel, Int(channel))
  }

  predicate AllFragments(rows: seq<Row>) { forall k :: 0 <= k < |rows| ==> rows[k].Fragment? }

  /** Delivered text that is not empty, on one of the channels. */
  predicate Visible(row: Row, channels: set<int>)
    requires row.Fragment?
  {
    row.hex.Some? && row.hex.value != "" && exists c :: c in channels && OnChannel(row, c)
  }

  /** What the row delivers, when its text is there and decodes. */
  function Delivery(o: Oracles, row: Row): Option<seq<byte>>
    requires row.Fragment?
  {
    if row.hex.Some? then o.fromHex(row.hex.value) else None
  }

  /** The first visible fragment, on one channel or on either. */
  function First(rows: seq<Row>, channels: set<int>): (r: Option<Row>)
    requires AllFragments(rows)
    ensures r.Some? ==> r.value.Fragment?
  {
    if rows == [] then None
    else if Visible(rows[0], channels) then Some(rows[0])
    else First(rows[1..], channels)
  }

  function SecondsOf(row: Option<Row>): Option<Scalar>
    requires row.Some? ==> row.value.Fragment?
  {
    if row.Some? then Some(row.value.seconds) else None
  }

  /** What the channel carried, in order; None when some text does not decode. */
  function Content(o: Oracles, rows: seq<Row>, channel: int): Option<seq<byte>>
    requires AllFragments(rows)
  {
    if rows == [] then Some([])
    else
      var row, before := rows[|rows| - 1], Content(o, rows[..|rows| - 1], channel);
      if !OnChannel(row, channel) then before
      else if before.None? || Delivery(o, row).None? then None
      else Some(before.value + Delivery(o, row).value)
  }

  /** Every fragment has its channel and its text. */
  predicate Complete(rows: seq<Row>)
    requires AllFragments(rows)
  {
    forall k :: 0 <= k < |rows| ==> rows[k].channel != Absent && rows[k].hex.Some?
  }

  /** Fragments are complete, a turn's texts decode, and its first visible ones carry a time. */
  predicate Readable(o: Oracles, rows: seq<Row>)
    requires AllFragments(rows)
  {
    && Complete(rows)
    && Content(o, rows, 1).Some? && Content(o, rows, 2).Some?
    && SecondsOf(First(rows, {1})) != Some(Absent) && SecondsOf(First(rows, {2})) != Some(Absent)
    && SecondsOf(First(rows, {1, 2})) != Some(Absent)
  }

  /** A turn under way: an admitted acknowledgement, if any, and fragments that follow it. */
  predicate OpenOk(started: Option<Row>, fragments: seq<Row>) {
    && (started.Some? ==> StartedOk(started.value))
    && AllFragments(fragments)
    && forall k :: 0 <= k < |fragments| ==> Follows(started, fragments[k].request, fragments[k].seconds)
  }

  predicate TurnOk(o: Oracles, t: Turn) {
    && OpenOk(t.started, t.fragments)
    && t.terminal.Terminal? && Follows(t.started, t.terminal.request, t.terminal.complete)
    && CountsOk(t.terminal) && Readable(o, t.fragments)
  }

  predicate AllTurnsOk(o: Oracles, turns: seq<Turn>) { forall k :: 0 <= k < |turns| ==> TurnOk(o, turns[k]) }

  function Rows(t: Turn): seq<Row> { Head(t.started, t.fragments) + [t.terminal] }

  function Head(started: Option<Row>, fragments: seq<Row>): seq<Row> {
    (if started.Some? then [started.value] else []) + fragments
  }

  function Flatten(turns: seq<Turn>): seq<Row> {
    if turns == [] then [] else Flatten(turns[..|turns| - 1]) + Rows(turns[|turns| - 1])
  }

  /** Rows of other kinds mean nothing here. */
  function Relevant(rows: seq<Row>): seq<Row> {
    if rows == [] then []
    else
      var before := Relevant(rows[..|rows| - 1]);
      if rows[|rows| - 1].Other? then before else before + [rows[|rows| - 1]]
  }

  // ---- the summarizer ----

  /** What is reported of a turn: its terminal row, the times of what became visible first, and a
      digest of each channel. */
  datatype Observation = Observation(row: Row, firstVisible: Option<Scalar>, admitted: Option<Scalar>,
                                     firstFinal: Option<Scalar>, firstReasoning: Option<Scalar>,
                                     finalSha: string, reasoningSha: string)

  function Observe(o: Oracles, t: Turn): Observation
    requires TurnOk(o, t)
  {
    Observation(t.terminal, SecondsOf(First(t.fragments, {1, 2})),
                if t.started.Some? then Some(t.started.value.seconds) else None,
                SecondsOf(First(t.fragments, {1})), SecondsOf(First(t.fragments, {2})),
                o.sha256(Content(o, t.fragments, 1).value), o.sha256(Content(o, t.fragments, 2).value))
  }

  function Observations(o: Oracles, turns: seq<Turn>): seq<Observation>
    requires AllTurnsOk(o, turns)
  {
    if turns == [] then [] else Observations(o, turns[..|turns| - 1]) + [Observe(o, turns[|turns| - 1])]
  }

  datatype Result<T> = Ok(value: T) | Error

  /** The loop's state: finished turns and the one under way. */
  datatype State = State(turns: seq<Turn>, started: Option<Row>, fragments: seq<Row>)

  predicate StateOk(o: Oracles, s: State) { AllTurnsOk(o, s.turns) && OpenOk(s.started, s.fragments) }

  function Step(o: Oracles, s: State, row: Row): Result<State>
    requires StateOk(o, s)
  {
    match row
    case Other(_) => Ok(s)
    case NoKind => Error
    case Started(_, _) =>
      if s.started.None? && s.fragments == [] && StartedOk(row) then Ok(s.(started := Some(row))) else Error
    case Fragment(request, seconds, _, _) =>
      if Follows(s.started, request, seconds) then Ok(s.(fragments := s.fragments + [row])) else Error
    case Terminal(_, _, _, _, _) =>
      var t := Turn(s.started, s.fragments, row);
      if TurnOk(o, t) then Ok(State(s.turns + [t], None, [])) else Error
  }

  lemma StepOk(o: Oracles, s: State, row: Row)
    requires StateOk(o, s) && Step(o, s, row).Ok?
    ensures StateOk(o, Step(o, s, row).value)
  {
  }

  function Run(o: Oracles, s: State, rows: seq<Row>): (r: Result<State>)
    requires StateOk(o, s)
    ensures r.Ok? ==> StateOk(o, r.value)
  {
    if rows == [] then Ok(s)
    else
      var before := Run(o, s, rows[..|rows| - 1]);
      if before.Error? then Error
      else
        var r := Step(o, before.value, rows[|rows| - 1]);
        assert r.Ok? ==> StateOk(o, r.value) by { if r.Ok? { StepOk(o, before.value, rows[|rows| - 1]); } }
        r
  }

  /** The turns of a stream, when it is a sequence of complete and correct turns. */
  function Parse(o: Oracles, rows: seq<Row>): (r: Result<seq<Turn>>)
    ensures r.Ok? ==> AllTurnsOk(o, r.value)
  {
    var r := Run(o, State([], None, []), rows);
    if r.Ok? && r.value.started.None? && r.value.fragments == [] then Ok(r.value.turns) else Error
  }

  lemma {:induction false} ErrorStays(o: Oracles, s: State, rows: seq<Row>, n: nat)
    requires StateOk(o, s) && n <= |rows| && Run(o, s, rows[..n]).Error?
    ensures Run(o, s, rows).Error?
    decreases |rows|
  {
    if n < |rows| {
      assert rows[..|rows| - 1][..n] == rows[..n];
      ErrorStays(o, s, rows[..|rows| - 1], n);
    } else {
      assert rows[..n] == rows;
    }
  }

  lemma RunStep(o: Oracles, s: State, rows: seq<Row>, n: nat)
    requires StateOk(o, s) && n < |rows| && Run(o, s, rows[..n]).Ok?
    ensures Run(o, s, rows[..n + 1]) == Step(o, Run(o, s, rows[..n]).value, rows[n])
  {
    assert rows[..n + 1][..n] == rows[..n];
  }

  /** The source's checks on a terminal row, and what it reports. */
  method Finish(o: Oracles, started: Option<Row>, fragments: seq<Row>, row: Row) returns (r: Result<Observation>)
    requires OpenOk(started, fragments) && row.Terminal?
    ensures r.Ok? <==> TurnOk(o, Turn(started, fragments, row))
    ensures r.Ok? ==> r.value == Observe(o, Turn(started, fragments, row))
  {
    if started.Some? && (!Same(row.request, started.value.request) || !Elapsed(row.complete)
                         || Seconds(row.complete) < Seconds(started.value.seconds)) {
      return Error;
    }
    if !Countable(row.prompt) || !Countable(row.reused) { return Error; }
    if Greater(row.reused, row.prompt) { return Error; }
    if !Same(row.prefill, Minus(row.prompt, row.reused)) { return Error; }
    if !Complete(fragments) { return Error; }
    var final, reasoning := Content(o, fragments, 1), Content(o, fragments, 2);
    if final.None? || reasoning.None? { return Error; }
    var visible := SecondsOf(First(fragments, {1, 2}));
    var answer, thought := SecondsOf(First(fragments, {1})), SecondsOf(First(fragments, {2}));
    if visible == Some(Absent) || answer == Some(Absent) || thought == Some(Absent) { return Error; }
    r := Ok(Observation(row, visible, if started.Some? then Some(started.value.seconds) else None, answer, thought,
                        o.sha256(final.value), o.sha256(reasoning.value)));
  }

  method SummarizeNative(o: Oracles, rows: seq<Row>) returns (r: Result<seq<Observation>>)
    ensures r.Ok? <==> Parse(o, rows).Ok?
    ensures r.Ok? ==> r.value == Observations(o, Parse(o, rows).value)
  {
    var result: seq<Observation>, fragments: seq<Row>, started: Option<Row> := [], [], None;
    ghost var init, turns := State([], None, []), [];
    for n := 0 to |rows|
      invariant StateOk(o, State(turns, started, fragments))
      invariant Run(o, init, rows[..n]) == Ok(State(turns, started, fragments))
      invariant result == Observations(o, turns)
    {
      var row := rows[n];
      RunStep(o, init, rows, n);
      if row.Started? {
        if started.Some? || fragments != [] || !row.request.Int? || row.request.i <= 0 || !Elapsed(row.seconds) {
          ErrorStays(o, init, rows, n + 1);
          return Error;
        }
        started := Some(row);
      } else if row.Fragment? {
        if started.Some? && (!Same(row.request, started.value.request) || !Elapsed(row.seconds)
                             || Seconds(row.seconds) < Seconds(started.value.seconds)) {
          ErrorStays(o, init, rows, n + 1);
          return Error;
        }
        fragments := fragments + [row];
      } else if row.Terminal? {
        var observation := Finish(o, started, fragments, row);
        if observation.Error? {
          ErrorStays(o, init, rows, n + 1);
          return Error;
        }
        result := result + [observation.value];
        turns := turns + [Turn(started, fragments, row)];
        fragments, started := [], None;
      } else if row.NoKind? {
        ErrorStays(o, init, rows, n + 1);
        return Error;
      }
    }
    assert rows[..|rows|] == rows;
    if fragments != [] || started.Some? { return Error; }
    r := Ok(result);
  }

  // ---- the grammar is what is accepted ----

  lemma {:induction false} RunConcat(o: Oracles, s: State, a: seq<Row>, b: seq<Row>)
    requires StateOk(o, s) && Run(o, s, a).Ok?
    ensures Run(o, s, a + b) == Run(o, Run(o, s, a).value, b)
    decreases b
  {
    if b == [] {
      assert a + b == a;
    } else {
      assert (a + b)[..|a + b| - 1] == a + b[..|b| - 1];
      RunConcat(o, s, a, b[..|b| - 1]);
    }
  }

  lemma RunMore(o: Oracles, s: State, rows: seq<Row>, row: Row, t: State)
    requires StateOk(o, s) && Run(o, s, rows) == Ok(t)
    ensures Run(o, s, rows + [row]) == Step(o, t, row)
  {
    assert (rows + [row])[..|rows|] == rows;
  }

  lemma HeadMore(started: Option<Row>, fragments: seq<Row>, row: Row)
    ensures Head(started, fragments + [row]) == Head(started, fragments) + [row]
  {
  }

  lemma {:induction false} RunHead(o: Oracles, turns: seq<Turn>, started: Option<Row>, fragments: seq<Row>)
    requires AllTurnsOk(o, turns) && OpenOk(started, fragments)
    ensures Run(o, State(turns, None, []), Head(started, fragments)) == Ok(State(turns, started, fragments))
    decreases fragments
  {
    var s := State(turns, None, []);
    if fragments == [] {
      if started.Some? {
        RunMore(o, s, [], started.value, s);
        assert Head(started, fragments) == [] + [started.value];
      }
    } else {
      var n := |fragments| - 1;
      var front, last := fragments[..n], fragments[n];
      RunHead(o, turns, started, front);
      RunMore(o, s, Head(started, front), last, State(turns, started, front));
      assert fragments == front + [last];
      HeadMore(started, front, last);
    }
  }

  lemma RunTurn(o: Oracles, turns: seq<Turn>, t: Turn)
    requires AllTurnsOk(o, turns) && TurnOk(o, t)
    ensures Reaches(o, State(turns, None, []), Rows(t), State(turns + [t], None, []))
  {
    RunHead(o, turns, t.started, t.fragments);
    assert Rows(t)[..|Rows(t)| - 1] == Head(t.started, t.fragments);
  }

  predicate Reaches(o: Oracles, s: State, rows: seq<Row>, t: State)
    requires StateOk(o, s)
  {
    Run(o, s, rows) == Ok(t)
  }

  lemma RunBoth(o: Oracles, s: State, a: seq<Row>, t: State, b: seq<Row>, u: State)
    requires StateOk(o, s) && Reaches(o, s, a, t) && StateOk(o, t) && Reaches(o, t, b, u)
    ensures Reaches(o, s, a + b, u)
  {
    RunConcat(o, s, a, b);
  }

  lemma {:induction false} RunFlatten(o: Oracles, turns: seq<Turn>)
    requires AllTurnsOk(o, turns)
    ensures Reaches(o, State([], None, []), Flatten(turns), State(turns, None, []))
  {
    if turns != [] {
      var n := |turns| - 1;
      RunFlatten(o, turns[..n]);
      RunTurn(o, turns[..n], turns[n]);
      assert turns[..n] + [turns[n]] == turns;
      RunBoth(o, State([], None, []), Flatten(turns[..n]), State(turns[..n], None, []),
              Rows(turns[n]), State(turns, None, []));
    }
  }

  lemma {:induction false} RunRelevant(o: Oracles, s: State, rows: seq<Row>)
    requires StateOk(o, s)
    ensures Run(o, s, rows) == Run(o, s, Relevant(rows))
    decreases rows
  {
    if rows != [] {
      var n := |rows| - 1;
      RunRelevant(o, s, rows[..n]);
      if !rows[n].Other? { assert (Relevant(rows[..n]) + [rows[n]])[..|Relevant(rows[..n])|] == Relevant(rows[..n]); }
    }
  }

  /** Whatever was consumed is exactly the finished turns and the one under way. */
  lemma {:induction false} RunKeepsRows(o: Oracles, rows: seq<Row>)
    requires Run(o, State([], None, []), rows).Ok?
    ensures var s := Run(o, State([], None, []), rows).value;
            Relevant(rows) == Flatten(s.turns) + Head(s.started, s.fragments)
    decreases rows
  {
    if rows != [] {
      var n := |rows| - 1;
      RunKeepsRows(o, rows[..n]);
      StepKeepsRows(o, Run(o, State([], None, []), rows[..n]).value, rows[n]);
    }
  }

  lemma StepKeepsRows(o: Oracles, s: State, row: Row)
    requires StateOk(o, s) && Step(o, s, row).Ok?
    ensures var s' := Step(o, s, row).value;
            Flatten(s'.turns) + Head(s'.started, s'.fragments) ==
            Flatten(s.turns) + Head(s.started, s.fragments) + if row.Other? then [] else [row]
  {
    if row.Terminal? {
      var t := Turn(s.started, s.fragments, row);
      assert (s.turns + [t])[..|s.turns|] == s.turns;
    }
  }

  /** A stream is accepted exactly when its relevant rows are some sequence of correct turns. */
  lemma AcceptsExactly(o: Oracles, rows: seq<Row>)
    ensures Parse(o, rows).Ok? <==> exists turns :: AllTurnsOk(o, turns) && Flatten(turns) == Relevant(rows)
    ensures Parse(o, rows).Ok? ==> Flatten(Parse(o, rows).value) == Relevant(rows)
  {
    if Parse(o, rows).Ok? {
      RunKeepsRows(o, rows);
      var turns := Parse(o, rows).value;
      assert Flatten(turns) + Head(None, []) == Flatten(turns);
    }
    forall turns | AllTurnsOk(o, turns) && Flatten(turns) == Relevant(rows) ensures Parse(o, rows).Ok? {
      RunFlatten(o, turns);
      RunRelevant(o, State([], None, []), rows);
    }
  }

  /** Flattening correct turns and reading them back returns those turns, whatever other rows
      are mixed in. */
  lemma RoundTrip(o: Oracles, turns: seq<Turn>, rows: seq<Row>)
    requires AllTurnsOk(o, turns) && Relevant(rows) == Flatten(turns)
    ensures Parse(o, rows) == Ok(turns)
  {
    RunFlatten(o, turns);
    RunRelevant(o, State([], None, []), rows);
  }

  /** So the grouping into turns is unique. */
  lemma UniqueGrouping(o: Oracles, a: seq<Turn>, b: seq<Turn>)
    requires AllTurnsOk(o, a) && AllTurnsOk(o, b) && Flatten(a) == Flatten(b)
    ensures a == b
  {
    RunFlatten(o, a);
    RunFlatten(o, b);
  }

  /** One observation a turn, in order. */
  lemma {:induction false} ObservationAt(o: Oracles, turns: seq<Turn>, k: nat)
    requires AllTurnsOk(o, turns) && k < |turns|
    ensures |Observations(o, turns)| == |turns| && Observations(o, turns)[k] == Observe(o, turns[k])
    decreases turns
  {
    if |turns| > 1 {
      ObservationAt(o, turns[..|turns| - 1], if k < |turns| - 1 then k else 0);
    }
  }

  /** The first visible time belongs to a visible fragment with none before it. */
  lemma {:induction false} FirstIsFirst(rows: seq<Row>, channels: set<int>, k: nat)
    requires AllFragments(rows) && k < |rows| && Visible(rows[k], channels)
    ensures First(rows, channels).Some?
    ensures exists j :: 0 <= j <= k && First(rows, channels) == Some(rows[j])
                        && Visible(rows[j], channels)
    decreases rows
  {
    if First(rows, channels) == Some(rows[0]) && Visible(rows[0], channels) {
    } else {
      FirstIsFirst(rows[1..], channels, k - 1);
      var j :| 0 <= j <= k - 1 && First(rows[1..], channels) == Some(rows[1..][j])
               && Visible(rows[1..][j], channels);
      assert rows[1..][j] == rows[j + 1];
    }
  }

  /** A channel's content is the concatenation over any split of the fragments. */
  lemma {:induction false} ContentJoins(o: Oracles, a: seq<Row>, b: seq<Row>, channel: int)
    requires AllFragments(a) && AllFragments(b)
    ensures AllFragments(a + b)
    ensures Content(o, a + b, channel) ==
            if Content(o, a, channel).Some? && Content(o, b, channel).Some?
            then Some(Content(o, a, channel).value + Content(o, b, channel).value) else None
    decreases b
  {
    if b == [] {
      assert a + b == a && Content(o, b, channel) == Some([]);
      if Content(o, a, channel).Some? { assert Content(o, a, channel).value + [] == Content(o, a, channel).value; }
    } else {
      var n := |b| - 1;
      assert (a + b)[..|a + b| - 1] == a + b[..n] && (a + b)[|a + b| - 1] == b[n];
      ContentJoins(o, a, b[..n], channel);
      if Content(o, a, channel).Some? && Content(o, b[..n], channel).Some? && Delivery(o, b[n]).Some? {
        Regroup(Content(o, a, channel).value, Content(o, b[..n], channel).value, Delivery(o, b[n]).value);
      }
    }
  }

}
