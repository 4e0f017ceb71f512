/** The Mermaid projection of tools/render_diagrams.py: panels own what they enclose, and are
    emitted as nested subgraphs by a recursive traversal.

    Coordinates are reals. A line of output is what it means: opening or closing a subgraph,
    a node, a band, or an invisible ordering constraint. */
module Panels {
  import opened Sequences
  import opened Wrappers

  datatype Box = Box(x: real, y: real, w: real, h: real)

  predicate Contains(outer: Box, inner: Box) {
    && outer.x <= inner.x && outer.y <= inner.y
    && inner.x + inner.w <= outer.x + outer.w && inner.y + inner.h <= outer.y + outer.h
    && outer != inner
  }

  predicate Within(b: Box, px: real, py: real) { b.x <= px <= b.x + b.w && b.y <= py <= b.y + b.h }

  /** Every point of the inner box is a point of the outer one, and they are not the same box. */
  ghost predicate Covers(outer: Box, inner: Box) {
    outer != inner && forall px, py :: Within(inner, px, py) ==> Within(outer, px, py)
  }

  /** Containing is covering, for boxes that have points at all. */
  lemma ContainsExactly(outer: Box, inner: Box)
    requires inner.w >= 0.0 && inner.h >= 0.0
    ensures Contains(outer, inner) <==> Covers(outer, inner)
  {
    assert Within(inner, inner.x, inner.y) && Within(inner, inner.x + inner.w, inner.y + inner.h);
  }

  function Area(b: Box): real { b.w * b.h }

  predicate Positive(boxes: seq<Box>) {
    forall i :: 0 <= i < |boxes| ==> boxes[i].w > 0.0 && boxes[i].h > 0.0
  }

  /** A box that strictly contains another of positive size is larger. */
  lemma ContainsIsLarger(outer: Box, inner: Box)
    requires Contains(outer, inner) && inner.w > 0.0 && inner.h > 0.0
    ensures Area(inner) < Area(outer)
  {
    var dw, dh := outer.w - inner.w, outer.h - inner.h;
    assert dw >= 0.0 && dh >= 0.0 && (dw > 0.0 || dh > 0.0);
    assert Area(outer) == Area(inner) + dw * outer.h + inner.w * dh;
    Product(dw, outer.h);
    Product(inner.w, dh);
  }

  lemma Product(a: real, b: real)
    requires a >= 0.0 && b >= 0.0
    ensures a * b >= 0.0 && (a > 0.0 && b > 0.0 ==> a * b > 0.0)
  {
  }

  /** The first smallest containing panel among the first n. */
  function Smallest(panels: seq<Box>, box: Box, n: nat): (p: Option<nat>)
    requires n <= |panels|
    ensures p.Some? ==> p.value < n
  {
    if n == 0 then None
    else
      var best := Smallest(panels, box, n - 1);
      if !Contains(panels[n - 1], box) then best
      else if best.Some? && Area(panels[best.value]) <= Area(panels[n - 1]) then best
      else Some(n - 1)
  }

  /** Nobody owns the box only if no panel contains it; otherwise its owner contains it, none that
      does is smaller, and none before it is as small. */
  lemma {:induction false} SmallestContains(panels: seq<Box>, box: Box, n: nat, j: nat)
    requires j < n <= |panels| && Contains(panels[j], box)
    ensures Smallest(panels, box, n).Some? && Contains(panels[Smallest(panels, box, n).value], box)
    ensures var i := Smallest(panels, box, n).value;
            Area(panels[i]) <= Area(panels[j]) && (j < i ==> Area(panels[i]) < Area(panels[j]))
  {
    if j < n - 1 { SmallestContains(panels, box, n - 1, j); } else { OwnerContains(panels, box, n - 1); }
  }

  lemma {:induction false} OwnerContains(panels: seq<Box>, box: Box, n: nat)
    requires n <= |panels|
    ensures Smallest(panels, box, n).Some? ==> Contains(panels[Smallest(panels, box, n).value], box)
  {
    if n > 0 { OwnerContains(panels, box, n - 1); }
  }

  /** Panel i has the smaller product of width and height, or comes first among equals. */
  predicate Beats(panels: seq<Box>, i: nat, k: nat)
    requires i < |panels| && k < |panels|
  {
    && panels[i].w * panels[i].h <= panels[k].w * panels[k].h
    && (k < i ==> panels[i].w * panels[i].h < panels[k].w * panels[k].h)
  }

  /** The owner of a box, by points: the first of the smallest panels that cover it. */
  ghost predicate OwnerIs(panels: seq<Box>, box: Box, o: Option<nat>) {
    match o
    case None => forall k :: 0 <= k < |panels| ==> !Covers(panels[k], box)
    case Some(i) =>
      && i < |panels| && Covers(panels[i], box)
      && forall k :: 0 <= k < |panels| && Covers(panels[k], box) ==> Beats(panels, i, k)
  }

  /** The same by Contains. */
  predicate FirstSmallest(panels: seq<Box>, box: Box, o: Option<nat>) {
    match o
    case None => forall k :: 0 <= k < |panels| ==> !Contains(panels[k], box)
    case Some(i) =>
      && i < |panels| && Contains(panels[i], box)
      && forall k :: 0 <= k < |panels| && Contains(panels[k], box) ==> Beats(panels, i, k)
  }

  lemma SmallestExactly(panels: seq<Box>, box: Box, o: Option<nat>)
    ensures Smallest(panels, box, |panels|) == o <==> FirstSmallest(panels, box, o)
  {
    var s := Smallest(panels, box, |panels|);
    OwnerContains(panels, box, |panels|);
    forall k | 0 <= k < |panels| && Contains(panels[k], box) ensures s.Some? && Beats(panels, s.value, k) {
      SmallestContains(panels, box, |panels|, k);
    }
    assert FirstSmallest(panels, box, s);
    if FirstSmallest(panels, box, o) && o.Some? {
      assert Beats(panels, o.value, s.value) && Beats(panels, s.value, o.value);
    }
  }

  lemma OwnerExactly(panels: seq<Box>, box: Box, o: Option<nat>)
    requires box.w >= 0.0 && box.h >= 0.0
    ensures Smallest(panels, box, |panels|) == o <==> OwnerIs(panels, box, o)
  {
    SmallestExactly(panels, box, o);
    forall k | 0 <= k < |panels| ensures Contains(panels[k], box) <==> Covers(panels[k], box) {
      ContainsExactly(panels[k], box);
    }
  }

  /** A figure after validation: boxes have positive sizes, edges join nodes by position. */
  datatype Diagram = Diagram(panels: seq<Box>, nodes: seq<Box>, bands: seq<Box>, edges: seq<(nat, nat)>)

  /** Who owns what: for each panel, node and band its panel, if it has one; and for each panel
      how many panels are smaller. */
  datatype Forest = Forest(ranks: seq<nat>, parents: seq<Option<nat>>, nodes: seq<Option<nat>>,
                           bands: seq<Option<nat>>, edges: seq<(nat, nat)>)

  predicate Known(f: Forest, o: Option<nat>) { o.Some? ==> o.value < |f.parents| }

  /** Owners exist, and a panel's owner ranks above the panel. */
  predicate Founded(f: Forest) {
    && |f.ranks| == |f.parents|
    && (forall j :: 0 <= j < |f.parents| ==> f.ranks[j] <= |f.ranks| && Grows(f, j))
  }

  predicate Grows(f: Forest, j: nat)
    requires |f.ranks| == |f.parents| && j < |f.parents|
  {
    f.parents[j].Some? ==> f.parents[j].value < |f.parents| && f.ranks[j] < f.ranks[f.parents[j].value]
  }

  /** How many of the first n panels are smaller than an area. */
  function CountSmaller(panels: seq<Box>, area: real, n: nat): (c: nat)
    requires n <= |panels|
    ensures c <= n
  {
    if n == 0 then 0 else CountSmaller(panels, area, n - 1) + if Area(panels[n - 1]) < area then 1 else 0
  }

  lemma {:induction false} CountGrows(panels: seq<Box>, small: real, large: real, n: nat, j: nat)
    requires n <= |panels| && small < large && j < |panels| && Area(panels[j]) == small
    ensures CountSmaller(panels, small, n) + (if j < n then 1 else 0) <= CountSmaller(panels, large, n)
  {
    if n > 0 { CountGrows(panels, small, large, n - 1, j); }
  }

  lemma OwnerRanksAbove(panels: seq<Box>, j: nat, i: nat)
    requires Positive(panels) && i < |panels| && j < |panels| && Contains(panels[i], panels[j])
    ensures CountSmaller(panels, Area(panels[j]), |panels|) < CountSmaller(panels, Area(panels[i]), |panels|)
  {
    ContainsIsLarger(panels[i], panels[j]);
    CountGrows(panels, Area(panels[j]), Area(panels[i]), |panels|, j);
  }

  method Owners(panels: seq<Box>, boxes: seq<Box>) returns (owners: seq<Option<nat>>)
    ensures |owners| == |boxes|
    ensures forall k :: 0 <= k < |boxes| ==> owners[k] == Smallest(panels, boxes[k], |panels|)
  {
    owners := [];
    for k := 0 to |boxes|
      invariant |owners| == k
      invariant forall j :: 0 <= j < k ==> owners[j] == Smallest(panels, boxes[j], |panels|)
    {
      owners := owners + [Smallest(panels, boxes[k], |panels|)];
    }
  }

  /** The forest of a figure: everything is owned by the smallest panel containing it. */
  predicate ForestOf(d: Diagram, f: Forest) {
    && |f.parents| == |d.panels| && |f.nodes| == |d.nodes| && |f.bands| == |d.bands|
    && (forall k :: 0 <= k < |d.panels| ==> f.parents[k] == Smallest(d.panels, d.panels[k], |d.panels|))
    && (forall k :: 0 <= k < |d.nodes| ==> f.nodes[k] == Smallest(d.panels, d.nodes[k], |d.panels|))
    && (forall k :: 0 <= k < |d.bands| ==> f.bands[k] == Smallest(d.panels, d.bands[k], |d.panels|))
    && f.edges == d.edges
  }

  method Own(d: Diagram) returns (f: Forest)
    requires Positive(d.panels)
    ensures Founded(f) && ForestOf(d, f)
  {
    var parents := Owners(d.panels, d.panels);
    var nodes := Owners(d.panels, d.nodes);
    var bands := Owners(d.panels, d.bands);
    var ranks := seq(|d.panels|, k requires 0 <= k < |d.panels| =>
      CountSmaller(d.panels, Area(d.panels[k]), |d.panels|));
    f := Forest(ranks, parents, nodes, bands, d.edges);
    forall j | 0 <= j < |parents| ensures ranks[j] <= |ranks| && Grows(f, j) {
      OwnerContains(d.panels, d.panels[j], |d.panels|);
      if parents[j].Some? { OwnerRanksAbove(d.panels, j, parents[j].value); }
    }
  }

  // ---- emission ----

  datatype Line =
    | Open(panel: nat)
    | Direction
    | NodeLine(node: nat)
    | BandLine(band: nat)
    | NodeOrder(nodes: seq<nat>)
    | BandOrder(bands: seq<nat>)
    | Close

  /** The positions before n whose owner is o, in order. */
  function Owned(owners: seq<Option<nat>>, o: Option<nat>, n: nat): seq<nat>
    requires n <= |owners|
  {
    if n == 0 then []
    else if owners[n - 1] == o then Owned(owners, o, n - 1) + [n - 1]
    else Owned(owners, o, n - 1)
  }

  function NodeLines(f: Forest, o: Option<nat>, n: nat): seq<Line>
    requires n <= |f.nodes|
  {
    if n == 0 then []
    else if f.nodes[n - 1] == o then NodeLines(f, o, n - 1) + [NodeLine(n - 1)]
    else NodeLines(f, o, n - 1)
  }

  function BandLines(f: Forest, o: Option<nat>, n: nat): seq<Line>
    requires n <= |f.bands|
  {
    if n == 0 then []
    else if f.bands[n - 1] == o then BandLines(f, o, n - 1) + [BandLine(n - 1)]
    else BandLines(f, o, n - 1)
  }

  /** No edge joins two of the nodes. */
  predicate Unordered(f: Forest, ns: seq<nat>) {
    forall e :: 0 <= e < |f.edges| ==> !(f.edges[e].0 in ns && f.edges[e].1 in ns)
  }

  function NodeConstraint(f: Forest, ns: seq<nat>): seq<Line> {
    if |ns| > 1 && Unordered(f, ns) then [NodeOrder(ns)] else []
  }

  function BandConstraint(bs: seq<nat>): seq<Line> {
    if |bs| > 1 then [BandOrder(bs)] else []
  }

  /** What stands in a panel before the panels inside it, and after them. */
  function Before(f: Forest, i: nat): seq<Line> {
    [Open(i)] + [Direction] + NodeLines(f, Some(i), |f.nodes|)
  }

  function Last(f: Forest, i: nat): seq<Line> {
    BandLines(f, Some(i), |f.bands|) + NodeConstraint(f, Owned(f.nodes, Some(i), |f.nodes|))
    + BandConstraint(Owned(f.bands, Some(i), |f.bands|))
  }

  function After(f: Forest, i: nat): seq<Line> { Last(f, i) + [Close] }

  function Rank(f: Forest, o: Option<nat>): nat
    requires |f.ranks| == |f.parents| && Known(f, o)
  {
    if o.None? then |f.ranks| + 1 else f.ranks[o.value]
  }

  function PanelLines(f: Forest, i: nat): seq<Line>
    requires Founded(f) && i < |f.parents|
    decreases f.ranks[i], |f.parents| + 1
  {
    Before(f, i) + ChildLines(f, Some(i), |f.parents|) + After(f, i)
  }

  /** The panels with owner o among the first n, each with everything inside it. */
  function ChildLines(f: Forest, o: Option<nat>, n: nat): seq<Line>
    requires Founded(f) && n <= |f.parents| && Known(f, o)
    decreases Rank(f, o), n
  {
    if n == 0 then []
    else if f.parents[n - 1] == o then
      assert Grows(f, n - 1);
      ChildLines(f, o, n - 1) + PanelLines(f, n - 1)
    else ChildLines(f, o, n - 1)
  }

  lemma ChildLinesStep(f: Forest, o: Option<nat>, j: nat, start: seq<Line>)
    requires Founded(f) && j < |f.parents| && Known(f, o)
    ensures start + ChildLines(f, o, j + 1) ==
            if f.parents[j] == o then start + ChildLines(f, o, j) + PanelLines(f, j) else start + ChildLines(f, o, j)
  {
    var before := ChildLines(f, o, j);
    Regroup(start, before, PanelLines(f, j));
  }

  /** The whole traversal: what no panel owns, then the outermost panels. */
  function AllLines(f: Forest): seq<Line>
    requires Founded(f)
  {
    NodeLines(f, None, |f.nodes|) + ChildLines(f, None, |f.parents|)
  }

  class Emitter {
    var out: seq<Line>

    constructor ()
      ensures out == []
    {
      out := [];
    }

    method EmitNodes(f: Forest, o: Option<nat>) returns (local: seq<nat>)
      modifies this
      ensures local == Owned(f.nodes, o, |f.nodes|) && out == old(out) + NodeLines(f, o, |f.nodes|)
    {
      local := [];
      for n := 0 to |f.nodes|
        invariant local == Owned(f.nodes, o, n) && out == old(out) + NodeLines(f, o, n)
      {
        if f.nodes[n] == o {
          out := out + [NodeLine(n)];
          local := local + [n];
        }
      }
    }

    method EmitBands(f: Forest, o: Option<nat>) returns (local: seq<nat>)
      modifies this
      ensures local == Owned(f.bands, o, |f.bands|) && out == old(out) + BandLines(f, o, |f.bands|)
    {
      local := [];
      for b := 0 to |f.bands|
        invariant local == Owned(f.bands, o, b) && out == old(out) + BandLines(f, o, b)
      {
        if f.bands[b] == o {
          out := out + [BandLine(b)];
          local := local + [b];
        }
      }
    }

    method Begin(f: Forest, i: nat) returns (local: seq<nat>)
      modifies this
      ensures local == Owned(f.nodes, Some(i), |f.nodes|) && out == old(out) + Before(f, i)
    {
      out := out + [Open(i)];
      out := out + [Direction];
      local := EmitNodes(f, Some(i));
    }

    method End(f: Forest, i: nat, local: seq<nat>)
      requires local == Owned(f.nodes, Some(i), |f.nodes|)
      modifies this
      ensures out == old(out) + After(f, i)
    {
      var bands := EmitBands(f, Some(i));
      if |local| > 1 && Unordered(f, local) { out := out + [NodeOrder(local)]; }
      if |bands| > 1 { out := out + [BandOrder(bands)]; }
      out := out + [Close];
    }

    /** panel(i), appending to the output as it goes down. */
    method EmitPanel(f: Forest, i: nat)
      requires Founded(f) && i < |f.parents|
      modifies this
      ensures out == old(out) + PanelLines(f, i)
      decreases f.ranks[i], |f.parents| + 1
    {
      var local := Begin(f, i);
      EmitChildren(f, Some(i));
      End(f, i, local);
    }

    method EmitChild(f: Forest, o: Option<nat>, j: nat, ghost start: seq<Line>)
      requires Founded(f) && Known(f, o) && j < |f.parents| && out == start + ChildLines(f, o, j)
      modifies this
      ensures out == start + ChildLines(f, o, j + 1)
      decreases Rank(f, o), j
    {
      if f.parents[j] == o {
        assert Grows(f, j);
        EmitPanel(f, j);
      }
      ChildLinesStep(f, o, j, start);
    }

    method EmitChildren(f: Forest, o: Option<nat>)
      requires Founded(f) && Known(f, o)
      modifies this
      ensures out == old(out) + ChildLines(f, o, |f.parents|)
      decreases Rank(f, o), |f.parents|
    {
      for j := 0 to |f.parents|
        invariant out == old(out) + ChildLines(f, o, j)
      {
        EmitChild(f, o, j, old(out));
      }
    }

    method Emit(f: Forest)
      requires Founded(f) && out == []
      modifies this
      ensures out == AllLines(f)
    {
      var loose := EmitNodes(f, None);
      EmitChildren(f, None);
    }
  }

  // ---- reading the nesting back ----

  datatype Item =
    | PanelItem(panel: nat) | NodeItem(node: nat) | BandItem(band: nat)
    | DirectionItem | NodeChain(nodes: seq<nat>) | BandChain(bands: seq<nat>)

  /** An item and the innermost subgraph it stands in. */
  datatype Placement = Placement(item: Item, within: Option<nat>)

  /** The open subgraphs, whether every close had one, and where every item stands. */
  datatype Scan = Scan(ok: bool, open: seq<nat>, placed: multiset<Placement>)

  function Top(open: seq<nat>): Option<nat> { if open == [] then None else Some(open[|open| - 1]) }

  function Step(s: Scan, line: Line): Scan {
    match line
    case Open(i) => Scan(s.ok, s.open + [i], s.placed + multiset{Placement(PanelItem(i), Top(s.open))})
    case NodeLine(n) => s.(placed := s.placed + multiset{Placement(NodeItem(n), Top(s.open))})
    case BandLine(b) => s.(placed := s.placed + multiset{Placement(BandItem(b), Top(s.open))})
    case Direction => s.(placed := s.placed + multiset{Placement(DirectionItem, Top(s.open))})
    case NodeOrder(ns) => s.(placed := s.placed + multiset{Placement(NodeChain(ns), Top(s.open))})
    case BandOrder(bs) => s.(placed := s.placed + multiset{Placement(BandChain(bs), Top(s.open))})
    case Close => if s.open == [] then s.(ok := false) else s.(open := s.open[..|s.open| - 1])
  }

  /** Reads lines like a Mermaid parser would: a subgraph owns what stands before its end. */
  function Read(s: Scan, lines: seq<Line>): Scan {
    if lines == [] then s else Step(Read(s, lines[..|lines| - 1]), lines[|lines| - 1])
  }

  lemma {:induction false} ReadConcat(s: Scan, a: seq<Line>, b: seq<Line>)
    ensures Read(s, a + b) == Read(Read(s, a), b)
    decreases b
  {
    if b == [] {
      assert a + b == a;
    } else {
      assert (a + b)[..|a + b| - 1] == a + b[..|b| - 1];
      ReadConcat(s, a, b[..|b| - 1]);
    }
  }

  lemma ReadOne(s: Scan, line: Line)
    ensures Read(s, [line]) == Step(s, line)
  {
    assert [line][..0] == [];
  }

  function Placing(s: Scan, more: multiset<Placement>): Scan { s.(placed := s.placed + more) }

  /** From s, the lines leave the nesting as it was and place these items. */
  predicate Places(s: Scan, lines: seq<Line>, items: multiset<Placement>) {
    Read(s, lines) == Placing(s, items)
  }

  lemma ReadPlaced(s: Scan, a: seq<Line>, more: multiset<Placement>, b: seq<Line>, rest: multiset<Placement>)
    requires Places(s, a, more) && Places(Placing(s, more), b, rest)
    ensures Places(s, a + b, more + rest)
  {
    ReadConcat(s, a, b);
    assert s.placed + more + rest == s.placed + (more + rest);
  }

  lemma ReadNothing(s: Scan)
    ensures Places(s, [], multiset{})
  {
  }

  lemma ReadNode(s: Scan, a: seq<Line>, more: multiset<Placement>, n: nat)
    requires Places(s, a, more)
    ensures Places(s, a + [NodeLine(n)], more + multiset{Placement(NodeItem(n), Top(s.open))})
  {
    ReadOne(Placing(s, more), NodeLine(n));
    ReadPlaced(s, a, more, [NodeLine(n)], multiset{Placement(NodeItem(n), Top(s.open))});
  }

  lemma ReadBand(s: Scan, a: seq<Line>, more: multiset<Placement>, b: nat)
    requires Places(s, a, more)
    ensures Places(s, a + [BandLine(b)], more + multiset{Placement(BandItem(b), Top(s.open))})
  {
    ReadOne(Placing(s, more), BandLine(b));
    ReadPlaced(s, a, more, [BandLine(b)], multiset{Placement(BandItem(b), Top(s.open))});
  }

  function NodesPlaced(f: Forest, o: Option<nat>, n: nat): multiset<Placement>
    requires n <= |f.nodes|
  {
    if n == 0 then multiset{}
    else if f.nodes[n - 1] == o then NodesPlaced(f, o, n - 1) + multiset{Placement(NodeItem(n - 1), o)}
    else NodesPlaced(f, o, n - 1)
  }

  function BandsPlaced(f: Forest, o: Option<nat>, n: nat): multiset<Placement>
    requires n <= |f.bands|
  {
    if n == 0 then multiset{}
    else if f.bands[n - 1] == o then BandsPlaced(f, o, n - 1) + multiset{Placement(BandItem(n - 1), o)}
    else BandsPlaced(f, o, n - 1)
  }

  lemma NodeLinesStep(f: Forest, o: Option<nat>, n: nat)
    requires n < |f.nodes|
    ensures NodeLines(f, o, n + 1) ==
            if f.nodes[n] == o then NodeLines(f, o, n) + [NodeLine(n)] else NodeLines(f, o, n)
    ensures NodesPlaced(f, o, n + 1) ==
            if f.nodes[n] == o then NodesPlaced(f, o, n) + multiset{Placement(NodeItem(n), o)} else NodesPlaced(f, o, n)
  {
  }

  lemma {:induction false} ReadNodes(s: Scan, f: Forest, o: Option<nat>, n: nat, lines: seq<Line>, items: multiset<Placement>)
    requires n <= |f.nodes| && Top(s.open) == o && lines == NodeLines(f, o, n) && items == NodesPlaced(f, o, n)
    ensures Places(s, lines, items)
    decreases n
  {
    if n == 0 {
      ReadNothing(s);
    } else {
      var lines', items' := NodeLines(f, o, n - 1), NodesPlaced(f, o, n - 1);
      NodeLinesStep(f, o, n - 1);
      ReadNodes(s, f, o, n - 1, lines', items');
      if f.nodes[n - 1] == o { ReadNode(s, lines', items', n - 1); }
    }
  }

  lemma BandLinesStep(f: Forest, o: Option<nat>, n: nat)
    requires n < |f.bands|
    ensures BandLines(f, o, n + 1) ==
            if f.bands[n] == o then BandLines(f, o, n) + [BandLine(n)] else BandLines(f, o, n)
    ensures BandsPlaced(f, o, n + 1) ==
            if f.bands[n] == o then BandsPlaced(f, o, n) + multiset{Placement(BandItem(n), o)} else BandsPlaced(f, o, n)
  {
  }

  lemma {:induction false} ReadBands(s: Scan, f: Forest, o: Option<nat>, n: nat, lines: seq<Line>, items: multiset<Placement>)
    requires n <= |f.bands| && Top(s.open) == o && lines == BandLines(f, o, n) && items == BandsPlaced(f, o, n)
    ensures Places(s, lines, items)
    decreases n
  {
    if n == 0 {
      ReadNothing(s);
    } else {
      var lines', items' := BandLines(f, o, n - 1), BandsPlaced(f, o, n - 1);
      BandLinesStep(f, o, n - 1);
      ReadBands(s, f, o, n - 1, lines', items');
      if f.bands[n - 1] == o { ReadBand(s, lines', items', n - 1); }
    }
  }

  function NodeChainPlaced(f: Forest, i: nat): multiset<Placement> {
    var ns := Owned(f.nodes, Some(i), |f.nodes|);
    if |ns| > 1 && Unordered(f, ns) then multiset{Placement(NodeChain(ns), Some(i))} else multiset{}
  }

  function BandChainPlaced(f: Forest, i: nat): multiset<Placement> {
    var bs := Owned(f.bands, Some(i), |f.bands|);
    if |bs| > 1 then multiset{Placement(BandChain(bs), Some(i))} else multiset{}
  }

  /** What a panel's lines place before the panels inside it, and after them. */
  function FirstPlaced(f: Forest, i: nat): multiset<Placement>
    requires i < |f.parents|
  {
    multiset{Placement(PanelItem(i), f.parents[i])} + multiset{Placement(DirectionItem, Some(i))}
    + NodesPlaced(f, Some(i), |f.nodes|)
  }

  function LastPlaced(f: Forest, i: nat): multiset<Placement> {
    BandsPlaced(f, Some(i), |f.bands|) + NodeChainPlaced(f, i) + BandChainPlaced(f, i)
  }

  /** What a panel's own lines place: the panel, its nodes and its bands, and how they are ordered. */
  function OwnPlaced(f: Forest, i: nat): multiset<Placement>
    requires i < |f.parents|
  {
    FirstPlaced(f, i) + LastPlaced(f, i)
  }

  function PanelPlaced(f: Forest, i: nat): multiset<Placement>
    requires Founded(f) && i < |f.parents|
    decreases f.ranks[i], |f.parents| + 1
  {
    OwnPlaced(f, i) + ChildPlaced(f, Some(i), |f.parents|)
  }

  function ChildPlaced(f: Forest, o: Option<nat>, n: nat): multiset<Placement>
    requires Founded(f) && n <= |f.parents| && Known(f, o)
    decreases Rank(f, o), n
  {
    if n == 0 then multiset{}
    else if f.parents[n - 1] == o then
      assert Grows(f, n - 1);
      ChildPlaced(f, o, n - 1) + PanelPlaced(f, n - 1)
    else ChildPlaced(f, o, n - 1)
  }

  lemma ReadNodeConstraint(s: Scan, f: Forest, i: nat)
    requires Top(s.open) == Some(i)
    ensures Places(s, NodeConstraint(f, Owned(f.nodes, Some(i), |f.nodes|)), NodeChainPlaced(f, i))
  {
    var ns := Owned(f.nodes, Some(i), |f.nodes|);
    if |ns| > 1 && Unordered(f, ns) { ReadOne(s, NodeOrder(ns)); } else { ReadNothing(s); }
  }

  lemma ReadBandConstraint(s: Scan, f: Forest, i: nat)
    requires Top(s.open) == Some(i)
    ensures Places(s, BandConstraint(Owned(f.bands, Some(i), |f.bands|)), BandChainPlaced(f, i))
  {
    var bs := Owned(f.bands, Some(i), |f.bands|);
    if |bs| > 1 { ReadOne(s, BandOrder(bs)); } else { ReadNothing(s); }
  }

  lemma ReadLast(s: Scan, f: Forest, i: nat)
    requires Top(s.open) == Some(i)
    ensures Places(s, Last(f, i), LastPlaced(f, i))
  {
    var nodeChain := NodeConstraint(f, Owned(f.nodes, Some(i), |f.nodes|));
    var bandChain := BandConstraint(Owned(f.bands, Some(i), |f.bands|));
    var lines, items := BandLines(f, Some(i), |f.bands|), BandsPlaced(f, Some(i), |f.bands|);
    ReadBands(s, f, Some(i), |f.bands|, lines, items);
    ReadNodeConstraint(Placing(s, items), f, i);
    ReadPlaced(s, lines, items, nodeChain, NodeChainPlaced(f, i));
    var more := items + NodeChainPlaced(f, i);
    ReadBandConstraint(Placing(s, more), f, i);
    ReadPlaced(s, lines + nodeChain, more, bandChain, BandChainPlaced(f, i));
  }

  lemma ReadAfter(s: Scan, f: Forest, i: nat)
    requires s.open != [] && Top(s.open) == Some(i)
    ensures Read(s, After(f, i)) == Scan(s.ok, s.open[..|s.open| - 1], s.placed + LastPlaced(f, i))
  {
    var s1 := Placing(s, LastPlaced(f, i));
    ReadLast(s, f, i);
    ReadConcat(s, Last(f, i), [Close]);
    ReadOne(s1, Close);
  }

  lemma ReadBefore(s: Scan, f: Forest, i: nat)
    requires i < |f.parents| && Top(s.open) == f.parents[i]
    ensures Read(s, Before(f, i)) == Scan(s.ok, s.open + [i], s.placed + FirstPlaced(f, i))
  {
    var lines, items := NodeLines(f, Some(i), |f.nodes|), NodesPlaced(f, Some(i), |f.nodes|);
    var s1 := Step(s, Open(i));
    var s2 := Step(s1, Direction);
    assert Read(s, [Open(i)] + [Direction]) == s2 by {
      ReadConcat(s, [Open(i)], [Direction]);
      ReadOne(s, Open(i));
      ReadOne(s1, Direction);
    }
    ReadConcat(s, [Open(i)] + [Direction], lines);
    ReadNodes(s2, f, Some(i), |f.nodes|, lines, items);
    assert s2.placed + items == s.placed + FirstPlaced(f, i);
  }

  /** A panel's lines leave the nesting as they found it and place exactly its subtree. */
  lemma {:induction false} ReadPanel(s: Scan, f: Forest, i: nat)
    requires Founded(f) && i < |f.parents| && Top(s.open) == f.parents[i]
    ensures Places(s, PanelLines(f, i), PanelPlaced(f, i))
    decreases f.ranks[i], |f.parents| + 1
  {
    var children := ChildLines(f, Some(i), |f.parents|);
    ReadConcat(s, Before(f, i) + children, After(f, i));
    ReadConcat(s, Before(f, i), children);
    ReadBefore(s, f, i);
    var s1 := Read(s, Before(f, i));
    ReadChildren(s1, f, Some(i), |f.parents|);
    ReadAfter(Read(s1, children), f, i);
    assert (s.open + [i])[..|s.open|] == s.open;
  }

  lemma {:induction false} ReadChildren(s: Scan, f: Forest, o: Option<nat>, n: nat)
    requires Founded(f) && n <= |f.parents| && Known(f, o) && Top(s.open) == o
    ensures Places(s, ChildLines(f, o, n), ChildPlaced(f, o, n))
    decreases Rank(f, o), n
  {
    if n == 0 {
      ReadNothing(s);
    } else {
      ReadChildren(s, f, o, n - 1);
      if f.parents[n - 1] == o {
        assert Grows(f, n - 1);
        ReadPanel(Placing(s, ChildPlaced(f, o, n - 1)), f, n - 1);
        var lines, items := ChildLines(f, o, n - 1), ChildPlaced(f, o, n - 1);
        ReadPlaced(s, lines, items, PanelLines(f, n - 1), PanelPlaced(f, n - 1));
      }
    }
  }

  // ---- every item once, under its owner ----

  /** The panel whose own lines carry an item. */
  function Home(p: Placement): Option<nat> {
    match p.item
    case PanelItem(i) => Some(i)
    case _ => p.within
  }

  function Once(here: bool): nat { if here then 1 else 0 }

  /** The item exists, this is its owner, and it is not a band without one. */
  predicate Stands(f: Forest, p: Placement) {
    match p.item
    case PanelItem(i) => i < |f.parents| && p.within == f.parents[i]
    case NodeItem(n) => n < |f.nodes| && p.within == f.nodes[n]
    case BandItem(b) => b < |f.bands| && p.within == f.bands[b] && p.within.Some?
    case DirectionItem => p.within.Some? && Known(f, p.within)
    case NodeChain(ns) =>
      && p.within.Some? && Known(f, p.within) && |ns| > 1 && Lists(f.nodes, p.within, ns)
      && forall a, b :: (a, b) in f.edges ==> a !in ns || b !in ns
    case BandChain(bs) => p.within.Some? && Known(f, p.within) && |bs| > 1 && Lists(f.bands, p.within, bs)
  }

  /** The list is that of the positions with this owner, in order. */
  predicate Lists(owners: seq<Option<nat>>, o: Option<nat>, list: seq<nat>) {
    && (forall a, b :: 0 <= a < b < |list| ==> list[a] < list[b])
    && (forall a :: 0 <= a < |list| ==> list[a] < |owners| && owners[list[a]] == o)
    && (forall n :: 0 <= n < |owners| && owners[n] == o ==> n in list)
  }

  lemma {:induction false} OwnedLists(owners: seq<Option<nat>>, o: Option<nat>, n: nat)
    requires n <= |owners|
    ensures Lists(owners[..n], o, Owned(owners, o, n))
  {
    if n > 0 {
      OwnedLists(owners, o, n - 1);
      var before, now := Owned(owners, o, n - 1), Owned(owners, o, n);
      forall m | 0 <= m < n && owners[..n][m] == o ensures m in now {
        if m < n - 1 { assert owners[..n - 1][m] == o; } else { assert now[|before|] == m; }
      }
    }
  }

  /** Two lists in increasing order of the same numbers are the same list. */
  lemma {:induction false} SameList(a: seq<nat>, b: seq<nat>)
    requires forall i, j :: 0 <= i < j < |a| ==> a[i] < a[j]
    requires forall i, j :: 0 <= i < j < |b| ==> b[i] < b[j]
    requires forall x :: x in a <==> x in b
    ensures a == b
  {
    assert b != [] ==> b[0] in b;
    if a != [] {
      assert a[0] in b && b[0] in a;
      assert a[0] == b[0];
      forall x ensures x in a[1..] <==> x in b[1..] {
        if x in a[1..] { assert x in a && x != a[0]; }
        if x in b[1..] { assert x in b && x != b[0]; }
      }
      SameList(a[1..], b[1..]);
    }
  }

  lemma OwnedExactly(owners: seq<Option<nat>>, o: Option<nat>, list: seq<nat>)
    ensures list == Owned(owners, o, |owners|) <==> Lists(owners, o, list)
  {
    var owned := Owned(owners, o, |owners|);
    OwnedLists(owners, o, |owners|);
    assert owners[..|owners|] == owners;
    if Lists(owners, o, list) {
      forall x ensures x in list <==> x in owned {
        if x in list { assert owners[x] == o; }
        if x in owned { assert owners[x] == o; }
      }
      SameList(list, owned);
    }
  }

  lemma UnorderedIs(f: Forest, ns: seq<nat>)
    ensures Unordered(f, ns) <==> forall a, b :: (a, b) in f.edges ==> a !in ns || b !in ns
  {
    if Unordered(f, ns) {
      forall a, b | (a, b) in f.edges ensures a !in ns || b !in ns {
        var e :| 0 <= e < |f.edges| && f.edges[e] == (a, b);
      }
    } else {
      var e :| 0 <= e < |f.edges| && f.edges[e].0 in ns && f.edges[e].1 in ns;
      assert (f.edges[e].0, f.edges[e].1) in f.edges;
    }
  }

  lemma CountChains(f: Forest, i: nat, p: Placement)
    requires i < |f.parents|
    ensures NodeChainPlaced(f, i)[p] == Once(p.item.NodeChain? && Stands(f, p) && p.within == Some(i))
    ensures BandChainPlaced(f, i)[p] == Once(p.item.BandChain? && Stands(f, p) && p.within == Some(i))
  {
    if p.item.NodeChain? {
      OwnedExactly(f.nodes, Some(i), p.item.nodes);
      UnorderedIs(f, p.item.nodes);
    } else if p.item.BandChain? {
      OwnedExactly(f.bands, Some(i), p.item.bands);
    }
  }

  lemma {:induction false} CountNodes(f: Forest, o: Option<nat>, n: nat, p: Placement)
    requires n <= |f.nodes|
    ensures NodesPlaced(f, o, n)[p] == Once(p.item.NodeItem? && p.item.node < n && f.nodes[p.item.node] == o == p.within)
  {
    if n > 0 { CountNodes(f, o, n - 1, p); }
  }

  lemma {:induction false} CountBands(f: Forest, o: Option<nat>, n: nat, p: Placement)
    requires n <= |f.bands|
    ensures BandsPlaced(f, o, n)[p] == Once(p.item.BandItem? && p.item.band < n && f.bands[p.item.band] == o == p.within)
  {
    if n > 0 { CountBands(f, o, n - 1, p); }
  }

  /** A panel's own lines carry exactly the items at home there. */
  lemma CountOwn(f: Forest, i: nat, p: Placement)
    requires i < |f.parents|
    ensures OwnPlaced(f, i)[p] == Once(Stands(f, p) && Home(p) == Some(i))
  {
    CountNodes(f, Some(i), |f.nodes|, p);
    CountBands(f, Some(i), |f.bands|, p);
    CountChains(f, i, p);
  }

  /** Going up from panel k: the panel whose owner is o, if the way up meets one. */
  function ChildOn(f: Forest, k: nat, o: Option<nat>): (c: Option<nat>)
    requires Founded(f) && k < |f.parents|
    ensures c.Some? ==> c.value < |f.parents| && f.parents[c.value] == o && f.ranks[k] <= f.ranks[c.value]
    ensures o.None? ==> c.Some?
    decreases |f.ranks| - f.ranks[k]
  {
    if f.parents[k] == o then Some(k)
    else if f.parents[k].None? then None
    else
      assert Grows(f, k);
      ChildOn(f, f.parents[k].value, o)
  }

  /** Panel k is panel m or below it. */
  predicate Below(f: Forest, k: nat, m: nat)
    requires Founded(f) && k < |f.parents|
  {
    k == m || ChildOn(f, k, Some(m)).Some?
  }

  /** Below m is the same as passing m on the way up to m's owner. */
  lemma {:induction false} PassesThrough(f: Forest, k: nat, m: nat)
    requires Founded(f) && k < |f.parents| && m < |f.parents|
    ensures Below(f, k, m) <==> ChildOn(f, k, f.parents[m]) == Some(m)
    decreases |f.ranks| - f.ranks[k]
  {
    if k != m && f.parents[k].Some? {
      assert Grows(f, k);
      PassesThrough(f, f.parents[k].value, m);
    }
  }

  /** Only panel k's own lines carry p, and they do if here holds. */
  predicate OnlyAt(f: Forest, p: Placement, here: bool, k: nat) {
    forall i :: 0 <= i < |f.parents| ==> OwnPlaced(f, i)[p] == Once(here && i == k)
  }

  predicate InPanel(f: Forest, i: nat, p: Placement, times: nat)
    requires Founded(f) && i < |f.parents|
  {
    PanelPlaced(f, i)[p] == times
  }

  predicate InChildren(f: Forest, o: Option<nat>, n: nat, p: Placement, times: nat)
    requires Founded(f) && n <= |f.parents| && Known(f, o)
  {
    ChildPlaced(f, o, n)[p] == times
  }

  lemma CountOneChild(f: Forest, o: Option<nat>, n: nat, p: Placement, before: nat, inside: nat)
    requires Founded(f) && 0 < n <= |f.parents| && Known(f, o)
    requires InChildren(f, o, n - 1, p, before)
    requires f.parents[n - 1] == o ==> InPanel(f, n - 1, p, inside)
    ensures InChildren(f, o, n, p, if f.parents[n - 1] == o then before + inside else before)
  {
  }

  /** The child c of o on the way up from k comes before n. */
  predicate Passed(c: Option<nat>, n: nat) { c.Some? && c.value < n }

  lemma {:induction false} CountPanel(f: Forest, i: nat, p: Placement, here: bool, k: nat)
    requires Founded(f) && i < |f.parents| && k < |f.parents| && OnlyAt(f, p, here, k)
    ensures InPanel(f, i, p, Once(here && Below(f, k, i)))
    decreases f.ranks[i], |f.parents| + 1
  {
    CountChildren(f, Some(i), |f.parents|, p, here, k);
  }

  lemma {:induction false} CountChildren(f: Forest, o: Option<nat>, n: nat, p: Placement, here: bool, k: nat)
    requires Founded(f) && n <= |f.parents| && Known(f, o) && k < |f.parents| && OnlyAt(f, p, here, k)
    ensures InChildren(f, o, n, p, Once(here && Passed(ChildOn(f, k, o), n)))
    decreases Rank(f, o), n
  {
    if n > 0 {
      var before, inside := Once(here && Passed(ChildOn(f, k, o), n - 1)), Once(here && Below(f, k, n - 1));
      CountChildren(f, o, n - 1, p, here, k);
      if f.parents[n - 1] == o {
        assert Grows(f, n - 1);
        CountPanel(f, n - 1, p, here, k);
      }
      CountOneChild(f, o, n, p, before, inside);
      PassedMore(f, o, n, k);
    }
  }

  /** Panel n - 1 is on the way up from k exactly when k is below it. */
  lemma PassedMore(f: Forest, o: Option<nat>, n: nat, k: nat)
    requires Founded(f) && 0 < n <= |f.parents| && Known(f, o) && k < |f.parents|
    ensures var c, below := ChildOn(f, k, o), f.parents[n - 1] == o && Below(f, k, n - 1);
            (Passed(c, n) <==> Passed(c, n - 1) || below) && !(Passed(c, n - 1) && below)
  {
    if f.parents[n - 1] == o { PassesThrough(f, k, n - 1); }
  }

  /** Panels own nodes and bands only if they exist. */
  predicate Closed(f: Forest) {
    && (forall n :: 0 <= n < |f.nodes| ==> Known(f, f.nodes[n]))
    && (forall b :: 0 <= b < |f.bands| ==> Known(f, f.bands[b]))
  }

  lemma CountForest(f: Forest, p: Placement)
    requires Founded(f) && Closed(f)
    ensures ChildPlaced(f, None, |f.parents|)[p] == Once(Stands(f, p) && Home(p).Some?)
  {
    if |f.parents| > 0 {
      var here := Stands(f, p) && Home(p).Some?;
      var k := if here then Home(p).value else 0;
      forall i | 0 <= i < |f.parents| ensures OwnPlaced(f, i)[p] == Once(here && i == k) { CountOwn(f, i, p); }
      CountChildren(f, None, |f.parents|, p, here, k);
    }
  }

  /** Reading the emitted lines, every subgraph is closed again and every panel, every node and
      every band that some panel contains stands exactly once, in its smallest container. */
  lemma EveryItemOnce(f: Forest, p: Placement)
    requires Founded(f) && Closed(f)
    ensures Read(Scan(true, [], multiset{}), AllLines(f)).ok
    ensures Read(Scan(true, [], multiset{}), AllLines(f)).open == []
    ensures Read(Scan(true, [], multiset{}), AllLines(f)).placed[p] == Once(Stands(f, p))
  {
    var start := Scan(true, [], multiset{});
    var loose := NodesPlaced(f, None, |f.nodes|);
    ReadNodes(start, f, None, |f.nodes|, NodeLines(f, None, |f.nodes|), loose);
    ReadChildren(Placing(start, loose), f, None, |f.parents|);
    ReadPlaced(start, NodeLines(f, None, |f.nodes|), loose,
               ChildLines(f, None, |f.parents|), ChildPlaced(f, None, |f.parents|));
    CountNodes(f, None, |f.nodes|, p);
    CountForest(f, p);
  }

  /** A band stands in the lines if and only if some panel contains it. */
  lemma BandStandsExactly(f: Forest, b: nat)
    requires Founded(f) && Closed(f) && b < |f.bands|
    ensures var placed := Read(Scan(true, [], multiset{}), AllLines(f)).placed;
            (exists o :: Placement(BandItem(b), o) in placed) <==> f.bands[b].Some?
  {
    var placed := Read(Scan(true, [], multiset{}), AllLines(f)).placed;
    forall o ensures Placement(BandItem(b), o) in placed <==> f.bands[b] == o && o.Some? {
      EveryItemOnce(f, Placement(BandItem(b), o));
    }
    if f.bands[b].Some? { assert Placement(BandItem(b), f.bands[b]) in placed; }
  }

  /** The item exists and this is the smallest panel containing it; a band needs one. */
  predicate Encloses(d: Diagram, p: Placement) {
    match p.item
    case PanelItem(i) => i < |d.panels| && p.within == Smallest(d.panels, d.panels[i], |d.panels|)
    case NodeItem(n) => n < |d.nodes| && p.within == Smallest(d.panels, d.nodes[n], |d.panels|)
    case BandItem(b) => b < |d.bands| && p.within == Smallest(d.panels, d.bands[b], |d.panels|) && p.within.Some?
    case DirectionItem => p.within.Some? && p.within.value < |d.panels|
    case NodeChain(ns) =>
      && p.within.Some? && p.within.value < |d.panels| && |ns| > 1 && ListsBoxes(d.panels, d.nodes, p.within, ns)
      && forall a, b :: (a, b) in d.edges ==> a !in ns || b !in ns
    case BandChain(bs) =>
      p.within.Some? && p.within.value < |d.panels| && |bs| > 1 && ListsBoxes(d.panels, d.bands, p.within, bs)
  }

  /** The list is that of the boxes whose smallest container this is, in order. */
  predicate ListsBoxes(panels: seq<Box>, boxes: seq<Box>, o: Option<nat>, list: seq<nat>) {
    && (forall a, b :: 0 <= a < b < |list| ==> list[a] < list[b])
    && (forall a :: 0 <= a < |list| ==> list[a] < |boxes| && Smallest(panels, boxes[list[a]], |panels|) == o)
    && (forall n :: 0 <= n < |boxes| && Smallest(panels, boxes[n], |panels|) == o ==> n in list)
  }

  lemma StandsIsEncloses(d: Diagram, f: Forest, p: Placement)
    requires ForestOf(d, f)
    ensures Closed(f) && (Stands(f, p) <==> Encloses(d, p))
  {
  }

  /** What a reader of the lines sees of a figure. */
  ghost predicate Shows(d: Diagram, lines: seq<Line>) {
    var s := Read(Scan(true, [], multiset{}), lines);
    s.ok && s.open == [] && forall p :: s.placed[p] == Once(Encloses(d, p))
  }

  /** The same by points: the item exists and this is the first of the smallest panels covering it; a
      band needs one. Every panel says its direction; and where a panel owns more than one node and no
      edge joins two of them, or more than one band, it orders exactly these, once. */
  ghost predicate Encircles(d: Diagram, p: Placement) {
    match p.item
    case PanelItem(i) => i < |d.panels| && OwnerIs(d.panels, d.panels[i], p.within)
    case NodeItem(n) => n < |d.nodes| && OwnerIs(d.panels, d.nodes[n], p.within)
    case BandItem(b) => b < |d.bands| && OwnerIs(d.panels, d.bands[b], p.within) && p.within.Some?
    case DirectionItem => p.within.Some? && p.within.value < |d.panels|
    case NodeChain(ns) =>
      && p.within.Some? && p.within.value < |d.panels| && |ns| > 1 && ListsCovered(d.panels, d.nodes, p.within, ns)
      && forall a, b :: (a, b) in d.edges ==> a !in ns || b !in ns
    case BandChain(bs) =>
      p.within.Some? && p.within.value < |d.panels| && |bs| > 1 && ListsCovered(d.panels, d.bands, p.within, bs)
  }

  ghost predicate ListsCovered(panels: seq<Box>, boxes: seq<Box>, o: Option<nat>, list: seq<nat>) {
    && (forall a, b :: 0 <= a < b < |list| ==> list[a] < list[b])
    && (forall n :: n in list <==> 0 <= n < |boxes| && OwnerIs(panels, boxes[n], o))
  }

  predicate Sized(boxes: seq<Box>) { forall i :: 0 <= i < |boxes| ==> boxes[i].w >= 0.0 && boxes[i].h >= 0.0 }

  lemma ListsExactly(panels: seq<Box>, boxes: seq<Box>, o: Option<nat>, list: seq<nat>)
    requires Sized(boxes)
    ensures ListsBoxes(panels, boxes, o, list) <==> ListsCovered(panels, boxes, o, list)
  {
    forall n | 0 <= n < |boxes| ensures Smallest(panels, boxes[n], |panels|) == o <==> OwnerIs(panels, boxes[n], o) {
      OwnerExactly(panels, boxes[n], o);
    }
    if ListsCovered(panels, boxes, o, list) {
      forall a | 0 <= a < |list| ensures list[a] < |boxes| && Smallest(panels, boxes[list[a]], |panels|) == o {
        assert list[a] in list;
      }
    }
  }

  lemma EnclosesExactly(d: Diagram, p: Placement)
    requires Sized(d.panels) && Sized(d.nodes) && Sized(d.bands)
    ensures Encloses(d, p) <==> Encircles(d, p)
  {
    match p.item {
      case PanelItem(i) => if i < |d.panels| { OwnerExactly(d.panels, d.panels[i], p.within); }
      case NodeItem(n) => if n < |d.nodes| { OwnerExactly(d.panels, d.nodes[n], p.within); }
      case BandItem(b) => if b < |d.bands| { OwnerExactly(d.panels, d.bands[b], p.within); }
      case DirectionItem =>
      case NodeChain(ns) => ListsExactly(d.panels, d.nodes, p.within, ns);
      case BandChain(bs) => ListsExactly(d.panels, d.bands, p.within, bs);
    }
  }

  /** What a reader of the lines sees, by points. */
  ghost predicate Draws(d: Diagram, lines: seq<Line>) {
    var s := Read(Scan(true, [], multiset{}), lines);
    s.ok && s.open == [] && forall p :: s.placed[p] == Once(Encircles(d, p))
  }

  lemma ShowsDraws(d: Diagram, lines: seq<Line>)
    requires Sized(d.panels) && Sized(d.nodes) && Sized(d.bands) && Shows(d, lines)
    ensures Draws(d, lines)
  {
    forall p ensures Encloses(d, p) <==> Encircles(d, p) { EnclosesExactly(d, p); }
  }

  lemma LinesShow(d: Diagram, f: Forest)
    requires Founded(f) && ForestOf(d, f)
    ensures Shows(d, AllLines(f))
  {
    var any := Placement(NodeItem(0), None);
    StandsIsEncloses(d, f, any);
    EveryItemOnce(f, any);
    forall p ensures Read(Scan(true, [], multiset{}), AllLines(f)).placed[p] == Once(Encloses(d, p)) {
      StandsIsEncloses(d, f, p);
      EveryItemOnce(f, p);
    }
  }

  /** The whole projection of a figure, read back against the boxes themselves. */
  method Mermaid(d: Diagram) returns (out: seq<Line>)
    requires Positive(d.panels)
    ensures Shows(d, out)
    ensures Sized(d.nodes) && Sized(d.bands) ==> Draws(d, out)
  {
    var f := Own(d);
    var e := new Emitter();
    e.Emit(f);
    out := e.out;
    LinesShow(d, f);
    if Sized(d.nodes) && Sized(d.bands) { ShowsDraws(d, out); }
  }

  /** A figure with a band beside its only panel: whatever shows the figure does not show the band. */
  lemma UnownedBandExample(lines: seq<Line>)
    requires Shows(Diagram([Box(24.0, 70.0, 100.0, 50.0)], [], [Box(200.0, 70.0, 100.0, 50.0)], []), lines)
    ensures forall o :: Placement(BandItem(0), o) !in Read(Scan(true, [], multiset{}), lines).placed
  {
    var d := Diagram([Box(24.0, 70.0, 100.0, 50.0)], [], [Box(200.0, 70.0, 100.0, 50.0)], []);
    assert !Contains(d.panels[0], d.bands[0]);
    assert Smallest(d.panels, d.bands[0], 0) == None;
    assert Smallest(d.panels, d.bands[0], 1) == None;
    forall o ensures !Encloses(d, Placement(BandItem(0), o)) {
    }
  }
}
