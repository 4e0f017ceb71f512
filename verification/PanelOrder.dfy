/** The order of the lines that Panels emits: reading them once, what stands directly in a panel stands
    there in the order the figure lists it. */
module PanelOrder {
  import opened Panels
  import opened Sequences
  import opened Wrappers

  // ---- reading for one panel ----

  function ItemsOf(line: Line): seq<Item> {
    match line
    case Open(i) => [PanelItem(i)]
    case Direction => [DirectionItem]
    case NodeLine(n) => [NodeItem(n)]
    case BandLine(b) => [BandItem(b)]
    case NodeOrder(ns) => [NodeChain(ns)]
    case BandOrder(bs) => [BandChain(bs)]
    case Close => []
  }

  /** The open subgraphs, and what has been seen directly in one of them, in order. */
  datatype Look = Look(open: seq<nat>, items: seq<Item>)

  function Step(s: Look, line: Line, o: Option<nat>): Look {
    var items := if Top(s.open) == o then s.items + ItemsOf(line) else s.items;
    match line
    case Open(i) => Look(s.open + [i], items)
    case Close => Look(if s.open == [] then [] else s.open[..|s.open| - 1], items)
    case _ => Look(s.open, items)
  }

  /** Reads lines, looking for what stands directly in o. */
  function Watch(s: Look, lines: seq<Line>, o: Option<nat>): Look {
    if lines == [] then s else Step(Watch(s, lines[..|lines| - 1], o), lines[|lines| - 1], o)
  }

  lemma {:induction false} WatchConcat(s: Look, a: seq<Line>, b: seq<Line>, o: Option<nat>)
    ensures Watch(s, a + b, o) == Watch(Watch(s, a, o), b, o)
    decreases b
  {
    if b == [] {
      assert a + b == a;
    } else {
      assert (a + b)[..|a + b| - 1] == a + b[..|b| - 1];
      WatchConcat(s, a, b[..|b| - 1], o);
    }
  }

  lemma WatchOne(s: Look, line: Line, o: Option<nat>)
    ensures Watch(s, [line], o) == Step(s, line, o)
  {
    assert [line][..0] == [];
  }

  function Adding(s: Look, more: seq<Item>): Look { s.(items := s.items + more) }

  /** From s, the lines leave what is open and show these items of o. */
  predicate Shown(s: Look, lines: seq<Line>, o: Option<nat>, items: seq<Item>) {
    Watch(s, lines, o) == Adding(s, items)
  }

  lemma ShownConcat(s: Look, a: seq<Line>, x: seq<Item>, b: seq<Line>, y: seq<Item>, o: Option<nat>)
    requires Shown(s, a, o, x) && Shown(Adding(s, x), b, o, y)
    ensures Shown(s, a + b, o, x + y)
  {
    WatchConcat(s, a, b, o);
    Regroup(s.items, x, y);
  }

  lemma ShownNothing(s: Look, o: Option<nat>)
    ensures Shown(s, [], o, [])
  {
    assert s.items + [] == s.items;
  }

  lemma ShownOne(s: Look, line: Line, o: Option<nat>)
    requires !line.Open? && !line.Close?
    ensures Shown(s, [line], o, If(Top(s.open) == o, ItemsOf(line)))
  {
    WatchOne(s, line, o);
    assert s.items + [] == s.items;
  }

  function If(here: bool, items: seq<Item>): seq<Item> { if here then items else [] }

  // ---- what stands in a panel ----

  /** The nodes, bands and panels with owner q among the first n, in order. */
  function NodesIn(f: Forest, q: Option<nat>, n: nat): seq<Item>
    requires n <= |f.nodes|
  {
    if n == 0 then [] else if f.nodes[n - 1] == q then NodesIn(f, q, n - 1) + [NodeItem(n - 1)] else NodesIn(f, q, n - 1)
  }

  function BandsIn(f: Forest, q: Option<nat>, n: nat): seq<Item>
    requires n <= |f.bands|
  {
    if n == 0 then [] else if f.bands[n - 1] == q then BandsIn(f, q, n - 1) + [BandItem(n - 1)] else BandsIn(f, q, n - 1)
  }

  function PanelsIn(f: Forest, q: Option<nat>, n: nat): seq<Item>
    requires n <= |f.parents|
  {
    if n == 0 then []
    else if f.parents[n - 1] == q then PanelsIn(f, q, n - 1) + [PanelItem(n - 1)]
    else PanelsIn(f, q, n - 1)
  }

  function Chains(f: Forest, k: nat): seq<Item> {
    var ns, bs := Owned(f.nodes, Some(k), |f.nodes|), Owned(f.bands, Some(k), |f.bands|);
    (if |ns| > 1 && Unordered(f, ns) then [NodeChain(ns)] else []) + (if |bs| > 1 then [BandChain(bs)] else [])
  }

  /** Its nodes, then the panels in it, then its bands, each in the order of the figure, then how they
      are chained. */
  function Content(f: Forest, k: nat): seq<Item> {
    [DirectionItem] + NodesIn(f, Some(k), |f.nodes|) + PanelsIn(f, Some(k), |f.parents|)
    + (BandsIn(f, Some(k), |f.bands|) + Chains(f, k))
  }

  lemma AppendLine(s: Look, lines: seq<Line>, items: seq<Item>, line: Line, o: Option<nat>, here: bool)
    requires !line.Open? && !line.Close? && here == (Top(s.open) == o) && Shown(s, lines, o, If(here, items))
    ensures Shown(s, lines + [line], o, If(here, items + ItemsOf(line)))
  {
    ShownOne(Adding(s, If(here, items)), line, o);
    ShownConcat(s, lines, If(here, items), [line], If(here, ItemsOf(line)), o);
    assert If(here, items) + If(here, ItemsOf(line)) == If(here, items + ItemsOf(line));
  }

  lemma NodeStep(f: Forest, q: Option<nat>, n: nat)
    requires n < |f.nodes|
    ensures NodeLines(f, q, n + 1) == if f.nodes[n] == q then NodeLines(f, q, n) + [NodeLine(n)] else NodeLines(f, q, n)
    ensures NodesIn(f, q, n + 1) == if f.nodes[n] == q then NodesIn(f, q, n) + [NodeItem(n)] else NodesIn(f, q, n)
  {
  }

  lemma BandStep(f: Forest, q: Option<nat>, n: nat)
    requires n < |f.bands|
    ensures BandLines(f, q, n + 1) == if f.bands[n] == q then BandLines(f, q, n) + [BandLine(n)] else BandLines(f, q, n)
    ensures BandsIn(f, q, n + 1) == if f.bands[n] == q then BandsIn(f, q, n) + [BandItem(n)] else BandsIn(f, q, n)
  {
  }

  lemma {:induction false} ShownNodes(s: Look, f: Forest, q: Option<nat>, n: nat, o: Option<nat>,
                                      lines: seq<Line>, items: seq<Item>)
    requires n <= |f.nodes| && Top(s.open) == q && lines == NodeLines(f, q, n) && items == NodesIn(f, q, n)
    ensures Shown(s, lines, o, If(q == o, items))
    decreases n
  {
    if n == 0 {
      ShownNothing(s, o);
    } else {
      var lines', items' := NodeLines(f, q, n - 1), NodesIn(f, q, n - 1);
      NodeStep(f, q, n - 1);
      ShownNodes(s, f, q, n - 1, o, lines', items');
      if f.nodes[n - 1] == q { AppendLine(s, lines', items', NodeLine(n - 1), o, q == o); }
    }
  }

  lemma {:induction false} ShownBands(s: Look, f: Forest, q: Option<nat>, n: nat, o: Option<nat>,
                                      lines: seq<Line>, items: seq<Item>)
    requires n <= |f.bands| && Top(s.open) == q && lines == BandLines(f, q, n) && items == BandsIn(f, q, n)
    ensures Shown(s, lines, o, If(q == o, items))
    decreases n
  {
    if n == 0 {
      ShownNothing(s, o);
    } else {
      var lines', items' := BandLines(f, q, n - 1), BandsIn(f, q, n - 1);
      BandStep(f, q, n - 1);
      ShownBands(s, f, q, n - 1, o, lines', items');
      if f.bands[n - 1] == q { AppendLine(s, lines', items', BandLine(n - 1), o, q == o); }
    }
  }

  lemma ShownNodeChain(s: Look, f: Forest, ns: seq<nat>, o: Option<nat>, here: bool)
    requires here == (Top(s.open) == o)
    ensures Shown(s, NodeConstraint(f, ns), o, If(here && |ns| > 1 && Unordered(f, ns), [NodeChain(ns)]))
  {
    ShownNothing(s, o);
    ShownOne(s, NodeOrder(ns), o);
  }

  lemma ShownBandChain(s: Look, bs: seq<nat>, o: Option<nat>, here: bool)
    requires here == (Top(s.open) == o)
    ensures Shown(s, BandConstraint(bs), o, If(here && |bs| > 1, [BandChain(bs)]))
  {
    ShownNothing(s, o);
    ShownOne(s, BandOrder(bs), o);
  }

  lemma ShownChains(s: Look, f: Forest, i: nat, o: Option<nat>, ns: seq<nat>, bs: seq<nat>)
    requires Top(s.open) == Some(i)
    requires ns == Owned(f.nodes, Some(i), |f.nodes|) && bs == Owned(f.bands, Some(i), |f.bands|)
    ensures Shown(s, NodeConstraint(f, ns) + BandConstraint(bs), o, If(o == Some(i), Chains(f, i)))
  {
    var x := If(o == Some(i) && |ns| > 1 && Unordered(f, ns), [NodeChain(ns)]);
    var y := If(o == Some(i) && |bs| > 1, [BandChain(bs)]);
    ShownNodeChain(s, f, ns, o, o == Some(i));
    ShownBandChain(Adding(s, x), bs, o, o == Some(i));
    ShownConcat(s, NodeConstraint(f, ns), x, BandConstraint(bs), y, o);
    assert x + y == If(o == Some(i), Chains(f, i));
  }

  lemma ShownLast(s: Look, f: Forest, i: nat, o: Option<nat>)
    requires Top(s.open) == Some(i)
    ensures Shown(s, Last(f, i), o, If(o == Some(i), BandsIn(f, Some(i), |f.bands|) + Chains(f, i)))
  {
    var ns, bs := Owned(f.nodes, Some(i), |f.nodes|), Owned(f.bands, Some(i), |f.bands|);
    var lines, chains := BandLines(f, Some(i), |f.bands|), NodeConstraint(f, ns) + BandConstraint(bs);
    var bands := BandsIn(f, Some(i), |f.bands|);
    var x := If(o == Some(i), bands);
    ShownBands(s, f, Some(i), |f.bands|, o, lines, bands);
    ShownChains(Adding(s, x), f, i, o, ns, bs);
    ShownConcat(s, lines, x, chains, If(o == Some(i), Chains(f, i)), o);
    Regroup(lines, NodeConstraint(f, ns), BandConstraint(bs));
    assert x + If(o == Some(i), Chains(f, i)) == If(o == Some(i), bands + Chains(f, i));
  }

  // ---- the whole traversal ----

  /** What the lines of panel i, read in its owner, show of o. */
  function PanelShows(f: Forest, i: nat, o: Option<nat>): seq<Item>
    requires Founded(f) && i < |f.parents| && Known(f, o)
  {
    If(f.parents[i] == o, [PanelItem(i)]) + If(o.Some? && Below(f, o.value, i), Contents(f, o))
  }

  function Contents(f: Forest, o: Option<nat>): seq<Item> { if o.Some? then Content(f, o.value) else [] }

  /** What the first n panels of q show of o. */
  function ChildrenShow(f: Forest, q: Option<nat>, n: nat, o: Option<nat>): seq<Item>
    requires Founded(f) && n <= |f.parents| && Known(f, q) && Known(f, o)
  {
    If(q == o, PanelsIn(f, q, n))
    + If(o.Some? && Passed(ChildOn(f, o.value, q), n), Contents(f, o))
  }

  /** No panel is inside a panel inside it. */
  lemma NotInItself(f: Forest, k: nat)
    requires Founded(f) && k < |f.parents|
    ensures ChildOn(f, k, Some(k)) == None && f.parents[k] != Some(k)
  {
    assert Grows(f, k);
    var c := ChildOn(f, k, Some(k));
    assert c.Some? ==> Grows(f, c.value);
  }

  lemma Inside(s: Look, i: nat, lines: seq<Line>, x: seq<Item>, items: seq<Item>, o: Option<nat>)
    requires x == If(Top(s.open) == o, [PanelItem(i)])
    requires Shown(Look(s.open + [i], s.items + x), lines, o, items)
    ensures Shown(s, [Open(i)] + lines + [Close], o, x + items)
  {
    var inner, end := Look(s.open + [i], s.items + x), Look(s.open + [i], s.items + x + items);
    assert Watch(s, [Open(i)], o) == inner by {
      WatchOne(s, Open(i), o);
      assert s.items + [] == s.items;
    }
    assert Watch(s, [Open(i)] + lines, o) == end by { WatchConcat(s, [Open(i)], lines, o); }
    assert Step(end, Close, o) == Look(s.open, s.items + x + items) by {
      assert (s.open + [i])[..|s.open|] == s.open;
      assert end.items + [] == end.items;
    }
    WatchOne(end, Close, o);
    WatchConcat(s, [Open(i)] + lines, [Close], o);
    Regroup(s.items, x, items);
  }

  /** The lines inside panel i: its direction and nodes, the panels in it, and the rest. */
  lemma HeadShown(s: Look, f: Forest, i: nat, o: Option<nat>, nodes: seq<Line>, items: seq<Item>)
    requires Top(s.open) == Some(i) && nodes == NodeLines(f, Some(i), |f.nodes|)
    requires items == NodesIn(f, Some(i), |f.nodes|)
    ensures Shown(s, [Direction] + nodes, o, If(o == Some(i), [DirectionItem] + items))
  {
    var x := If(o == Some(i), [DirectionItem]);
    ShownOne(s, Direction, o);
    ShownNodes(Adding(s, x), f, Some(i), |f.nodes|, o, nodes, items);
    ShownConcat(s, [Direction], x, nodes, If(o == Some(i), items), o);
    assert x + If(o == Some(i), items) == If(o == Some(i), [DirectionItem] + items);
  }

  lemma InnerShown(s: Look, f: Forest, i: nat, o: Option<nat>, nodes: seq<Line>, x: seq<Item>, children: seq<Line>,
                   nested: seq<Item>, y: seq<Item>)
    requires Top(s.open) == Some(i) && nodes == NodeLines(f, Some(i), |f.nodes|)
    requires x == If(o == Some(i), [DirectionItem] + NodesIn(f, Some(i), |f.nodes|))
    requires Shown(Adding(s, x), children, o, nested)
    requires y == If(o == Some(i), BandsIn(f, Some(i), |f.bands|) + Chains(f, i))
    ensures Shown(s, [Direction] + nodes + children + Last(f, i), o, x + nested + y)
  {
    HeadShown(s, f, i, o, nodes, NodesIn(f, Some(i), |f.nodes|));
    ShownConcat(s, [Direction] + nodes, x, children, nested, o);
    ShownLast(Adding(s, x + nested), f, i, o);
    ShownConcat(s, [Direction] + nodes + children, x + nested, Last(f, i), y, o);
  }

  lemma PanelLinesAre(f: Forest, i: nat)
    requires Founded(f) && i < |f.parents|
    ensures var nodes, children := NodeLines(f, Some(i), |f.nodes|), ChildLines(f, Some(i), |f.parents|);
            PanelLines(f, i) == [Open(i)] + ([Direction] + nodes + children + Last(f, i)) + [Close]
  {
    Collect([Open(i)], [Direction], NodeLines(f, Some(i), |f.nodes|), ChildLines(f, Some(i), |f.parents|), Last(f, i), [Close]);
  }

  lemma Collect(a: seq<Line>, b: seq<Line>, c: seq<Line>, d: seq<Line>, e: seq<Line>, g: seq<Line>)
    ensures a + b + c + d + (e + g) == a + (b + c + d + e) + g
  {
  }

  lemma PanelSum(f: Forest, i: nat, o: Option<nat>)
    requires Founded(f) && i < |f.parents| && Known(f, o)
    ensures var here := o == Some(i);
            If(f.parents[i] == o, [PanelItem(i)])
            + (If(here, [DirectionItem] + NodesIn(f, Some(i), |f.nodes|))
               + ChildrenShow(f, Some(i), |f.parents|, o)
               + If(here, BandsIn(f, Some(i), |f.bands|) + Chains(f, i)))
            == PanelShows(f, i, o)
  {
    NotInItself(f, i);
    if o == Some(i) {
      var panels := PanelsIn(f, Some(i), |f.parents|);
      assert ChildrenShow(f, Some(i), |f.parents|, o) == panels + [];
      assert panels + [] == panels;
    } else {
      var nested := If(o.Some? && Below(f, o.value, i), Contents(f, o));
      assert ChildrenShow(f, Some(i), |f.parents|, o) == [] + nested;
      assert [] + ([] + nested) + [] == nested;
    }
  }

  lemma ChildSum(f: Forest, q: Option<nat>, n: nat, o: Option<nat>)
    requires Founded(f) && 0 < n <= |f.parents| && Known(f, q) && Known(f, o) && f.parents[n - 1] == q
    ensures ChildrenShow(f, q, n - 1, o) + PanelShows(f, n - 1, o) == ChildrenShow(f, q, n, o)
  {
    if o.Some? { PassedMore(f, q, n, o.value); }
    if q == o {
      if o.Some? { NotInItself(f, o.value); }
      JoinLeft(PanelsIn(f, q, n - 1), [PanelItem(n - 1)]);
    } else {
      JoinRight(If(o.Some? && Passed(ChildOn(f, o.value, q), n - 1), Contents(f, o)),
                If(o.Some? && Below(f, o.value, n - 1), Contents(f, o)));
    }
  }

  lemma JoinLeft<T>(a: seq<T>, b: seq<T>)
    ensures a + [] + (b + []) == a + b + []
  {
  }

  lemma JoinRight<T>(a: seq<T>, b: seq<T>)
    ensures [] + a + ([] + b) == a + b && [] + a == a && [] + b == b && (a == [] ==> a + b == b) && (b == [] ==> a + b == a)
  {
  }

  /** The lines of a panel, once those of the panels in it are known. */
  lemma PanelFromChildren(s: Look, f: Forest, i: nat, o: Option<nat>, children: seq<Line>, nested: seq<Item>,
                          x: seq<Item>, y: seq<Item>, lines: seq<Line>, items: seq<Item>)
    requires Founded(f) && i < |f.parents| && Top(s.open) == f.parents[i] && Known(f, o)
    requires children == ChildLines(f, Some(i), |f.parents|) && nested == ChildrenShow(f, Some(i), |f.parents|, o)
    requires x == If(f.parents[i] == o, [PanelItem(i)])
    requires y == If(o == Some(i), [DirectionItem] + NodesIn(f, Some(i), |f.nodes|))
    requires Shown(Look(s.open + [i], s.items + x + y), children, o, nested)
    requires lines == PanelLines(f, i) && items == PanelShows(f, i, o)
    ensures Shown(s, lines, o, items)
  {
    var nodes, inner := NodeLines(f, Some(i), |f.nodes|), Look(s.open + [i], s.items + x);
    var z := If(o == Some(i), BandsIn(f, Some(i), |f.bands|) + Chains(f, i));
    assert Adding(inner, y) == Look(s.open + [i], s.items + x + y);
    InnerShown(inner, f, i, o, nodes, y, children, nested, z);
    Inside(s, i, [Direction] + nodes + children + Last(f, i), x, y + nested + z, o);
    PanelLinesAre(f, i);
    PanelSum(f, i, o);
  }

  lemma {:induction false} ShownPanel(s: Look, f: Forest, i: nat, o: Option<nat>, lines: seq<Line>, items: seq<Item>)
    requires Founded(f) && i < |f.parents| && Top(s.open) == f.parents[i] && Known(f, o)
    requires lines == PanelLines(f, i) && items == PanelShows(f, i, o)
    ensures Shown(s, lines, o, items)
    decreases f.ranks[i], |f.parents| + 1
  {
    var children, nested := ChildLines(f, Some(i), |f.parents|), ChildrenShow(f, Some(i), |f.parents|, o);
    var x := If(f.parents[i] == o, [PanelItem(i)]);
    var y := If(o == Some(i), [DirectionItem] + NodesIn(f, Some(i), |f.nodes|));
    ShownChildren(Look(s.open + [i], s.items + x + y), f, Some(i), |f.parents|, o, children, nested);
    PanelFromChildren(s, f, i, o, children, nested, x, y, lines, items);
  }

  lemma {:induction false} ShownChildren(s: Look, f: Forest, q: Option<nat>, n: nat, o: Option<nat>,
                                         lines: seq<Line>, items: seq<Item>)
    requires Founded(f) && n <= |f.parents| && Known(f, q) && Known(f, o) && Top(s.open) == q
    requires lines == ChildLines(f, q, n) && items == ChildrenShow(f, q, n, o)
    ensures Shown(s, lines, o, items)
    decreases Rank(f, q), n
  {
    if n == 0 {
      ShownNothing(s, o);
      assert items == [] + [];
    } else {
      var lines', items' := ChildLines(f, q, n - 1), ChildrenShow(f, q, n - 1, o);
      ShownChildren(s, f, q, n - 1, o, lines', items');
      ChildStep(f, q, n, o);
      if f.parents[n - 1] == q {
        var panel, more := PanelLines(f, n - 1), PanelShows(f, n - 1, o);
        assert Grows(f, n - 1);
        ShownPanel(Adding(s, items'), f, n - 1, o, panel, more);
        ShownConcat(s, lines', items', panel, more, o);
      }
    }
  }

  lemma ChildStep(f: Forest, q: Option<nat>, n: nat, o: Option<nat>)
    requires Founded(f) && 0 < n <= |f.parents| && Known(f, q) && Known(f, o)
    ensures ChildLines(f, q, n) ==
            if f.parents[n - 1] == q then ChildLines(f, q, n - 1) + PanelLines(f, n - 1) else ChildLines(f, q, n - 1)
    ensures ChildrenShow(f, q, n, o) ==
            if f.parents[n - 1] == q then ChildrenShow(f, q, n - 1, o) + PanelShows(f, n - 1, o) else ChildrenShow(f, q, n - 1, o)
  {
    if f.parents[n - 1] == q { ChildSum(f, q, n, o); } else if o.Some? { PassedMore(f, q, n, o.value); }
  }

  /** Outside all panels stand the nodes nobody owns and then the outermost panels; in a panel stand its
      direction, its nodes, the panels in it, its bands and their chains: each list in the order of the
      figure, and nothing else. */
  lemma LinesInOrder(f: Forest, o: Option<nat>)
    requires Founded(f) && Known(f, o)
    ensures Watch(Look([], []), AllLines(f), o) ==
            Look([], if o.Some? then Content(f, o.value)
                     else NodesIn(f, None, |f.nodes|) + PanelsIn(f, None, |f.parents|))
  {
    var start, nodes := Look([], []), NodesIn(f, None, |f.nodes|);
    var loose, items := If(None == o, nodes), ChildrenShow(f, None, |f.parents|, o);
    ShownNodes(start, f, None, |f.nodes|, o, NodeLines(f, None, |f.nodes|), nodes);
    ShownChildren(Adding(start, loose), f, None, |f.parents|, o, ChildLines(f, None, |f.parents|), items);
    ShownConcat(start, NodeLines(f, None, |f.nodes|), loose, ChildLines(f, None, |f.parents|), items, o);
    assert [] + (loose + items) == loose + items;
    TopSum(f, o);
  }

  lemma TopSum(f: Forest, o: Option<nat>)
    requires Founded(f) && Known(f, o)
    ensures If(None == o, NodesIn(f, None, |f.nodes|)) + ChildrenShow(f, None, |f.parents|, o) ==
            if o.Some? then Content(f, o.value)
            else NodesIn(f, None, |f.nodes|) + PanelsIn(f, None, |f.parents|)
  {
    if o.Some? {
      assert Passed(ChildOn(f, o.value, None), |f.parents|);
      assert [] + ([] + Content(f, o.value)) == Content(f, o.value);
    } else {
      var panels := PanelsIn(f, None, |f.parents|);
      assert panels + [] == panels;
    }
  }
}
