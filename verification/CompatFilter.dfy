/** What the devicetree scanner reports, and filter_compat, which erases every node that is compatible with a given
    string (src/kernel/fdt.c). */
module CompatFilter {
  import opened DeviceTree

  datatype Event =
    | Opened(title: seq<nat>)
    | Property(name: nat, len: nat, value: seq<nat>)
    | PropertiesDone
    | Closed

  /** The contents of a node in depth-first order; a node's properties end at its first subnode or at its end. */
  function Events(items: Items, inside: bool, nodes: bool): seq<Event> {
    var mark := if !nodes && inside then [PropertiesDone] else [];
    match items
    case End => mark
    case NopThen(rest) => Events(rest, inside, nodes)
    case PropThen(name, len, value, rest) => [Property(name, len, value)] + Events(rest, inside, nodes)
    case NodeThen(title, body, rest) =>
      mark + ([Opened(title)] + Events(body, true, false) + [Closed]) + Events(rest, inside, true)
  }

  function React<S>(cb: Callbacks<S>, s: S, e: Event): S {
    match e
    case Opened(title) => cb.open(s, title)
    case Property(name, len, value) => cb.prop(s, name, len, value)
    case PropertiesDone => cb.done(s)
    case Closed => cb.close(s).0
  }

  function Replay<S>(cb: Callbacks<S>, s: S, events: seq<Event>): S {
    if events == [] then s else React(cb, Replay(cb, s, events[..|events| - 1]), events[|events| - 1])
  }

  lemma {:induction false} ReplayAppend<S>(cb: Callbacks<S>, s: S, x: seq<Event>, y: seq<Event>)
    ensures Replay(cb, s, x + y) == Replay(cb, Replay(cb, s, x), y)
    decreases |y|
  {
    if y == [] {
      assert x + y == x;
    } else {
      ReplayAppend(cb, s, x, y[..|y| - 1]);
      assert (x + y)[..|x + y| - 1] == x + y[..|y| - 1];
    }
  }

  lemma ReplayOne<S>(cb: Callbacks<S>, s: S, e: Event)
    ensures Replay(cb, s, [e]) == React(cb, s, e)
  {
    assert [e][..0] == [];
  }

  /** The callbacks are called once for each event, in depth-first order, whatever is deleted on the way. */
  lemma {:induction false} ScanReports<S>(cb: Callbacks<S>, s: S, items: Items, inside: bool, nodes: bool)
    ensures Scanned(cb, s, items, inside, nodes).0 == Replay(cb, s, Events(items, inside, nodes))
  {
    hide Replay;
    match items
    case End => MarkReports(cb, s, inside, nodes);
    case NopThen(rest) => ScanReports(cb, s, rest, inside, nodes);
    case PropThen(name, len, value, rest) =>
      var e := Property(name, len, value);
      ScanReports(cb, cb.prop(s, name, len, value), rest, inside, nodes);
      ReplayAppend(cb, s, [e], Events(rest, inside, nodes));
      ReplayOne(cb, s, e);
    case NodeThen(title, body, rest) =>
      var t := Finish(cb, s, inside, nodes);
      var u := Scanned(cb, cb.open(t, title), body, true, false).0;
      ScanReports(cb, cb.open(t, title), body, true, false);
      NodeReports(cb, t, u, title, body);
      ScanReports(cb, cb.close(u).0, rest, inside, true);
      MarkReports(cb, s, inside, nodes);
      var mark := if !nodes && inside then [PropertiesDone] else [];
      var node := [Opened(title)] + Events(body, true, false) + [Closed];
      ReplayAppend(cb, s, mark, node);
      ReplayAppend(cb, s, mark + node, Events(rest, inside, true));
  }

  lemma MarkReports<S>(cb: Callbacks<S>, s: S, inside: bool, nodes: bool)
    ensures Replay(cb, s, if !nodes && inside then [PropertiesDone] else []) == Finish(cb, s, inside, nodes)
  {
    ReplayOne(cb, s, PropertiesDone);
  }

  lemma NodeReports<S>(cb: Callbacks<S>, t: S, u: S, title: seq<nat>, body: Items)
    requires u == Replay(cb, cb.open(t, title), Events(body, true, false))
    ensures Replay(cb, t, [Opened(title)] + Events(body, true, false) + [Closed]) == cb.close(u).0
  {
    hide Replay, Events;
    ReplayOne(cb, t, Opened(title));
    ReplayOne(cb, u, Closed);
    ReplayAppend(cb, t, [Opened(title)], Events(body, true, false));
    ReplayAppend(cb, t, [Opened(title)] + Events(body, true, false), [Closed]);
  }

  /** Erased words report nothing. */
  lemma {:induction false} NopsAreSilent(n: nat, rest: Items, inside: bool, nodes: bool)
    ensures Events(Nops(n, rest), inside, nodes) == Events(rest, inside, nodes)
  {
    if n > 0 { NopsAreSilent(n - 1, rest, inside, nodes); }
  }

  // filter_compat.

  /** Larger than any depth that filter_compat expects. */
  const NO_KILL: int := 999

  /** A test of one property: it is "compatible" and lists the string. */
  type Test = (nat, nat, seq<nat>) -> bool

  /** compat_open, compat_prop and compat_close; the state is the depth and the depth of the node to delete. */
  function Compat(hit: Test): Callbacks<(int, int)> {
    Callbacks(
      (s: (int, int), _) => (s.0 + 1, s.1),
      (s: (int, int), name, len, value) => if hit(name, len, value) && s.0 < s.1 then (s.0, s.0) else s,
      (s: (int, int)) => s,
      (s: (int, int)) => if s.1 == s.0 then ((s.0 - 1, NO_KILL), true) else ((s.0 - 1, s.1), false))
  }

  /** One of a node's own properties passes the test. */
  predicate Matches(hit: Test, body: Items) {
    match body
    case End => false
    case NopThen(rest) => Matches(hit, rest)
    case PropThen(name, len, value, rest) => hit(name, len, value) || Matches(hit, rest)
    case NodeThen(_, _, rest) => Matches(hit, rest)
  }

  /** The tree without its compatible nodes. */
  function Pruned(hit: Test, items: Items): Items {
    match items
    case End => End
    case NopThen(rest) => NopThen(Pruned(hit, rest))
    case PropThen(name, len, value, rest) => PropThen(name, len, value, Pruned(hit, rest))
    case NodeThen(title, body, rest) =>
      if Matches(hit, body) then Pruned(hit, rest) else NodeThen(title, Pruned(hit, body), Pruned(hit, rest))
  }

  /** The tree with its compatible nodes overwritten by NOP tokens. */
  function Blanked(hit: Test, items: Items): Items {
    match items
    case End => End
    case NopThen(rest) => NopThen(Blanked(hit, rest))
    case PropThen(name, len, value, rest) => PropThen(name, len, value, Blanked(hit, rest))
    case NodeThen(title, body, rest) =>
      if Matches(hit, body) then Nops(NodeWords(title, body), Blanked(hit, rest))
      else NodeThen(title, Blanked(hit, body), Blanked(hit, rest))
  }

  /** No incompatible node stands at depth 999, except inside a compatible one; items are at depth d. */
  predicate Shallow(hit: Test, d: int, items: Items)
    decreases items
  {
    match items
    case End => true
    case NopThen(rest) => Shallow(hit, d, rest)
    case PropThen(_, _, _, rest) => Shallow(hit, d, rest)
    case NodeThen(_, body, rest) =>
      (Matches(hit, body) || (d + 1 != 999 && Shallow(hit, d + 1, body))) && Shallow(hit, d, rest)
  }

  /** Below a node that is to be deleted, nothing changes. */
  lemma {:induction false} Doomed(hit: Test, d: int, kill: int, items: Items, inside: bool, nodes: bool)
    requires kill <= d
    ensures Scanned(Compat(hit), (d, kill), items, inside, nodes) == ((d, kill), items)
    decreases items
  {
    match items
    case End =>
    case NopThen(rest) => Doomed(hit, d, kill, rest, inside, nodes);
    case PropThen(_, _, _, rest) => Doomed(hit, d, kill, rest, inside, nodes);
    case NodeThen(_, body, rest) =>
      Doomed(hit, d + 1, kill, body, true, false);
      Doomed(hit, d, kill, rest, inside, true);
  }

  /** The depth is restored, and the node around the items is marked if and only if it is compatible. */
  lemma {:induction false} Marks(hit: Test, d: int, items: Items, inside: bool, nodes: bool)
    requires d < NO_KILL
    ensures Scanned(Compat(hit), (d, NO_KILL), items, inside, nodes).0 ==
            (d, if Matches(hit, items) then d else NO_KILL)
    decreases items
  {
    match items
    case End =>
    case NopThen(rest) => Marks(hit, d, rest, inside, nodes);
    case PropThen(name, len, value, rest) =>
      if hit(name, len, value) { Doomed(hit, d, d, rest, inside, nodes); } else { Marks(hit, d, rest, inside, nodes); }
    case NodeThen(_, body, rest) =>
      if d + 1 == NO_KILL {
        Doomed(hit, d + 1, NO_KILL, body, true, false);
      } else {
        Marks(hit, d + 1, body, true, false);
      }
      Marks(hit, d, rest, inside, true);
  }

  lemma {:induction false} NopsInjective(n: nat, x: Items, y: Items)
    ensures Nops(n, x) == Nops(n, y) <==> x == y
  {
    if n > 0 { NopsInjective(n - 1, x, y); }
  }

  /** A node is deleted if it is compatible, and also if its depth is 999. */
  lemma NodeFiltered(hit: Test, d: int, title: seq<nat>, body: Items, rest: Items, inside: bool, nodes: bool)
    requires d < NO_KILL
    ensures var r := Scanned(Compat(hit), (d, NO_KILL), rest, inside, true).1;
            Scanned(Compat(hit), (d, NO_KILL), NodeThen(title, body, rest), inside, nodes).1
            == if Matches(hit, body) || d + 1 == NO_KILL then Nops(NodeWords(title, body), r)
               else NodeThen(title, Scanned(Compat(hit), (d + 1, NO_KILL), body, true, false).1, r)
  {
    if d + 1 == NO_KILL {
      Doomed(hit, d + 1, NO_KILL, body, true, false);
    } else {
      Marks(hit, d + 1, body, true, false);
    }
  }

  /** filter_compat erases exactly the compatible nodes if and only if the tree is shallow. */
  lemma {:induction false} FiltersExactly(hit: Test, d: int, items: Items, inside: bool, nodes: bool)
    requires d < NO_KILL && !Matches(hit, items)
    ensures Scanned(Compat(hit), (d, NO_KILL), items, inside, nodes).1 == Blanked(hit, items) <==>
            Shallow(hit, d, items)
    decreases items
  {
    match items
    case End =>
    case NopThen(rest) => FiltersExactly(hit, d, rest, inside, nodes);
    case PropThen(_, _, _, rest) => FiltersExactly(hit, d, rest, inside, nodes);
    case NodeThen(title, body, rest) =>
      hide Scanned, Compat;
      NodeFiltered(hit, d, title, body, rest, inside, nodes);
      FiltersExactly(hit, d, rest, inside, true);
      if Matches(hit, body) {
        var r := Scanned(Compat(hit), (d, NO_KILL), rest, inside, true).1;
        NopsInjective(NodeWords(title, body), r, Blanked(hit, rest));
      } else if d + 1 != NO_KILL {
        FiltersExactly(hit, d + 1, body, true, false);
      }
  }

  /** n nodes without properties, each inside the one before. */
  function Chain(n: nat): Items {
    if n == 0 then End else NodeThen([0], Chain(n - 1), End)
  }

  lemma {:induction false} ChainIsDeep(hit: Test, d: int, n: nat)
    requires d < NO_KILL <= d + n
    ensures !Shallow(hit, d, Chain(n)) && !AnyMatch(hit, Chain(n))
    decreases n
  {
    assert !Matches(hit, Chain(n - 1));
    if d + 1 == NO_KILL { ChainIsClean(hit, n); } else { ChainIsDeep(hit, d + 1, n - 1); }
  }

  lemma {:induction false} ChainIsClean(hit: Test, n: nat)
    ensures !Matches(hit, Chain(n)) && !AnyMatch(hit, Chain(n))
  {
    if n > 0 { ChainIsClean(hit, n - 1); }
  }

  /** The innermost of 999 nested nodes is deleted although no node is compatible. */
  lemma DeepNodeIsLost(hit: Test)
    ensures WellFormed(Chain(999), false) && !AnyMatch(hit, Chain(999))
    ensures Scanned(Compat(hit), (0, NO_KILL), Chain(999), false, false).1 != Blanked(hit, Chain(999))
  {
    hide Scanned, Compat;
    ChainIsDeep(hit, 0, 999);
    ChainIsClean(hit, 999);
    ChainIsWellFormed(999);
    FiltersExactly(hit, 0, Chain(999), false, false);
  }

  lemma {:induction false} ChainIsWellFormed(n: nat)
    ensures WellFormed(Chain(n), false)
  {
    if n > 0 { ChainIsWellFormed(n - 1); }
  }

  /** To every later scan, the filtered tree is the pruned one. */
  lemma {:induction false} BlankedReadsAsPruned(hit: Test, items: Items, inside: bool, nodes: bool)
    ensures Events(Blanked(hit, items), inside, nodes) == Events(Pruned(hit, items), inside, nodes)
  {
    match items
    case End =>
    case NopThen(rest) => BlankedReadsAsPruned(hit, rest, inside, nodes);
    case PropThen(_, _, _, rest) => BlankedReadsAsPruned(hit, rest, inside, nodes);
    case NodeThen(title, body, rest) =>
      if Matches(hit, body) {
        BlankedReadsAsPruned(hit, rest, inside, nodes);
        NopsAreSilent(NodeWords(title, body), Blanked(hit, rest), inside, nodes);
      } else {
        BlankedReadsAsPruned(hit, body, true, false);
        BlankedReadsAsPruned(hit, rest, inside, true);
      }
  }

  predicate AnyMatch(hit: Test, items: Items) {
    match items
    case End => false
    case NopThen(rest) => AnyMatch(hit, rest)
    case PropThen(_, _, _, rest) => AnyMatch(hit, rest)
    case NodeThen(_, body, rest) => Matches(hit, body) || AnyMatch(hit, body) || AnyMatch(hit, rest)
  }

  /** Pruning leaves no compatible node, and leaves the tree alone if and only if there was none. */
  lemma {:induction false} PrunedIsClean(hit: Test, items: Items)
    ensures !AnyMatch(hit, Pruned(hit, items)) && Matches(hit, Pruned(hit, items)) == Matches(hit, items)
    ensures Pruned(hit, items) == items <==> !AnyMatch(hit, items)
  {
    match items
    case End =>
    case NopThen(rest) => PrunedIsClean(hit, rest);
    case PropThen(_, _, _, rest) => PrunedIsClean(hit, rest);
    case NodeThen(_, body, rest) =>
      PrunedIsClean(hit, body);
      PrunedIsClean(hit, rest);
      PrunedSize(hit, rest);
  }

  function Size(items: Items): nat {
    match items
    case End => 0
    case NopThen(rest) => 1 + Size(rest)
    case PropThen(_, _, _, rest) => 1 + Size(rest)
    case NodeThen(_, body, rest) => 1 + Size(body) + Size(rest)
  }

  lemma {:induction false} PrunedSize(hit: Test, items: Items)
    ensures Size(Pruned(hit, items)) <= Size(items)
  {
    match items
    case End =>
    case NopThen(rest) => PrunedSize(hit, rest);
    case PropThen(_, _, _, rest) => PrunedSize(hit, rest);
    case NodeThen(_, body, rest) =>
      PrunedSize(hit, body);
      PrunedSize(hit, rest);
  }

  /** A property outside every node that matches keeps filter_compat from deleting anything. */
  lemma {:induction false} OuterMatch(hit: Test, d: int, items: Items, inside: bool)
    requires d < NO_KILL && WellFormed(items, false) && Matches(hit, items)
    ensures Scanned(Compat(hit), (d, NO_KILL), items, inside, false).1 == items
    decreases items
  {
    match items
    case End =>
    case NopThen(rest) => OuterMatch(hit, d, rest, inside);
    case PropThen(name, len, value, rest) =>
      if hit(name, len, value) { Doomed(hit, d, d, rest, inside, false); } else { OuterMatch(hit, d, rest, inside); }
    case NodeThen(_, _, rest) => NoMoreProperties(hit, rest);
  }

  lemma {:induction false} NoMoreProperties(hit: Test, items: Items)
    requires WellFormed(items, true)
    ensures !Matches(hit, items)
  {
    match items
    case End =>
    case NopThen(rest) => NoMoreProperties(hit, rest);
    case NodeThen(_, _, rest) => NoMoreProperties(hit, rest);
  }

  /** What filter_compat makes of a shallow block: its matching nodes are blank, unless a property outside every node
      matches. */
  function Filtered(hit: Test, items: Items): Items {
    if Matches(hit, items) then items else Blanked(hit, items)
  }

  /** filter_compat on a structure block: in place, and with every other word kept. */
  method FilterCompat(a: array<nat>, start: nat, hit: Test, ghost items: Items)
    requires WellFormed(items, false) && Holds(a[..], start, items)
    modifies a
    ensures |Encode(Scanned(Compat(hit), (0, NO_KILL), items, false, false).1)| == |Encode(items)|
    ensures a[..] == Splice(old(a[..]), start, Encode(Scanned(Compat(hit), (0, NO_KILL), items, false, false).1))
    ensures Matches(hit, items) || Shallow(hit, 0, items) ==>
              && |Encode(Filtered(hit, items))| == |Encode(items)|
              && a[..] == Splice(old(a[..]), start, Encode(Filtered(hit, items)))
  {
    hide Scanned, Encode, WellFormed, Splice, Holds, Compat;
    var _, _ := ScanItems(a, start, false, Compat(hit), (0, NO_KILL), items);
    if Matches(hit, items) { OuterMatch(hit, 0, items, false); } else { FiltersExactly(hit, 0, items, false, false); }
  }

  lemma {:induction false} NopsWellFormed(n: nat, rest: Items, nodes: bool)
    requires WellFormed(rest, nodes)
    ensures WellFormed(Nops(n, rest), nodes)
  {
    if n > 0 { NopsWellFormed(n - 1, rest, nodes); }
  }

  /** Contents that may follow a node may also come first. */
  lemma {:induction false} WellFormedFirst(items: Items, nodes: bool)
    requires WellFormed(items, true)
    ensures WellFormed(items, nodes)
  {
    match items
    case End =>
    case NopThen(rest) => WellFormedFirst(rest, nodes);
    case NodeThen(_, _, _) =>
  }

  /** A scan keeps a block well formed, whatever it deletes. */
  lemma {:induction false} ScannedWellFormed<S>(cb: Callbacks<S>, s: S, items: Items, inside: bool, nodes: bool)
    requires WellFormed(items, nodes)
    ensures WellFormed(Scanned(cb, s, items, inside, nodes).1, nodes)
  {
    match items
    case End =>
    case NopThen(rest) => ScannedWellFormed(cb, s, rest, inside, nodes);
    case PropThen(name, len, value, rest) => ScannedWellFormed(cb, cb.prop(s, name, len, value), rest, inside, nodes);
    case NodeThen(title, body, rest) =>
      var t := cb.open(Finish(cb, s, inside, nodes), title);
      var u := cb.close(Scanned(cb, t, body, true, false).0).0;
      var after := Scanned(cb, u, rest, inside, true).1;
      ScannedWellFormed(cb, t, body, true, false);
      ScannedWellFormed(cb, u, rest, inside, true);
      WellFormedFirst(after, nodes);
      NopsWellFormed(NodeWords(title, body), after, nodes);
  }

  /** Replacing the words of a block by as many leaves a block. */
  lemma SpliceHolds(a: seq<nat>, start: nat, items: Items, after: Items)
    requires Holds(a, start, items) && |Encode(after)| == |Encode(items)|
    ensures Holds(Splice(a, start, Encode(after)), start, after)
  {
    hide Encode;
  }

  /** A scan after filter_compat calls its callbacks exactly for the events of the tree without the matching nodes, if
      the block is shallow. */
  method FilterThenScan<S>(a: array<nat>, start: nat, hit: Test, cb: Callbacks<S>, s0: S, ghost items: Items)
    returns (s: S)
    requires WellFormed(items, false) && Holds(a[..], start, items)
    modifies a
    ensures s == Replay(cb, s0, Events(Scanned(Compat(hit), (0, NO_KILL), items, false, false).1, false, false))
    ensures Matches(hit, items) ==> s == Replay(cb, s0, Events(items, false, false))
    ensures !Matches(hit, items) && Shallow(hit, 0, items) ==>
            s == Replay(cb, s0, Events(Pruned(hit, items), false, false))
  {
    hide Scanned, Encode, WellFormed, Splice, Holds, Compat, Replay, Events, Pruned, Blanked, Shallow, Matches;
    ghost var after := Scanned(Compat(hit), (0, NO_KILL), items, false, false).1;
    FilterCompat(a, start, hit, items);
    ScannedWellFormed(Compat(hit), (0, NO_KILL), items, false, false);
    SpliceHolds(old(a[..]), start, items, after);
    var _, t := ScanItems(a, start, false, cb, s0, after);
    ScanReports(cb, s0, after, false, false);
    if Matches(hit, items) {
      OuterMatch(hit, 0, items, false);
    } else {
      FiltersExactly(hit, 0, items, false, false);
      BlankedReadsAsPruned(hit, items, false, false);
    }
    return t;
  }
}
