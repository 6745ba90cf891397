/** The flattened devicetree scanner and its in-place deletion of nodes (src/kernel/fdt.c). Words of the structure
    block (section 5.4 of the Devicetree Specification) are given by their big-endian values. */
module DeviceTree {
  import Bytes

  const BEGIN_NODE: nat := 1

  const END_NODE: nat := 2

  const PROP: nat := 3

  const NOP: nat := 4

  /** The contents of a node: properties and subnodes, with NOP tokens anywhere between them. */
  datatype Items =
    | End
    | NopThen(rest: Items)
    | PropThen(name: nat, len: nat, value: seq<nat>, rest: Items)
    | NodeThen(title: seq<nat>, body: Items, rest: Items)

  /** The structure block, with the tokens of section 5.4.1. */
  function Encode(items: Items): seq<nat> {
    match items
    case End => []
    case NopThen(rest) => [4] + Encode(rest)
    case PropThen(name, len, value, rest) => [3, len, name] + value + Encode(rest)
    case NodeThen(title, body, rest) => [1] + title + Encode(body) + [2] + Encode(rest)
  }

  /** One of the four bytes of a word is NUL. */
  predicate HasNul(w: nat) { w % 256 == 0 || w / 256 % 256 == 0 || w / 65536 % 256 == 0 || w / 16777216 % 256 == 0 }

  lemma NulBytes(a: nat, b: nat, c: nat, d: nat)
    requires a < 256 && b < 256 && c < 256 && d < 256
    ensures HasNul(a * 0x100_0000 + b * 0x1_0000 + c * 0x100 + d) <==> a == 0 || b == 0 || c == 0 || d == 0
  {
    var w := a * 0x100_0000 + b * 0x1_0000 + c * 0x100 + d;
    Bytes.ModUnique(w, 0x100, a * 0x1_0000 + b * 0x100 + c, d);
    Bytes.ModUnique(w, 0x1_0000, a * 0x100 + b, c * 0x100 + d);
    Bytes.ModUnique(w, 0x100_0000, a, b * 0x1_0000 + c * 0x100 + d);
    Bytes.ModUnique(w / 0x100, 0x100, a * 0x100 + b, c);
    Bytes.ModUnique(w / 0x1_0000, 0x100, a, b);
  }

  /** A padded string: the first NUL is in its last word. */
  predicate IsTitle(title: seq<nat>) {
    |title| >= 1 && HasNul(title[|title| - 1]) && forall i :: 0 <= i < |title| - 1 ==> !HasNul(title[i])
  }

  /** Properties have as many words as they say, names are padded strings, and properties come before subnodes. */
  predicate WellFormed(items: Items, nodes: bool) {
    match items
    case End => true
    case NopThen(rest) => WellFormed(rest, nodes)
    case PropThen(_, len, value, rest) => !nodes && |value| == (len + 3) / 4 && WellFormed(rest, nodes)
    case NodeThen(title, body, rest) => IsTitle(title) && WellFormed(body, false) && WellFormed(rest, true)
  }

  /** The node "cpus" with a property of five bytes and the node "cpu" inside it, with its tokens, padded names and
      values. */
  lemma ExampleBlock(name: nat)
    ensures var items := NodeThen([0x63707573, 0], PropThen(name, 5, [0x01020304, 0x05000000],
                                                            NodeThen([0x63707500], End, End)), End);
            && WellFormed(items, false)
            && Encode(items) == [1, 0x63707573, 0, 3, 5, name, 0x01020304, 0x05000000, 1, 0x63707500, 2, 2]
  {
    var inner := NodeThen([0x63707500], End, End);
    var body := PropThen(name, 5, [0x01020304, 0x05000000], inner);
    assert Encode(inner) == [1, 0x63707500, 2];
    assert Encode(body) == [3, 5, name, 0x01020304, 0x05000000, 1, 0x63707500, 2];
    assert WellFormed(inner, false);
  }

  /** What a scan reports, with the state that the reports build up. close also says whether to delete. */
  datatype Callbacks<!S> = Callbacks(
    open: (S, seq<nat>) -> S,
    prop: (S, nat, nat, seq<nat>) -> S,
    done: S -> S,
    close: S -> (S, bool))

  function Nops(n: nat, rest: Items): Items {
    if n == 0 then rest else NopThen(Nops(n - 1, rest))
  }

  /** The words of a whole node. */
  function NodeWords(title: seq<nat>, body: Items): nat { |title| + |Encode(body)| + 2 }

  /** The end of the properties is reported once, and only inside a node. */
  function Finish<S>(cb: Callbacks<S>, s: S, inside: bool, nodes: bool): S {
    if !nodes && inside then cb.done(s) else s
  }

  /** Depth first: the state after a scan, and the contents that it leaves. */
  function Scanned<S>(cb: Callbacks<S>, s: S, items: Items, inside: bool, nodes: bool): (S, Items) {
    match items
    case End => (Finish(cb, s, inside, nodes), End)
    case NopThen(rest) =>
      var (t, r) := Scanned(cb, s, rest, inside, nodes);
      (t, NopThen(r))
    case PropThen(name, len, value, rest) =>
      var (t, r) := Scanned(cb, cb.prop(s, name, len, value), rest, inside, nodes);
      (t, PropThen(name, len, value, r))
    case NodeThen(title, body, rest) =>
      var (u, b) := Scanned(cb, cb.open(Finish(cb, s, inside, nodes), title), body, true, false);
      var (v, delete) := cb.close(u);
      var (t, r) := Scanned(cb, v, rest, inside, true);
      (t, if delete then Nops(NodeWords(title, body), r) else NodeThen(title, b, r))
  }

  lemma {:induction false} NopsEncode(n: nat, rest: Items)
    ensures Encode(Nops(n, rest)) == seq(n, _ => NOP) + Encode(rest)
  {
    if n > 0 {
      NopsEncode(n - 1, rest);
      assert [NOP] + seq(n - 1, _ => NOP) == seq(n, _ => NOP);
    }
  }

  /** A scan changes no lengths. */
  lemma {:induction false} SameLength<S>(cb: Callbacks<S>, s: S, items: Items, inside: bool, nodes: bool)
    ensures |Encode(Scanned(cb, s, items, inside, nodes).1)| == |Encode(items)|
  {
    match items
    case End =>
    case NopThen(rest) => SameLength(cb, s, rest, inside, nodes);
    case PropThen(name, len, value, rest) => SameLength(cb, cb.prop(s, name, len, value), rest, inside, nodes);
    case NodeThen(title, body, rest) =>
      var (u, b) := Scanned(cb, cb.open(Finish(cb, s, inside, nodes), title), body, true, false);
      SameLength(cb, cb.open(Finish(cb, s, inside, nodes), title), body, true, false);
      var (v, delete) := cb.close(u);
      SameLength(cb, v, rest, inside, true);
      NopsEncode(NodeWords(title, body), Scanned(cb, v, rest, inside, true).1);
  }

  /** strlen(name) / 4 + 1: the words of the padded string at lex. */
  method TitleWords(a: array<nat>, lex: nat, ghost title: seq<nat>) returns (n: nat)
    requires IsTitle(title) && lex + |title| <= a.Length && a[lex..lex + |title|] == title
    ensures n == |title|
  {
    hide HasNul;
    n := 1;
    while !HasNul(a[lex + n - 1])
      invariant 1 <= n <= |title|
      invariant forall i :: 0 <= i < n - 1 ==> !HasNul(title[i])
      decreases |title| - n
    {
      assert a[lex + n - 1] == a[lex..lex + |title|][n - 1];
      n := n + 1;
    }
    assert a[lex + n - 1] == a[lex..lex + |title|][n - 1];
  }

  /** while (lex != lex_next) *lex++ = FDT_NOP */
  method Erase(a: array<nat>, from: nat, to: nat)
    requires from <= to <= a.Length
    modifies a
    ensures a[..] == old(a[..from]) + seq(to - from, _ => NOP) + old(a[to..])
  {
    var lex := from;
    while lex != to
      invariant from <= lex <= to
      invariant a[..] == old(a[..from]) + seq(lex - from, _ => NOP) + old(a[lex..])
    {
      a[lex] := NOP;
      lex := lex + 1;
    }
  }

  /** The words of the structure block at lex are these items, and then something that ends them. */
  predicate Holds(a: seq<nat>, lex: nat, items: Items) {
    var stop := lex + |Encode(items)|;
    stop < |a| && a[lex..stop] == Encode(items) && a[stop] != BEGIN_NODE && a[stop] != PROP && a[stop] != NOP
  }

  /** a with the words from start on replaced. */
  function Splice(a: seq<nat>, start: nat, words: seq<nat>): seq<nat>
    requires start + |words| <= |a|
  {
    a[..start] + words + a[start + |words|..]
  }

  /** The words of a node and their replacement. */
  function NodeEncoding(title: seq<nat>, body: Items): (w: seq<nat>)
    ensures |w| == NodeWords(title, body)
  {
    [BEGIN_NODE] + title + Encode(body) + [END_NODE]
  }

  /** The state after the open callback of a node and the scan of its contents. */
  function Entered<S>(cb: Callbacks<S>, s: S, title: seq<nat>, body: Items): (S, Items) {
    Scanned(cb, cb.open(s, title), body, true, false)
  }

  function NodeResult<S>(cb: Callbacks<S>, s: S, title: seq<nat>, body: Items): (w: seq<nat>)
    ensures |w| == NodeWords(title, body)
  {
    var (u, b) := Entered(cb, s, title, body);
    SameLength(cb, cb.open(s, title), body, true, false);
    if cb.close(u).1 then seq(NodeWords(title, body), _ => NOP) else NodeEncoding(title, b)
  }

  lemma At(a: seq<nat>, lex: nat, w: seq<nat>, i: nat)
    requires lex + |w| <= |a| && a[lex..lex + |w|] == w && i < |w|
    ensures a[lex + i] == w[i]
  {
    assert a[lex..lex + |w|][i] == a[lex + i];
  }

  /** Part of a slice is a slice. */
  lemma SubSlice(a: seq<nat>, lex: nat, w: seq<nat>, i: nat, j: nat)
    requires lex + |w| <= |a| && a[lex..lex + |w|] == w && i <= j <= |w|
    ensures a[lex + i..lex + j] == w[i..j]
  {
    forall k | i <= k < j ensures a[lex + k] == w[k] { At(a, lex, w, k); }
    forall k | 0 <= k < j - i ensures a[lex + i..lex + j][k] == w[i..j][k] { assert a[lex + (i + k)] == w[i + k]; }
  }

  lemma SpliceInner(a: seq<nat>, lex: nat, pre: seq<nat>, mid: seq<nat>, mid': seq<nat>, post: seq<nat>)
    requires |mid| == |mid'| && lex + |pre + mid + post| <= |a|
    requires a[lex..lex + |pre + mid + post|] == pre + mid + post
    ensures lex + |pre| + |mid'| <= |a| && Splice(a, lex + |pre|, mid') == Splice(a, lex, pre + mid' + post)
  {
    var w, p := pre + mid + post, lex + |pre|;
    SubSlice(a, lex, w, 0, |pre|);
    SubSlice(a, lex, w, |pre| + |mid|, |w|);
    assert w[0..|pre|] == pre && w[|pre| + |mid|..|w|] == post;
    assert a[..p] == a[..lex] + pre;
    assert a[p + |mid|..] == post + a[lex + |w|..];
  }

  lemma NodeSlices(a: seq<nat>, lex: nat, title: seq<nat>, body: Items)
    requires lex + NodeWords(title, body) <= |a| && a[lex..lex + NodeWords(title, body)] == NodeEncoding(title, body)
    ensures a[lex + 1..lex + 1 + |title|] == title
    ensures Holds(a, lex + 1 + |title|, body) && a[lex + 1 + |title| + |Encode(body)|] == END_NODE
  {
    hide Encode;
    var w, p := NodeEncoding(title, body), lex + 1 + |title|;
    SubSlice(a, lex, w, 1, 1 + |title|);
    SubSlice(a, lex, w, 1 + |title|, 1 + |title| + |Encode(body)|);
    At(a, lex, w, |w| - 1);
    assert w[1..1 + |title|] == title && w[1 + |title|..1 + |title| + |Encode(body)|] == Encode(body);
  }

  /** The FDT_BEGIN_NODE case: scan a node and delete it if its close callback says so. */
  method ScanNode<S>(a: array<nat>, lex: nat, cb: Callbacks<S>, s0: S, ghost title: seq<nat>, ghost body: Items)
    returns (next: nat, s: S)
    requires IsTitle(title) && WellFormed(body, false)
    requires lex + NodeWords(title, body) <= a.Length
    requires a[lex..lex + NodeWords(title, body)] == NodeEncoding(title, body)
    modifies a
    ensures next == lex + NodeWords(title, body)
    ensures s == cb.close(Entered(cb, s0, title, body).0).0
    ensures a[..] == Splice(old(a[..]), lex, NodeResult(cb, s0, title, body))
    decreases NodeWords(title, body), 0
  {
    hide Scanned, Encode, IsTitle, WellFormed, Splice, Holds, NodeEncoding;
    ghost var p := lex + 1 + |title|;
    SliceOfArray(a, lex, NodeWords(title, body));
    NodeSlices(a[..], lex, title, body);
    SliceOfArray(a, lex + 1, |title|);
    var n := TitleWords(a, lex + 1, title);
    s := cb.open(s0, a[lex + 1..lex + 1 + n]);
    next, s := ScanItems(a, lex + 1 + n, true, cb, s, body);
    ghost var b := Entered(cb, s0, title, body).1;
    InsideNode(old(a[..]), lex, title, body, b, cb, s0);
    var (t, delete) := cb.close(s);
    s := t;
    if delete {
      ghost var before := a[..];
      Erase(a, lex, next);
      ErasedNode(old(a[..]), before, a[..], lex, NodeEncoding(title, b));
    }
  }

  lemma SliceOfArray(a: array<nat>, lex: nat, n: nat)
    requires lex + n <= a.Length
    ensures a[..][lex..lex + n] == a[lex..lex + n]
  {}

  lemma InsideNode<S>(a: seq<nat>, lex: nat, title: seq<nat>, body: Items, b: Items, cb: Callbacks<S>, s0: S)
    requires lex + NodeWords(title, body) <= |a| && a[lex..lex + NodeWords(title, body)] == NodeEncoding(title, body)
    requires b == Entered(cb, s0, title, body).1
    ensures |Encode(b)| == |Encode(body)|
    ensures Splice(a, lex + 1 + |title|, Encode(b)) == Splice(a, lex, NodeEncoding(title, b))
  {
    hide Encode, Splice, Scanned;
    SameLength(cb, cb.open(s0, title), body, true, false);
    SpliceInner(a, lex, [BEGIN_NODE] + title, Encode(body), Encode(b), [END_NODE]);
  }

  lemma ErasedNode(a: seq<nat>, before: seq<nat>, after: seq<nat>, lex: nat, w: seq<nat>)
    requires lex + |w| <= |a| && before == Splice(a, lex, w)
    requires after == before[..lex] + seq(|w|, _ => NOP) + before[lex + |w|..]
    ensures after == Splice(a, lex, seq(|w|, _ => NOP))
  {}

  /** fdt_scan_helper on the contents of a node, or of the whole block. */
  method ScanItems<S>(a: array<nat>, start: nat, inside: bool, cb: Callbacks<S>, s0: S, ghost items: Items)
    returns (lex: nat, s: S)
    requires WellFormed(items, false) && Holds(a[..], start, items)
    modifies a
    ensures lex == start + |Encode(items)| + (if old(a[start + |Encode(items)|]) == END_NODE then 1 else 0)
    ensures s == Scanned(cb, s0, items, inside, false).0
    ensures |Encode(Scanned(cb, s0, items, inside, false).1)| == |Encode(items)|
    ensures a[..] == Splice(old(a[..]), start, Encode(Scanned(cb, s0, items, inside, false).1))
    decreases |Encode(items)|, 1
  {
    hide Scanned, Encode, Splice, WellFormed, Holds, NodeEncoding, NodeResult, Entered, NodeWords, Progress;
    lex, s := start, s0;
    var nodes := false;
    ghost var rest, done, w0 := items, [], a[..];
    Begin(cb, s0, items, inside, w0, start);
    while true
      invariant Progress(cb, s0, items, inside, w0, start, a[..], lex, s, nodes, rest, done)
      decreases |Encode(rest)|
    {
      Look(cb, s0, items, inside, w0, start, a[..], lex, s, nodes, rest, done);
      ghost var before := a[..];
      if a[lex] == NOP {
        NopStep(cb, s0, items, inside, w0, start, before, lex, s, nodes, rest, done);
        lex := lex + 1;
        done, rest := done + [NOP], rest.rest;
      } else if a[lex] == PROP {
        var name, len := a[lex + 2], a[lex + 1];
        var value := a[lex + 3..lex + 3 + (len + 3) / 4];
        PropStep(cb, s0, items, inside, w0, start, before, lex, s, nodes, rest, done);
        lex := lex + 3 + (len + 3) / 4;
        s := cb.prop(s, name, len, value);
        done, rest := done + ([PROP, len, name] + value), rest.rest;
      } else if a[lex] == BEGIN_NODE {
        NodeStep(cb, s0, items, inside, w0, start, before, lex, s, nodes, rest, done);
        if !nodes && inside { s := cb.done(s); }
        nodes := true;
        ghost var t := s;
        lex, s := ScanNode(a, lex, cb, s, rest.title, rest.body);
        done, rest := done + NodeResult(cb, t, rest.title, rest.body), rest.rest;
      } else if a[lex] == END_NODE {
        if !nodes && inside { s := cb.done(s); }
        return lex + 1, s;
      } else {
        if !nodes && inside { s := cb.done(s); }
        return lex, s;
      }
    }
  }

  /** Part way through a scan: the words in done are final, the items in rest are still to come. */
  ghost predicate Progress<S>(cb: Callbacks<S>, s0: S, items: Items, inside: bool, w0: seq<nat>, start: nat,
                              a: seq<nat>, lex: nat, s: S, nodes: bool, rest: Items, done: seq<nat>)
  {
    && lex == start + |done| && |done| + |Encode(rest)| == |Encode(items)| && start + |Encode(items)| < |w0| == |a|
    && a == Splice(w0, start, done + Encode(rest)) && WellFormed(rest, nodes)
    && Scanned(cb, s0, items, inside, false).0 == Scanned(cb, s, rest, inside, nodes).0
    && Encode(Scanned(cb, s0, items, inside, false).1) == done + Encode(Scanned(cb, s, rest, inside, nodes).1)
    && var t := w0[start + |Encode(items)|]; t != BEGIN_NODE && t != PROP && t != NOP
  }

  lemma Begin<S>(cb: Callbacks<S>, s0: S, items: Items, inside: bool, w0: seq<nat>, start: nat)
    requires Holds(w0, start, items) && WellFormed(items, false)
    ensures Progress(cb, s0, items, inside, w0, start, w0, start, s0, false, items, [])
    ensures |Encode(Scanned(cb, s0, items, inside, false).1)| == |Encode(items)|
  {
    hide Encode, Scanned;
    SameLength(cb, s0, items, inside, false);
    assert [] + Encode(items) == Encode(items);
    assert w0 == Splice(w0, start, Encode(items));
  }

  /** What the words at the cursor say about the items that are left. */
  lemma Look<S>(cb: Callbacks<S>, s0: S, items: Items, inside: bool, w0: seq<nat>, start: nat,
                a: seq<nat>, lex: nat, s: S, nodes: bool, rest: Items, done: seq<nat>)
    requires Progress(cb, s0, items, inside, w0, start, a, lex, s, nodes, rest, done)
    ensures lex < |a| == |w0|
    ensures (a[lex] == NOP <==> rest.NopThen?) && (a[lex] == PROP <==> rest.PropThen?)
    ensures a[lex] == BEGIN_NODE <==> rest.NodeThen?
    ensures rest.PropThen? ==>
              && lex + 3 + (rest.len + 3) / 4 < |a| && |rest.value| == (rest.len + 3) / 4
              && a[lex + 1] == rest.len && a[lex + 2] == rest.name
              && a[lex + 3..lex + 3 + (rest.len + 3) / 4] == rest.value
    ensures rest.NodeThen? ==>
              && lex + NodeWords(rest.title, rest.body) <= |a| && IsTitle(rest.title) && WellFormed(rest.body, false)
              && a[lex..lex + NodeWords(rest.title, rest.body)] == NodeEncoding(rest.title, rest.body)
              && NodeWords(rest.title, rest.body) <= |Encode(rest)|
              && |Encode(rest)| <= |Encode(items)|
    ensures rest != End ==> |Encode(rest.rest)| < |Encode(rest)|
    ensures rest.End? ==>
              && lex == start + |Encode(items)| && a[lex] == w0[lex]
              && Scanned(cb, s0, items, inside, false).0 == Finish(cb, s, inside, nodes)
              && a == Splice(w0, start, Encode(Scanned(cb, s0, items, inside, false).1))
  {
    hide Splice, Scanned, IsTitle, Encode, WellFormed, NodeEncoding;
    Words(w0, a, start, done, rest);
    Parts(rest, nodes);
    Unfold(cb, s, rest, inside, nodes);
  }

  lemma NopStep<S>(cb: Callbacks<S>, s0: S, items: Items, inside: bool, w0: seq<nat>, start: nat,
                   a: seq<nat>, lex: nat, s: S, nodes: bool, rest: Items, done: seq<nat>)
    requires Progress(cb, s0, items, inside, w0, start, a, lex, s, nodes, rest, done) && rest.NopThen?
    ensures Progress(cb, s0, items, inside, w0, start, a, lex + 1, s, nodes, rest.rest, done + [NOP])
  {
    hide Splice, Scanned, Encode, WellFormed;
    Parts(rest, nodes);
    Unfold(cb, s, rest, inside, nodes);
    Reassociate(done, [NOP], Encode(rest.rest));
    Reassociate(done, [NOP], Encode(Scanned(cb, s, rest.rest, inside, nodes).1));
  }

  lemma PropStep<S>(cb: Callbacks<S>, s0: S, items: Items, inside: bool, w0: seq<nat>, start: nat,
                    a: seq<nat>, lex: nat, s: S, nodes: bool, rest: Items, done: seq<nat>)
    requires Progress(cb, s0, items, inside, w0, start, a, lex, s, nodes, rest, done) && rest.PropThen?
    ensures Progress(cb, s0, items, inside, w0, start, a, lex + 3 + (rest.len + 3) / 4,
                     cb.prop(s, rest.name, rest.len, rest.value), nodes, rest.rest,
                     done + ([PROP, rest.len, rest.name] + rest.value))
  {
    hide Splice, Scanned, Encode, WellFormed;
    Parts(rest, nodes);
    Unfold(cb, s, rest, inside, nodes);
    var w, t := [PROP, rest.len, rest.name] + rest.value, cb.prop(s, rest.name, rest.len, rest.value);
    Reassociate(done, w, Encode(rest.rest));
    Reassociate(done, w, Encode(Scanned(cb, t, rest.rest, inside, nodes).1));
  }

  lemma NodeStep<S>(cb: Callbacks<S>, s0: S, items: Items, inside: bool, w0: seq<nat>, start: nat,
                    a: seq<nat>, lex: nat, s: S, nodes: bool, rest: Items, done: seq<nat>)
    requires Progress(cb, s0, items, inside, w0, start, a, lex, s, nodes, rest, done) && rest.NodeThen?
    requires lex + NodeWords(rest.title, rest.body) <= |a|
    ensures var t := Finish(cb, s, inside, nodes);
            var w := NodeResult(cb, t, rest.title, rest.body);
            Progress(cb, s0, items, inside, w0, start, Splice(a, lex, w), lex + NodeWords(rest.title, rest.body),
                     cb.close(Entered(cb, t, rest.title, rest.body).0).0, true, rest.rest, done + w)
  {
    hide Splice, Scanned, Encode, WellFormed, NodeEncoding, NodeResult, Entered;
    Parts(rest, nodes);
    Unfold(cb, s, rest, inside, nodes);
    var t := Finish(cb, s, inside, nodes);
    var w, v := NodeResult(cb, t, rest.title, rest.body), cb.close(Entered(cb, t, rest.title, rest.body).0).0;
    Advance(w0, start, done, NodeEncoding(rest.title, rest.body), w, Encode(rest.rest));
    Reassociate(done, w, Encode(Scanned(cb, v, rest.rest, inside, true).1));
    SpliceLength(w0, start, (done + w) + Encode(rest.rest));
  }

  lemma SpliceLength(a: seq<nat>, start: nat, w: seq<nat>)
    requires start + |w| <= |a|
    ensures |Splice(a, start, w)| == |a|
  {}

  lemma WordsAt(w0: seq<nat>, start: nat, done: seq<nat>, e: seq<nat>, i: nat, j: nat)
    requires start + |done| + |e| < |w0| && i <= j <= |e|
    ensures var a, lex := Splice(w0, start, done + e), start + |done|;
            |a| == |w0| && a[lex + |e|] == w0[lex + |e|] && a[lex + i..lex + j] == e[i..j]
  {
    var a, lex := Splice(w0, start, done + e), start + |done|;
    assert forall k :: 0 <= k < |e| ==> a[lex + k] == e[k];
  }

  /** What the words at the cursor say about the items that are left. */
  lemma Words(w0: seq<nat>, a: seq<nat>, start: nat, done: seq<nat>, rest: Items)
    requires start + |done| + |Encode(rest)| < |w0| && a == Splice(w0, start, done + Encode(rest))
    ensures |a| == |w0|
    ensures var lex, e := start + |done|, Encode(rest);
            && (rest.End? ==> a[lex] == w0[lex])
            && (rest.NopThen? ==> a[lex] == NOP)
            && (rest.PropThen? ==> a[lex] == PROP)
            && (rest.NodeThen? ==> a[lex] == BEGIN_NODE)
            && (rest.PropThen? ==> |e| >= 3 + |rest.value| && a[lex + 1] == rest.len && a[lex + 2] == rest.name
                                   && a[lex + 3..lex + 3 + |rest.value|] == rest.value)
            && (rest.NodeThen? ==> |e| >= NodeWords(rest.title, rest.body)
                                   && a[lex..lex + NodeWords(rest.title, rest.body)]
                                      == NodeEncoding(rest.title, rest.body))
  {
    hide Splice;
    var lex, e := start + |done|, Encode(rest);
    WordsAt(w0, start, done, e, 0, |e|);
    assert e[0..|e|] == e;
    if rest != End { assert a[lex..lex + |e|][0] == e[0]; }
    if rest.PropThen? {
      assert a[lex..lex + |e|][1] == e[1] && a[lex..lex + |e|][2] == e[2];
      WordsAt(w0, start, done, e, 3, 3 + |rest.value|);
    }
    if rest.NodeThen? { WordsAt(w0, start, done, e, 0, NodeWords(rest.title, rest.body)); }
  }

  lemma Reassociate(x: seq<nat>, y: seq<nat>, z: seq<nat>)
    ensures x + (y + z) == (x + y) + z
  {}

  lemma Parts(rest: Items, nodes: bool)
    ensures rest.End? ==> Encode(rest) == []
    ensures rest.NopThen? ==>
              Encode(rest) == [NOP] + Encode(rest.rest) && (WellFormed(rest, nodes) ==> WellFormed(rest.rest, nodes))
    ensures rest.PropThen? ==> Encode(rest) == [PROP, rest.len, rest.name] + rest.value + Encode(rest.rest)
    ensures rest.PropThen? && WellFormed(rest, nodes) ==>
            |rest.value| == (rest.len + 3) / 4 && WellFormed(rest.rest, nodes)
    ensures rest.NodeThen? ==> Encode(rest) == NodeEncoding(rest.title, rest.body) + Encode(rest.rest)
    ensures rest.NodeThen? && WellFormed(rest, nodes) ==>
              IsTitle(rest.title) && WellFormed(rest.body, false) && WellFormed(rest.rest, true)
  {}

  /** One step of Scanned. */
  lemma Unfold<S>(cb: Callbacks<S>, s: S, rest: Items, inside: bool, nodes: bool)
    ensures rest.End? ==> Scanned(cb, s, rest, inside, nodes) == (Finish(cb, s, inside, nodes), End)
                          && Encode(Scanned(cb, s, rest, inside, nodes).1) == []
    ensures rest.NopThen? ==>
              var n := Scanned(cb, s, rest.rest, inside, nodes);
              && Scanned(cb, s, rest, inside, nodes).0 == n.0
              && Encode(Scanned(cb, s, rest, inside, nodes).1) == [NOP] + Encode(n.1)
    ensures rest.PropThen? ==>
              var n := Scanned(cb, cb.prop(s, rest.name, rest.len, rest.value), rest.rest, inside, nodes);
              && Scanned(cb, s, rest, inside, nodes).0 == n.0
              && Encode(Scanned(cb, s, rest, inside, nodes).1) == [PROP, rest.len, rest.name] + rest.value + Encode(n.1)
    ensures rest.NodeThen? ==>
              var t := Finish(cb, s, inside, nodes);
              var n := Scanned(cb, cb.close(Entered(cb, t, rest.title, rest.body).0).0, rest.rest, inside, true);
              && Scanned(cb, s, rest, inside, nodes).0 == n.0
              && Encode(Scanned(cb, s, rest, inside, nodes).1) == NodeResult(cb, t, rest.title, rest.body) + Encode(n.1)
  {
    if rest.NodeThen? {
      var t := Finish(cb, s, inside, nodes);
      var n := Scanned(cb, cb.close(Entered(cb, t, rest.title, rest.body).0).0, rest.rest, inside, true);
      NopsEncode(NodeWords(rest.title, rest.body), n.1);
    }
  }

  lemma Advance(w0: seq<nat>, start: nat, done: seq<nat>, w: seq<nat>, w': seq<nat>, rest: seq<nat>)
    requires |w| == |w'| && start + |done| + |w| + |rest| <= |w0|
    ensures Splice(Splice(w0, start, done + (w + rest)), start + |done|, w') == Splice(w0, start, (done + w') + rest)
  {}
}
