/** The measurement of an enclave: which loading calls are accepted in which order, and what they feed to the hash
    (src/api/enclave_create.c, enclave_load_*.c, thread_load.c and enclave_init.c). */
module Measurement {
  import opened Words
  import opened Bytes
  import opened Sha512
  import Sha512Spec
  import Sv39

  /** A 64-bit argument, as its eight bytes in memory. */
  type Word = w: seq<byte> | |w| == 8 witness [0, 0, 0, 0, 0, 0, 0, 0]

  type PageBytes = p: seq<byte> | |p| == 4096 witness seq(4096, _ => 0)

  /** enclave_init_state_t. */
  datatype Phase = Created | HandlerLoaded | TablesLoaded | DataLoaded | Initialized

  datatype Params = Params(evBase: Word, evMask: Word, mailboxes: Word, debug: byte)

  type Code = c: seq<byte> | |c| > 0 witness [0]

  /** The code between enclave_handler_start and enclave_handler_end. */
  const HANDLER: Code

  /** A loading call, with the arguments that the measurement covers. */
  datatype Load =
    | Handler
    | Table(address: Word, level: Word, acl: Word)
    | Page(address: Word, acl: Word, contents: PageBytes)
    | Thread(pc: Word, stack: Word, timer: Word)

  predicate Readable(acl: Word) { LittleEndian(acl) / 2 % 2 == 1 }

  predicate Writable(acl: Word) { LittleEndian(acl) / 4 % 2 == 1 }

  predicate Executable(acl: Word) { LittleEndian(acl) / 8 % 2 == 1 }

  /** Valid, and not writable without being readable. */
  predicate ValidAcl(acl: Word) { LittleEndian(acl) % 2 == 1 && !(!Readable(acl) && Writable(acl)) }

  /** The tests of the access bits are those of the hardware. */
  lemma AclIs(acl: Word)
    ensures ValidAcl(acl) <==> !Sv39.Faults(LittleEndian(acl))
    ensures Readable(acl) || Executable(acl) <==> Sv39.IsLeaf(LittleEndian(acl))
  {}

  /** An address and the one a page above it lie in the range of the enclave. */
  predicate InRange(params: Params, address: Word) {
    var base, mask := LittleEndian(params.evBase), LittleEndian(params.evMask);
    && BitAnd(mask, LittleEndian(address)) == base
    && BitAnd(mask, (LittleEndian(address) + 0x1000) % 0x1_0000_0000_0000_0000) == base
  }

  /** For a range of 2^k bytes: the address and the one a page above it, modulo 2^64, are both inside. */
  lemma RangeIs(params: Params, address: Word, k: nat)
    requires k <= 64 && Pow2(k) <= Pow2(64)
    requires LittleEndian(params.evMask) == Pow2(64) - Pow2(k) && LittleEndian(params.evBase) % Pow2(k) == 0
    ensures var base, a := LittleEndian(params.evBase), LittleEndian(address);
            var b := (a + 0x1000) % 0x1_0000_0000_0000_0000;
            InRange(params, address) <==> base <= a < base + Pow2(k) && base <= b < base + Pow2(k)
  {
    hide LittleEndian, BitAnd, Pow2;
    Pow2of64();
    LittleEndianBound(address);
    LittleEndianBound(params.evBase);
    var base, a := LittleEndian(params.evBase), LittleEndian(address);
    var b := (a + 0x1000) % 0x1_0000_0000_0000_0000;
    AndHighMask(64, k, a);
    AndHighMask(64, k, b);
    SameMultiple(base, a, Pow2(k));
    SameMultiple(base, b, Pow2(k));
  }

  lemma Pow2of64()
    ensures Pow2(64) == 0x1_0000_0000_0000_0000
  {
    hide Pow2;
    Pow2of32();
    Pow2Add(32, 32);
  }

  lemma SameMultiple(base: nat, a: nat, p: nat)
    requires p > 0 && base % p == 0
    ensures a - a % p == base <==> base <= a < base + p
  {
    Euclid(base, p);
    Euclid(a, p);
    if base <= a < base + p {
      ModUnique(a, p, base / p, a - base);
    }
  }

  /** The checks of the state and of the measured arguments. */
  predicate Accepts(params: Params, p: Phase, l: Load) {
    match l
    case Handler => p == Created
    case Table(address, level, acl) =>
      && (p == HandlerLoaded || p == TablesLoaded) && InRange(params, address) && LittleEndian(level) <= 3
      && !Sv39.Faults(LittleEndian(acl)) && (Sv39.IsLeaf(LittleEndian(acl)) ==> LittleEndian(level) == 0)
    case Page(address, acl, _) =>
      && (p == TablesLoaded || p == DataLoaded) && InRange(params, address)
      && !Sv39.Faults(LittleEndian(acl)) && Sv39.IsLeaf(LittleEndian(acl))
    case Thread(_, _, _) => p == DataLoaded
  }

  function After(p: Phase, l: Load): Phase {
    match l
    case Handler => HandlerLoaded
    case Table(_, _, _) => TablesLoaded
    case Page(_, _, _) => DataLoaded
    case Thread(_, _, _) => p
  }

  /** The phase after these loads; all of them are accepted. */
  function PhaseOf(loads: seq<Load>): Phase {
    if loads == [] then Created else After(PhaseOf(loads[..|loads| - 1]), loads[|loads| - 1])
  }

  predicate Legal(params: Params, loads: seq<Load>) {
    loads == [] ||
    (Legal(params, loads[..|loads| - 1]) && Accepts(params, PhaseOf(loads[..|loads| - 1]), loads[|loads| - 1]))
  }

  function Measured(l: Load): seq<byte> {
    match l
    case Handler => HANDLER
    case Table(address, level, acl) => address + level + acl
    case Page(address, acl, contents) => address + acl + contents
    case Thread(pc, stack, timer) => pc + stack + timer
  }

  function Configured(p: Params): seq<byte> { p.evBase + p.evMask + p.mailboxes + [p.debug] }

  /** The bytes that an enclave's measurement covers. */
  function Transcript(params: Params, loads: seq<Load>): seq<byte> {
    if loads == [] then Configured(params)
    else Transcript(params, loads[..|loads| - 1]) + Measured(loads[|loads| - 1])
  }

  /** The stage of loading that a call belongs to. */
  function Stage(l: Load): nat {
    match l
    case Handler => 0
    case Table(_, _, _) => 1
    case Page(_, _, _) => 2
    case Thread(_, _, _) => 2
  }

  /** In every legal order the handler comes first and once, then page tables, then pages and threads, a page first. */
  lemma {:induction false} LoadingOrder(params: Params, loads: seq<Load>)
    requires Legal(params, loads)
    ensures loads == [] <==> PhaseOf(loads) == Created
    ensures loads != [] ==> PhaseOf(loads) == PhaseAt(Stage(loads[|loads| - 1]))
    ensures forall i :: 0 <= i < |loads| ==> (loads[i].Handler? <==> i == 0)
    ensures forall i, j :: 0 <= i < j < |loads| ==> Stage(loads[i]) <= Stage(loads[j]) <= Stage(loads[i]) + (j - i)
    ensures forall i :: 0 < i < |loads| && loads[i].Thread? ==> Stage(loads[i - 1]) == 2
  {
    hide InRange, ValidAcl, Readable, Executable, LittleEndian;
    if loads != [] {
      var init, last := loads[..|loads| - 1], loads[|loads| - 1];
      LoadingOrder(params, init);
      if init != [] {
        assert forall i :: 0 <= i < |init| ==> loads[i] == init[i];
        var s := Stage(init[|init| - 1]);
        assert s <= Stage(last) <= s + 1;
        forall i | 0 <= i < |init| ensures Stage(loads[i]) <= Stage(last) <= Stage(loads[i]) + (|init| - i) {
          if i < |init| - 1 { assert Stage(init[i]) <= s <= Stage(init[i]) + (|init| - 1 - i); }
        }
      }
    }
  }

  function PhaseAt(stage: nat): Phase {
    if stage == 0 then HandlerLoaded else if stage == 1 then TablesLoaded else DataLoaded
  }

  /** The same call. */
  predicate SameCall(x: Load, y: Load) {
    match x
    case Handler => y.Handler?
    case Table(_, _, _) => y.Table?
    case Page(_, _, _) => y.Page?
    case Thread(_, _, _) => y.Thread?
  }

  predicate SameCalls(x: seq<Load>, y: seq<Load>) {
    |x| == |y| && forall i :: 0 <= i < |x| ==> SameCall(x[i], y[i])
  }

  lemma Chunks(a: seq<byte>, b: seq<byte>, c: seq<byte>, a': seq<byte>, b': seq<byte>, c': seq<byte>)
    requires |a| == |a'| && |b| == |b'| && a + b + c == a' + b' + c'
    ensures a == a' && b == b' && c == c'
  {
    var s, t := a + b + c, a' + b' + c';
    assert a == s[..|a|] && a' == t[..|a|];
    assert b == s[|a|..|a| + |b|] && b' == t[|a|..|a| + |b|];
    assert c == s[|a| + |b|..] && c' == t[|a| + |b|..];
  }

  lemma MeasuredInjective(x: Load, y: Load)
    requires SameCall(x, y)
    ensures |Measured(x)| == |Measured(y)| && (Measured(x) == Measured(y) ==> x == y)
  {
    if Measured(x) == Measured(y) {
      match x
      case Handler =>
      case Table(p, q, r) => Chunks(p, q, r, y.address, y.level, y.acl);
      case Page(p, q, r) => Chunks(p, q, r, y.address, y.acl, y.contents);
      case Thread(p, q, r) => Chunks(p, q, r, y.pc, y.stack, y.timer);
    }
  }

  lemma ConfiguredInjective(p: Params, q: Params)
    ensures |Configured(p)| == |Configured(q)| && (Configured(p) == Configured(q) ==> p == q)
  {
    if Configured(p) == Configured(q) {
      Chunks(p.evBase + p.evMask, p.mailboxes, [p.debug], q.evBase + q.evMask, q.mailboxes, [q.debug]);
      Chunks(p.evBase, p.evMask, [], q.evBase, q.evMask, []);
      assert [p.debug][0] == [q.debug][0];
    }
  }

  lemma {:induction false} SameCallsSameLoads(p: Params, q: Params, x: seq<Load>, y: seq<Load>)
    requires SameCalls(x, y)
    ensures |Transcript(p, x)| == |Transcript(q, y)|
    ensures Transcript(p, x) == Transcript(q, y) ==> p == q && x == y
  {
    hide SameCall, Measured, Configured;
    if x == [] {
      ConfiguredInjective(p, q);
    } else {
      var n := |x| - 1;
      SameCallsSameLoads(p, q, x[..n], y[..n]);
      MeasuredInjective(x[n], y[n]);
      if Transcript(p, x) == Transcript(q, y) {
        SameParts(Transcript(p, x[..n]), Measured(x[n]), Transcript(q, y[..n]), Measured(y[n]));
        assert x == x[..n] + [x[n]];
      }
    }
  }

  /** Two accepted sequences of loads with one transcript are the same loads exactly when the same calls come in the
      same order: the transcript covers every argument, but not the kinds of the calls. */
  lemma TranscriptDetermines(p: Params, q: Params, x: seq<Load>, y: seq<Load>)
    requires Legal(p, x) && Legal(q, y) && Transcript(p, x) == Transcript(q, y)
    ensures p == q && x == y <==> SameCalls(x, y)
  {
    hide Transcript, Legal;
    if SameCalls(x, y) { SameCallsSameLoads(p, q, x, y); }
  }

  /** A word with this low byte. */
  function Small(n: byte): Word { [n, 0, 0, 0, 0, 0, 0, 0] }

  /** A readable page at address 0 that starts with two empty words and the access bits of such a page. */
  function PageThenThread(): seq<Load> {
    [Page(Small(0), Small(3), Small(0) + Small(0) + Small(3) + seq(4072, _ => 0)), Thread(Small(0), Small(0), Small(0))]
  }

  function ThreadThenPage(): seq<Load> {
    [Thread(Small(0), Small(3), Small(0)), Page(Small(0), Small(3), seq(4096, _ => 0))]
  }

  /** The condition is needed: after any accepted loads that reach a page, these are two ways to go on, both accepted in
      an enclave with the range of all addresses, that differ and have one transcript. */
  lemma DifferentLoadsOneTranscript(p: Params, pre: seq<Load>)
    requires Legal(p, pre) && PhaseOf(pre) == DataLoaded && p.evBase == p.evMask == Small(0)
    ensures Legal(p, pre + PageThenThread()) && Legal(p, pre + ThreadThenPage())
    ensures pre + PageThenThread() != pre + ThreadThenPage()
    ensures Transcript(p, pre + PageThenThread()) == Transcript(p, pre + ThreadThenPage())
  {
    hide Measured, Legal, Transcript, Accepts, PhaseOf;
    var x, y := PageThenThread(), ThreadThenPage();
    GoOn(p, pre, x[0], x[1]) by { PagesAccepted(p, x[0]); PagesAccepted(p, x[1]); }
    GoOn(p, pre, y[0], y[1]) by { PagesAccepted(p, y[0]); PagesAccepted(p, y[1]); }
    assert x == [x[0], x[1]] && y == [y[0], y[1]];
    assert (pre + x)[|pre|] != (pre + y)[|pre|];
    SameBytes();
  }

  /** Such loads exist: a handler, a table of each level and a page. */
  lemma AcceptedPrefix(p: Params) returns (pre: seq<Load>)
    requires p.evBase == p.evMask == Small(0)
    ensures Legal(p, pre) && PhaseOf(pre) == DataLoaded
  {
    hide Legal, PhaseOf, InRange, ValidAcl, Readable, Executable, LittleEndian, Transcript, Measured;
    var t3, t2 := Table(Small(0), Small(3), Small(1)), Table(Small(0), Small(2), Small(1));
    var t1, page := Table(Small(0), Small(1), Small(1)), Page(Small(0), Small(3), seq(4096, _ => 0));
    NothingLoaded(p);
    OneMore(p, [], Handler);
    AllInRange(p, Small(0));
    SmallValues();
    OneMore(p, [] + [Handler], t3);
    OneMore(p, [] + [Handler] + [t3], t2);
    OneMore(p, [] + [Handler] + [t3] + [t2], t1);
    OneMore(p, [] + [Handler] + [t3] + [t2] + [t1], page);
    pre := [] + [Handler] + [t3] + [t2] + [t1] + [page];
  }

  /** A load that keeps the last phase. */
  lemma PagesAccepted(p: Params, l: Load)
    requires p.evBase == p.evMask == Small(0)
    requires l.Thread? || (l.Page? && l.address == Small(0) && l.acl == Small(3))
    ensures Accepts(p, DataLoaded, l) && After(DataLoaded, l) == DataLoaded
  {
    hide InRange, ValidAcl, Readable, Executable;
    AllInRange(p, Small(0));
    SmallValues();
  }

  lemma AllInRange(p: Params, address: Word)
    requires p.evBase == p.evMask == Small(0)
    ensures InRange(p, address)
  {
    ZeroBytes(Small(0));
  }

  lemma SmallValues()
    ensures ValidAcl(Small(1)) && !Readable(Small(1)) && !Executable(Small(1))
    ensures ValidAcl(Small(3)) && Readable(Small(3))
    ensures LittleEndian(Small(1)) == 1 && LittleEndian(Small(2)) == 2 && LittleEndian(Small(3)) == 3
  {
    SmallValue(1);
    SmallValue(2);
    SmallValue(3);
  }

  lemma SmallValue(n: byte)
    ensures LittleEndian(Small(n)) == n as int
  {
    var w := Small(n);
    assert w[1..] == [0, 0, 0, 0, 0, 0, 0];
    ZeroBytes(w[1..]);
  }

  lemma GoOn(p: Params, pre: seq<Load>, l: Load, m: Load)
    requires Legal(p, pre) && PhaseOf(pre) == DataLoaded
    requires Accepts(p, DataLoaded, l) && After(DataLoaded, l) == DataLoaded && Accepts(p, DataLoaded, m)
    ensures Legal(p, pre + [l, m])
    ensures Transcript(p, pre + [l, m]) == Transcript(p, pre) + (Measured(l) + Measured(m))
  {
    hide Legal, PhaseOf, Accepts, Transcript, Measured;
    OneMore(p, pre, l);
    OneMore(p, pre + [l], m);
    assert pre + [l] + [m] == pre + [l, m];
    assert Transcript(p, pre) + Measured(l) + Measured(m) == Transcript(p, pre) + (Measured(l) + Measured(m));
  }

  lemma NothingLoaded(p: Params)
    ensures Legal(p, []) && PhaseOf([]) == Created
  {}

  lemma OneMore(p: Params, x: seq<Load>, l: Load)
    ensures PhaseOf(x + [l]) == After(PhaseOf(x), l) && Transcript(p, x + [l]) == Transcript(p, x) + Measured(l)
    ensures Legal(p, x) && Accepts(p, PhaseOf(x), l) ==> Legal(p, x + [l])
  {
    hide Accepts, Measured;
    assert (x + [l])[..|x + [l]| - 1] == x;
  }

  lemma SameBytes()
    ensures var x, y := PageThenThread(), ThreadThenPage();
            Measured(x[0]) + Measured(x[1]) == Measured(y[0]) + Measured(y[1])
  {
    hide Measured;
    FirstBytes();
    SecondBytes();
  }

  /** Two threes, in bytes 8 and 32. */
  function Threes(): seq<byte> { seq(4136, i => if i == 8 || i == 32 then 3 else 0) }

  lemma FirstBytes()
    ensures Measured(PageThenThread()[0]) + Measured(PageThenThread()[1]) == Threes()
  {}

  lemma SecondBytes()
    ensures Measured(ThreadThenPage()[0]) + Measured(ThreadThenPage()[1]) == Threes()
  {}

  /** The fields of enclave_metadata_t that loading uses. Each call also takes the verdict of its other checks. */
  class Enclave {
    var phase: Phase
    const context: Context
    var measurement: seq<byte>
    const params: Params
    ghost var loads: seq<Load>

    /** The hash has absorbed the transcript of the accepted loads, or the measurement is its digest. */
    ghost predicate Valid()
      reads this, context, context.state, context.buf
    {
      && Legal(params, loads)
      && (phase != Initialized ==> phase == PhaseOf(loads) && context.Absorbed(Transcript(params, loads)))
      && (phase == Initialized ==> PhaseOf(loads) == DataLoaded && measurement == Digested(Transcript(params, loads)))
    }

    /** enclave_create. */
    constructor (evBase: Word, evMask: Word, mailboxes: Word, debug: byte)
      ensures Valid() && phase == Created && params == Params(evBase, evMask, mailboxes, debug) && loads == []
      ensures context.Absorbed(evBase + evMask + mailboxes + [debug])
      ensures fresh(context) && fresh(context.state) && fresh(context.buf)
    {
      hide Context.Absorbed, Digested;
      var c := new Context();
      c.Update(evBase, []);
      c.Update(evMask, [] + evBase);
      c.Update(mailboxes, [] + evBase + evMask);
      c.Update([debug], [] + evBase + evMask + mailboxes);
      assert [] + evBase + evMask + mailboxes + [debug] == evBase + evMask + mailboxes + [debug];
      phase, context, measurement, params, loads := Created, c, [], Params(evBase, evMask, mailboxes, debug), [];
    }

    /** The three hash_extend calls of a load. */
    method Extend(x: seq<byte>, y: seq<byte>, z: seq<byte>, ghost m: seq<byte>)
      requires context.Absorbed(m)
      modifies context, context.state, context.buf
      ensures context.Absorbed(m + (x + y + z))
    {
      hide Context.Absorbed;
      context.Update(x, m);
      context.Update(y, m + x);
      context.Update(z, m + x + y);
      assert m + x + y + z == m + (x + y + z);
    }

    ghost method Record(l: Load)
      requires Legal(params, loads) && phase == After(PhaseOf(loads), l) && Accepts(params, PhaseOf(loads), l)
      requires context.Absorbed(Transcript(params, loads) + Measured(l))
      modifies this`loads
      ensures Valid() && loads == old(loads) + [l]
    {
      loads := loads + [l];
      assert loads[..|loads| - 1] == old(loads);
    }

    /** enclave_load_handler. */
    method LoadHandler(valid: bool) returns (ok: bool)
      requires Valid()
      modifies this, context, context.state, context.buf
      ensures Valid() && ok == (valid && Accepts(params, old(phase), Handler))
      ensures ok ==> loads == old(loads) + [Handler] && phase == After(old(phase), Handler)
      ensures ok ==> context.Absorbed(old(Transcript(params, loads)) + HANDLER)
      ensures !ok ==> unchanged(this, context, context.state, context.buf)
    {
      hide Context.Absorbed, Measured, Transcript, Legal, PhaseOf, Digested, InRange, ValidAcl, LittleEndian;
      ok := valid && phase == Created;
      if ok {
        context.Update(HANDLER, Transcript(params, loads));
        MeasuredIs(Handler);
        phase := HandlerLoaded;
        Record(Handler);
      }
    }

    /** enclave_load_page_table. */
    method LoadPageTable(valid: bool, address: Word, level: Word, acl: Word) returns (ok: bool)
      requires Valid()
      modifies this, context, context.state, context.buf
      ensures Valid() && ok == (valid && Accepts(params, old(phase), Table(address, level, acl)))
      ensures ok ==>
                && loads == old(loads) + [Table(address, level, acl)]
                && phase == After(old(phase), Table(address, level, acl))
      ensures ok ==> context.Absorbed(old(Transcript(params, loads)) + (address + level + acl))
      ensures !ok ==> unchanged(this, context, context.state, context.buf)
    {
      hide Context.Absorbed, Measured, Transcript, Legal, PhaseOf, Digested, InRange, ValidAcl, LittleEndian;
      AclIs(acl);
      ok := valid && (phase == HandlerLoaded || phase == TablesLoaded) && InRange(params, address);
      ok := ok && LittleEndian(level) <= 3 && ValidAcl(acl);
      if (Readable(acl) || Executable(acl)) && LittleEndian(level) != 0 {
        ok := false;
      }
      if ok {
        Extend(address, level, acl, Transcript(params, loads));
        MeasuredIs(Table(address, level, acl));
        phase := TablesLoaded;
        Record(Table(address, level, acl));
      }
    }

    /** enclave_load_page. */
    method LoadPage(valid: bool, address: Word, acl: Word, contents: PageBytes) returns (ok: bool)
      requires Valid()
      modifies this, context, context.state, context.buf
      ensures Valid() && ok == (valid && Accepts(params, old(phase), Page(address, acl, contents)))
      ensures ok ==>
                && loads == old(loads) + [Page(address, acl, contents)]
                && phase == After(old(phase), Page(address, acl, contents))
      ensures ok ==> context.Absorbed(old(Transcript(params, loads)) + (address + acl + contents))
      ensures !ok ==> unchanged(this, context, context.state, context.buf)
    {
      hide Context.Absorbed, Measured, Transcript, Legal, PhaseOf, Digested, InRange, ValidAcl, LittleEndian;
      AclIs(acl);
      ok := valid && (phase == TablesLoaded || phase == DataLoaded) && InRange(params, address);
      ok := ok && ValidAcl(acl) && (Readable(acl) || Executable(acl));
      if ok {
        Extend(address, acl, contents, Transcript(params, loads));
        MeasuredIs(Page(address, acl, contents));
        phase := DataLoaded;
        Record(Page(address, acl, contents));
      }
    }

    /** thread_load. */
    method LoadThread(valid: bool, pc: Word, stack: Word, timer: Word) returns (ok: bool)
      requires Valid()
      modifies this, context, context.state, context.buf
      ensures Valid() && ok == (valid && Accepts(params, old(phase), Thread(pc, stack, timer)))
      ensures ok ==>
                && loads == old(loads) + [Thread(pc, stack, timer)]
                && phase == After(old(phase), Thread(pc, stack, timer))
      ensures ok ==> context.Absorbed(old(Transcript(params, loads)) + (pc + stack + timer))
      ensures !ok ==> unchanged(this, context, context.state, context.buf)
    {
      hide Context.Absorbed, Measured, Transcript, Legal, PhaseOf, Digested, InRange, ValidAcl, LittleEndian;
      ok := valid && phase == DataLoaded;
      if ok {
        Extend(pc, stack, timer, Transcript(params, loads));
        MeasuredIs(Thread(pc, stack, timer));
        Record(Thread(pc, stack, timer));
      }
    }

    /** enclave_init, up to the measurement: the digest of the transcript, and of nothing else. */
    method Initialize(valid: bool) returns (ok: bool)
      requires Valid()
      modifies this, context, context.state, context.buf
      ensures Valid() && loads == old(loads) && ok == (valid && old(phase) == DataLoaded)
      ensures ok ==> phase == Initialized && measurement == Digested(Transcript(params, loads))
      ensures ok && 8 * |Transcript(params, loads)| < Sha512Spec.TWO64 ==>
              measurement == Sha512Spec.Sha512(Transcript(params, loads))
      ensures !ok ==> unchanged(this, context, context.state, context.buf)
    {
      hide Context.Absorbed, Transcript, Legal, PhaseOf, Digested, Sha512Spec.Sha512;
      ok := valid && phase == DataLoaded;
      if ok {
        measurement := context.Final(Transcript(params, loads));
        phase := Initialized;
      }
    }
  }

  lemma MeasuredIs(l: Load)
    ensures l.Handler? ==> Measured(l) == HANDLER
    ensures l.Table? ==> Measured(l) == l.address + l.level + l.acl
    ensures l.Page? ==> Measured(l) == l.address + l.acl + l.contents
    ensures l.Thread? ==> Measured(l) == l.pc + l.stack + l.timer
  {}
}
