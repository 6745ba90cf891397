/** The stop-the-world barrier around last-level-cache changes (src/common/handle_llc_changes.c,
    src/api/region_flush.c, src/api/region_cache_partitionning.c), one step per hold of llc_sync.lock. */
module LlcBarrier {
  /** Where a core is. Await to Clear are the places of an initiator, Spin that of a core in handle_llc_changes. */
  datatype Place = Idle | Spin | Await | Critical | Drain | Clear

  /** llc_sync and the places of the cores. */
  datatype State = State(at: seq<Place>, busy: bool, wait: bool, waiting: int, left: int)

  /** What happens next. Every step names the core that takes it. */
  datatype Step =
    | Start(core: nat)        // an initiator sets llc_sync up, or finds it busy
    | Interrupt(core: nat)    // handle_llc_changes is entered, for whatever reason
    | Look(core: nat)         // one turn of its spin loop
    | Poll(core: nat)         // the initiator reads waiting
    | Finish(core: nat)       // the initiator leaves its critical section
    | PollLeft(core: nat)     // the initiator reads left
    | Release(core: nat)      // the initiator clears busy

  predicate Active(p: Place) { p.Await? || p.Critical? || p.Drain? || p.Clear? }

  function PlaceFor(e: Step): Place {
    match e
    case Start(_) => Idle
    case Interrupt(_) => Idle
    case Look(_) => Spin
    case Poll(_) => Await
    case Finish(_) => Critical
    case PollLeft(_) => Drain
    case Release(_) => Clear
  }

  /** The core of the step is where the step happens. */
  predicate Enabled(s: State, e: Step) {
    e.core < |s.at| && s.at[e.core] == PlaceFor(e)
  }

  function Move(s: State, c: nat, p: Place): State
    requires c < |s.at|
  {
    s.(at := s.at[c := p])
  }

  function Next(s: State, e: Step): State
    requires Enabled(s, e)
  {
    var c := e.core;
    match e
    case Start(_) =>
      if s.busy then s else Move(s, c, Await).(waiting := 1, wait := true, left := 0, busy := true)
    case Interrupt(_) =>
      if !s.busy then s else Move(s, c, Spin).(waiting := s.waiting + 1)
    case Look(_) =>
      if s.wait then s else Move(s, c, Idle).(left := s.left + 1)
    case Poll(_) =>
      if s.waiting < |s.at| then s else Move(s, c, Critical)
    case Finish(_) =>
      Move(s, c, Drain).(waiting := 0, wait := false, left := 1)
    case PollLeft(_) =>
      if s.left < |s.at| then s else Move(s, c, Clear)
    case Release(_) =>
      Move(s, c, Idle).(busy := false)
  }

  /** The state of sm_init: everyone idle, nothing busy. */
  function Init(n: nat): State {
    State(seq(n, _ => Idle), false, false, 0, 0)
  }

  /** s' is reached from s by the steps, in order. */
  predicate Run(s: State, steps: seq<Step>, s': State)
    decreases |steps|
  {
    if steps == [] then s == s'
    else Enabled(s, steps[0]) && Run(Next(s, steps[0]), steps[1..], s')
  }

  function Spinning(at: seq<Place>): set<nat> {
    set c: nat | c < |at| && at[c] == Spin
  }

  ghost predicate Initiates(s: State, c: int) {
    0 <= c < |s.at| && Active(s.at[c])
  }

  /** Busy means that there is exactly one initiator; before it leaves its critical section every core
      that has been counted is spinning. */
  ghost predicate Inv(s: State) {
    && (forall c, d :: Initiates(s, c) && Initiates(s, d) ==> c == d)
    && (forall c :: Initiates(s, c) ==> s.busy && Phase(s, s.at[c]))
    && (s.busy ==> exists c :: Initiates(s, c))
  }

  predicate Phase(s: State, p: Place) {
    match p
    case Await => s.wait && s.waiting <= 1 + |Spinning(s.at)|
    case Critical => s.wait && |s.at| <= s.waiting <= 1 + |Spinning(s.at)|
    case Drain => !s.wait
    case Clear => !s.wait
    case _ => true
  }

  lemma SpinningMove(at: seq<Place>, c: nat, p: Place)
    requires c < |at|
    ensures at[c] != Spin && p == Spin ==> |Spinning(at[c := p])| == |Spinning(at)| + 1
    ensures at[c] != Spin && p != Spin ==> |Spinning(at[c := p])| == |Spinning(at)|
    ensures at[c] == Spin && p != Spin ==> |Spinning(at[c := p])| == |Spinning(at)| - 1
  {
    if at[c] == Spin || p != Spin {
      assert Spinning(at[c := p]) == Spinning(at) - {c} || p == Spin;
    } else {
      assert Spinning(at[c := p]) == Spinning(at) + {c};
    }
  }

  lemma InitInv(n: nat)
    ensures Inv(Init(n))
  {}

  lemma NextInv(s: State, e: Step)
    requires Inv(s) && Enabled(s, e)
    ensures Inv(Next(s, e))
  {
    hide Spinning;
    var s' := Next(s, e);
    SpinningMove(s.at, e.core, s'.at[e.core]);
    forall c | Initiates(s', c) && c != e.core ensures Initiates(s, c) {}
    if s.busy {
      var c :| Initiates(s, c);
      if e.Release? {
        assert c == e.core;
      } else {
        assert Initiates(s', c);
      }
    } else if s'.busy {
      assert Initiates(s', e.core);
    }
  }

  lemma {:induction false} RunInv(s: State, steps: seq<Step>, s': State)
    requires Inv(s) && Run(s, steps, s')
    ensures Inv(s')
    decreases |steps|
  {
    if steps != [] {
      NextInv(s, steps[0]);
      RunInv(Next(s, steps[0]), steps[1..], s');
    }
  }

  function Cores(n: nat): (s: set<nat>)
    ensures |s| == n && forall c: nat :: c in s <==> c < n
  {
    if n == 0 then {} else Cores(n - 1) + {n - 1}
  }

  lemma {:induction false} SameCount(a: set<nat>, b: set<nat>)
    requires a <= b && |b| <= |a|
    ensures a == b
  {
    if b != {} {
      var x :| x in b;
      if x in a {
        SameCount(a - {x}, b - {x});
      } else {
        assert a <= b - {x};
        SubsetCount(a, b - {x});
        assert false;
      }
    }
  }

  lemma {:induction false} SubsetCount(a: set<nat>, b: set<nat>)
    requires a <= b
    ensures |a| <= |b|
  {
    if a != {} {
      var x :| x in a;
      SubsetCount(a - {x}, b - {x});
    }
  }

  /** Over every run, with any interrupts at all: while a core is in its critical section every other
      core is spinning in handle_llc_changes, and no other core is an initiator. */
  lemma CriticalSection(n: nat, steps: seq<Step>, s: State, c: nat)
    requires Run(Init(n), steps, s) && c < |s.at| && s.at[c] == Critical
    ensures forall d :: 0 <= d < |s.at| && d != c ==> s.at[d] == Spin
  {
    InitInv(n);
    RunInv(Init(n), steps, s);
    assert Initiates(s, c);
    var others := Cores(|s.at|) - {c};
    assert Spinning(s.at) <= others;
    SameCount(Spinning(s.at), others);
    forall d | 0 <= d < |s.at| && d != c ensures s.at[d] == Spin {
      assert d in others;
    }
  }

  /** Over every run there is at most one initiator. */
  lemma OneInitiator(n: nat, steps: seq<Step>, s: State, c: nat, d: nat)
    requires Run(Init(n), steps, s) && Initiates(s, c) && Initiates(s, d)
    ensures c == d && s.busy
  {
    InitInv(n);
    RunInv(Init(n), steps, s);
  }

  /** What has happened since the last start: the cores that entered, how often, and how many cores were
      still spinning from before. */
  datatype Episode = Episode(entered: set<nat>, entries: nat, stale: nat)

  function Track(h: Episode, s: State, e: Step): Episode {
    if e.Start? && !s.busy then Episode({}, 0, |Spinning(s.at)|)
    else if e.Interrupt? && s.busy then Episode(h.entered + {e.core}, h.entries + 1, h.stale)
    else h
  }

  predicate TrackedRun(s: State, h: Episode, steps: seq<Step>, s': State, h': Episode)
    decreases |steps|
  {
    if steps == [] then s == s' && h == h'
    else Enabled(s, steps[0]) && TrackedRun(Next(s, steps[0]), Track(h, s, steps[0]), steps[1..], s', h')
  }

  /** The books balance: every core that entered is spinning or has been counted out. */
  predicate Balanced(s: State, h: Episode, p: Place) {
    match p
    case Await => s.waiting == 1 + h.entries && |Spinning(s.at)| == h.stale + h.entries
    case Critical => |Spinning(s.at)| == h.stale + h.entries
    case Drain => |Spinning(s.at)| == h.stale + h.entries - (s.left - 1)
    case Clear => |Spinning(s.at)| == h.stale + h.entries - (s.left - 1)
    case _ => true
  }

  ghost predicate CountInv(s: State, h: Episode) {
    Inv(s) && forall c :: Initiates(s, c) ==> Balanced(s, h, s.at[c])
  }

  lemma NextCount(s: State, h: Episode, e: Step)
    requires CountInv(s, h) && Enabled(s, e)
    ensures CountInv(Next(s, e), Track(h, s, e))
  {
    hide Spinning;
    NextInv(s, e);
    var s' := Next(s, e);
    SpinningMove(s.at, e.core, s'.at[e.core]);
    forall c | Initiates(s', c) && c != e.core ensures Initiates(s, c) {}
  }

  lemma {:induction false} RunCount(s: State, h: Episode, steps: seq<Step>, s': State, h': Episode)
    requires CountInv(s, h) && TrackedRun(s, h, steps, s', h')
    ensures CountInv(s', h')
    decreases |steps|
  {
    if steps != [] {
      NextCount(s, h, steps[0]);
      RunCount(Next(s, steps[0]), Track(h, s, steps[0]), steps[1..], s', h');
    }
  }

  /** Over every run: when an initiator is about to clear busy, no core is still spinning exactly when left
      has counted every core that entered in this episode or was still spinning when it began. */
  lemma NobodyLeftBehind(n: nat, h0: Episode, steps: seq<Step>, s: State, h: Episode, c: nat)
    requires TrackedRun(Init(n), h0, steps, s, h) && c < |s.at| && s.at[c] == Clear
    ensures Spinning(s.at) == {} <==> s.left == 1 + h.entries + h.stale
  {
    InitInv(n);
    RunCount(Init(n), h0, steps, s, h);
    assert Initiates(s, c);
  }

  /** No core enters handle_llc_changes twice in one episode. */
  predicate Once(s: State, h: Episode, e: Step) {
    Enabled(s, e) && (e.Interrupt? && s.busy ==> e.core !in h.entered)
  }

  predicate OnceRun(s: State, h: Episode, steps: seq<Step>, s': State, h': Episode)
    decreases |steps|
  {
    if steps == [] then s == s' && h == h'
    else Once(s, h, steps[0]) && OnceRun(Next(s, steps[0]), Track(h, s, steps[0]), steps[1..], s', h')
  }

  /** With initiator c: everyone spinning has entered in this episode, from the critical section on
      everyone else has entered, and at the end nobody is spinning. */
  predicate CalmAt(s: State, h: Episode, c: nat)
    requires c < |s.at|
  {
    var others := Cores(|s.at|) - {c};
    && h.stale == 0 && h.entries == |h.entered| && Spinning(s.at) <= h.entered <= others
    && (!s.at[c].Await? ==> h.entered == others)
    && (s.at[c].Clear? ==> Spinning(s.at) == {})
  }

  ghost predicate Calm(s: State, h: Episode) {
    && CountInv(s, h)
    && (!s.busy ==> Spinning(s.at) == {})
    && (forall c :: Initiates(s, c) ==> CalmAt(s, h, c))
  }

  lemma SpinningSet(at: seq<Place>, c: nat, p: Place)
    requires c < |at|
    ensures Spinning(at[c := p]) <= Spinning(at) + {c}
    ensures p != Spin ==> Spinning(at[c := p]) <= Spinning(at)
    ensures at[c] == Spin <==> c in Spinning(at)
  {}

  /** A step of the initiator itself. */
  lemma OwnStep(s: State, h: Episode, e: Step)
    requires Calm(s, h) && Once(s, h, e) && Initiates(s, e.core) && Initiates(Next(s, e), e.core)
    ensures CalmAt(Next(s, e), Track(h, s, e), e.core)
  {
    hide Spinning, Cores;
    var s' := Next(s, e);
    var others := Cores(|s.at|) - {e.core};
    SpinningSet(s.at, e.core, s'.at[e.core]);
    assert Phase(s, s.at[e.core]) && Balanced(s, h, s.at[e.core]) && CalmAt(s, h, e.core);
    if e.Poll? && s' != s {
      OthersCount(|s.at|, e.core);
      SameCount(h.entered, others);
    }
    if e.PollLeft? && s' != s {
      OthersCount(|s.at|, e.core);
    }
  }

  lemma OthersCount(n: nat, c: nat)
    requires c < n
    ensures |Cores(n) - {c}| == n - 1
  {}

  /** A step of another core. */
  lemma OtherStep(s: State, h: Episode, e: Step, c: nat)
    requires Calm(s, h) && Once(s, h, e) && Initiates(s, c) && c != e.core
    ensures Initiates(Next(s, e), c) && CalmAt(Next(s, e), Track(h, s, e), c)
  {
    hide Spinning;
    var s' := Next(s, e);
    SpinningSet(s.at, e.core, s'.at[e.core]);
    assert Phase(s, s.at[c]) && Balanced(s, h, s.at[c]) && CalmAt(s, h, c);
  }

  lemma NextCalm(s: State, h: Episode, e: Step)
    requires Calm(s, h) && Once(s, h, e)
    ensures Calm(Next(s, e), Track(h, s, e))
  {
    hide Spinning, CalmAt, Balanced, Phase, Cores;
    NextCount(s, h, e);
    var s', h' := Next(s, e), Track(h, s, e);
    SpinningSet(s.at, e.core, s'.at[e.core]);
    if s.busy {
      var c :| Initiates(s, c);
      forall d | Initiates(s', d) ensures CalmAt(s', h', d) {
        if d == e.core { OwnStep(s, h, e); } else { OtherStep(s, h, e, d); }
      }
      if e.Release? { EndsCalm(s, h, e.core); }
    } else if s'.busy {
      FreshStart(s, h, e);
    }
  }

  lemma EndsCalm(s: State, h: Episode, c: nat)
    requires Calm(s, h) && Initiates(s, c) && s.at[c].Clear?
    ensures Spinning(s.at) == {}
  {
    assert CalmAt(s, h, c);
  }

  lemma FreshStart(s: State, h: Episode, e: Step)
    requires Calm(s, h) && Once(s, h, e) && e.Start? && !s.busy
    ensures CalmAt(Next(s, e), Track(h, s, e), e.core)
  {
    SpinningSet(s.at, e.core, Await);
  }

  lemma {:induction false} RunCalm(s: State, h: Episode, steps: seq<Step>, s': State, h': Episode)
    requires Calm(s, h) && OnceRun(s, h, steps, s', h')
    ensures Calm(s', h')
    decreases |steps|
  {
    if steps != [] {
      NextCalm(s, h, steps[0]);
      RunCalm(Next(s, steps[0]), Track(h, s, steps[0]), steps[1..], s', h');
    }
  }

  /** If nobody was left over from before: everyone spinning has entered in this episode, and from the critical section
      on everyone but the initiator c has. */
  predicate EnteredAt(s: State, h: Episode, c: nat)
    requires c < |s.at|
  {
    var others := Cores(|s.at|) - {c};
    h.stale == 0 ==> Spinning(s.at) <= h.entered <= others && (!s.at[c].Await? ==> h.entered == others)
  }

  ghost predicate EntryInv(s: State, h: Episode) {
    CountInv(s, h) && forall c :: Initiates(s, c) ==> EnteredAt(s, h, c)
  }

  lemma NextEntry(s: State, h: Episode, e: Step)
    requires EntryInv(s, h) && Enabled(s, e)
    ensures EntryInv(Next(s, e), Track(h, s, e))
  {
    hide Spinning, Balanced, Phase, Cores, EnteredAt;
    NextCount(s, h, e);
    forall c | Initiates(Next(s, e), c) ensures EnteredAt(Next(s, e), Track(h, s, e), c) {
      if Initiates(s, c) { EntryStep(s, h, e, c); } else { EntryStart(s, h, e); }
    }
  }

  lemma EntryStart(s: State, h: Episode, e: Step)
    requires Enabled(s, e) && e.Start? && !s.busy
    ensures EnteredAt(Next(s, e), Track(h, s, e), e.core)
  {
    SpinningSet(s.at, e.core, Await);
  }

  lemma EntryStep(s: State, h: Episode, e: Step, c: nat)
    requires EntryInv(s, h) && Enabled(s, e) && Initiates(s, c) && Initiates(Next(s, e), c)
    ensures EnteredAt(Next(s, e), Track(h, s, e), c)
  {
    hide Spinning, Cores;
    var s' := Next(s, e);
    SpinningSet(s.at, e.core, s'.at[e.core]);
    IsCore(|s.at|, e.core);
    assert Phase(s, s.at[c]) && Balanced(s, h, s.at[c]) && EnteredAt(s, h, c);
    if e.Poll? && s' != s && h.stale == 0 {
      OthersCount(|s.at|, c);
      SameCount(Spinning(s.at), Cores(|s.at|) - {c});
    }
  }

  lemma {:induction false} RunEntry(s: State, h: Episode, steps: seq<Step>, s': State, h': Episode)
    requires EntryInv(s, h) && TrackedRun(s, h, steps, s', h')
    ensures EntryInv(s', h')
    decreases |steps|
  {
    hide EntryInv;
    if steps != [] {
      NextEntry(s, h, steps[0]);
      RunEntry(Next(s, steps[0]), Track(h, s, steps[0]), steps[1..], s', h');
    }
  }

  /** The same in terms of repeated entries: in an episode that began with nobody spinning, every other core has
      entered, and nobody is left behind exactly when left exceeds the number of cores by the number of repeated
      entries. */
  lemma RepeatedEntries(n: nat, h0: Episode, steps: seq<Step>, s: State, h: Episode, c: nat)
    requires TrackedRun(Init(n), h0, steps, s, h) && c < |s.at| && s.at[c] == Clear && h.stale == 0
    ensures |h.entered| == |s.at| - 1
    ensures Spinning(s.at) == {} <==> s.left - |s.at| == h.entries - |h.entered|
  {
    InitInv(n);
    RunEntry(Init(n), h0, steps, s, h);
    assert Initiates(s, c) && EnteredAt(s, h, c);
    OthersCount(|s.at|, c);
    NobodyLeftBehind(n, h0, steps, s, h, c);
  }

  lemma InitCalm(n: nat, h: Episode)
    ensures Calm(Init(n), h)
  {
    InitInv(n);
  }

  /** Over every run in which no core enters twice in an episode: when busy is about to be cleared, and
      whenever it is clear, no core is spinning. */
  lemma EveryoneLeft(n: nat, h0: Episode, steps: seq<Step>, s: State, h: Episode)
    requires OnceRun(Init(n), h0, steps, s, h)
    ensures !s.busy || (exists c :: Initiates(s, c) && s.at[c].Clear?) ==> Spinning(s.at) == {}
  {
    InitCalm(n, h0);
    RunCalm(Init(n), h0, steps, s, h);
    if c :| Initiates(s, c) && s.at[c].Clear? { EndsCalm(s, h, c); }
  }

  /** A step that changes something. */
  predicate Effective(s: State, h: Episode, e: Step) {
    Once(s, h, e) && Next(s, e) != s
  }

  /** How far the episode is from its end. */
  function Rank(s: State, c: nat): int
    requires c < |s.at|
  {
    var n := |s.at|;
    match s.at[c]
    case Await => 4 * n + (n - s.waiting)
    case Critical => 3 * n
    case Drain => 2 * n + |Spinning(s.at)|
    case Clear => n
    case _ => 0
  }

  lemma Missing(a: set<nat>, b: set<nat>) returns (x: nat)
    requires a <= b && |a| < |b|
    ensures x in b && x !in a
  {
    if b <= a {
      SubsetCount(b, a);
      assert false;
    }
    x :| x in b && x !in a;
  }

  /** While the initiator waits for cores, one of them has not entered yet and can. */
  lemma SomeoneComes(s: State, h: Episode, c: nat) returns (e: Step)
    requires Calm(s, h) && Initiates(s, c) && s.at[c] == Await && s.waiting < |s.at|
    ensures Effective(s, h, e)
  {
    hide Cores;
    assert Balanced(s, h, s.at[c]) && CalmAt(s, h, c);
    OthersCount(|s.at|, c);
    var d := Missing(h.entered, Cores(|s.at|) - {c});
    IsCore(|s.at|, d);
    assert !Initiates(s, d) && s.at[d] != Spin;
    e := Interrupt(d);
  }

  lemma IsCore(n: nat, c: nat)
    ensures c in Cores(n) <==> c < n
  {}

  /** While the initiator waits for cores to leave, one of them is spinning and can. */
  lemma SomeoneLeaves(s: State, h: Episode, c: nat) returns (e: Step)
    requires Calm(s, h) && Initiates(s, c) && s.at[c] == Drain && s.left < |s.at|
    ensures Effective(s, h, e)
  {
    assert Phase(s, s.at[c]) && Balanced(s, h, s.at[c]) && CalmAt(s, h, c);
    OthersCount(|s.at|, c);
    var d := Missing({}, Spinning(s.at));
    e := Look(d);
  }

  lemma UsefulStep(s: State, h: Episode, c: nat) returns (e: Step)
    requires Calm(s, h) && Initiates(s, c)
    ensures Effective(s, h, e)
  {
    hide Calm;
    match s.at[c]
    case Await => if s.waiting < |s.at| { e := SomeoneComes(s, h, c); } else { e := Poll(c); }
    case Critical => e := Finish(c);
    case Drain => if s.left < |s.at| { e := SomeoneLeaves(s, h, c); } else { e := PollLeft(c); }
    case Clear => e := Release(c);
  }

  lemma UsefulStepRank(s: State, h: Episode, e: Step, c: nat)
    requires Calm(s, h) && Effective(s, h, e) && Initiates(s, c)
    ensures 0 <= Rank(s, c)
    ensures if Initiates(Next(s, e), c) then Rank(Next(s, e), c) < Rank(s, c) else !Next(s, e).busy
  {
    hide Spinning, Cores, CountInv, Inv;
    CalmBounds(s, h, c);
    SpinningMove(s.at, e.core, Next(s, e).at[e.core]);
    if e.core != c {
      OnlyOne(s, h, e.core, c);
      if e.Interrupt? { StillComing(s, h, e, c); }
    }
  }

  lemma OnlyOne(s: State, h: Episode, c: nat, d: nat)
    requires Calm(s, h) && c != d && c < |s.at| && Initiates(s, d)
    ensures !Initiates(s, c) && s.busy
  {}

  lemma CalmBounds(s: State, h: Episode, c: nat)
    requires Calm(s, h) && Initiates(s, c)
    ensures |Spinning(s.at)| < |s.at| && Phase(s, s.at[c]) && (s.at[c].Await? ==> s.waiting <= |s.at|)
  {
    hide Spinning, Cores;
    assert Phase(s, s.at[c]) && Balanced(s, h, s.at[c]) && CalmAt(s, h, c);
    OthersCount(|s.at|, c);
    SubsetCount(h.entered, Cores(|s.at|) - {c});
    SubsetCount(Spinning(s.at), h.entered);
  }

  /** A core can only enter while the initiator is waiting for it. */
  lemma StillComing(s: State, h: Episode, e: Step, c: nat)
    requires Calm(s, h) && Effective(s, h, e) && Initiates(s, c) && e.Interrupt?
    ensures s.at[c].Await?
  {
    assert CalmAt(s, h, c);
  }

  lemma {:induction false} RunToEnd(s: State, h: Episode, c: nat) returns (steps: seq<Step>, s': State, h': Episode)
    requires Calm(s, h) && Initiates(s, c)
    ensures OnceRun(s, h, steps, s', h') && !s'.busy && Spinning(s'.at) == {}
    decreases Rank(s, c)
  {
    var e := UsefulStep(s, h, c);
    UsefulStepRank(s, h, e, c);
    NextCalm(s, h, e);
    var t, k := Next(s, e), Track(h, s, e);
    if Initiates(t, c) {
      var rest, s1, h1 := RunToEnd(t, k, c);
      steps, s', h' := [e] + rest, s1, h1;
      assert steps[1..] == rest;
    } else {
      steps, s', h' := [e], t, k;
    }
  }

  /** Over every run in which no core enters twice in an episode: while there is an initiator, some step changes
      something. */
  lemma NeverStuck(n: nat, h0: Episode, steps: seq<Step>, s: State, h: Episode, c: nat) returns (e: Step)
    requires OnceRun(Init(n), h0, steps, s, h) && Initiates(s, c)
    ensures Effective(s, h, e)
  {
    hide Calm;
    InitCalm(n, h0);
    RunCalm(Init(n), h0, steps, s, h);
    e := UsefulStep(s, h, c);
  }

  /** Every such step brings the end nearer, so every episode ends after at most Rank of them. */
  lemma RankFalls(n: nat, h0: Episode, steps: seq<Step>, s: State, h: Episode, e: Step, c: nat)
    requires OnceRun(Init(n), h0, steps, s, h) && Effective(s, h, e) && Initiates(s, c)
    ensures 0 <= Rank(s, c)
    ensures if Initiates(Next(s, e), c) then Rank(Next(s, e), c) < Rank(s, c) else !Next(s, e).busy
  {
    hide Calm;
    InitCalm(n, h0);
    RunCalm(Init(n), h0, steps, s, h);
    UsefulStepRank(s, h, e, c);
  }

  /** The episode of c can be run to its end. */
  lemma EpisodeEnds(n: nat, h0: Episode, steps: seq<Step>, s: State, h: Episode, c: nat)
    returns (more: seq<Step>, s': State, h': Episode)
    requires OnceRun(Init(n), h0, steps, s, h) && Initiates(s, c)
    ensures OnceRun(s, h, more, s', h') && !s'.busy && Spinning(s'.at) == {}
  {
    hide Calm;
    InitCalm(n, h0);
    RunCalm(Init(n), h0, steps, s, h);
    more, s', h' := RunToEnd(s, h, c);
  }

  function OneEpisode(): seq<Step> { [Start(0), Interrupt(1), Interrupt(2), Poll(0), Finish(0)] }

  function SecondEntry(): seq<Step> { [Look(1), Interrupt(1), Look(1), PollLeft(0), Release(0)] }

  /** With a second entry in one episode the promise fails: here core 1 enters twice, and busy is cleared
      while core 2 is still spinning. */
  lemma SecondEntryLeavesOneBehind()
    ensures Run(Init(3), OneEpisode() + SecondEntry(), State([Idle, Idle, Spin], false, false, 1, 3))
  {
    hide Run, OneEpisode, SecondEntry;
    assert Init(3) == State([Idle, Idle, Idle], false, false, 0, 0);
    FirstHalf();
    SecondHalf();
    RunJoin(Init(3), OneEpisode(), State([Drain, Spin, Spin], true, false, 0, 1), SecondEntry(),
            State([Idle, Idle, Spin], false, false, 1, 3));
  }

  lemma FirstHalf()
    ensures Run(State([Idle, Idle, Idle], false, false, 0, 0), OneEpisode(),
            State([Drain, Spin, Spin], true, false, 0, 1))
  {
    var s0 := State([Idle, Idle, Idle], false, false, 0, 0);
    var s1 := State([Await, Idle, Idle], true, true, 1, 0);
    var s2 := State([Await, Spin, Idle], true, true, 2, 0);
    var s3 := State([Await, Spin, Spin], true, true, 3, 0);
    var s4 := State([Critical, Spin, Spin], true, true, 3, 0);
    var s5 := State([Drain, Spin, Spin], true, false, 0, 1);
    assert Next(s0, Start(0)) == s1 && Next(s1, Interrupt(1)) == s2 && Next(s2, Interrupt(2)) == s3;
    assert Next(s3, Poll(0)) == s4 && Next(s4, Finish(0)) == s5;
    FiveSteps(s0, Start(0), Interrupt(1), Interrupt(2), Poll(0), Finish(0));
  }

  lemma SecondHalf()
    ensures Run(State([Drain, Spin, Spin], true, false, 0, 1), SecondEntry(),
            State([Idle, Idle, Spin], false, false, 1, 3))
  {
    var s5 := State([Drain, Spin, Spin], true, false, 0, 1);
    var s6 := State([Drain, Idle, Spin], true, false, 0, 2);
    var s7 := State([Drain, Spin, Spin], true, false, 1, 2);
    var s8 := State([Drain, Idle, Spin], true, false, 1, 3);
    var s9 := State([Clear, Idle, Spin], true, false, 1, 3);
    var s10 := State([Idle, Idle, Spin], false, false, 1, 3);
    assert Next(s5, Look(1)) == s6 && Next(s6, Interrupt(1)) == s7 && Next(s7, Look(1)) == s8;
    assert Next(s8, PollLeft(0)) == s9 && Next(s9, Release(0)) == s10;
    FiveSteps(s5, Look(1), Interrupt(1), Look(1), PollLeft(0), Release(0));
  }

  lemma FiveSteps(s: State, a: Step, b: Step, c: Step, d: Step, e: Step)
    requires Enabled(s, a) && Enabled(Next(s, a), b) && Enabled(Next(Next(s, a), b), c)
    requires Enabled(Next(Next(Next(s, a), b), c), d) && Enabled(Next(Next(Next(Next(s, a), b), c), d), e)
    ensures Run(s, [a, b, c, d, e], Next(Next(Next(Next(Next(s, a), b), c), d), e))
  {
    hide Enabled, Next;
    var s1 := Next(s, a);
    var s2 := Next(s1, b);
    var s3 := Next(s2, c);
    var s4 := Next(s3, d);
    var t := Next(s4, e);
    assert Run(t, [], t);
    RunStep(s4, e, [], t);
    RunStep(s3, d, [e], t);
    RunStep(s2, c, [d, e], t);
    RunStep(s1, b, [c, d, e], t);
    RunStep(s, a, [b, c, d, e], t);
  }

  lemma RunStep(s: State, e: Step, rest: seq<Step>, s': State)
    requires Enabled(s, e) && Run(Next(s, e), rest, s')
    ensures Run(s, [e] + rest, s')
  {
    assert ([e] + rest)[1..] == rest;
  }

  lemma {:induction false} RunJoin(s: State, a: seq<Step>, t: State, b: seq<Step>, s': State)
    requires Run(s, a, t) && Run(t, b, s')
    ensures Run(s, a + b, s')
    decreases |a|
  {
    if a == [] {
      assert a + b == b;
    } else {
      RunJoin(Next(s, a[0]), a[1..], t, b, s');
      assert (a + b)[1..] == a[1..] + b;
    }
  }

  /** The state that core 1 starting a new episode then leads to: no step changes anything any more. */
  lemma NextEpisodeIsStuck()
    ensures Run(State([Idle, Idle, Spin], false, false, 1, 3), [Start(1), Interrupt(0)],
                State([Spin, Await, Spin], true, true, 2, 0))
    ensures forall e :: Enabled(State([Spin, Await, Spin], true, true, 2, 0), e) ==>
              Next(State([Spin, Await, Spin], true, true, 2, 0), e) == State([Spin, Await, Spin], true, true, 2, 0)
  {
    var s0 := State([Idle, Idle, Spin], false, false, 1, 3);
    var s1 := State([Idle, Await, Spin], true, true, 1, 0);
    var s2 := State([Spin, Await, Spin], true, true, 2, 0);
    assert Next(s0, Start(1)) == s1 && Next(s1, Interrupt(0)) == s2;
    assert Run(s1, [Interrupt(0)], s2);
    RunStep(s0, Start(1), [Interrupt(0)], s2);
  }
}
