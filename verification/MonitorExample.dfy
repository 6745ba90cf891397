/** Runs from the start of the monitor with two cores: an enclave on a core, and what careless deletions lead to. */
module MonitorExample {
  import opened MonitorState
  import opened MonitorSpec
  import opened MonitorInv
  import opened MonitorBooks
  import opened MonitorRuns

  lemma {:induction false} Extend(care: Care, s: State, calls: seq<Call>, t: State, call: Call)
    requires Run(care, s, calls, t) && Defined(t, call) && Obeys(care, t, call)
    ensures Run(care, s, calls + [call], Next(t, call).0)
    decreases |calls|
  {
    hide Defined, Obeys, Next;
    if calls == [] {
      assert [call][1..] == [];
    } else {
      Extend(care, Next(s, calls[0]).0, calls[1..], t, call);
      assert (calls + [call])[1..] == calls[1..] + [call];
    }
  }

  lemma {:induction false} Weaken(s: State, calls: seq<Call>, t: State, care: Care)
    requires Run(Careful, s, calls, t)
    ensures Run(care, s, calls, t)
    decreases |calls|
  {
    hide Defined, Next, Reused, Harmless, RunsOn;
    if calls != [] { Weaken(Next(s, calls[0]).0, calls[1..], t, care); }
  }

  /** A careful run from the start goes on with any allowed careful call. */
  lemma Take(calls: seq<Call>, s: State, call: Call) returns (more: seq<Call>, t: State)
    requires Run(Careful, Boot(2), calls, s) && Allowed(s, call) && Obeys(Careful, s, call)
    ensures Defined(s, call) && t == Next(s, call).0 && Run(Careful, Boot(2), more, t) && Inv(t) && Shaped(t)
  {
    hide Inv, Balanced, Attached, Defined, Obeys, Next, Run, Allowed;
    Weaken(Boot(2), calls, s, Tame);
    AlwaysDefined(2, calls, s, call);
    Extend(Careful, Boot(2), calls, s, call);
    more, t := calls + [call], Next(s, call).0;
    Reached(Careful, 2, more, t);
    Parts(t);
  }

  /** Both cores run untrusted software and nothing is locked. */
  predicate Quiet(s: State) {
    |s.cores| == 2 && s.cores[0].owner == UNTRUSTED && s.cores[1].owner == UNTRUSTED && s.scans == map[]
  }

  lemma Caller(s: State, c: nat)
    requires c < |s.cores| && s.cores[c].owner == UNTRUSTED
    ensures SomeCaller(s)
  {}

  /** The same objects, and region r in the given state. */
  predicate Same(s: State, t: State, r: nat, state: RegionState)
    requires r < |s.regions|
  {
    && |t.cores| == 2 && t.cores[0].owner == UNTRUSTED && t.cores[1].owner == UNTRUSTED
    && t.regions == s.regions[r := Region(SM, UntrustedRegion, state)]
    && t.pages == s.pages && t.enclaves == s.enclaves && t.threads == s.threads
  }

  /** A region of untrusted software is blocked, and both cores give it up. */
  lemma GiveUp(calls: seq<Call>, s: State, r: nat) returns (more: seq<Call>, t: State)
    requires Run(Careful, Boot(2), calls, s) && Inv(s) && Quiet(s) && r < NUM_REGIONS == |s.regions|
    requires s.regions[r] == Region(UNTRUSTED, UntrustedRegion, Owned)
    ensures Run(Careful, Boot(2), more, t) && Inv(t) && Same(s, t, r, Blocked) && t.scans == map[]
    ensures !Reaches(t.cores[0], r) && !Reaches(t.cores[1], r)
  {
    hide Run, Bitmap, Accessible, Defined, Reaches, Inv, Reused;
    more, t := Take(calls, s, Withdraw(0, r));
    Parts(t);
    var u := t;
    more, t := Take(more, u, Refresh(0));
    RefreshBlocked(u, 0, r);
    Parts(t);
    var v := t;
    more, t := Take(more, v, Refresh(1));
    RefreshBlocked(v, 1, r);
  }

  /** Then it is scanned and freed. */
  lemma FreeOne(calls: seq<Call>, s: State, r: nat) returns (more: seq<Call>, t: State)
    requires Run(Careful, Boot(2), calls, s) && Inv(s) && Quiet(s) && r < NUM_REGIONS == |s.regions|
    requires s.regions[r] == Region(UNTRUSTED, UntrustedRegion, Owned)
    ensures Run(Careful, Boot(2), more, t) && Inv(t) && Shaped(t) && Quiet(t) && Same(s, t, r, Free)
  {
    hide Run, Accessible, Defined, Inv, Reused;
    more, t := GiveUp(calls, s, r);
    Caller(t, 0);
    more, t := Take(more, t, ScanBegin(r));
    Caller(t, 0);
    assert t.scans == map[r := 0];
    more, t := Take(more, t, ScanCore(r));
    Caller(t, 0);
    assert t.scans == map[r := 1];
    more, t := Take(more, t, ScanCore(r));
    Caller(t, 0);
    assert t.scans == map[r := 2];
    more, t := Take(more, t, ScanEnd(r));
  }

  /** An enclave in page 3 of region 1, and a thread in the page after it. */
  function EnclaveAt(): address { AddressOf(1, METADATA_START) }

  function ThreadAt(): address
    requires METADATA_START + EnclavePages(0) < NUM_REGION_PAGES
  {
    AddressOf(1, METADATA_START + EnclavePages(0))
  }

  /** Two enclaves and a thread fit into one region. */
  predicate SmallObjects() { METADATA_START + EnclavePages(0) + ThreadPages() + EnclavePages(0) <= NUM_REGION_PAGES }

  /** Region 1 holds metadata, with these pages; region 0 is the monitor's. */
  ghost predicate Holds(s: State, pages: seq<PageKind>) {
    && Shaped(s) && Quiet(s) && IsMetadata(s, 1) && s.pages[1] == pages && s.regions[0] == Region(SM, SmRegion, Owned)
  }

  ghost function WithEnclave(): seq<PageKind>
    requires SmallObjects()
  {
    Mark(FreshPages(), METADATA_START, EnclavePages(0), EnclavePage, InvalidPage)
  }

  ghost function WithThread(): seq<PageKind>
    requires SmallObjects()
  {
    Mark(WithEnclave(), METADATA_START + EnclavePages(0), ThreadPages(), ThreadPage, InvalidPage)
  }

  lemma Places()
    requires SmallObjects()
    ensures RegionOf(EnclaveAt()) == 1 && PageOf(EnclaveAt()) == METADATA_START && Aligned(EnclaveAt())
    ensures RegionOf(ThreadAt()) == 1 && PageOf(ThreadAt()) == METADATA_START + EnclavePages(0) && Aligned(ThreadAt())
    ensures EnclaveAt() != ThreadAt() && EnclaveAt() != UNTRUSTED && EnclaveAt() != SM
  {
    hide EnclavePages, RegionOf, PageOf, Aligned, ThreadPages;
    AddressParts(1, METADATA_START);
    AddressParts(1, METADATA_START + EnclavePages(0));
  }

  lemma Start()
    ensures Run(Careful, Boot(2), [], Boot(2)) && Inv(Boot(2)) && Quiet(Boot(2))
    ensures |Boot(2).regions| == NUM_REGIONS && Boot(2).regions[0] == Region(SM, SmRegion, Owned)
    ensures forall r :: 0 < r < NUM_REGIONS ==> Boot(2).regions[r] == Region(UNTRUSTED, UntrustedRegion, Owned)
    ensures Boot(2).enclaves == map[] && Boot(2).threads == map[]
  {
    hide Inv, Bitmap;
    BootInv(2);
  }

  /** The metadata region and the new enclave. */
  lemma Create() returns (calls: seq<Call>, s: State)
    requires SmallObjects()
    ensures Run(Careful, Boot(2), calls, s) && Inv(s) && Holds(s, WithEnclave()) && s.threads == map[]
    ensures s.enclaves == map[EnclaveAt() := Enclave(Created, 0, 0, seq(NUM_REGIONS, _ => false))]
    ensures forall r :: 1 < r < NUM_REGIONS ==> s.regions[r] == Region(UNTRUSTED, UntrustedRegion, Owned)
  {
    hide Run, Defined, Inv, Boot, RegionOf, PageOf, Aligned, EnclavePages, ThreadPages, EnclaveAt, Reused;
    Places();
    Start();
    calls, s := FreeOne([], Boot(2), 1);
    Caller(s, 0);
    calls, s := Take(calls, s, MakeMetadata(1));
    Caller(s, 0);
    assert Holds(s, FreshPages());
    calls, s := Take(calls, s, CreateEnclave(EnclaveAt(), 0));
  }

  /** Its thread is loaded. */
  lemma Load() returns (calls: seq<Call>, s: State)
    requires SmallObjects()
    ensures Run(Careful, Boot(2), calls, s) && Inv(s) && Holds(s, WithThread())
    ensures s.enclaves == map[EnclaveAt() := Enclave(DataLoaded, 0, 1, seq(NUM_REGIONS, _ => false))]
    ensures s.threads == map[ThreadAt() := Thread(EnclaveAt(), 0)]
  {
    hide Run, Defined, Inv, Boot, RegionOf, PageOf, Aligned, EnclavePages, ThreadPages, EnclaveAt, ThreadAt, Reused;
    Places();
    calls, s := Create();
    Caller(s, 0);
    calls, s := Take(calls, s, LoadEnclave(EnclaveAt()));
    Caller(s, 0);
    assert Holds(s, WithEnclave());
    calls, s := Take(calls, s, LoadThread(EnclaveAt(), ThreadAt()));
  }

  /** An enclave with one thread runs on core 0, untrusted software on core 1. */
  ghost predicate EnclaveRunning(s: State)
    requires SmallObjects()
  {
    && Shaped(s) && |s.cores| == 2 && s.cores[0].owner == EnclaveAt() != UNTRUSTED && s.cores[0].thread == ThreadAt()
    && s.cores[1].owner == UNTRUSTED && s.scans == map[]
    && IsMetadata(s, 1) && s.pages[1] == WithThread() && s.regions[0] == Region(SM, SmRegion, Owned)
    && s.enclaves == map[EnclaveAt() := Enclave(Initialized, 0, 1, seq(NUM_REGIONS, _ => false))]
    && s.threads.Keys == {ThreadAt()} && s.threads[ThreadAt()].owner == EnclaveAt()
  }

  /** A careful run reaches that state. */
  lemma EnclaveRuns() returns (calls: seq<Call>, s: State)
    requires SmallObjects()
    ensures Run(Careful, Boot(2), calls, s) && EnclaveRunning(s)
  {
    hide Run, Defined, Inv, Boot, RegionOf, PageOf, Aligned, EnclavePages, ThreadPages, Bitmap, EnclaveAt, ThreadAt,
         Reused;
    Places();
    calls, s := Load();
    Caller(s, 0);
    calls, s := Take(calls, s, InitEnclave(EnclaveAt()));
    Caller(s, 0);
    assert Holds(s, WithThread());
    calls, s := Take(calls, s, EnterEnclave(0, EnclaveAt(), ThreadAt()));
  }

  /** It goes on, by two calls of core 1, to a core whose enclave is gone. */
  lemma EnclaveDeletedUnderCore() returns (calls: seq<Call>, s: State)
    requires SmallObjects()
    ensures Run(Tame, Boot(2), calls, s) && |s.cores| == 2 && s.cores[0].owner == EnclaveAt() != UNTRUSTED
    ensures EnclaveAt() !in s.enclaves
  {
    hide Run, Inv, Balanced, Attached, EnclaveAt, ThreadAt, EnclavePages, ThreadPages, Tracked, ThreadDelete,
         EnclaveDelete;
    hide Defined, Reused, WithThread;
    calls, s := EnclaveRuns();
    var t := DeletedThread(calls, s);
    Weaken(Boot(2), calls, s, Tame);
    Extend(Tame, Boot(2), calls, s, DeleteThread(ThreadAt()));
    calls := calls + [DeleteThread(ThreadAt())];
    RunningThreadDeleted(s, 0);
    Reached(Tame, 2, calls, t);
    Caller(t, 1);
    Ready(t, DeleteEnclave(EnclaveAt()));
    Extend(Tame, Boot(2), calls, t, DeleteEnclave(EnclaveAt()));
    calls := calls + [DeleteEnclave(EnclaveAt())];
    s := EnclaveDelete(t, EnclaveAt()).0;
  }

  /** The deletion of the thread that runs on core 0. */
  lemma DeletedThread(calls: seq<Call>, s: State) returns (t: State)
    requires SmallObjects() && Run(Careful, Boot(2), calls, s) && EnclaveRunning(s)
    ensures Inv(s) && Balanced(s) && Attached(s) && Defined(s, DeleteThread(ThreadAt()))
    ensures Next(s, DeleteThread(ThreadAt())) == (t, Ok) && t.cores == s.cores && t.regions == s.regions
    ensures t.threads == map[] && t.scans == map[]
    ensures Shaped(t)
    ensures t.pages[1] == Mark(WithThread(), METADATA_START + EnclavePages(0), ThreadPages(), FreePage, FreePage)
  {
    hide Run, Inv, Balanced, Attached, EnclaveAt, ThreadAt, EnclavePages, ThreadPages, RegionOf, PageOf, Aligned;
    hide CheckMetadata, Marked, WithThread, Defined;
    Places();
    Reached(Careful, 2, calls, s);
    Parts(s);
    Caller(s, 1);
    Ready(s, DeleteThread(ThreadAt()));
    RunningThreadDeleted(s, 0);
    t := ThreadDelete(s, ThreadAt(), false).0;
    ThreadDeleteKeeps(s, ThreadAt(), false);
    Parts(t);
  }

  /** It can also go on to a core that reaches the monitor's own region: the thread is deleted, its pages are given to a
      new enclave, and the core exits with what it finds there. */
  lemma DetachedExitBreaksConfinement() returns (calls: seq<Call>, s: State)
    requires SmallObjects()
    ensures Run(Any, Boot(2), calls, s) && Shaped(s) && |s.cores| == 2
    ensures OwnedBy(s, 0, SM) && Reaches(s.cores[0], 0)
  {
    hide Run, Inv, Balanced, Attached, EnclaveAt, ThreadAt, EnclavePages, ThreadPages, RegionOf, PageOf, Aligned, Mark;
    hide Defined, Reused, WithThread, CheckFree, ThreadDelete, FreshPages;
    Places();
    calls, s := EnclaveRuns();
    var t := DeletedThread(calls, s);
    Weaken(Boot(2), calls, s, Any);
    Extend(Any, Boot(2), calls, s, DeleteThread(ThreadAt()));
    calls := calls + [DeleteThread(ThreadAt())];
    ThreadDeleteKeeps(s, ThreadAt(), false);
    Caller(t, 1);
    Ready(t, CreateEnclave(ThreadAt(), 0));
    FreedPages(t);
    Extend(Any, Boot(2), calls, t, CreateEnclave(ThreadAt(), 0));
    calls := calls + [CreateEnclave(ThreadAt(), 0)];
    var u := EnclaveCreate(t, ThreadAt(), 0).0;
    EnclaveCreateKeeps(t, ThreadAt(), 0);
    Parts(u);
    ReusedBySelf(u);
    Ready(u, ExitDetached(0, 1));
    Extend(Any, Boot(2), calls, u, ExitDetached(0, 1));
    calls := calls + [ExitDetached(0, 1)];
    s := StrayExit(u, 0, 1).0;
    assert Accessible(1, 0);
  }

  lemma FreedPages(t: State)
    requires SmallObjects() && Shaped(t) && IsMetadata(t, 1) && t.scans == map[]
    requires t.pages[1] == Mark(WithThread(), METADATA_START + EnclavePages(0), ThreadPages(), FreePage, FreePage)
    ensures CheckFree(t, ThreadAt(), EnclavePages(0)) == Ok
  {
    hide EnclavePages, ThreadPages, RegionOf, PageOf, Aligned, ThreadAt;
    Places();
  }

  lemma ReusedBySelf(u: State)
    requires SmallObjects() && ThreadAt() in u.enclaves
    ensures Reused(u, ThreadAt())
  {
    hide EnclavePages, ThreadPages, RegionOf, PageOf;
    assert Live(u, ThreadAt()) && SizeOf(u, ThreadAt()) >= 1 && ThreadPages() >= 1;
  }

  /** A run in which enclave_delete leaves a region owned by an enclave that is gone: the enclave had two. */
  lemma RegionLeftBehind() returns (calls: seq<Call>, s: State)
    requires SmallObjects()
    ensures Run(Tame, Boot(2), calls, s) && Shaped(s)
    ensures OwnedBy(s, 3, EnclaveAt()) && EnclaveAt() !in s.enclaves && !Balanced(s)
  {
    hide Run, Inv, Defined, Boot, RegionOf, PageOf, Aligned, EnclavePages, ThreadPages, EnclaveAt, Reused, Bitmap;
    hide WithEnclave, CheckMetadata, Marked, Balanced, Attached;
    Places();
    calls, s := TwoRegions();
    Weaken(Boot(2), calls, s, Tame);
    Reached(Careful, 2, calls, s);
    Caller(s, 0);
    Ready(s, DeleteEnclave(EnclaveAt()));
    Extend(Tame, Boot(2), calls, s, DeleteEnclave(EnclaveAt()));
    calls := calls + [DeleteEnclave(EnclaveAt())];
    LeftBehind(s);
    s := EnclaveDelete(s, EnclaveAt()).0;
  }

  /** An enclave without threads that owns regions 2 and 3. */
  lemma TwoRegions() returns (calls: seq<Call>, s: State)
    requires SmallObjects()
    ensures Run(Careful, Boot(2), calls, s) && Inv(s) && Quiet(s) && EnclaveAt() in s.enclaves
    ensures s.enclaves[EnclaveAt()].threads == 0 && |s.enclaves[EnclaveAt()].regions| == NUM_REGIONS
    ensures forall r :: 0 <= r < NUM_REGIONS ==> (s.enclaves[EnclaveAt()].regions[r] <==> r == 2 || r == 3)
  {
    hide Run, Inv, Defined, Boot, RegionOf, PageOf, Aligned, EnclavePages, ThreadPages, EnclaveAt, Reused, Bitmap;
    hide WithEnclave, CheckMetadata, Marked;
    Places();
    calls, s := Create();
    var e := s.enclaves[EnclaveAt()];
    calls, s := FreeOne(calls, s, 2);
    CheckIsLive(s, EnclaveAt());
    calls, s := Take(calls, s, Grant(0, 2, EnclaveAt()));
    assert s.enclaves[EnclaveAt()] == e.(regions := e.regions[2 := true]);
    calls, s := FreeOne(calls, s, 3);
    CheckIsLive(s, EnclaveAt());
    calls, s := Take(calls, s, Grant(0, 3, EnclaveAt()));
    assert s.enclaves[EnclaveAt()] == e.(regions := e.regions[2 := true][3 := true]);
  }

  lemma LeftBehind(s: State)
    requires SmallObjects() && Inv(s) && Balanced(s) && EnclaveAt() in s.enclaves
             && s.enclaves[EnclaveAt()].threads == 0
    requires |s.enclaves[EnclaveAt()].regions| == NUM_REGIONS
    requires forall r :: 0 <= r < NUM_REGIONS ==> (s.enclaves[EnclaveAt()].regions[r] <==> r == 2 || r == 3)
    ensures Tracked(s) && FitsInRegions(s)
    ensures var t := EnclaveDelete(s, EnclaveAt()).0;
            Shaped(t) && OwnedBy(t, 3, EnclaveAt()) && EnclaveAt() !in t.enclaves && !Balanced(t)
  {
    hide PagesInv, SavedInv, CoresInv, ScansInv, Balanced, RegionOf, PageOf, Aligned, EnclavePages, EnclaveAt, Mark;
    hide CheckDelete;
    var x := EnclaveAt();
    var flags := s.enclaves[x].regions;
    assert flags[2] && flags[3] && !OwnsNothing(s.enclaves[x]);
    assert OwnedBy(s, 3, x) by { Parts(s); }
    assert FirstRegion(flags) == 2;
    assert !SparesBooks(s, x);
    EnclaveDeleteExactly(s, x);
    EnclaveDeleteKeeps(s, x);
    Parts(EnclaveDelete(s, x).0);
  }
}
