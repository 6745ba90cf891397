/** Every run of monitor calls: who can reach which region, and when. */
module MonitorRuns {
  import opened MonitorState
  import opened MonitorSpec
  import opened MonitorInv
  import opened MonitorBooks

  datatype Call =
    | Refresh(core: nat)
    | Grant(core: nat, region: nat, owner: address)
    | Withdraw(core: nat, region: nat)
    | ScanBegin(region: nat)
    | ScanCore(region: nat)
    | ScanEnd(region: nat)
    | MakeMetadata(region: nat)
    | CreateEnclave(enclave: address, mailboxes: nat)
    | LoadEnclave(enclave: address)
    | InitEnclave(enclave: address)
    | DeleteEnclave(enclave: address)
    | LoadThread(enclave: address, thread: address)
    | DeleteThread(thread: address)
    | EnterEnclave(core: nat, enclave: address, thread: address)
    | ExitEnclave(core: nat)
    | ExitDetached(core: nat, bitmap: nat)

  /** Some core runs untrusted software. */
  ghost predicate SomeCaller(s: State) { exists c :: 0 <= c < |s.cores| && s.cores[c].owner == UNTRUSTED }

  /** Pages that thread x would have belong to a live object. */
  ghost predicate Reused(s: State, x: address) {
    exists y :: Live(s, y) && RegionOf(y) == RegionOf(x) && PageOf(y) < PageOf(x) + ThreadPages()
                && PageOf(x) < PageOf(y) + SizeOf(s, y)
  }

  /** Who may make the call: the trap handlers route region_block from both worlds, enclave_exit from enclaves and all
      others from untrusted software. A core whose thread is gone exits too; freed pages are zero, so it finds an empty
      bitmap there unless they belong to another object by then. */
  ghost predicate Allowed(s: State, call: Call) {
    match call
    case Refresh(c) => c < |s.cores| && s.cores[c].owner == UNTRUSTED
    case Grant(c, _, _) => c < |s.cores| && s.cores[c].owner == UNTRUSTED
    case Withdraw(c, _) => c < |s.cores|
    case ScanCore(r) => SomeCaller(s) && r in s.scans && s.scans[r] < |s.cores|
    case ScanEnd(r) => SomeCaller(s) && r in s.scans && s.scans[r] == |s.cores|
    case EnterEnclave(c, _, _) => c < |s.cores| && s.cores[c].owner == UNTRUSTED
    case ExitEnclave(c) => c < |s.cores| && s.cores[c].owner != UNTRUSTED && s.cores[c].thread in s.threads
    case ExitDetached(c, bitmap) =>
      && c < |s.cores| && s.cores[c].owner != UNTRUSTED && s.cores[c].thread !in s.threads
      && (bitmap != 0 ==> Reused(s, s.cores[c].thread))
    case _ => SomeCaller(s)
  }

  /** Everything the call looks up is there. */
  ghost predicate Defined(s: State, call: Call) {
    Tracked(s) && FitsInRegions(s) && Allowed(s, call) && (call.ScanEnd? ==> call.region < NUM_REGIONS)
  }

  lemma Ready(s: State, call: Call)
    requires Inv(s) && Allowed(s, call)
    ensures Defined(s, call)
  {
    hide PagesInv, RegionsInv, CoresInv, Accessible, Allowed;
    Parts(s);
    if call.ScanEnd? { assert call.region in s.scans by { ScannedRegion(s, call); } }
  }

  lemma ScannedRegion(s: State, call: Call)
    requires Allowed(s, call) && call.ScanEnd?
    ensures call.region in s.scans
  {}

  /** is_scheduled is read as false: it is never set. */
  function Next(s: State, call: Call): (State, Result)
    requires Defined(s, call)
  {
    match call
    case Refresh(c) => Update(s, c)
    case Grant(c, r, owner) => Assign(s, c, r, owner)
    case Withdraw(c, r) => Block(s, c, r)
    case ScanBegin(r) => FreeBegin(s, r)
    case ScanCore(r) => FreeLook(s, r)
    case ScanEnd(r) => FreeEnd(s, r)
    case MakeMetadata(r) => MetadataCreate(s, r)
    case CreateEnclave(e, mailboxes) => EnclaveCreate(s, e, mailboxes)
    case LoadEnclave(e) => EnclaveLoad(s, e)
    case InitEnclave(e) => EnclaveInit(s, e)
    case DeleteEnclave(e) => EnclaveDelete(s, e)
    case LoadThread(e, x) => ThreadLoad(s, e, x)
    case DeleteThread(x) => ThreadDelete(s, x, false)
    case EnterEnclave(c, e, x) => Enter(s, c, e, x, false)
    case ExitEnclave(c) => Exit(s, c)
    case ExitDetached(c, bitmap) => StrayExit(s, c, bitmap)
  }

  /** How careful untrusted software is. Tame: the pages of a thread that has been deleted under a core are not given to
      another object before the core exits. Careful: no thread is deleted that runs, and no enclave whose deletion wipes
      anything that is in use. */
  datatype Care = Any | Tame | Careful

  ghost predicate Harmless(s: State, x: address) {
    x in s.enclaves && s.enclaves[x].threads <= 0 && !OwnsNothing(s.enclaves[x]) ==>
    SparesBooks(s, x) && SparesCores(s, x)
  }

  ghost predicate Obeys(care: Care, s: State, call: Call) {
    && (care != Any && call.ExitDetached? ==> call.core < |s.cores| && !Reused(s, s.cores[call.core].thread))
    && (care == Careful && call.DeleteThread? ==> !RunsOn(s, call.thread))
    && (care == Careful && call.DeleteEnclave? ==> Harmless(s, call.enclave))
  }

  lemma InitStateKeeps(s: State, x: address, init: InitState)
    requires Inv(s) && x in s.enclaves
    ensures Inv(s.(enclaves := s.enclaves[x := s.enclaves[x].(init := init)]))
  {
    hide PagesInv, RegionsInv, CoresInv, Accessible, Reaches, IsMetadata, OwnedBy;
    var t := s.(enclaves := s.enclaves[x := s.enclaves[x].(init := init)]);
    SameMetadata(s, t);
    Parts(s);
    FramePages(s, t) by { PagesPart(s); }
    FrameRegions(s, t);
    FrameCores(s, t);
  }

  lemma SameMetadata(s: State, t: State)
    requires s.regions == t.regions
    ensures forall r :: 0 <= r < |s.regions| ==> (IsMetadata(t, r) <==> IsMetadata(s, r))
    ensures forall r, owner :: 0 <= r < |s.regions| ==> (OwnedBy(t, r, owner) <==> OwnedBy(s, r, owner))
  {}

  lemma ScanKeeps(s: State, t: State)
    requires Inv(s) && t == s.(scans := t.scans) && ScansInv(t)
    ensures Inv(t)
  {
    hide PagesInv, RegionsInv, CoresInv, ScansInv;
    Parts(s);
    FramePages(s, t) by { PagesPart(s); }
    FrameRegions(s, t);
    FrameCores(s, t);
  }

  /** A region that a scan has found unreachable from every core can be freed. */
  lemma FreeEndKeeps(s: State, r: nat)
    requires Inv(s) && r in s.scans && s.scans[r] == |s.cores| && r < NUM_REGIONS
    ensures Inv(FreeEnd(s, r).0)
  {
    hide PagesInv, RegionOf, PageOf, Aligned, Accessible;
    var t := FreeEnd(s, r).0;
    Parts(s);
    FramePages(s, t) by { PagesPart(s); }
    forall c | 0 <= c < |t.cores| ensures CoreInv(t, t.cores[c]) {
      assert CoreInv(s, s.cores[c]) && !Reaches(s.cores[c], r);
    }
  }

  lemma FreeBeginKeeps(s: State, r: nat)
    requires Inv(s) && Tracked(s)
    ensures Inv(FreeBegin(s, r).0)
  {
    hide PagesInv, RegionsInv, CoresInv, Accessible;
    ScanKeeps(s, FreeBegin(s, r).0);
  }

  lemma FreeLookKeeps(s: State, r: nat)
    requires Inv(s) && r in s.scans && s.scans[r] < |s.cores|
    ensures Inv(FreeLook(s, r).0)
  {
    hide PagesInv, RegionsInv, CoresInv, Accessible;
    ScanKeeps(s, FreeLook(s, r).0);
  }

  lemma LoadKeeps(s: State, x: address)
    requires Inv(s) && Tracked(s)
    ensures Inv(EnclaveLoad(s, x).0) && Inv(EnclaveInit(s, x).0)
  {
    hide Inv, CheckMetadata, Marked;
    CheckedIsLive(s, x, EnclavePage);
    if x in s.enclaves {
      InitStateKeeps(s, x, DataLoaded);
      InitStateKeeps(s, x, Initialized);
    }
  }

  /** Every call keeps the invariant, deletions included, as long as pages are not reused under a core. */
  lemma NextInv(s: State, call: Call)
    requires Inv(s) && Defined(s, call) && Obeys(Tame, s, call)
    ensures Inv(Next(s, call).0)
  {
    hide Inv, Protect, CheckMetadata, Marked, RegionOf, PageOf, Accessible, Reused, SomeCaller, Harmless;
    match call
    case Refresh(c) => ProtectKeeps(s, c);
    case Grant(c, r, owner) => AssignKeeps(s, c, r, owner);
    case Withdraw(c, r) => BlockKeeps(s, c, r);
    case ScanBegin(r) => FreeBeginKeeps(s, r);
    case ScanCore(r) => FreeLookKeeps(s, r);
    case ScanEnd(r) => FreeEndKeeps(s, r);
    case MakeMetadata(r) => MetadataCreateKeeps(s, r);
    case CreateEnclave(e, mailboxes) => EnclaveCreateKeeps(s, e, mailboxes);
    case LoadEnclave(e) => LoadKeeps(s, e);
    case InitEnclave(e) => LoadKeeps(s, e);
    case DeleteEnclave(e) => EnclaveDeleteKeeps(s, e);
    case LoadThread(e, x) => ThreadLoadKeeps(s, e, x);
    case DeleteThread(x) => ThreadDeleteKeeps(s, x, false);
    case EnterEnclave(c, e, x) => EnterKeeps(s, c, e, x, false);
    case ExitEnclave(c) => ExitKeeps(s, c);
    case ExitDetached(c, bitmap) => StrayExitKeeps(s, c);
  }

  /** Careful calls keep the books balanced and every core attached. */
  lemma NextBooks(s: State, call: Call)
    requires Inv(s) && Balanced(s) && Attached(s) && Defined(s, call) && Obeys(Careful, s, call)
    ensures Balanced(Next(s, call).0) && Attached(Next(s, call).0)
  {
    hide Inv, Balanced, Attached, Tracked, FitsInRegions, RegionOf, PageOf, Mark, Marked, Bitmap, CheckMetadata,
         CheckFree;
    hide SomeCaller, Reused, Protect;
    assert Shaped(s) by { Parts(s); }
    match call
    case Refresh(c) => RefreshBooks(s, c);
    case Grant(c, r, owner) => AssignBooks(s, c, r, owner);
    case Withdraw(c, r) => BlockBooks(s, c, r);
    case ScanBegin(r) => ScanBooks(s, FreeBegin(s, r).0);
    case ScanCore(r) => ScanBooks(s, FreeLook(s, r).0);
    case ScanEnd(r) => FreeBooks(s, r);
    case MakeMetadata(r) => MetadataBooks(s, r);
    case CreateEnclave(e, mailboxes) => CreateBooks(s, e, mailboxes);
    case LoadEnclave(e) => InitStateBooks(s, e);
    case InitEnclave(e) => InitStateBooks(s, e);
    case DeleteEnclave(e) => DeleteBooks(s, e);
    case LoadThread(e, x) => LoadBooks(s, e, x);
    case DeleteThread(x) => DeleteThreadBalanced(s, x, false); ThreadDeleteExactly(s, x);
    case EnterEnclave(c, e, x) => EnterBooks(s, c, e, x, false);
    case ExitEnclave(c) => ExitBooks(s, c, s.threads[s.cores[c].thread].saved);
    case ExitDetached(c, bitmap) => ExitBooks(s, c, bitmap);
  }

  lemma RefreshBooks(s: State, c: nat)
    requires Balanced(s) && Attached(s) && Running(s, c)
    ensures Balanced(Update(s, c).0) && Attached(Update(s, c).0)
  {
    hide Balanced, Attached, Protect;
    ProtectBalanced(s, c);
    ProtectAttached(s, s, c);
  }

  lemma ScanBooks(s: State, t: State)
    requires Balanced(s) && Attached(s) && t == s.(scans := t.scans)
    ensures Balanced(t) && Attached(t)
  {
    hide ThreadsInv, Attached;
    FrameThreads(s, t);
    FrameAttached(s, t);
  }

  lemma FreeBooks(s: State, r: nat)
    requires Balanced(s) && Attached(s) && Shaped(s) && r < NUM_REGIONS && r in s.scans
    ensures Balanced(FreeEnd(s, r).0) && Attached(FreeEnd(s, r).0)
  {
    hide ThreadsInv, Attached;
    FrameThreads(s, FreeEnd(s, r).0);
    FrameAttached(s, FreeEnd(s, r).0);
  }

  lemma InitStateBooks(s: State, x: address)
    requires Inv(s) && Tracked(s) && Balanced(s) && Attached(s)
    ensures Balanced(EnclaveLoad(s, x).0) && Attached(EnclaveLoad(s, x).0)
    ensures Balanced(EnclaveInit(s, x).0) && Attached(EnclaveInit(s, x).0)
  {
    hide Inv, Balanced, Attached, CheckMetadata, Marked;
    CheckedIsLive(s, x, EnclavePage);
    FrameBalanced(s, EnclaveLoad(s, x).0);
    FrameBalanced(s, EnclaveInit(s, x).0);
    FrameAttached(s, EnclaveLoad(s, x).0);
    FrameAttached(s, EnclaveInit(s, x).0);
  }

  lemma DeleteBooks(s: State, x: address)
    requires Inv(s) && Tracked(s) && FitsInRegions(s) && Balanced(s) && Attached(s) && Harmless(s, x)
    ensures Balanced(EnclaveDelete(s, x).0) && Attached(EnclaveDelete(s, x).0)
  {
    hide Inv, Balanced, Attached, Tracked, FitsInRegions, SparesBooks, SparesCores, OwnsNothing, CheckMetadata;
    if CheckDelete(s, x) == Ok {
      CheckedIsLive(s, x, EnclavePage);
      EnclaveDeleteExactly(s, x);
      EnclaveDeleteAttached(s, x);
    }
  }

  /** Region 0 holds the monitor, all others are untrusted. */
  function BootRegion(r: int): Region {
    if r == 0 then Region(SM, SmRegion, Owned) else Region(UNTRUSTED, UntrustedRegion, Owned)
  }

  /** After sm_init and the first update of every core: region 0 holds the monitor, all others are untrusted. */
  function Boot(cores: nat): State {
    var flags := seq(NUM_REGIONS, r => r != 0);
    State(seq(cores, _ => Core(UNTRUSTED, 1, Bitmap(flags), 0)),
          seq(NUM_REGIONS, BootRegion),
          flags,
          seq(NUM_REGIONS, _ => seq(NUM_REGION_PAGES, _ => InvalidPage)),
          map[], map[], map[])
  }

  lemma BootInv(cores: nat)
    ensures Inv(Boot(cores))
  {
    hide Bitmap, Accessible, RegionOf, PageOf, Aligned;
    var s := Boot(cores);
    forall x, kind ensures !Marked(s, x, kind) {}
    forall c | 0 <= c < |s.cores| ensures CoreInv(s, s.cores[c]) {
      BitmapConfined(s, s.untrusted, UNTRUSTED);
      ZeroConfined(s, UNTRUSTED);
    }
  }

  lemma BootBooks(cores: nat)
    ensures Balanced(Boot(cores)) && Attached(Boot(cores))
  {
    hide Bitmap;
  }

  /** t is reached from s by the calls, in order and with care. */
  ghost predicate Run(care: Care, s: State, calls: seq<Call>, t: State)
    decreases |calls|
  {
    if calls == [] then s == t
    else Defined(s, calls[0]) && Obeys(care, s, calls[0]) && Run(care, Next(s, calls[0]).0, calls[1..], t)
  }

  lemma {:induction false} RunInv(care: Care, s: State, calls: seq<Call>, t: State)
    requires care != Any && Inv(s) && Run(care, s, calls, t)
    ensures Inv(t)
    decreases |calls|
  {
    hide Inv, Next, Defined;
    if calls != [] {
      NextInv(s, calls[0]);
      RunInv(care, Next(s, calls[0]).0, calls[1..], t);
    }
  }

  lemma {:induction false} RunBooks(s: State, calls: seq<Call>, t: State)
    requires Inv(s) && Balanced(s) && Attached(s) && Run(Careful, s, calls, t)
    ensures Inv(t) && Balanced(t) && Attached(t)
    decreases |calls|
  {
    hide Inv, Balanced, Attached, Next, Defined;
    if calls != [] {
      NextInv(s, calls[0]);
      NextBooks(s, calls[0]);
      RunBooks(Next(s, calls[0]).0, calls[1..], t);
    }
  }

  /** From the start. */
  lemma Reached(care: Care, cores: nat, calls: seq<Call>, s: State)
    requires care != Any && Run(care, Boot(cores), calls, s)
    ensures Inv(s) && (care == Careful ==> Balanced(s) && Attached(s))
  {
    hide Inv, Balanced, Attached, Run;
    BootInv(cores);
    BootBooks(cores);
    RunInv(care, Boot(cores), calls, s);
    if care == Careful { RunBooks(Boot(cores), calls, s); }
  }

  /** In every tame run a call that the rules allow is defined, so no run gets stuck on a missing object. */
  lemma AlwaysDefined(cores: nat, calls: seq<Call>, s: State, call: Call)
    requires Run(Tame, Boot(cores), calls, s) && Allowed(s, call)
    ensures Defined(s, call)
  {
    hide Inv, Defined, Allowed, Run;
    Reached(Tame, cores, calls, s);
    Ready(s, call);
  }

  /** In every careful run no core is ever detached from its thread. */
  lemma NeverDetached(cores: nat, calls: seq<Call>, s: State, c: nat, bitmap: nat)
    requires Run(Careful, Boot(cores), calls, s)
    ensures !Allowed(s, ExitDetached(c, bitmap))
  {
    hide Inv, Balanced, Run, Reused;
    Reached(Careful, cores, calls, s);
    if c < |s.cores| { assert AttachedCore(s, s.cores[c]); }
  }

  /** In every tame run a core reaches through mmrbm only what untrusted software owns and what is blocked, and through
      memrbm only what its own enclave owns and what is blocked. */
  lemma AccessIsConfined(cores: nat, calls: seq<Call>, s: State, c: nat, r: nat)
    requires Run(Tame, Boot(cores), calls, s) && c < |s.cores| && r < NUM_REGIONS
    ensures |s.regions| == NUM_REGIONS
    ensures Accessible(s.cores[c].mmrbm, r) ==> OwnedBy(s, r, UNTRUSTED) || s.regions[r].state == Blocked
    ensures Accessible(s.cores[c].memrbm, r) ==>
              s.cores[c].owner != UNTRUSTED && (OwnedBy(s, r, s.cores[c].owner) || s.regions[r].state == Blocked)
  {
    hide PagesInv, SavedInv, ScansInv, Accessible, Run;
    Reached(Tame, cores, calls, s);
    assert CoreInv(s, s.cores[c]);
    NothingAccessible(r);
  }

  /** In every careful run that enclave is live. */
  lemma AccessorIsLive(cores: nat, calls: seq<Call>, s: State, c: nat, r: nat)
    requires Run(Careful, Boot(cores), calls, s) && c < |s.cores| && Accessible(s.cores[c].memrbm, r)
    ensures s.cores[c].owner in s.enclaves
  {
    hide PagesInv, RegionsInv, SavedInv, ScansInv, Balanced, Accessible, Run;
    Reached(Careful, cores, calls, s);
    assert CoreInv(s, s.cores[c]) && AttachedCore(s, s.cores[c]);
    NothingAccessible(r);
  }

  /** In every tame run free regions, monitor regions and metadata regions are reachable from no core. */
  lemma MonitorMemoryIsUnreachable(cores: nat, calls: seq<Call>, s: State, c: nat, r: nat)
    requires Run(Tame, Boot(cores), calls, s) && c < |s.cores| && r < NUM_REGIONS
    ensures |s.regions| == NUM_REGIONS
    ensures s.regions[r].state == Free || OwnedBy(s, r, SM) || IsMetadata(s, r) ==> !Reaches(s.cores[c], r)
  {
    hide Run, Accessible, PagesInv, SavedInv, ScansInv;
    Reached(Tame, cores, calls, s);
    AccessIsConfined(cores, calls, s, c, r);
    assert CoreInv(s, s.cores[c]);
  }

  /** In every tame run no region is in two region maps. */
  lemma OneOwner(cores: nat, calls: seq<Call>, s: State, d: address, e: address, r: nat)
    requires Run(Tame, Boot(cores), calls, s) && d in s.enclaves && e in s.enclaves && r < NUM_REGIONS
    ensures |s.untrusted| == NUM_REGIONS && |s.enclaves[d].regions| == NUM_REGIONS
            && |s.enclaves[e].regions| == NUM_REGIONS
    ensures s.enclaves[d].regions[r] && s.enclaves[e].regions[r] ==> d == e
    ensures !(s.untrusted[r] && s.enclaves[e].regions[r])
  {
    hide Run, PagesInv, SavedInv, CoresInv, ScansInv;
    Reached(Tame, cores, calls, s);
    NotMonitor(s) by { PagesPart(s); }
  }

  /** In every careful run an enclave that runs on a core cannot be deleted. */
  lemma RunningEnclaveStays(cores: nat, calls: seq<Call>, s: State, c: nat)
    requires Run(Careful, Boot(cores), calls, s) && c < |s.cores| && s.cores[c].owner != UNTRUSTED
    ensures Tracked(s) && FitsInRegions(s) && EnclaveDelete(s, s.cores[c].owner).1 != Ok
  {
    hide Run, Inv, EnclaveDelete, OwnersInv, ThreadsInv;
    Reached(Careful, cores, calls, s);
    assert AttachedCore(s, s.cores[c]);
    HasThread(s, s.cores[c].thread);
    EnclaveDeleteSucceeds(s, s.cores[c].owner);
  }

  /** In every tame run live enclaves and threads occupy disjoint pages above the reserved ones. */
  lemma AllocatorIsSound(cores: nat, calls: seq<Call>, s: State, x: address, y: address)
    requires Run(Tame, Boot(cores), calls, s) && Live(s, x) && Live(s, y)
    ensures METADATA_START <= PageOf(x) && PageOf(x) + SizeOf(s, x) <= NUM_REGION_PAGES
    ensures x != y && RegionOf(x) == RegionOf(y) ==>
              PageOf(x) + SizeOf(s, x) <= PageOf(y) || PageOf(y) + SizeOf(s, y) <= PageOf(x)
  {
    hide Run, PagesInv, RegionsInv, CoresInv, ScansInv;
    Reached(Tame, cores, calls, s);
    ObjectsDisjoint(s, x, y) by { PagesPart(s); }
  }

  /** In every careful run every thread has a live owner, every enclave counts its threads, and every region in use
      belongs to the monitor, to untrusted software or to a live enclave whose region map has it. */
  lemma BooksBalance(cores: nat, calls: seq<Call>, s: State)
    requires Run(Careful, Boot(cores), calls, s)
    ensures Balanced(s)
  {
    hide Run, Inv, Balanced;
    Reached(Careful, cores, calls, s);
  }

  /** A freshly protected core does not reach a blocked region. */
  lemma ProtectedCore(s: State, c: nat, r: nat)
    requires RegionsInv(s) && Running(s, c) && r < NUM_REGIONS && s.regions[r].state == Blocked
    ensures !Reaches(Protect(s, c).cores[c], r)
  {
    hide Bitmap, Accessible;
    BitmapBit(s.untrusted, r);
    var owner := s.cores[c].owner;
    if owner == UNTRUSTED { NothingAccessible(r); } else { BitmapBit(s.enclaves[owner].regions, r); }
  }

  /** No step gives a core access to a region that is blocked before the step. */
  lemma BlockedIsNotRegained(s: State, call: Call, c: nat, r: nat)
    requires Inv(s) && Defined(s, call) && Obeys(Tame, s, call) && c < |s.cores| && r < NUM_REGIONS
    requires |s.regions| == NUM_REGIONS && s.regions[r].state == Blocked
    ensures |Next(s, call).0.cores| == |s.cores|
    ensures Reaches(Next(s, call).0.cores[c], r) ==> Reaches(s.cores[c], r)
  {
    hide Inv, Accessible, Bitmap, CheckMetadata, CheckFree, Reaches, SetFlag, RegionOf, PageOf, Mark, Marked, Reused;
    hide Harmless, SomeCaller, Outside;
    match call
    case Refresh(k) => RefreshBlocked(s, k, r);
    case Grant(k, q, owner) => GrantBlocked(s, k, q, owner, c, r);
    case Withdraw(k, q) => WithdrawBlocked(s, k, q, c, r);
    case EnterEnclave(k, e, x) => EnterBlocked(s, k, e, x, r);
    case ExitEnclave(k) => ExitBlocked(s, k, r);
    case ExitDetached(k, bitmap) => StrayBlocked(s, k, r);
    case _ =>
  }

  lemma RefreshBlocked(s: State, k: nat, r: nat)
    requires Inv(s) && Running(s, k) && r < NUM_REGIONS && s.regions[r].state == Blocked
    ensures !Reaches(Protect(s, k).cores[k], r)
  {
    hide Inv, Protect, Reaches;
    Parts(s);
    ProtectedCore(s, k, r);
  }

  lemma SetFlagFrame(s: State, owner: address, r: nat, flag: bool)
    requires Shaped(s) && r < NUM_REGIONS && Known(s, owner)
    ensures var t := SetFlag(s, owner, r, flag);
            && t.cores == s.cores && t.regions == s.regions
            && t.enclaves.Keys == s.enclaves.Keys
  {}

  lemma GrantBlocked(s: State, k: nat, q: nat, owner: address, c: nat, r: nat)
    requires Inv(s) && Tracked(s) && Running(s, k) && c < |s.cores| && r < NUM_REGIONS && s.regions[r].state == Blocked
    ensures var t := Assign(s, k, q, owner).0;
            && |t.cores| == |s.cores|
            && (t.cores[c] == s.cores[c] || !Reaches(t.cores[c], r))
  {
    hide Inv, Bitmap, Reaches, SetFlag, CheckMetadata, Marked;
    if Assign(s, k, q, owner).1 == Ok {
      CheckedIsLive(s, owner, EnclavePage);
      var region := Region(owner, if owner == UNTRUSTED then UntrustedRegion else EnclaveRegion, Owned);
      var u := s.(regions := s.regions[q := region]);
      TransferKeeps(s, q, region, owner, true);
      SetFlagFrame(u, owner, q, true);
      RefreshBlocked(SetFlag(u, owner, q, true), k, r);
    }
  }

  lemma WithdrawBlocked(s: State, k: nat, q: nat, c: nat, r: nat)
    requires Inv(s) && Tracked(s) && k < |s.cores| && c < |s.cores| && r < NUM_REGIONS && s.regions[r].state == Blocked
    ensures var t := Block(s, k, q).0; |t.cores| == |s.cores| && (t.cores[c] == s.cores[c] || !Reaches(t.cores[c], r))
  {
    hide Inv, Bitmap, Reaches, SetFlag, CheckMetadata, Marked;
    if Block(s, k, q).1 == Ok {
      var owner := s.cores[k].owner;
      if owner != UNTRUSTED { CheckedIsLive(s, owner, EnclavePage); }
      var region := Region(SM, s.regions[q].kind, Blocked);
      var u := s.(regions := s.regions[q := region]);
      PagesPart(s);
      Parts(s);
      NotMonitor(s);
      TransferKeeps(s, q, region, owner, false);
      SetFlagFrame(u, owner, q, false);
      RefreshBlocked(SetFlag(u, owner, q, false), k, r);
    }
  }

  lemma EnterBlocked(s: State, k: nat, e: address, x: address, r: nat)
    requires Inv(s) && Tracked(s) && k < |s.cores| && r < NUM_REGIONS && s.regions[r].state == Blocked
    ensures var t := Enter(s, k, e, x, false).0; |t.cores| == |s.cores|
    ensures Reaches(Enter(s, k, e, x, false).0.cores[k], r) ==> Reaches(s.cores[k], r)
  {
    hide Inv, Bitmap, Accessible, CheckMetadata, Marked;
    if Enter(s, k, e, x, false).1 == Ok {
      CheckedIsLive(s, e, EnclavePage);
      Parts(s);
      BitmapBit(s.enclaves[e].regions, r);
    }
  }

  lemma ExitBlocked(s: State, k: nat, r: nat)
    requires Inv(s) && k < |s.cores| && s.cores[k].thread in s.threads
    ensures Reaches(Exit(s, k).0.cores[k], r) ==> Reaches(s.cores[k], r)
  {
    hide PagesInv, RegionsInv, CoresInv, ScansInv, Accessible, RegionOf;
    NothingAccessible(r);
  }

  lemma StrayBlocked(s: State, k: nat, r: nat)
    requires k < |s.cores|
    ensures Reaches(StrayExit(s, k, 0).0.cores[k], r) ==> Reaches(s.cores[k], r)
  {
    hide Accessible, RegionOf;
    NothingAccessible(r);
  }

  /** region_free is sound under every interleaving: when a region becomes free in a tame run, no core reaches it. */
  lemma FreeIsSound(cores: nat, calls: seq<Call>, s: State, r: nat)
    requires Run(Tame, Boot(cores), calls, s) && r in s.scans && s.scans[r] == |s.cores|
    ensures Shaped(s) && r < NUM_REGIONS
    ensures FreeEnd(s, r).0.regions[r].state == Free
    ensures forall c :: 0 <= c < |s.cores| ==> !Reaches(FreeEnd(s, r).0.cores[c], r)
  {
    hide Run, PagesInv, RegionsInv, SavedInv, CoresInv, Reaches;
    Reached(Tame, cores, calls, s);
  }
}
