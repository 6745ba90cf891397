/** The life of regions, enclaves, threads and cores: which call takes each from one state to the next, and what
    follows for whole runs. */
module MonitorLife {
  import opened MonitorState
  import opened MonitorSpec
  import opened MonitorInv
  import opened MonitorBooks
  import opened MonitorCalls
  import opened MonitorRuns

  /** A region goes from free to owned by a grant or as a metadata region, from owned to blocked by its owner or with
      its enclave, and from blocked to free at the end of a scan, and in no other way. */
  lemma RegionLife(s: State, call: Call, r: nat)
    requires Inv(s) && Defined(s, call) && r < NUM_REGIONS
    ensures |s.regions| == |Next(s, call).0.regions| == NUM_REGIONS
    ensures var before, after := s.regions[r], Next(s, call).0.regions[r];
            || after == before
            || (call.Grant? && call.region == r && before.state == Free && Known(s, call.owner)
                && after.state == Owned && after.owner == call.owner)
            || (call.MakeMetadata? && call.region == r && before.state == Free
                && after == Region(SM, MetadataRegion, Owned))
            || (call.Withdraw? && call.region == r && OwnedBy(s, r, s.cores[call.core].owner)
                && after == before.(owner := SM, state := Blocked))
            || (call.DeleteEnclave? && call.enclave in s.enclaves && OwnedBy(s, r, call.enclave)
                && after == before.(owner := SM, state := Blocked))
            || (call.ScanEnd? && call.region == r && before.state == Blocked && after == before.(state := Free))
  {
    hide Inv, RegionOf, PageOf, Aligned, Marked, Mark, CheckMetadata, CheckFree, SetFlag, Bitmap, Outside, UpToDate;
    hide Reaches, Reused, SomeCaller;
    Parts(s);
    match call
    case Grant(c, q, owner) => AssignExactly(s, c, q, owner);
    case Withdraw(c, q) => BlockExactly(s, c, q);
    case MakeMetadata(q) => MetadataCreateExactly(s, q);
    case DeleteEnclave(e) => DeletedRegion(s, e, r);
    case ScanEnd(q) => ScannedIsBlocked(s, q);
    case _ =>
  }

  lemma DeletedRegion(s: State, e: address, r: nat)
    requires Inv(s) && Tracked(s) && FitsInRegions(s) && r < NUM_REGIONS
    ensures |EnclaveDelete(s, e).0.regions| == NUM_REGIONS
    ensures var before, after := s.regions[r], EnclaveDelete(s, e).0.regions[r];
            after == before || (e in s.enclaves && OwnedBy(s, r, e) && after == before.(owner := SM, state := Blocked))
  {
    hide Inv, RegionOf, PageOf, Marked, Mark, CheckMetadata, Outside;
    Parts(s);
    CheckedIsLive(s, e, EnclavePage);
  }

  /** A core is changed only by its own calls. It starts to run an enclave by entering it, which has to be initialized,
      in one of its threads, and stops by an exit. */
  lemma CoreLife(s: State, call: Call, c: nat)
    requires Inv(s) && Defined(s, call) && c < |s.cores|
    ensures |Next(s, call).0.cores| == |s.cores|
    ensures var before, after := s.cores[c], Next(s, call).0.cores[c];
            && (after != before ==>
                  && (call.Refresh? || call.Grant? || call.Withdraw? || call.EnterEnclave? || call.ExitEnclave?
                      || call.ExitDetached?)
                  && call.core == c)
            && (after.owner != before.owner || after.thread != before.thread ==>
                  || (call.EnterEnclave? && before.owner == UNTRUSTED
                      && after.owner == call.enclave && after.thread == call.thread
                      && call.enclave in s.enclaves && s.enclaves[call.enclave].init == Initialized
                      && call.thread in s.threads && s.threads[call.thread].owner == call.enclave)
                  || ((call.ExitEnclave? || call.ExitDetached?) && after.owner == UNTRUSTED))
  {
    hide Inv, RegionOf, PageOf, Aligned, Marked, Mark, CheckMetadata, CheckFree, SetFlag, Bitmap, Outside, UpToDate;
    hide Reaches, Reused, SomeCaller;
    Parts(s);
    match call
    case Grant(k, q, owner) => AssignExactly(s, k, q, owner);
    case Withdraw(k, q) => BlockExactly(s, k, q);
    case EnterEnclave(k, e, x) => EnterExactly(s, k, e, x, false);
    case _ =>
  }

  lemma SameCores(s: State, call: Call)
    requires Inv(s) && Defined(s, call)
    ensures |Next(s, call).0.cores| == |s.cores|
  {
    hide Inv, RegionOf, PageOf, Aligned, Marked, Mark, CheckMetadata, CheckFree, Bitmap, Outside, Reused, SomeCaller;
    Parts(s);
  }

  /** What a call may do to an enclave that it leaves alive. */
  predicate EnclaveStep(s: State, call: Call, e: address, before: Enclave, after: Enclave) {
    && after.mailboxes == before.mailboxes && |after.regions| == |before.regions|
    && (|| after.init == before.init
        || (call == LoadEnclave(e) && before.init != Initialized && after.init == DataLoaded)
        || (call == InitEnclave(e) && before.init == DataLoaded && after.init == Initialized))
    && (|| after.threads == before.threads
        || (call.LoadThread? && call.enclave == e && before.init == DataLoaded && after.threads == before.threads + 1)
        || (call.DeleteThread? && call.thread in s.threads && s.threads[call.thread].owner == e
            && after.threads == before.threads - 1))
    && forall r :: 0 <= r < |before.regions| && after.regions[r] != before.regions[r] ==>
         if after.regions[r] then call.Grant? && call.region == r && call.owner == e
         else call.Withdraw? && call.region == r && call.core < |s.cores| && s.cores[call.core].owner == e
  }

  predicate EnclaveChange(s: State, call: Call, e: address, t: State) {
    && (e !in s.enclaves && e in t.enclaves ==>
          && call.CreateEnclave? && call.enclave == e
          && t.enclaves[e] == Enclave(Created, call.mailboxes, 0, seq(NUM_REGIONS, _ => false)))
    && (e in s.enclaves && e !in t.enclaves ==>
          && call.DeleteEnclave? && call.enclave in s.enclaves && s.enclaves[call.enclave].threads <= 0
          && RegionOf(call.enclave) == RegionOf(e))
    && (e in s.enclaves && e in t.enclaves ==> EnclaveStep(s, call, e, s.enclaves[e], t.enclaves[e]))
  }

  /** An enclave is created empty, is loaded, becomes initialized once it is loaded, gets threads only while it is being
      loaded, gets regions by grants and loses them by its own calls; it ends when an enclave of its metadata region is
      deleted. */
  lemma EnclaveLife(s: State, call: Call, e: address)
    requires Inv(s) && Defined(s, call)
    ensures EnclaveChange(s, call, e, Next(s, call).0)
  {
    hide Inv, Assign, Block, EnclaveCreate, ThreadLoad, ThreadDelete, EnclaveDelete, EnclaveLoad, EnclaveInit, Tracked;
    hide FitsInRegions, Enter, Bitmap, Reused, SomeCaller, RegionOf, MetadataCreate, FreePages, OnlyPages, Grants;
    Parts(s);
    match call
    case Grant(k, q, owner) => GrantedEnclave(s, k, q, owner, e);
    case Withdraw(k, q) => WithdrawnEnclave(s, k, q, e);
    case MakeMetadata(q) => MetadataCreateExactly(s, q);
    case CreateEnclave(x, mailboxes) => EnclaveCreateExactly(s, x, mailboxes);
    case LoadEnclave(x) => LoadedEnclave(s, x, e);
    case InitEnclave(x) => LoadedEnclave(s, x, e);
    case DeleteEnclave(x) => DeletedEnclaves(s, x, e);
    case LoadThread(d, x) => ThreadLoadExactly(s, d, x);
    case DeleteThread(x) => ThreadDeletes(s, x, false);
    case EnterEnclave(k, d, x) => EnterExactly(s, k, d, x, false);
    case _ =>
  }

  lemma GrantedEnclave(s: State, k: nat, q: nat, owner: address, e: address)
    requires Inv(s) && Tracked(s) && Running(s, k)
    ensures EnclaveChange(s, Grant(k, q, owner), e, Assign(s, k, q, owner).0)
  {
    hide Inv, Assign, RegionOf, UpToDate, Tracked;
    AssignExactly(s, k, q, owner);
  }

  lemma WithdrawnEnclave(s: State, k: nat, q: nat, e: address)
    requires Inv(s) && Tracked(s) && k < |s.cores|
    ensures EnclaveChange(s, Withdraw(k, q), e, Block(s, k, q).0)
  {
    hide Inv, Block, RegionOf, UpToDate, Tracked, Reaches;
    BlockExactly(s, k, q);
  }

  lemma LoadedEnclave(s: State, x: address, e: address)
    requires Inv(s) && Tracked(s)
    ensures EnclaveChange(s, LoadEnclave(x), e, EnclaveLoad(s, x).0)
    ensures EnclaveChange(s, InitEnclave(x), e, EnclaveInit(s, x).0)
  {
    hide Inv, RegionOf, CheckMetadata, Marked;
    LoadExactly(s, x);
  }

  lemma DeletedEnclaves(s: State, x: address, e: address)
    requires Inv(s) && Tracked(s) && FitsInRegions(s)
    ensures var t := EnclaveDelete(s, x).0;
            && (e in t.enclaves ==> e in s.enclaves && t.enclaves[e] == s.enclaves[e])
            && (e in s.enclaves && e !in t.enclaves ==>
                  x in s.enclaves && s.enclaves[x].threads <= 0 && RegionOf(x) == RegionOf(e))
  {
    hide Inv, RegionOf, PageOf, Marked, Mark, CheckMetadata;
    CheckedIsLive(s, x, EnclavePage);
  }

  /** A thread is loaded into an enclave that is being loaded, keeps its owner, and ends by its own deletion or with a
      deletion in its metadata region. */
  lemma ThreadLife(s: State, call: Call, x: address)
    requires Inv(s) && Defined(s, call)
    ensures var t := Next(s, call).0;
            && (x !in s.threads && x in t.threads ==>
                  && call.LoadThread? && call.thread == x && t.threads[x].owner == call.enclave
                  && call.enclave in s.enclaves && s.enclaves[call.enclave].init == DataLoaded)
            && (x in s.threads && x !in t.threads ==>
                  || call == DeleteThread(x)
                  || (call.DeleteEnclave? && call.enclave in s.enclaves && RegionOf(call.enclave) == RegionOf(x)))
            && (x in s.threads && x in t.threads ==> t.threads[x].owner == s.threads[x].owner)
  {
    hide Inv, RegionOf, PageOf, Aligned, Marked, Mark, CheckMetadata, CheckFree, SetFlag, Bitmap, UpToDate;
    hide Reaches, Reused, SomeCaller, FreePages, OnlyPages, EnclavePages, ThreadPages;
    Parts(s);
    match call
    case Grant(k, q, owner) => AssignExactly(s, k, q, owner);
    case Withdraw(k, q) => BlockExactly(s, k, q);
    case DeleteEnclave(y) => DeletedThreads(s, y, x);
    case LoadThread(d, y) => ThreadLoadExactly(s, d, y);
    case DeleteThread(y) => ThreadDeletes(s, y, false);
    case EnterEnclave(k, d, y) => EnterExactly(s, k, d, y, false);
    case _ =>
  }

  lemma DeletedThreads(s: State, x: address, y: address)
    requires Inv(s) && Tracked(s) && FitsInRegions(s)
    ensures var t := EnclaveDelete(s, x).0;
            && (y in t.threads ==> y in s.threads && t.threads[y] == s.threads[y])
            && (y in s.threads && y !in t.threads ==> x in s.enclaves && RegionOf(x) == RegionOf(y))
  {
    hide Inv, RegionOf, PageOf, Marked, Mark, CheckMetadata;
    CheckedIsLive(s, x, EnclavePage);
  }

  /** The threads of an initialized enclave in t are threads that it has in s. */
  ghost predicate SealedSince(s: State, t: State, e: address) {
    && e in t.enclaves && t.enclaves[e].init == Initialized
    && forall x :: x in t.threads && t.threads[x].owner == e ==> x in s.threads && s.threads[x].owner == e
  }

  lemma SealedStep(s: State, call: Call, e: address)
    requires Inv(s) && Defined(s, call) && !call.DeleteEnclave?
    requires e in s.enclaves && s.enclaves[e].init == Initialized
    ensures SealedSince(s, Next(s, call).0, e)
  {
    hide Inv, Defined, Next, RegionOf;
    EnclaveLife(s, call, e);
    forall x { ThreadLife(s, call, x); }
  }

  /** Once an enclave is initialized it is sealed: over every run without deletions of enclaves it stays initialized and
      gets no new thread. */
  lemma {:induction false} InitializedIsSealed(care: Care, s: State, calls: seq<Call>, t: State, e: address)
    requires care != Any && Inv(s) && Run(care, s, calls, t)
    requires e in s.enclaves && s.enclaves[e].init == Initialized && forall call <- calls :: !call.DeleteEnclave?
    ensures SealedSince(s, t, e)
    decreases |calls|
  {
    hide Inv, Defined, Next, Obeys;
    if calls != [] {
      NextInv(s, calls[0]) by { Weaker(care, s, calls[0]); }
      SealedStep(s, calls[0], e);
      InitializedIsSealed(care, Next(s, calls[0]).0, calls[1..], t, e);
    }
  }

  lemma Weaker(care: Care, s: State, call: Call)
    requires care != Any && Obeys(care, s, call)
    ensures Obeys(Tame, s, call)
  {}

  /** Every enclave that runs on a core is initialized. */
  ghost predicate Measured(s: State) {
    forall c :: 0 <= c < |s.cores| && s.cores[c].owner != UNTRUSTED && s.cores[c].owner in s.enclaves ==>
      s.enclaves[s.cores[c].owner].init == Initialized
  }

  lemma MeasuredStep(s: State, call: Call)
    requires Inv(s) && Balanced(s) && Attached(s) && Measured(s) && Defined(s, call) && Obeys(Careful, s, call)
    ensures Measured(Next(s, call).0)
  {
    hide Inv, Balanced, Defined, Next, Obeys, RegionOf;
    var t := Next(s, call).0;
    SameCores(s, call);
    forall c | 0 <= c < |t.cores| && t.cores[c].owner != UNTRUSTED && t.cores[c].owner in t.enclaves
      ensures t.enclaves[t.cores[c].owner].init == Initialized
    {
      CoreLife(s, call, c);
      EnclaveLife(s, call, t.cores[c].owner);
      assert AttachedCore(s, s.cores[c]);
    }
  }

  /** In every careful run only initialized enclaves run: those that have been measured and certified. */
  lemma {:induction false} MeasuredRun(s: State, calls: seq<Call>, t: State)
    requires Inv(s) && Balanced(s) && Attached(s) && Measured(s) && Run(Careful, s, calls, t)
    ensures Measured(t)
    decreases |calls|
  {
    hide Inv, Balanced, Attached, Measured, Defined, Next;
    if calls != [] {
      NextInv(s, calls[0]);
      NextBooks(s, calls[0]);
      MeasuredStep(s, calls[0]);
      MeasuredRun(Next(s, calls[0]).0, calls[1..], t);
    }
  }

  lemma OnlyInitializedRun(cores: nat, calls: seq<Call>, s: State, c: nat)
    requires Run(Careful, Boot(cores), calls, s) && c < |s.cores| && s.cores[c].owner != UNTRUSTED
    ensures s.cores[c].owner in s.enclaves && s.enclaves[s.cores[c].owner].init == Initialized
  {
    hide Run, Inv, Balanced;
    Reached(Careful, cores, calls, s);
    assert AttachedCore(s, s.cores[c]);
    BootInv(cores);
    BootBooks(cores);
    MeasuredRun(Boot(cores), calls, s);
  }
}
