/** What the monitor's books say when nothing has been deleted that is still in use: counts, owners and running
    threads. */
module MonitorBooks {
  import opened MonitorState
  import opened MonitorSpec
  import opened MonitorInv

  function ThreadsOf(s: State, e: address): set<address> {
    set x | x in s.threads && s.threads[x].owner == e
  }

  /** Every thread belongs to a live enclave. */
  ghost predicate Owners(s: State) {
    forall x :: x in s.threads ==> s.threads[x].owner in s.enclaves
  }

  /** Threads belong to live enclaves, which count them. */
  ghost predicate ThreadsInv(s: State) {
    Owners(s) && forall e :: e in s.enclaves ==> s.enclaves[e].threads == |ThreadsOf(s, e)|
  }

  /** Regions belong to the monitor, to untrusted software or to live enclaves, whose region maps have them. */
  ghost predicate OwnersInv(s: State) {
    && Shaped(s)
    && (forall r :: 0 <= r < NUM_REGIONS && s.regions[r].state == Owned ==>
          s.regions[r].owner == SM || Known(s, s.regions[r].owner))
    && (forall e, r :: e in s.enclaves && 0 <= r < NUM_REGIONS && OwnedBy(s, r, e) ==> s.enclaves[e].regions[r])
  }

  ghost predicate Balanced(s: State) { ThreadsInv(s) && OwnersInv(s) }

  /** What a core runs is live: untrusted software, or a thread of a live enclave. */
  predicate AttachedCore(s: State, core: Core) {
    && Known(s, core.owner)
    && (core.owner != UNTRUSTED ==> core.thread in s.threads && s.threads[core.thread].owner == core.owner)
  }

  ghost predicate Attached(s: State) {
    forall c :: 0 <= c < |s.cores| ==> AttachedCore(s, s.cores[c])
  }

  // Frames.

  lemma FrameThreads(s: State, t: State)
    requires ThreadsInv(s) && t.threads.Keys == s.threads.Keys && t.enclaves.Keys == s.enclaves.Keys
    requires forall x :: x in s.threads ==> t.threads[x].owner == s.threads[x].owner
    requires forall e :: e in s.enclaves ==> t.enclaves[e].threads == s.enclaves[e].threads
    ensures ThreadsInv(t)
  {
    forall x | x in t.threads ensures t.threads[x].owner in t.enclaves {
      assert x in s.threads;
    }
    forall e | e in t.enclaves ensures t.enclaves[e].threads == |ThreadsOf(t, e)| {
      assert e in s.enclaves && ThreadsOf(t, e) == ThreadsOf(s, e);
    }
  }

  lemma FrameOwners(s: State, t: State)
    requires OwnersInv(s) && Shaped(t) && t.regions == s.regions && t.enclaves.Keys == s.enclaves.Keys
    requires forall x :: x in s.enclaves ==> t.enclaves[x].regions == s.enclaves[x].regions
    ensures OwnersInv(t)
  {}

  lemma FrameBalanced(s: State, t: State)
    requires Balanced(s) && Shaped(t) && t.regions == s.regions
    requires t.threads.Keys == s.threads.Keys && t.enclaves.Keys == s.enclaves.Keys
    requires forall x :: x in s.threads ==> t.threads[x].owner == s.threads[x].owner
    requires forall e :: e in s.enclaves ==>
               t.enclaves[e].threads == s.enclaves[e].threads && t.enclaves[e].regions == s.enclaves[e].regions
    ensures Balanced(t)
  {
    hide ThreadsInv, OwnersInv;
    FrameThreads(s, t);
    FrameOwners(s, t);
  }

  /** Cores go on running what they ran, and no enclave or thread that they run is gone. */
  lemma FrameAttached(s: State, t: State)
    requires Attached(s) && |t.cores| == |s.cores| && s.enclaves.Keys <= t.enclaves.Keys
    requires forall c :: 0 <= c < |s.cores| ==>
               t.cores[c].owner == s.cores[c].owner && t.cores[c].thread == s.cores[c].thread
    requires forall x :: x in s.threads ==> x in t.threads && t.threads[x].owner == s.threads[x].owner
    ensures Attached(t)
  {
    forall c | 0 <= c < |t.cores| ensures AttachedCore(t, t.cores[c]) {
      assert AttachedCore(s, s.cores[c]);
    }
  }

  // Regions.

  lemma TransferOwners(s: State, r: nat, region: Region, owner: address, flag: bool)
    requires OwnersInv(s) && Transfers(s, r, region, owner, flag) && UNTRUSTED !in s.enclaves
    ensures OwnersInv(SetFlag(s.(regions := s.regions[r := region]), owner, r, flag))
  {}

  lemma TransferBalanced(s: State, r: nat, region: Region, owner: address, flag: bool)
    requires Inv(s) && Balanced(s) && Transfers(s, r, region, owner, flag)
    ensures Shaped(s) && Balanced(SetFlag(s.(regions := s.regions[r := region]), owner, r, flag))
  {
    hide PagesInv, RegionsInv, CoresInv, ScansInv, ThreadsInv, OwnersInv;
    NotMonitor(s) by { PagesPart(s); }
    Parts(s);
    TransferOwners(s, r, region, owner, flag);
    FrameThreads(s, SetFlag(s.(regions := s.regions[r := region]), owner, r, flag));
  }

  lemma ProtectBalanced(s: State, c: nat)
    requires Balanced(s) && Running(s, c)
    ensures Balanced(Protect(s, c))
  {
    hide Bitmap, ThreadsInv;
    FrameThreads(s, Protect(s, c));
  }

  lemma AssignBooks(s: State, c: nat, r: nat, owner: address)
    requires Inv(s) && Tracked(s) && Running(s, c)
    ensures Balanced(s) ==> Balanced(Assign(s, c, r, owner).0)
    ensures Attached(s) ==> Attached(Assign(s, c, r, owner).0)
  {
    hide Inv, Balanced, Attached, Protect, RegionOf, PageOf, Marked, Bitmap, CheckMetadata;
    if Assign(s, c, r, owner).1 == Ok {
      CheckedIsLive(s, owner, EnclavePage);
      var region := Region(owner, if owner == UNTRUSTED then UntrustedRegion else EnclaveRegion, Owned);
      var t := SetFlag(s.(regions := s.regions[r := region]), owner, r, true);
      if Balanced(s) {
        TransferBalanced(s, r, region, owner, true);
        ProtectBalanced(t, c);
      }
      if Attached(s) { ProtectAttached(s, t, c); }
    }
  }

  lemma ProtectAttached(s: State, t: State, c: nat)
    requires Attached(s) && Running(t, c) && t.cores == s.cores && t.enclaves.Keys == s.enclaves.Keys
             && t.threads == s.threads
    ensures Attached(Protect(t, c))
  {
    hide Attached, Bitmap;
    FrameAttached(s, Protect(t, c));
  }

  lemma BlockBooks(s: State, c: nat, r: nat)
    requires Inv(s) && Tracked(s) && c < |s.cores|
    ensures Balanced(s) ==> Balanced(Block(s, c, r).0)
    ensures Attached(s) ==> Attached(Block(s, c, r).0)
  {
    hide Inv, Balanced, Attached, Protect, RegionOf, PageOf, Marked, Bitmap, CheckMetadata;
    if Block(s, c, r).1 == Ok {
      var owner := s.cores[c].owner;
      if owner != UNTRUSTED { CheckedIsLive(s, owner, EnclavePage); }
      var region := Region(SM, s.regions[r].kind, Blocked);
      var t := SetFlag(s.(regions := s.regions[r := region]), owner, r, false);
      if Balanced(s) {
        TransferBalanced(s, r, region, owner, false);
        ProtectBalanced(t, c);
      }
      if Attached(s) { ProtectAttached(s, t, c); }
    }
  }

  /** A free region becomes the monitor's. */
  lemma MetadataBooks(s: State, r: nat)
    requires Inv(s) && Shaped(s)
    ensures Balanced(s) ==> Balanced(MetadataCreate(s, r).0)
    ensures Attached(s) ==> Attached(MetadataCreate(s, r).0)
  {
    hide PagesInv, CoresInv, ScansInv, ThreadsInv, Attached, FreshPages;
    NotMonitor(s) by { PagesPart(s); }
    var t := MetadataCreate(s, r).0;
    if Balanced(s) { FrameThreads(s, t); }
    if Attached(s) { FrameAttached(s, t); }
  }

  // Objects.

  /** A new enclave has no threads and no regions. */
  lemma CreateBooks(s: State, x: address, mailboxes: nat)
    requires Inv(s) && Shaped(s)
    ensures Balanced(s) ==> Balanced(EnclaveCreate(s, x, mailboxes).0)
    ensures Attached(s) ==> Attached(EnclaveCreate(s, x, mailboxes).0)
  {
    hide EnclavePages, Aligned, RegionOf, PageOf, Mark, PagesInv, RegionsInv, CoresInv, ScansInv, ThreadsInv, OwnersInv;
    hide Attached, CheckFree;
    var t := EnclaveCreate(s, x, mailboxes).0;
    if EnclaveCreate(s, x, mailboxes).1 == Ok {
      NotMonitor(t) by { PagesPart(s); EnclaveCreateKeepsPages(s, x, mailboxes); }
      assert x !in s.enclaves by { PagesPart(s); NotYet(s, x, EnclavePages(mailboxes)); }
      if Balanced(s) {
        EnclaveCreateKeeps(s, x, mailboxes);
        Parts(t);
        NewOwners(s, x, t);
        NewThreads(s, x, t);
      }
      if Attached(s) { FrameAttached(s, t); }
    }
  }

  lemma NewOwners(s: State, x: address, t: State)
    requires OwnersInv(s) && Shaped(t) && x !in s.enclaves && x != SM && x != UNTRUSTED && x in t.enclaves
    requires t.regions == s.regions && t.enclaves == s.enclaves[x := t.enclaves[x]]
    ensures OwnersInv(t)
  {
    forall r | 0 <= r < NUM_REGIONS ensures !OwnedBy(t, r, x) {}
  }

  lemma NewThreads(s: State, x: address, t: State)
    requires ThreadsInv(s) && x !in s.enclaves && x in t.enclaves && t.enclaves[x].threads == 0
    requires t.threads == s.threads && t.enclaves == s.enclaves[x := t.enclaves[x]]
    ensures ThreadsInv(t)
  {
    forall e | e in t.enclaves ensures t.enclaves[e].threads == |ThreadsOf(t, e)| {
      assert ThreadsOf(t, e) == ThreadsOf(s, e);
      if e == x { assert ThreadsOf(s, x) == {}; }
    }
  }

  lemma LoadBooks(s: State, e: address, x: address)
    requires Inv(s) && Tracked(s)
    ensures Balanced(s) ==> Balanced(ThreadLoad(s, e, x).0)
    ensures Attached(s) ==> Attached(ThreadLoad(s, e, x).0)
  {
    hide Inv, Attached, ThreadsInv, OwnersInv, RegionOf, PageOf, ThreadPages, Mark, Marked, CheckMetadata, CheckFree;
    var t := ThreadLoad(s, e, x).0;
    if ThreadLoad(s, e, x).1 == Ok {
      CheckedIsLive(s, e, EnclavePage);
      NotYetThread(s, x, ThreadPages());
      if Balanced(s) {
        ThreadLoadKeeps(s, e, x);
        Parts(t);
        LoadThreads(s, e, x, t);
        FrameOwners(s, t);
      }
      if Attached(s) { FrameAttached(s, t); }
    }
  }

  lemma NotYetThread(s: State, x: address, n: nat)
    requires n >= 1 && Tracked(s) && CheckFree(s, x, n) == Ok
    ensures x !in s.threads
  {
    hide RegionOf, PageOf, Aligned;
    assert !Marked(s, x, ThreadPage);
  }

  lemma LoadThreads(s: State, e: address, x: address, t: State)
    requires ThreadsInv(s) && e in s.enclaves && x !in s.threads && t.threads == s.threads[x := Thread(e, 0)]
    requires t.enclaves == s.enclaves[e := s.enclaves[e].(threads := s.enclaves[e].threads + 1)]
    ensures ThreadsInv(t)
  {
    hide ThreadsOf;
    assert x !in ThreadsOf(s, e) by { IsThreadOf(s, e, x); }
    forall d | d in t.enclaves ensures t.enclaves[d].threads == |ThreadsOf(t, d)| {
      ThreadAdded(s, e, x, t, d);
    }
  }

  lemma ThreadAdded(s: State, e: address, x: address, t: State, d: address)
    requires x !in s.threads && t.threads == s.threads[x := Thread(e, 0)]
    ensures ThreadsOf(t, d) == if d == e then ThreadsOf(s, e) + {x} else ThreadsOf(s, d)
  {
    forall y ensures y in ThreadsOf(t, d) <==> y in ThreadsOf(s, d) || (d == e && y == x) {}
  }

  lemma IsThreadOf(s: State, e: address, x: address)
    ensures x in ThreadsOf(s, e) <==> x in s.threads && s.threads[x].owner == e
  {}

  lemma UnloadThreads(s: State, x: address, t: State)
    requires ThreadsInv(s) && x in s.threads && t.threads == s.threads - {x}
    requires t.enclaves == Uncount(s.enclaves, s.threads[x].owner)
    ensures ThreadsInv(t)
  {
    hide ThreadsOf;
    var e := s.threads[x].owner;
    assert x in ThreadsOf(s, e) by { IsThreadOf(s, e, x); }
    forall d | d in t.enclaves ensures t.enclaves[d].threads == |ThreadsOf(t, d)| {
      ThreadRemoved(s, x, t, d);
    }
  }

  lemma ThreadRemoved(s: State, x: address, t: State, d: address)
    requires x in s.threads && t.threads == s.threads - {x}
    ensures ThreadsOf(t, d) == if d == s.threads[x].owner then ThreadsOf(s, d) - {x} else ThreadsOf(s, d)
  {
    forall y ensures y in ThreadsOf(t, d) <==> y in ThreadsOf(s, d) && y != x {}
  }

  lemma DeleteThreadBalanced(s: State, x: address, scheduled: bool)
    requires Inv(s) && Tracked(s) && FitsInRegions(s) && Balanced(s)
    ensures Balanced(ThreadDelete(s, x, scheduled).0)
  {
    hide Inv, ThreadsInv, OwnersInv, RegionOf, PageOf, ThreadPages, Mark, Marked, CheckMetadata;
    var t := ThreadDelete(s, x, scheduled).0;
    if ThreadDelete(s, x, scheduled).1 == Ok {
      CheckedIsLive(s, x, ThreadPage);
      UnloadThreads(s, x, t);
      FrameOwners(s, t);
    }
  }

  lemma HasThread(s: State, x: address)
    requires ThreadsInv(s) && x in s.threads
    ensures s.threads[x].owner in s.enclaves && s.enclaves[s.threads[x].owner].threads >= 1
  {
    assert x in ThreadsOf(s, s.threads[x].owner);
  }

  /** is_scheduled is never set, so thread_delete as written keeps all cores attached exactly when no core runs the
      thread. */
  lemma ThreadDeleteExactly(s: State, x: address)
    requires Inv(s) && Balanced(s) && Attached(s)
    ensures Tracked(s) && FitsInRegions(s)
    ensures Attached(ThreadDelete(s, x, false).0) <==> !RunsOn(s, x)
  {
    hide Inv, RegionOf, PageOf, ThreadPages, Mark, Marked, CheckMetadata, OwnersInv;
    ThreadDeleteSucceeds(s, x);
    var t := ThreadDelete(s, x, false).0;
    if RunsOn(s, x) {
      var c :| 0 <= c < |s.cores| && s.cores[c].owner != UNTRUSTED && s.cores[c].thread == x;
      assert AttachedCore(s, s.cores[c]);
      assert !AttachedCore(t, t.cores[c]);
    } else {
      forall c | 0 <= c < |t.cores| ensures AttachedCore(t, t.cores[c]) {
        assert AttachedCore(s, s.cores[c]);
      }
    }
  }

  // enclave_delete.

  /** An enclave without threads runs on no core. */
  lemma NoThreads(s: State, x: address)
    requires ThreadsInv(s) && Attached(s) && x in s.enclaves && s.enclaves[x].threads <= 0 && x != UNTRUSTED
    ensures forall y :: y in s.threads ==> s.threads[y].owner != x
    ensures forall c :: 0 <= c < |s.cores| ==> s.cores[c].owner != x
  {
    NoThreadsOf(s, x);
    forall c | 0 <= c < |s.cores| ensures s.cores[c].owner != x {
      assert AttachedCore(s, s.cores[c]);
    }
  }

  lemma NoThreadsOf(s: State, x: address)
    requires ThreadsInv(s) && x in s.enclaves && s.enclaves[x].threads <= 0
    ensures forall y :: y in s.threads ==> s.threads[y].owner != x
  {
    assert |ThreadsOf(s, x)| <= 0;
    forall y | y in s.threads ensures s.threads[y].owner != x {
      assert y in ThreadsOf(s, x) <==> s.threads[y].owner == x;
    }
  }

  /** The regions of a live enclave are not being scanned, so only its threads can keep it from being deleted. */
  lemma EnclaveDeleteSucceeds(s: State, x: address)
    requires Inv(s) && x in s.enclaves
    ensures Tracked(s) && FitsInRegions(s)
    ensures EnclaveDelete(s, x).1 == Ok <==> s.enclaves[x].threads <= 0
    ensures CheckDelete(s, x) == Ok <==> s.enclaves[x].threads <= 0
  {
    hide PagesInv, SavedInv, CoresInv, RegionOf, PageOf, Mark, Marked, CheckMetadata;
    Parts(s);
    CheckIsLive(s, x);
  }

  /** The wipe takes nothing else with it that the books count: x has one region, no other enclave in its metadata
      region has any, and every thread is on the same side of the border of that region as its enclave. */
  ghost predicate SparesBooks(s: State, x: address)
    requires x in s.enclaves
  {
    var r, flags := RegionOf(x), s.enclaves[x].regions;
    && (forall p, q :: 0 <= p < |flags| && 0 <= q < |flags| && flags[p] && flags[q] ==> p == q)
    && (forall y :: y in s.enclaves && y != x && RegionOf(y) == r ==> OwnsNothing(s.enclaves[y]))
    && (forall z :: z in s.threads ==> (RegionOf(z) == r <==> RegionOf(s.threads[z].owner) == r))
  }

  /** No core runs an enclave or a thread of that metadata region. */
  predicate SparesCores(s: State, x: address) {
    forall c :: 0 <= c < |s.cores| && s.cores[c].owner != UNTRUSTED ==>
      RegionOf(s.cores[c].owner) != RegionOf(x) && RegionOf(s.cores[c].thread) != RegionOf(x)
  }

  /** Without regions, enclave_delete as written is the documented one. */
  lemma DeleteAsIntended(s: State, x: address)
    requires Tracked(s) && FitsInRegions(s)
             && (CheckDelete(s, x) == Ok && x in s.enclaves ==> OwnsNothing(s.enclaves[x]))
    ensures EnclaveDelete(s, x) == EnclaveDeleteIntended(s, x)
  {
    hide RegionOf, PageOf, Mark, Marked, CheckMetadata, EnclavePages;
    if CheckDelete(s, x) == Ok {
      CheckedIsLive(s, x, EnclavePage);
      assert BlockAll(s.regions, s.enclaves[x].regions) == s.regions;
    }
  }

  /** The documented enclave_delete keeps everything, always. */
  lemma IntendedKeeps(s: State, x: address)
    requires Inv(s) && Balanced(s) && Attached(s)
    ensures Tracked(s) && FitsInRegions(s)
    ensures var t := EnclaveDeleteIntended(s, x).0; Inv(t) && Balanced(t) && Attached(t)
  {
    hide Inv, RegionOf, PageOf, Mark, Marked, BlockAll, CheckMetadata, ThreadsInv, OwnersInv, Attached, EnclavePages;
    Parts(s);
    if CheckDelete(s, x) == Ok {
      CheckedIsLive(s, x, EnclavePage);
      NotMonitor(s) by { PagesPart(s); }
      var t := EnclaveDeleteIntended(s, x).0;
      NoThreads(s, x);
      IntendedInv(s, x, t);
      IntendedOwners(s, x, t);
      IntendedThreads(s, x, t);
      IntendedAttached(s, x, t);
    }
  }

  /** t is s without x, its regions blocked. */
  ghost predicate Deleted(s: State, x: address, t: State) {
    && x in s.enclaves && Shaped(s) && Shaped(t)
    && t.regions == BlockAll(s.regions, s.enclaves[x].regions) && t.enclaves == s.enclaves - {x}
    && t.cores == s.cores && t.untrusted == s.untrusted && t.threads == s.threads && t.scans == s.scans
  }

  lemma IntendedInv(s: State, x: address, t: State)
    requires Inv(s) && Deleted(s, x, t) && RegionOf(x) < NUM_REGIONS && PageOf(x) + SizeOf(s, x) <= NUM_REGION_PAGES
    requires var r := RegionOf(x);
             t.pages == s.pages[r := Mark(s.pages[r], PageOf(x), SizeOf(s, x), FreePage, FreePage)]
    requires forall r :: 0 <= r < NUM_REGIONS && s.enclaves[x].regions[r] ==> r !in s.scans
    ensures Inv(t)
  {
    hide PagesInv, RegionsInv, CoresInv, ScansInv, EnclavePages, ThreadPages, Aligned, RegionOf, PageOf, Mark, BlockAll;
    PagesPart(s);
    IntendedPages(s, x, t);
    IntendedRest(s, x, t);
  }

  lemma IntendedPages(s: State, x: address, t: State)
    requires PagesInv(s) && RegionsInv(s) && Deleted(s, x, t)
    requires RegionOf(x) < NUM_REGIONS && PageOf(x) + SizeOf(s, x) <= NUM_REGION_PAGES
    requires var r := RegionOf(x);
             t.pages == s.pages[r := Mark(s.pages[r], PageOf(x), SizeOf(s, x), FreePage, FreePage)]
    ensures PagesInv(t)
  {
    hide EnclavePages, ThreadPages, Aligned, RegionOf, PageOf, Mark, Marked, Interior;
    OneKind(s, x);
    UnmarkedKeeps(s, x);
    NotMonitor(s);
    assert s.threads - {x} == s.threads;
    FramePages(Unmarked(s, x), t);
  }

  lemma IntendedRest(s: State, x: address, t: State)
    requires Inv(s) && Deleted(s, x, t)
    requires forall r :: 0 <= r < NUM_REGIONS && s.enclaves[x].regions[r] ==> r !in s.scans
    ensures RegionsInv(t) && CoresInv(t) && ScansInv(t)
  {
    hide PagesInv, Accessible, RegionOf, PageOf, Aligned;
    NotMonitor(s) by { PagesPart(s); }
    forall c | 0 <= c < |t.cores| ensures CoreInv(t, t.cores[c]) {
      assert CoreInv(s, s.cores[c]);
    }
  }

  lemma IntendedOwners(s: State, x: address, t: State)
    requires Inv(s) && OwnersInv(s) && Deleted(s, x, t)
    ensures OwnersInv(t)
  {
    hide PagesInv, CoresInv, ScansInv;
  }

  lemma IntendedThreads(s: State, x: address, t: State)
    requires ThreadsInv(s) && t.threads == s.threads && t.enclaves == s.enclaves - {x}
    requires forall y :: y in s.threads ==> s.threads[y].owner != x
    ensures ThreadsInv(t)
  {
    forall e | e in t.enclaves ensures t.enclaves[e].threads == |ThreadsOf(t, e)| {
      assert ThreadsOf(t, e) == ThreadsOf(s, e);
    }
  }

  lemma IntendedAttached(s: State, x: address, t: State)
    requires Attached(s) && t.cores == s.cores && t.threads == s.threads && t.enclaves == s.enclaves - {x}
    requires forall c :: 0 <= c < |s.cores| ==> s.cores[c].owner != x
    ensures Attached(t)
  {
    forall c | 0 <= c < |t.cores| ensures AttachedCore(t, t.cores[c]) {
      assert AttachedCore(s, s.cores[c]);
    }
  }

  /** enclave_delete as written keeps the books exactly when the enclave has no region, or the wipe spares them. */
  lemma EnclaveDeleteExactly(s: State, x: address)
    requires Inv(s) && Balanced(s) && x in s.enclaves && s.enclaves[x].threads <= 0
    ensures Tracked(s) && FitsInRegions(s) && EnclaveDelete(s, x).1 == Ok
    ensures Balanced(EnclaveDelete(s, x).0) <==> OwnsNothing(s.enclaves[x]) || SparesBooks(s, x)
  {
    hide Inv, RegionOf, PageOf, Mark, Marked, EnclavePages, ThreadsInv, OwnersInv, CheckDelete, Outside, SparesBooks;
    hide OwnsNothing;
    EnclaveDeleteSucceeds(s, x);
    NotMonitor(s) by { PagesPart(s); }
    Parts(s);
    var t := EnclaveDelete(s, x).0;
    NoThreadsOf(s, x);
    EnclaveDeleteKeeps(s, x);
    Parts(t);
    if OwnsNothing(s.enclaves[x]) {
      NothingOwned(s, x, t);
      IntendedThreads(s, x, t);
    } else {
      var q := FirstOf(s, x);
      if SparesBooks(s, x) {
        SparedOwners(s, x, q, t);
        SparedThreads(s, x, t);
      } else {
        NotSpared(s, x, q, t) by { PagesPart(s); }
      }
    }
  }

  lemma FirstOf(s: State, x: address) returns (q: nat)
    requires Shaped(s) && x in s.enclaves && !OwnsNothing(s.enclaves[x])
    ensures (exists p :: 0 <= p < |s.enclaves[x].regions| && s.enclaves[x].regions[p])
    ensures q == FirstRegion(s.enclaves[x].regions) && q < NUM_REGIONS && s.enclaves[x].regions[q]
  {
    q := FirstRegion(s.enclaves[x].regions);
  }

  lemma OwnedIsFlagged(s: State, e: address, r: nat)
    requires OwnersInv(s) && e in s.enclaves && r < NUM_REGIONS
    ensures |s.regions| == NUM_REGIONS == |s.enclaves[e].regions|
    ensures OwnedBy(s, r, e) ==> s.enclaves[e].regions[r]
  {}

  lemma NothingOwned(s: State, x: address, t: State)
    requires OwnersInv(s) && Shaped(t) && t.regions == s.regions && t.enclaves == s.enclaves - {x} && x in s.enclaves
    requires OwnsNothing(s.enclaves[x])
    ensures OwnersInv(t)
  {
    forall r | 0 <= r < NUM_REGIONS && t.regions[r].state == Owned ensures t.regions[r].owner != x {
      OwnedIsFlagged(s, x, r);
    }
  }

  /** The effect of the wipe on the records. */
  ghost predicate Swept(s: State, x: address, q: nat, t: State) {
    && Shaped(s) && x in s.enclaves && q < NUM_REGIONS && s.enclaves[x].regions[q]
    && t.regions == s.regions[q := Region(SM, s.regions[q].kind, Blocked)]
    && t.enclaves == Outside(s.enclaves, RegionOf(x)) && t.threads == Outside(s.threads, RegionOf(x))
  }

  lemma SparedOwners(s: State, x: address, q: nat, t: State)
    requires RegionsInv(s) && OwnersInv(s) && Swept(s, x, q, t) && SparesBooks(s, x) && Shaped(t)
    ensures OwnersInv(t)
  {
    hide RegionOf;
    forall r | 0 <= r < NUM_REGIONS && t.regions[r].state == Owned
      ensures t.regions[r].owner == SM || Known(t, t.regions[r].owner)
    {
      var o := s.regions[r].owner;
      assert r != q && OwnedBy(s, r, o);
      if o in s.enclaves { OwnedIsFlagged(s, o, r); }
    }
  }

  lemma SparedThreads(s: State, x: address, t: State)
    requires ThreadsInv(s) && x in s.enclaves && SparesBooks(s, x)
    requires t.enclaves == Outside(s.enclaves, RegionOf(x)) && t.threads == Outside(s.threads, RegionOf(x))
    ensures ThreadsInv(t)
  {
    hide RegionOf, OwnsNothing;
    forall e | e in t.enclaves ensures t.enclaves[e].threads == |ThreadsOf(t, e)| {
      assert e in s.enclaves;
      assert ThreadsOf(t, e) == ThreadsOf(s, e);
    }
  }

  lemma NotSpared(s: State, x: address, q: nat, t: State)
    requires PagesInv(s) && RegionsInv(s) && ThreadsInv(s) && Swept(s, x, q, t) && !SparesBooks(s, x)
    ensures !Balanced(t)
  {
    hide PagesInv, RegionOf, ThreadsOf, ThreadsInv, OwnersInv;
    NotMonitor(s);
    var r := RegionOf(x);
    var flags := s.enclaves[x].regions;
    if p, p' :| 0 <= p < |flags| && 0 <= p' < |flags| && flags[p] && flags[p'] && p != p' {
      Abandoned(s, x, q, if p == q then p' else p, x, t);
    } else if y :| y in s.enclaves && y != x && RegionOf(y) == r && !OwnsNothing(s.enclaves[y]) {
      var p :| 0 <= p < |s.enclaves[y].regions| && s.enclaves[y].regions[p];
      assert OwnedBy(s, p, y) && OwnedBy(s, q, x);
      Abandoned(s, x, q, p, y, t);
    } else {
      var z :| z in s.threads && !(RegionOf(z) == r <==> RegionOf(s.threads[z].owner) == r);
      Miscounted(s, x, z, t);
    }
  }

  /** A region that stays owned by an enclave that is gone. */
  lemma Abandoned(s: State, x: address, q: nat, p: nat, y: address, t: State)
    requires RegionsInv(s) && Swept(s, x, q, t) && p < NUM_REGIONS && p != q
    requires y in s.enclaves && RegionOf(y) == RegionOf(x) && s.enclaves[y].regions[p] && y != SM && y != UNTRUSTED
    ensures !OwnersInv(t)
  {
    hide RegionOf;
    assert OwnedBy(s, p, y) && y !in t.enclaves;
    assert t.regions[p].state == Owned && t.regions[p].owner == y;
  }

  /** A thread without its enclave, or an enclave that counts a thread that is gone. */
  lemma Miscounted(s: State, x: address, z: address, t: State)
    requires ThreadsInv(s) && x in s.enclaves && z in s.threads
    requires !(RegionOf(z) == RegionOf(x) <==> RegionOf(s.threads[z].owner) == RegionOf(x))
    requires t.enclaves == Outside(s.enclaves, RegionOf(x)) && t.threads == Outside(s.threads, RegionOf(x))
    ensures !ThreadsInv(t)
  {
    hide RegionOf;
    var e := s.threads[z].owner;
    if RegionOf(z) != RegionOf(x) {
      assert z in t.threads && e !in t.enclaves;
    } else {
      assert e in t.enclaves && z in ThreadsOf(s, e) && z !in ThreadsOf(t, e);
      assert ThreadsOf(t, e) <= ThreadsOf(s, e) - {z};
      SmallerSet(ThreadsOf(t, e), ThreadsOf(s, e) - {z});
    }
  }

  lemma {:induction false} SmallerSet(a: set<address>, b: set<address>)
    requires a <= b
    ensures |a| <= |b|
  {
    if a != {} {
      var x :| x in a;
      SmallerSet(a - {x}, b - {x});
    }
  }

  /** It keeps all cores attached exactly when the enclave has no region, or no core runs anything of what is wiped. */
  lemma EnclaveDeleteAttached(s: State, x: address)
    requires Inv(s) && Balanced(s) && Attached(s) && x in s.enclaves && s.enclaves[x].threads <= 0
    ensures Tracked(s) && FitsInRegions(s) && EnclaveDelete(s, x).1 == Ok
    ensures Attached(EnclaveDelete(s, x).0) <==> OwnsNothing(s.enclaves[x]) || SparesCores(s, x)
  {
    hide Inv, RegionOf, PageOf, Mark, Marked, EnclavePages, ThreadsInv, OwnersInv, CheckDelete, Outside, OwnsNothing;
    hide Attached, SparesCores;
    EnclaveDeleteSucceeds(s, x);
    NotMonitor(s) by { PagesPart(s); }
    Parts(s);
    var t := EnclaveDelete(s, x).0;
    NoThreads(s, x);
    if OwnsNothing(s.enclaves[x]) { IntendedAttached(s, x, t); } else { SweptAttached(s, x, t); }
  }

  lemma SweptAttached(s: State, x: address, t: State)
    requires Attached(s) && t.cores == s.cores
    requires t.enclaves == Outside(s.enclaves, RegionOf(x)) && t.threads == Outside(s.threads, RegionOf(x))
    ensures Attached(t) <==> SparesCores(s, x)
  {
    hide RegionOf;
    if SparesCores(s, x) {
      forall c | 0 <= c < |t.cores| ensures AttachedCore(t, t.cores[c]) {
        assert AttachedCore(s, s.cores[c]);
      }
    } else {
      var c :| 0 <= c < |s.cores| && s.cores[c].owner != UNTRUSTED &&
               !(RegionOf(s.cores[c].owner) != RegionOf(x) && RegionOf(s.cores[c].thread) != RegionOf(x));
      assert !AttachedCore(t, t.cores[c]);
    }
  }

  /** What follows when the thread on a core is deleted: the call succeeds, the core goes on as it was, and its enclave
      can be deleted under it exactly when this was its last thread. */
  lemma RunningThreadDeleted(s: State, c: nat)
    requires Inv(s) && Balanced(s) && Attached(s) && c < |s.cores| && s.cores[c].owner != UNTRUSTED
    ensures Tracked(s) && FitsInRegions(s)
    ensures var (t, result) := ThreadDelete(s, s.cores[c].thread, false);
            && result == Ok && t.cores == s.cores && s.cores[c].owner in s.enclaves && s.cores[c].thread !in t.threads
            && Tracked(t) && FitsInRegions(t)
            && var (u, last) := EnclaveDelete(t, s.cores[c].owner);
               && (last == Ok <==> s.enclaves[s.cores[c].owner].threads == 1)
               && (last == Ok ==> u.cores == s.cores && u.cores[c].owner !in u.enclaves)
  {
    hide Inv, RegionOf, PageOf, ThreadPages, EnclavePages, Mark, Marked, CheckMetadata, Tracked, ThreadsInv, OwnersInv;
    hide CheckDelete, OwnsNothing;
    var x, e := s.cores[c].thread, s.cores[c].owner;
    assert AttachedCore(s, s.cores[c]);
    ThreadDeleteSucceeds(s, x);
    ThreadDeleteKeeps(s, x, false);
    HasThread(s, x);
    var t := ThreadDelete(s, x, false).0;
    EnclaveDeleteSucceeds(t, e);
  }

  // Entry and exit.

  lemma EnterBooks(s: State, c: nat, e: address, x: address, scheduled: bool)
    requires Inv(s) && Tracked(s) && c < |s.cores|
    ensures Balanced(s) ==> Balanced(Enter(s, c, e, x, scheduled).0)
    ensures Attached(s) ==> Attached(Enter(s, c, e, x, scheduled).0)
  {
    hide Inv, Bitmap, CheckMetadata, Marked, ThreadsInv, OwnersInv;
    var t := Enter(s, c, e, x, scheduled).0;
    if Enter(s, c, e, x, scheduled).1 == Ok {
      CheckedIsLive(s, e, EnclavePage);
      CheckedIsLive(s, x, ThreadPage);
      if Balanced(s) { FrameBalanced(s, t); }
      if Attached(s) {
        forall k | 0 <= k < |t.cores| ensures AttachedCore(t, t.cores[k]) {
          assert AttachedCore(s, s.cores[k]);
        }
      }
    }
  }

  lemma ExitBooks(s: State, c: nat, bitmap: nat)
    requires c < |s.cores|
    ensures Balanced(s) ==> Balanced(StrayExit(s, c, bitmap).0)
    ensures Attached(s) ==> Attached(StrayExit(s, c, bitmap).0)
  {
    hide RegionOf, ThreadsInv, OwnersInv;
    var t := StrayExit(s, c, bitmap).0;
    if Balanced(s) {
      FrameThreads(s, t);
      assert OwnersInv(s) ==> Shaped(s) by { ShapedPart(s); }
      FrameOwners(s, t);
    }
    if Attached(s) {
      forall k | 0 <= k < |t.cores| ensures AttachedCore(t, t.cores[k]) {
        assert AttachedCore(s, s.cores[k]);
      }
    }
  }

  lemma ShapedPart(s: State)
    ensures OwnersInv(s) ==> Shaped(s)
  {}
}
