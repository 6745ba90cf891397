/** When each monitor call succeeds and what it then does, in terms of live objects and owners; otherwise nothing
    changes. */
module MonitorCalls {
  import opened MonitorState
  import opened MonitorSpec
  import opened MonitorInv

  /** n free pages from x on, inside one metadata region. */
  ghost predicate FreePages(s: State, x: address, n: nat)
    requires Shaped(s)
  {
    && Aligned(x) && RegionOf(x) < NUM_REGIONS && PageOf(x) + n <= NUM_REGION_PAGES && IsMetadata(s, RegionOf(x))
    && forall i :: PageOf(x) <= i < PageOf(x) + n ==> s.pages[RegionOf(x)][i] == FreePage
  }

  /** The bitmap gives access to exactly the flagged regions. */
  ghost predicate Grants(bitmap: nat, flags: seq<bool>) {
    forall r: nat :: Accessible(bitmap, r) <==> r < |flags| && flags[r]
  }

  lemma BitmapGrants(flags: seq<bool>)
    ensures Grants(Bitmap(flags), flags)
  {
    hide Bitmap, Accessible;
    forall r: nat ensures Accessible(Bitmap(flags), r) <==> r < |flags| && flags[r] {
      BitmapBit(flags, r);
    }
  }

  /** Core c reaches exactly what untrusted software owns through mmrbm, and what its enclave owns through memrbm. */
  ghost predicate UpToDate(s: State, c: nat)
    requires Running(s, c)
  {
    && Grants(s.cores[c].mmrbm, s.untrusted)
    && Grants(s.cores[c].memrbm, if s.cores[c].owner == UNTRUSTED then [] else s.enclaves[s.cores[c].owner].regions)
  }

  lemma ProtectedIsUpToDate(s: State, c: nat)
    requires Running(s, c)
    ensures Running(Protect(s, c), c) && UpToDate(Protect(s, c), c)
  {
    hide Grants, Bitmap;
    BitmapGrants(s.untrusted);
    if s.cores[c].owner == UNTRUSTED { NothingGranted(); } else { BitmapGrants(s.enclaves[s.cores[c].owner].regions); }
  }

  lemma NothingGranted()
    ensures Grants(0, [])
  {
    hide Accessible;
    forall r: nat ensures !Accessible(0, r) { NothingAccessible(r); }
  }

  /** Region r has changed to this, and no other region. */
  predicate OnlyRegion(s: State, t: State, r: nat, region: Region) {
    r < |s.regions| && t.regions == s.regions[r := region]
  }

  /** Of the cores, only c has changed, and only its bitmaps. */
  predicate OnlyBitmaps(s: State, t: State, c: nat) {
    && c < |s.cores| == |t.cores|
    && t.cores == s.cores[c := s.cores[c].(mmrbm := t.cores[c].mmrbm, memrbm := t.cores[c].memrbm)]
  }

  /** In the region maps only the flag of r in that of owner has changed, to this. */
  predicate OnlyFlag(s: State, t: State, owner: address, r: nat, flag: bool) {
    && r < |s.untrusted|
    && t.untrusted == (if owner == UNTRUSTED then s.untrusted[r := flag] else s.untrusted)
    && if owner == UNTRUSTED then t.enclaves == s.enclaves
       else && owner in s.enclaves && r < |s.enclaves[owner].regions|
            && t.enclaves == s.enclaves[owner :=
                 s.enclaves[owner].(regions := s.enclaves[owner].regions[r := flag])]
  }

  /** Pages, threads and scans are as before. */
  predicate SameObjects(s: State, t: State) { t.pages == s.pages && t.threads == s.threads && t.scans == s.scans }

  /** The kind of a region with this owner. */
  function KindFor(owner: address): RegionKind { if owner == UNTRUSTED then UntrustedRegion else EnclaveRegion }

  /** region_assign gives a free region to untrusted software or to a live enclave. */
  lemma AssignExactly(s: State, c: nat, r: nat, owner: address)
    requires Inv(s) && Running(s, c)
    ensures Tracked(s)
    ensures var (t, result) := Assign(s, c, r, owner);
            && (result == Ok <==> r < NUM_REGIONS && s.regions[r].state == Free && Known(s, owner))
            && (r >= NUM_REGIONS ==> result == InvalidValue) && (r in s.scans ==> result == ConcurrentCall)
            && (r < NUM_REGIONS && s.regions[r].state != Free && r !in s.scans ==> result == InvalidState)
            && (result != Ok ==> t == s)
            && (result == Ok ==>
                  && OnlyRegion(s, t, r, Region(owner, KindFor(owner), Owned))
                  && OnlyFlag(s, t, owner, r, true) && SameObjects(s, t) && OnlyBitmaps(s, t, c)
                  && Running(t, c) && UpToDate(t, c))
  {
    hide Inv, RegionOf, PageOf, Aligned, Marked, CheckMetadata, UpToDate, Bitmap;
    Parts(s);
    CheckIsLive(s, owner);
    ScannedIsBlocked(s, r);
    if Assign(s, c, r, owner).1 == Ok {
      var kind := if owner == UNTRUSTED then UntrustedRegion else EnclaveRegion;
      var u := SetFlag(s.(regions := s.regions[r := Region(owner, kind, Owned)]), owner, r, true);
      ProtectedIsUpToDate(u, c);
    }
  }

  lemma ScannedIsBlocked(s: State, r: nat)
    requires Inv(s)
    ensures r in s.scans ==> r < |s.regions| && s.regions[r].state == Blocked
  {
    hide PagesInv, RegionsInv, CoresInv;
  }

  /** region_block takes away an owned region of the caller. */
  lemma BlockExactly(s: State, c: nat, r: nat)
    requires Inv(s) && c < |s.cores|
    ensures Tracked(s)
    ensures var (t, result) := Block(s, c, r);
            var caller := s.cores[c].owner;
            && (result == Ok <==>
                  r < NUM_REGIONS && OwnedBy(s, r, caller) && s.regions[r].kind != SmRegion && Known(s, caller))
            && (r >= NUM_REGIONS ==> result == InvalidValue) && (r in s.scans ==> result == ConcurrentCall)
            && (r < NUM_REGIONS && s.regions[r].state != Owned && r !in s.scans ==> result == InvalidState)
            && (r < NUM_REGIONS && s.regions[r].state == Owned && s.regions[r].owner != caller ==>
                  result == AccessDenied)
            && (result != Ok ==> t == s)
            && (result == Ok ==>
                  && OnlyRegion(s, t, r, Region(SM, s.regions[r].kind, Blocked))
                  && OnlyFlag(s, t, caller, r, false) && SameObjects(s, t) && OnlyBitmaps(s, t, c)
                  && Running(t, c) && UpToDate(t, c) && !Reaches(t.cores[c], r))
  {
    hide Inv, RegionOf, PageOf, Aligned, Marked, CheckMetadata, UpToDate, Bitmap, Reaches;
    Parts(s);
    var caller := s.cores[c].owner;
    CheckIsLive(s, caller);
    ScannedIsBlocked(s, r);
    if Block(s, c, r).1 == Ok {
      var u := SetFlag(s.(regions := s.regions[r := Region(SM, s.regions[r].kind, Blocked)]), caller, r, false);
      ProtectedIsUpToDate(u, c);
      Unreached(s, c, r, Block(s, c, r).0);
    }
  }

  /** What is in neither map is out of reach. */
  lemma Unreached(s: State, c: nat, r: nat, t: State)
    requires RegionsInv(s) && c < |s.cores| && r < NUM_REGIONS && OwnedBy(s, r, s.cores[c].owner)
    requires OnlyFlag(s, t, s.cores[c].owner, r, false) && OnlyBitmaps(s, t, c) && Running(t, c) && UpToDate(t, c)
    ensures !Reaches(t.cores[c], r)
  {
    hide Accessible;
  }

  /** region_metadata_create turns a free region into a metadata region of the monitor. */
  lemma MetadataCreateExactly(s: State, r: nat)
    requires Inv(s)
    ensures Shaped(s)
    ensures var (t, result) := MetadataCreate(s, r);
            && (result == Ok <==> r < NUM_REGIONS && s.regions[r].state == Free)
            && (result == InvalidValue <==> r >= NUM_REGIONS) && (result == ConcurrentCall <==> r in s.scans)
            && (result != Ok ==> t == s)
            && (result == Ok ==>
                  && OnlyRegion(s, t, r, Region(SM, MetadataRegion, Owned)) && |t.pages| == NUM_REGIONS
                  && t == s.(regions := t.regions, pages := s.pages[r := t.pages[r]])
                  && |t.pages[r]| == NUM_REGION_PAGES
                  && forall i :: 0 <= i < NUM_REGION_PAGES ==> (t.pages[r][i] == FreePage <==> i >= METADATA_START))
  {
    hide Inv;
    Parts(s);
    ScannedIsBlocked(s, r);
  }

  /** The pages of an object: its kind on the first one, all others unusable, and no other page changed. */
  ghost predicate OnlyPages(s: State, t: State, x: address, n: nat, first: PageKind, rest: PageKind) {
    && |s.pages| == |t.pages| == NUM_REGIONS && RegionOf(x) < NUM_REGIONS
    && t.pages == s.pages[RegionOf(x) := t.pages[RegionOf(x)]]
    && |s.pages[RegionOf(x)]| == |t.pages[RegionOf(x)]| == NUM_REGION_PAGES
    && forall i :: 0 <= i < NUM_REGION_PAGES ==>
         t.pages[RegionOf(x)][i] == if i == PageOf(x) then first
                                    else if PageOf(x) < i < PageOf(x) + n then rest else s.pages[RegionOf(x)][i]
  }

  /** enclave_create adds an empty enclave on free pages. */
  lemma EnclaveCreateExactly(s: State, x: address, mailboxes: nat)
    requires Inv(s)
    ensures Shaped(s)
    ensures var (t, result) := EnclaveCreate(s, x, mailboxes);
            && (result == Ok <==> FreePages(s, x, EnclavePages(mailboxes)))
            && (result != Ok ==> t == s)
            && (result == Ok ==>
                  && x !in s.enclaves && x !in s.threads && t == s.(pages := t.pages, enclaves := t.enclaves)
                  && t.enclaves == s.enclaves[x := Enclave(Created, mailboxes, 0, seq(NUM_REGIONS, _ => false))]
                  && OnlyPages(s, t, x, EnclavePages(mailboxes), EnclavePage, InvalidPage))
  {
    hide Inv, RegionOf, PageOf, Aligned, EnclavePages, FreePages, CheckFree;
    Parts(s);
    FreeIsFree(s, x, EnclavePages(mailboxes));
  }

  lemma FreeIsFree(s: State, x: address, n: nat)
    requires Inv(s) && n >= 1
    ensures Shaped(s) && (CheckFree(s, x, n) == Ok <==> FreePages(s, x, n))
    ensures CheckFree(s, x, n) == Ok ==>
              RegionOf(x) < NUM_REGIONS && PageOf(x) + n <= NUM_REGION_PAGES && x !in s.enclaves && x !in s.threads
  {
    hide CoresInv, RegionsInv, SavedInv, RegionOf, PageOf, Aligned;
    if FreePages(s, x, n) { assert s.pages[RegionOf(x)][PageOf(x)] == FreePage; }
    assert Marked(s, x, EnclavePage) <==> x in s.enclaves;
    assert Marked(s, x, ThreadPage) <==> x in s.threads;
  }

  /** thread_load adds a thread to an enclave that is being loaded. */
  lemma ThreadLoadExactly(s: State, e: address, x: address)
    requires Inv(s)
    ensures Tracked(s)
    ensures var (t, result) := ThreadLoad(s, e, x);
            && (result == Ok <==>
                  e in s.enclaves && s.enclaves[e].init == DataLoaded && FreePages(s, x, ThreadPages()))
            && (e in s.enclaves && s.enclaves[e].init != DataLoaded ==> result == InvalidState)
            && (result != Ok ==> t == s)
            && (result == Ok ==>
                  && x !in s.enclaves && x !in s.threads
                  && t == s.(pages := t.pages, threads := t.threads, enclaves := t.enclaves)
                  && t.threads == s.threads[x := Thread(e, 0)]
                  && t.enclaves == s.enclaves[e := s.enclaves[e].(threads := s.enclaves[e].threads + 1)]
                  && OnlyPages(s, t, x, ThreadPages(), ThreadPage, InvalidPage))
  {
    hide Inv, RegionOf, PageOf, Aligned, ThreadPages, FreePages, CheckFree, CheckMetadata, Marked;
    Parts(s);
    CheckIsLive(s, e);
    FreeIsFree(s, x, ThreadPages());
  }

  /** thread_delete removes a live thread whose enclave's region is not being scanned. */
  lemma ThreadDeletes(s: State, x: address, scheduled: bool)
    requires Inv(s)
    ensures Tracked(s) && FitsInRegions(s)
    ensures var (t, result) := ThreadDelete(s, x, scheduled);
            && (result == Ok <==> x in s.threads && !scheduled && RegionOf(s.threads[x].owner) !in s.scans)
            && (x in s.threads && scheduled && RegionOf(s.threads[x].owner) !in s.scans ==> result == InvalidState)
            && (result != Ok ==> t == s)
            && (result == Ok ==>
                  && t == s.(pages := t.pages, threads := s.threads - {x}, enclaves := t.enclaves)
                  && t.enclaves.Keys == s.enclaves.Keys
                  && (forall e :: e in s.enclaves ==>
                        var n := if e == s.threads[x].owner then 1 else 0;
                        t.enclaves[e] == s.enclaves[e].(threads := s.enclaves[e].threads - n))
                  && OnlyPages(s, t, x, ThreadPages(), FreePage, FreePage))
  {
    hide Inv, RegionOf, PageOf, Aligned, ThreadPages, CheckMetadata, Marked;
    Parts(s);
    CheckIsLive(s, x);
    if x in s.threads { InRam(s, x); }
  }

  lemma InRam(s: State, x: address)
    requires Inv(s) && Live(s, x)
    ensures RegionOf(x) < NUM_REGIONS
  {
    hide CoresInv, RegionsInv, SavedInv, RegionOf, PageOf, Aligned;
    assert Marked(s, x, EnclavePage) <==> x in s.enclaves;
    assert Marked(s, x, ThreadPage) <==> x in s.threads;
  }

  /** The loading calls succeed for a live enclave that is not initialized, enclave_init for one that is loaded. */
  lemma LoadExactly(s: State, x: address)
    requires Inv(s)
    ensures Tracked(s)
    ensures EnclaveLoad(s, x).1 == Ok <==> x in s.enclaves && s.enclaves[x].init != Initialized
    ensures EnclaveInit(s, x).1 == Ok <==> x in s.enclaves && s.enclaves[x].init == DataLoaded
  {
    hide Inv, RegionOf, PageOf, Aligned, CheckMetadata, Marked;
    Parts(s);
    CheckIsLive(s, x);
  }

  /** enclave_enter starts a thread of an initialized enclave. */
  lemma EnterExactly(s: State, c: nat, e: address, x: address, scheduled: bool)
    requires Inv(s) && c < |s.cores|
    ensures Tracked(s)
    ensures var (t, result) := Enter(s, c, e, x, scheduled);
            && (result == Ok <==> e in s.enclaves && s.enclaves[e].init == Initialized
                                  && x in s.threads && s.threads[x].owner == e && !scheduled)
            && (e in s.enclaves && s.enclaves[e].init != Initialized ==> result == InvalidState)
            && (e in s.enclaves && x in s.threads && s.threads[x].owner != e ==> result == InvalidState)
            && (result != Ok ==> t == s)
            && (result == Ok ==>
                  && t == s.(cores := t.cores, threads := t.threads) && |t.cores| == |s.cores|
                  && t.cores == s.cores[c := Core(e, x, s.cores[c].mmrbm, t.cores[c].memrbm)]
                  && Grants(t.cores[c].memrbm, s.enclaves[e].regions)
                  && t.threads == s.threads[x := Thread(e, s.cores[c].memrbm)])
  {
    hide Inv, RegionOf, PageOf, Aligned, CheckMetadata, Marked, Bitmap, Grants;
    Parts(s);
    CheckIsLive(s, e);
    CheckIsLive(s, x);
    if e in s.enclaves { BitmapGrants(s.enclaves[e].regions); }
  }

  /** enclave_exit gives the core back to untrusted software, with what the thread has saved. */
  lemma ExitExactly(s: State, c: nat)
    requires Inv(s) && c < |s.cores| && s.cores[c].thread in s.threads
    ensures Exit(s, c).1 == Ok
    ensures Exit(s, c).0 == s.(cores := s.cores[c := Core(UNTRUSTED, 0, s.cores[c].mmrbm, 0)])
  {
    hide PagesInv, RegionsInv, CoresInv, ScansInv, RegionOf;
    CheckIsLive(s, s.cores[c].thread);
  }
}
