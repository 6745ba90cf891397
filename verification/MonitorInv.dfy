/** What every monitor call keeps: who can access what, metadata pages and scans. */
module MonitorInv {
  import opened MonitorState
  import opened MonitorSpec

  /** The pages of x after the first are marked invalid. */
  predicate Interior(s: State, x: address, n: nat)
    requires RegionOf(x) < |s.pages| && PageOf(x) + n <= |s.pages[RegionOf(x)]|
  {
    forall i :: PageOf(x) < i < PageOf(x) + n ==> s.pages[RegionOf(x)][i] == InvalidPage
  }

  /** Live objects lie in metadata regions, inside one region each, above the reserved pages. */
  ghost predicate PagesInv(s: State) {
    && Tracked(s) && FitsInRegions(s)
    && (forall x :: x in s.enclaves ==>
          Marked(s, x, EnclavePage) && Interior(s, x, EnclavePages(s.enclaves[x].mailboxes)))
    && (forall x :: x in s.threads ==> Marked(s, x, ThreadPage) && Interior(s, x, ThreadPages()))
    && (forall r, i :: 0 <= r < NUM_REGIONS && IsMetadata(s, r) && 0 <= i < METADATA_START ==>
          s.pages[r][i] == InvalidPage)
  }

  predicate OwnedBy(s: State, r: nat, owner: address)
    requires r < |s.regions|
  {
    s.regions[r].state == Owned && s.regions[r].owner == owner
  }

  /** The region maps claim only what is owned, that of untrusted software all of it, and metadata regions belong to the
      monitor. */
  ghost predicate RegionsInv(s: State) {
    && Shaped(s)
    && (forall r :: 0 <= r < NUM_REGIONS ==> (s.untrusted[r] <==> OwnedBy(s, r, UNTRUSTED)))
    && (forall e, r :: e in s.enclaves && 0 <= r < NUM_REGIONS && s.enclaves[e].regions[r] ==> OwnedBy(s, r, e))
    && (forall r :: 0 <= r < NUM_REGIONS && IsMetadata(s, r) ==> s.regions[r].owner == SM)
  }

  /** What threads have saved gives access to nothing. */
  ghost predicate SavedInv(s: State) { forall x :: x in s.threads ==> s.threads[x].saved == 0 }

  /** A core can reach with this bitmap only what its owner owns, and what is blocked. */
  predicate Confined(s: State, bitmap: nat, owner: address)
    requires |s.regions| == NUM_REGIONS
  {
    forall r :: 0 <= r < NUM_REGIONS && Accessible(bitmap, r) ==> OwnedBy(s, r, owner) || s.regions[r].state == Blocked
  }

  ghost predicate CoreInv(s: State, core: Core)
    requires |s.regions| == NUM_REGIONS
  {
    && core.owner != SM
    && Confined(s, core.mmrbm, UNTRUSTED)
    && Confined(s, core.memrbm, core.owner)
    && (core.owner == UNTRUSTED ==> core.memrbm == 0)
  }

  ghost predicate CoresInv(s: State) {
    Shaped(s) && forall c :: 0 <= c < |s.cores| ==> CoreInv(s, s.cores[c])
  }

  predicate Reaches(core: Core, r: nat) { Accessible(core.mmrbm, r) || Accessible(core.memrbm, r) }

  /** A region being scanned is blocked, and no core scanned so far can reach it. */
  ghost predicate ScansInv(s: State) {
    && Shaped(s)
    && (forall r :: r in s.scans ==> r < NUM_REGIONS && s.regions[r].state == Blocked && s.scans[r] <= |s.cores|)
    && (forall r, c :: r in s.scans && 0 <= c < s.scans[r] ==> !Reaches(s.cores[c], r))
  }

  ghost predicate Inv(s: State) {
    PagesInv(s) && RegionsInv(s) && SavedInv(s) && CoresInv(s) && ScansInv(s)
  }

  lemma Whole(t: State)
    requires PagesInv(t) && RegionsInv(t) && SavedInv(t) && CoresInv(t) && ScansInv(t)
    ensures Inv(t)
  {}

  lemma Parts(s: State)
    requires Inv(s)
    ensures Tracked(s) && FitsInRegions(s) && RegionsInv(s) && SavedInv(s)
  {}

  lemma PagesPart(s: State)
    requires Inv(s)
    ensures PagesInv(s)
  {}

  lemma BitmapConfined(s: State, flags: seq<bool>, owner: address)
    requires |s.regions| == NUM_REGIONS && |flags| == NUM_REGIONS
    requires forall r :: 0 <= r < NUM_REGIONS && flags[r] ==> OwnedBy(s, r, owner)
    ensures Confined(s, Bitmap(flags), owner)
  {
    hide Bitmap, Accessible;
    forall r | 0 <= r < NUM_REGIONS && Accessible(Bitmap(flags), r) ensures OwnedBy(s, r, owner) {
      BitmapBit(flags, r);
    }
  }

  lemma ZeroConfined(s: State, owner: address)
    requires |s.regions| == NUM_REGIONS
    ensures Confined(s, 0, owner)
  {
    hide Accessible;
    forall r | 0 <= r < NUM_REGIONS ensures !Accessible(0, r) {
      NothingAccessible(r);
    }
  }

  /** Recomputing the bitmaps of a core gives it what its owner owns and no more. */
  lemma ProtectKeeps(s: State, c: nat)
    requires Inv(s) && Running(s, c)
    ensures Inv(Protect(s, c))
  {
    hide Bitmap, Accessible, RegionOf, PageOf, Aligned;
    var t := Protect(s, c);
    assert PagesInv(t) by { FramePages(s, t); }
    BitmapConfined(s, s.untrusted, UNTRUSTED);
    var owner := s.cores[c].owner;
    if owner == UNTRUSTED { ZeroConfined(s, owner); } else { BitmapConfined(s, s.enclaves[owner].regions, owner); }
    forall r, k | r in t.scans && 0 <= k < t.scans[r] ensures !Reaches(t.cores[k], r) {
      BitmapBit(s.untrusted, r);
      if owner != UNTRUSTED { BitmapBit(s.enclaves[owner].regions, r); }
      NothingAccessible(r);
    }
  }

  /** The same pages, and the same objects of the same sizes. */
  lemma FramePages(s: State, t: State)
    requires PagesInv(s) && Shaped(t) && t.pages == s.pages && t.threads.Keys == s.threads.Keys
    requires t.enclaves.Keys == s.enclaves.Keys
    requires forall x :: x in s.enclaves ==> t.enclaves[x].mailboxes == s.enclaves[x].mailboxes
    requires forall r :: 0 <= r < NUM_REGIONS ==> (IsMetadata(t, r) <==> IsMetadata(s, r))
    ensures PagesInv(t)
  {
    hide RegionOf, PageOf, Aligned, EnclavePages, ThreadPages, IsMetadata;
    forall x, kind ensures Marked(t, x, kind) <==> Marked(s, x, kind) {}
    forall x | x in t.enclaves ensures x in s.enclaves {}
    forall x | x in t.threads ensures x in s.threads {}
  }

  lemma NotMonitor(s: State)
    requires PagesInv(s)
    ensures SM !in s.enclaves && UNTRUSTED !in s.enclaves
  {
    hide RegionOf, PageOf;
    assert !Marked(s, SM, EnclavePage) && !Marked(s, UNTRUSTED, EnclavePage);
  }

  /** What becomes of region r when its owner gains it (flag) or loses it. */
  predicate Transfers(s: State, r: nat, region: Region, owner: address, flag: bool)
    requires |s.regions| == NUM_REGIONS
  {
    && r < NUM_REGIONS && Known(s, owner)
    && (flag ==>
          region.state == Owned && region.owner == owner && region.kind != MetadataRegion && s.regions[r].state == Free)
    && (!flag ==> region.state == Blocked && OwnedBy(s, r, owner))
  }

  lemma TransferRegions(s: State, r: nat, region: Region, owner: address, flag: bool)
    requires RegionsInv(s) && Transfers(s, r, region, owner, flag) && owner != SM && UNTRUSTED !in s.enclaves
    ensures RegionsInv(SetFlag(s.(regions := s.regions[r := region]), owner, r, flag))
  {}

  lemma TransferCores(s: State, r: nat, region: Region, owner: address, flag: bool)
    requires CoresInv(s) && Transfers(s, r, region, owner, flag)
    ensures CoresInv(SetFlag(s.(regions := s.regions[r := region]), owner, r, flag))
  {
    hide Accessible;
    var t := SetFlag(s.(regions := s.regions[r := region]), owner, r, flag);
    forall c | 0 <= c < |t.cores| ensures CoreInv(t, t.cores[c]) {
      var core := s.cores[c];
      assert CoreInv(s, core);
      forall q | 0 <= q < NUM_REGIONS && Accessible(core.mmrbm, q)
        ensures OwnedBy(t, q, UNTRUSTED) || t.regions[q].state == Blocked {
        assert OwnedBy(s, q, UNTRUSTED) || s.regions[q].state == Blocked;
      }
      forall q | 0 <= q < NUM_REGIONS && Accessible(core.memrbm, q)
        ensures OwnedBy(t, q, core.owner) || t.regions[q].state == Blocked {
        assert OwnedBy(s, q, core.owner) || s.regions[q].state == Blocked;
      }
    }
  }

  /** A region and the region map of its owner change together. */
  lemma TransferKeeps(s: State, r: nat, region: Region, owner: address, flag: bool)
    requires Inv(s) && Transfers(s, r, region, owner, flag) && r !in s.scans
    requires IsMetadata(s, r) <==> region.kind == MetadataRegion && region.state == Owned
    ensures Inv(SetFlag(s.(regions := s.regions[r := region]), owner, r, flag))
  {
    hide Accessible, PagesInv, CoresInv;
    NotMonitor(s) by { PagesPart(s); }
    var t := SetFlag(s.(regions := s.regions[r := region]), owner, r, flag);
    FramePages(s, t) by { PagesPart(s); }
    TransferRegions(s, r, region, owner, flag);
    TransferCores(s, r, region, owner, flag);
  }

  lemma AssignKeeps(s: State, c: nat, r: nat, owner: address)
    requires Inv(s) && Running(s, c)
    ensures Inv(Assign(s, c, r, owner).0)
  {
    hide Inv, Protect, Marked;
    Parts(s);
    if Assign(s, c, r, owner).1 == Ok {
      var region := Region(owner, if owner == UNTRUSTED then UntrustedRegion else EnclaveRegion, Owned);
      CheckedIsLive(s, owner, EnclavePage);
      TransferKeeps(s, r, region, owner, true);
      ProtectKeeps(SetFlag(s.(regions := s.regions[r := region]), owner, r, true), c);
    }
  }

  lemma CheckedIsLive(s: State, x: address, kind: PageKind)
    requires Tracked(s)
    ensures CheckMetadata(s, x, kind) == Ok ==> Marked(s, x, kind)
    ensures CheckMetadata(s, x, EnclavePage) == Ok ==> x in s.enclaves
    ensures CheckMetadata(s, x, ThreadPage) == Ok ==> x in s.threads
  {
    assert Marked(s, x, EnclavePage) <==> x in s.enclaves;
    assert Marked(s, x, ThreadPage) <==> x in s.threads;
  }

  lemma BlockKeeps(s: State, c: nat, r: nat)
    requires Inv(s) && c < |s.cores|
    ensures Inv(Block(s, c, r).0)
  {
    hide Inv, Protect, Marked;
    Parts(s);
    if Block(s, c, r).1 == Ok {
      var region := Region(SM, s.regions[r].kind, Blocked);
      var owner := s.cores[c].owner;
      if owner != UNTRUSTED { CheckedIsLive(s, owner, EnclavePage); }
      PagesPart(s);
      NotMonitor(s);
      TransferKeeps(s, r, region, owner, false);
      ProtectKeeps(SetFlag(s.(regions := s.regions[r := region]), owner, r, false), c);
    }
  }

  /** Only the cores and scans look at the regions of others: nothing changes for them. */
  lemma FrameCores(s: State, t: State)
    requires CoresInv(s) && Shaped(t) && t.cores == s.cores
    requires forall r, owner :: 0 <= r < NUM_REGIONS && OwnedBy(s, r, owner) ==> OwnedBy(t, r, owner)
    requires forall r :: 0 <= r < NUM_REGIONS && s.regions[r].state == Blocked ==> t.regions[r].state == Blocked
    ensures CoresInv(t)
  {
    hide Accessible;
    forall c | 0 <= c < |t.cores| ensures CoreInv(t, t.cores[c]) {
      assert CoreInv(s, s.cores[c]);
    }
  }

  lemma MetadataCreateKeeps(s: State, r: nat)
    requires Inv(s)
    ensures Inv(MetadataCreate(s, r).0)
  {
    hide Accessible, PagesInv, CoresInv, FreshPages;
    Parts(s);
    var t := MetadataCreate(s, r).0;
    if MetadataCreate(s, r).1 == Ok {
      PagesPart(s);
      NotMonitor(s);
      FreshKeepsPages(s, r);
      FrameCores(s, t);
    }
  }

  lemma FreshKeepsPages(s: State, r: nat)
    requires PagesInv(s) && MetadataCreate(s, r).1 == Ok
    ensures PagesInv(MetadataCreate(s, r).0)
  {
    hide EnclavePages, ThreadPages, Aligned, RegionOf, PageOf;
    var t := MetadataCreate(s, r).0;
    forall x, kind | kind == EnclavePage || kind == ThreadPage ensures Marked(t, x, kind) <==> Marked(s, x, kind) {}
  }

  /** Objects do not overlap: the first page of one is never a page of another. */
  lemma Disjoint(s: State, x: address, n: nat, y: address, m: nat)
    requires Shaped(s) && Aligned(x) && Aligned(y) && RegionOf(x) < NUM_REGIONS && RegionOf(y) == RegionOf(x) && x != y
    requires 1 <= n && 1 <= m && PageOf(x) + n <= NUM_REGION_PAGES && PageOf(y) + m <= NUM_REGION_PAGES
    requires s.pages[RegionOf(x)][PageOf(x)] != InvalidPage && s.pages[RegionOf(y)][PageOf(y)] != InvalidPage
    requires Interior(s, x, n) && Interior(s, y, m)
    ensures PageOf(x) + n <= PageOf(y) || PageOf(y) + m <= PageOf(x)
  {
    hide RegionOf, PageOf, Aligned;
    AddressIs(x);
    AddressIs(y);
  }

  /** Marking free pages as a new object disturbs no other object. */
  lemma MarkFresh(s: State, t: State, x: address, n: nat, kind: PageKind)
    requires n >= 1 && PagesInv(s) && CheckFree(s, x, n) == Ok && (kind == EnclavePage || kind == ThreadPage)
    requires Shaped(t) && t.regions == s.regions
    requires t.pages == s.pages[RegionOf(x) := Mark(s.pages[RegionOf(x)], PageOf(x), n, kind, InvalidPage)]
    ensures forall y, k | k == EnclavePage || k == ThreadPage ::
              Marked(t, y, k) <==> Marked(s, y, k) || (y == x && k == kind)
    ensures x !in s.enclaves && x !in s.threads
  {
    hide RegionOf, PageOf, Aligned, EnclavePages, ThreadPages;
    assert !Marked(s, x, EnclavePage) && !Marked(s, x, ThreadPage);
    forall y, k | k == EnclavePage || k == ThreadPage
      ensures Marked(t, y, k) <==> Marked(s, y, k) || (y == x && k == kind)
    {
      if Aligned(y) && RegionOf(y) == RegionOf(x) && PageOf(y) == PageOf(x) {
        AddressIs(x);
        AddressIs(y);
      }
    }
  }

  lemma EnclaveCreateKeepsPages(s: State, x: address, mailboxes: nat)
    requires PagesInv(s) && EnclaveCreate(s, x, mailboxes).1 == Ok
    ensures PagesInv(EnclaveCreate(s, x, mailboxes).0)
  {
    hide RegionOf, PageOf, Aligned, EnclavePages, ThreadPages, Interior;
    var t := EnclaveCreate(s, x, mailboxes).0;
    MarkFresh(s, t, x, EnclavePages(mailboxes), EnclavePage);
    MarkInterior(s, t, x, EnclavePages(mailboxes), EnclavePage);
  }

  lemma EnclaveCreateKeeps(s: State, x: address, mailboxes: nat)
    requires Inv(s)
    ensures Inv(EnclaveCreate(s, x, mailboxes).0)
  {
    hide Accessible, CoreInv, EnclavePages, Aligned, RegionOf, PageOf, Mark, Marked, Interior, PagesInv;
    var t := EnclaveCreate(s, x, mailboxes).0;
    if EnclaveCreate(s, x, mailboxes).1 == Ok {
      EnclaveCreateKeepsPages(s, x, mailboxes);
      FrameCores(s, t);
    }
  }

  lemma NotYet(s: State, x: address, n: nat)
    requires n >= 1 && PagesInv(s) && CheckFree(s, x, n) == Ok
    ensures x !in s.enclaves
  {
    hide RegionOf, PageOf, Aligned;
    assert !Marked(s, x, EnclavePage);
  }

  /** The number of pages of a live object. */
  function SizeOf(s: State, x: address): nat
    requires x in s.enclaves || x in s.threads
  {
    if x in s.enclaves then EnclavePages(s.enclaves[x].mailboxes) else ThreadPages()
  }

  predicate Live(s: State, x: address) { x in s.enclaves || x in s.threads }

  /** Live objects occupy disjoint page ranges above the reserved pages of their regions. */
  lemma ObjectsDisjoint(s: State, x: address, y: address)
    requires PagesInv(s) && Live(s, x) && Live(s, y)
    ensures METADATA_START <= PageOf(x) && PageOf(x) + SizeOf(s, x) <= NUM_REGION_PAGES
    ensures x != y && RegionOf(x) == RegionOf(y) ==>
              PageOf(x) + SizeOf(s, x) <= PageOf(y) || PageOf(y) + SizeOf(s, y) <= PageOf(x)
  {
    hide RegionOf, PageOf, Aligned, EnclavePages, ThreadPages, Interior;
    OneKind(s, x);
    OneKind(s, y);
    if x != y && RegionOf(x) == RegionOf(y) { Disjoint(s, x, SizeOf(s, x), y, SizeOf(s, y)); }
  }

  /** An object is an enclave or a thread, not both, and its pages are marked. */
  lemma OneKind(s: State, x: address)
    requires PagesInv(s) && Live(s, x)
    ensures x !in s.enclaves || x !in s.threads
    ensures Marked(s, x, if x in s.enclaves then EnclavePage else ThreadPage)
    ensures SizeOf(s, x) >= 1 && PageOf(x) + SizeOf(s, x) <= NUM_REGION_PAGES && Interior(s, x, SizeOf(s, x))
  {
    hide RegionOf, PageOf, Aligned, Interior;
  }

  /** Freeing the pages of an object disturbs no other object. */
  lemma MarkFree(s: State, t: State, x: address)
    requires PagesInv(s) && Live(s, x) && Shaped(t) && t.regions == s.regions
    requires t.pages == s.pages[RegionOf(x) := Mark(s.pages[RegionOf(x)], PageOf(x), SizeOf(s, x), FreePage, FreePage)]
    ensures forall y, k | k == EnclavePage || k == ThreadPage :: Marked(t, y, k) <==> Marked(s, y, k) && y != x
    ensures forall y | Live(s, y) && y != x :: Interior(t, y, SizeOf(s, y))
  {
    hide RegionOf, PageOf, Aligned, EnclavePages, ThreadPages;
    OneKind(s, x);
    forall y, k | k == EnclavePage || k == ThreadPage ensures Marked(t, y, k) <==> Marked(s, y, k) && y != x {
      if Marked(s, y, k) && y != x {
        assert Live(s, y);
        ObjectsDisjoint(s, x, y);
      }
    }
    forall y | Live(s, y) && y != x ensures Interior(t, y, SizeOf(s, y)) {
      OneKind(s, y);
      if RegionOf(y) == RegionOf(x) { ObjectsDisjoint(s, x, y); }
    }
  }

  /** The page map without the pages of x. */
  function Unmarked(s: State, x: address): State
    requires Shaped(s) && Live(s, x) && RegionOf(x) < NUM_REGIONS
    requires 1 <= SizeOf(s, x) && PageOf(x) + SizeOf(s, x) <= NUM_REGION_PAGES
  {
    var r := RegionOf(x);
    s.(pages := s.pages[r := Mark(s.pages[r], PageOf(x), SizeOf(s, x), FreePage, FreePage)],
       enclaves := s.enclaves - {x}, threads := s.threads - {x})
  }

  lemma UnmarkedKeeps(s: State, x: address)
    requires PagesInv(s) && Live(s, x) && RegionOf(x) < NUM_REGIONS
    requires 1 <= SizeOf(s, x) && PageOf(x) + SizeOf(s, x) <= NUM_REGION_PAGES
    ensures PagesInv(Unmarked(s, x))
  {
    hide RegionOf, PageOf, Aligned, EnclavePages, ThreadPages, Interior;
    var t := Unmarked(s, x);
    MarkFree(s, t, x);
    OneKind(s, x);
    forall y | y in t.enclaves
      ensures Marked(t, y, EnclavePage) && Interior(t, y, EnclavePages(t.enclaves[y].mailboxes))
    {
      OneKind(s, y);
    }
    forall y | y in t.threads ensures Marked(t, y, ThreadPage) && Interior(t, y, ThreadPages()) {
      OneKind(s, y);
    }
    ReservedStays(s, t, x);
  }

  lemma ReservedStays(s: State, t: State, x: address)
    requires PagesInv(s) && Live(s, x) && Shaped(t) && t.regions == s.regions
    requires t.pages == s.pages[RegionOf(x) := Mark(s.pages[RegionOf(x)], PageOf(x), SizeOf(s, x), FreePage, FreePage)]
    ensures forall r, i :: 0 <= r < NUM_REGIONS && IsMetadata(t, r) && 0 <= i < METADATA_START ==>
            t.pages[r][i] == InvalidPage
  {
    hide RegionOf, PageOf, Aligned, EnclavePages, ThreadPages, Interior;
    ObjectsDisjoint(s, x, x);
    OneKind(s, x);
  }

  /** Some core runs thread x. */
  predicate RunsOn(s: State, x: address) {
    exists c :: 0 <= c < |s.cores| && s.cores[c].owner != UNTRUSTED && s.cores[c].thread == x
  }

  lemma ThreadLoadKeeps(s: State, e: address, x: address)
    requires Inv(s)
    ensures Inv(ThreadLoad(s, e, x).0)
  {
    hide Inv, Aligned, RegionOf, PageOf, ThreadPages, Mark, Marked, PagesInv, RegionsInv, SavedInv, CoresInv, ScansInv;
    Parts(s);
    if ThreadLoad(s, e, x).1 == Ok {
      CheckedIsLive(s, e, EnclavePage);
      var t := ThreadLoad(s, e, x).0;
      PagesPart(s);
      LoadPages(s, e, x, t);
      LoadRest(s, e, x, t);
      Whole(t);
    }
  }

  /** t is s with a new thread x of e. */
  ghost predicate Loaded(s: State, e: address, x: address, t: State) {
    && e in s.enclaves && Shaped(s) && Shaped(t) && CheckFree(s, x, ThreadPages()) == Ok
    && var r := RegionOf(x);
       t == s.(pages := s.pages[r := Mark(s.pages[r], PageOf(x), ThreadPages(), ThreadPage, InvalidPage)],
               threads := s.threads[x := Thread(e, 0)],
               enclaves := s.enclaves[e := s.enclaves[e].(threads := s.enclaves[e].threads + 1)])
  }

  lemma LoadPages(s: State, e: address, x: address, t: State)
    requires PagesInv(s) && Loaded(s, e, x, t)
    ensures PagesInv(t) && x !in s.threads && x !in s.enclaves
  {
    hide RegionOf, PageOf, Aligned, EnclavePages, ThreadPages, Interior;
    var u := t.(enclaves := s.enclaves);
    MarkFresh(s, u, x, ThreadPages(), ThreadPage);
    MarkInterior(s, u, x, ThreadPages(), ThreadPage);
    FramePages(u, t);
  }

  /** A new object keeps the insides of the others, and has its own. */
  lemma MarkInterior(s: State, t: State, x: address, n: nat, kind: PageKind)
    requires n >= 1 && PagesInv(s) && CheckFree(s, x, n) == Ok && (kind == EnclavePage || kind == ThreadPage)
    requires Shaped(t) && t.regions == s.regions
    requires t.pages == s.pages[RegionOf(x) := Mark(s.pages[RegionOf(x)], PageOf(x), n, kind, InvalidPage)]
    ensures PageOf(x) + n <= NUM_REGION_PAGES && Interior(t, x, n)
    ensures forall y | y in s.enclaves :: Interior(t, y, EnclavePages(s.enclaves[y].mailboxes))
    ensures forall y | y in s.threads :: Interior(t, y, ThreadPages())
    ensures forall r, i :: 0 <= r < NUM_REGIONS && IsMetadata(t, r) && 0 <= i < METADATA_START ==>
            t.pages[r][i] == InvalidPage
  {
    hide RegionOf, PageOf, Aligned, EnclavePages, ThreadPages;
  }

  lemma LoadRest(s: State, e: address, x: address, t: State)
    requires Inv(s) && Loaded(s, e, x, t)
    ensures RegionsInv(t) && SavedInv(t) && CoresInv(t) && ScansInv(t)
  {
    hide RegionOf, PageOf, EnclavePages, ThreadPages, PagesInv, Mark, Accessible, CheckFree, CoreInv;
    FrameRegions(s, t);
    FrameCores(s, t);
  }

  /** The same regions and region maps. */
  lemma FrameRegions(s: State, t: State)
    requires RegionsInv(s) && Shaped(t) && t.regions == s.regions && t.untrusted == s.untrusted
    requires t.enclaves.Keys == s.enclaves.Keys
    requires forall x :: x in s.enclaves ==> t.enclaves[x].regions == s.enclaves[x].regions
    ensures RegionsInv(t)
  {}

  lemma ThreadDeleteKeeps(s: State, x: address, scheduled: bool)
    requires Inv(s)
    ensures Inv(ThreadDelete(s, x, scheduled).0)
  {
    hide Inv, Aligned, RegionOf, PageOf, ThreadPages, Mark, Marked, PagesInv, RegionsInv, SavedInv, CoresInv, ScansInv;
    Parts(s);
    if ThreadDelete(s, x, scheduled).1 == Ok {
      CheckedIsLive(s, x, ThreadPage);
      var t := ThreadDelete(s, x, scheduled).0;
      UnloadPages(s, x, t);
      UnloadRest(s, x, t);
      Whole(t);
    }
  }

  /** t is s without thread x. */
  ghost predicate Unloaded(s: State, x: address, t: State) {
    && x in s.threads && Shaped(s) && Shaped(t)
    && RegionOf(x) < NUM_REGIONS && PageOf(x) + ThreadPages() <= NUM_REGION_PAGES
    && var r := RegionOf(x);
       t == s.(pages := s.pages[r := Mark(s.pages[r], PageOf(x), ThreadPages(), FreePage, FreePage)],
               threads := s.threads - {x}, enclaves := Uncount(s.enclaves, s.threads[x].owner))
  }

  lemma UnloadPages(s: State, x: address, t: State)
    requires Inv(s) && Unloaded(s, x, t)
    ensures PagesInv(t)
  {
    hide Accessible, CoreInv, EnclavePages, ThreadPages, Aligned, RegionOf, PageOf, Mark, Marked, Interior;
    OneKind(s, x);
    UnmarkedKeeps(s, x);
    assert s.enclaves - {x} == s.enclaves;
    FramePages(Unmarked(s, x), t);
  }

  lemma UnloadRest(s: State, x: address, t: State)
    requires Inv(s) && Unloaded(s, x, t)
    ensures RegionsInv(t) && SavedInv(t) && CoresInv(t) && ScansInv(t)
  {
    hide RegionOf, PageOf, EnclavePages, ThreadPages, PagesInv, RegionsInv, CoresInv, Mark, Accessible;
    Parts(s);
    FrameRegions(s, t);
    FrameCores(s, t) by { SameOwners(s, t); }
  }

  lemma SameOwners(s: State, t: State)
    requires Shaped(s) && Shaped(t) && t.regions == s.regions
    ensures forall r, owner :: 0 <= r < NUM_REGIONS && OwnedBy(s, r, owner) ==> OwnedBy(t, r, owner)
    ensures forall r :: 0 <= r < NUM_REGIONS && s.regions[r].state == Blocked ==> t.regions[r].state == Blocked
  {}

  /** Live objects are never in a region that is being scanned, so the check of an object is whether it is live. */
  lemma CheckIsLive(s: State, x: address)
    requires Inv(s)
    ensures CheckMetadata(s, x, EnclavePage) == Ok <==> x in s.enclaves
    ensures CheckMetadata(s, x, ThreadPage) == Ok <==> x in s.threads
    ensures Live(s, x) ==> RegionOf(x) !in s.scans
  {
    hide RegionsInv, SavedInv, CoresInv, RegionOf, PageOf, Aligned, Accessible;
    assert Marked(s, x, EnclavePage) <==> x in s.enclaves;
    assert Marked(s, x, ThreadPage) <==> x in s.threads;
  }

  lemma ThreadDeleteSucceeds(s: State, x: address)
    requires Inv(s)
    ensures Tracked(s) && FitsInRegions(s)
    ensures ThreadDelete(s, x, false).1 == Ok ==> x in s.threads
    ensures x in s.threads && s.threads[x].owner in s.enclaves ==> ThreadDelete(s, x, false).1 == Ok
  {
    hide Inv, RegionOf, CheckMetadata, Marked;
    Parts(s);
    CheckIsLive(s, x);
    if x in s.threads { CheckIsLive(s, s.threads[x].owner); }
  }

  /** The first region of the enclave is blocked and its metadata region wiped, or only its own pages are freed. */
  lemma EnclaveDeleteKeeps(s: State, x: address)
    requires Inv(s)
    ensures Inv(EnclaveDelete(s, x).0)
  {
    hide Inv, Aligned, RegionOf, PageOf, Mark, Marked, PagesInv, RegionsInv, SavedInv, CoresInv, ScansInv, OwnsNothing;
    Parts(s);
    var t := EnclaveDelete(s, x).0;
    if CheckDelete(s, x) == Ok {
      CheckedIsLive(s, x, EnclavePage);
      if OwnsNothing(s.enclaves[x]) {
        FreedKeeps(s, x, t);
      } else {
        WipedKeeps(s, x, t);
      }
    }
  }

  lemma FreedKeeps(s: State, x: address, t: State)
    requires Inv(s) && x in s.enclaves && RegionOf(x) < NUM_REGIONS && |s.pages| == NUM_REGIONS
    requires PageOf(x) + EnclavePages(s.enclaves[x].mailboxes) <= NUM_REGION_PAGES == |s.pages[RegionOf(x)]|
    requires var r := RegionOf(x);
             var n := EnclavePages(s.enclaves[x].mailboxes);
             t == s.(pages := s.pages[r := Mark(s.pages[r], PageOf(x), n, FreePage, FreePage)],
                     enclaves := s.enclaves - {x})
    ensures Inv(t)
  {
    hide Accessible, CoreInv, EnclavePages, ThreadPages, Aligned, RegionOf, PageOf, Mark, Marked, Interior;
    OneKind(s, x);
    UnmarkedKeeps(s, x);
    assert s.threads - {x} == s.threads;
    assert t == Unmarked(s, x);
    FrameCores(s, t);
  }

  /** t is s with region q of enclave x blocked and the metadata region of x wiped. */
  ghost predicate Wiped(s: State, x: address, q: nat, t: State) {
    && Shaped(s) && x in s.enclaves && q < NUM_REGIONS && s.enclaves[x].regions[q] && q !in s.scans
    && RegionOf(x) < NUM_REGIONS && PageOf(x) + EnclavePages(0) <= NUM_REGION_PAGES
    && var r := RegionOf(x);
       t == s.(regions := s.regions[q := Region(SM, s.regions[q].kind, Blocked)],
               pages := s.pages[r := Mark(WipedPages(), PageOf(x), EnclavePages(0), FreePage, FreePage)],
               enclaves := Outside(s.enclaves, r), threads := Outside(s.threads, r))
  }

  lemma WipedKeeps(s: State, x: address, t: State)
    requires Inv(s) && Tracked(s) && FitsInRegions(s) && CheckDelete(s, x) == Ok && x in s.enclaves
    requires !OwnsNothing(s.enclaves[x]) && t == EnclaveDelete(s, x).0
    ensures Inv(t)
  {
    hide Aligned, RegionOf, PageOf, Mark, Marked, PagesInv, RegionsInv, SavedInv, CoresInv, ScansInv, EnclavePages;
    hide Outside;
    var q := FirstRegion(s.enclaves[x].regions);
    FewestPages(s.enclaves[x].mailboxes);
    assert Wiped(s, x, q, t);
    WipedPagesKeep(s, x, q, t) by { PagesPart(s); }
    WipedRest(s, x, q, t);
  }

  lemma WipedPagesKeep(s: State, x: address, q: nat, t: State)
    requires PagesInv(s) && RegionsInv(s) && Wiped(s, x, q, t)
    ensures PagesInv(t)
  {
    hide EnclavePages, ThreadPages, Aligned, PageOf, RegionOf, Interior;
    var r := RegionOf(x);
    assert OwnedBy(s, q, x) && x != SM by { NotMonitor(s); }
    ObjectsDisjoint(s, x, x);
    forall p | 0 <= p < NUM_REGIONS ensures IsMetadata(t, p) <==> IsMetadata(s, p) {}
    forall y, kind | kind == EnclavePage || kind == ThreadPage
      ensures Marked(t, y, kind) <==> Marked(s, y, kind) && RegionOf(y) != r {}
    forall y | Live(t, y) ensures Live(s, y) && RegionOf(y) != r {}
    OutsideInterior(s, r, t);
  }

  lemma OutsideInterior(s: State, r: nat, t: State)
    requires PagesInv(s) && Shaped(t) && r < NUM_REGIONS
    requires forall p :: 0 <= p < NUM_REGIONS && p != r ==> t.pages[p] == s.pages[p]
    requires t.enclaves == Outside(s.enclaves, r) && t.threads == Outside(s.threads, r)
    ensures FitsInRegions(t)
    ensures forall y :: y in t.enclaves && RegionOf(y) < NUM_REGIONS ==>
            Interior(t, y, EnclavePages(t.enclaves[y].mailboxes))
    ensures forall y :: y in t.threads && RegionOf(y) < NUM_REGIONS ==> Interior(t, y, ThreadPages())
  {
    hide RegionOf, PageOf, Aligned, EnclavePages, ThreadPages;
    forall y | y in t.enclaves ensures y in s.enclaves && t.enclaves[y] == s.enclaves[y] && RegionOf(y) != r {}
    forall y | y in t.threads ensures y in s.threads && RegionOf(y) != r {}
  }

  lemma WipedRest(s: State, x: address, q: nat, t: State)
    requires Inv(s) && Wiped(s, x, q, t)
    ensures RegionsInv(t) && SavedInv(t) && CoresInv(t) && ScansInv(t)
  {
    hide PagesInv, Accessible, RegionOf, PageOf, Aligned, Mark, EnclavePages;
    NotMonitor(s) by { PagesPart(s); }
    assert OwnedBy(s, q, x);
    forall c | 0 <= c < |t.cores| ensures CoreInv(t, t.cores[c]) {
      assert CoreInv(s, s.cores[c]);
    }
  }

  lemma EnterKeeps(s: State, c: nat, e: address, x: address, scheduled: bool)
    requires Inv(s) && c < |s.cores| && s.cores[c].owner == UNTRUSTED
    ensures Inv(Enter(s, c, e, x, scheduled).0)
  {
    hide Aligned, RegionOf, PageOf, Marked, Inv, Bitmap, PagesInv, RegionsInv, SavedInv, CoresInv, ScansInv;
    Parts(s);
    if Enter(s, c, e, x, scheduled).1 == Ok {
      CheckedIsLive(s, e, EnclavePage);
      CheckedIsLive(s, x, ThreadPage);
      var t := Enter(s, c, e, x, scheduled).0;
      FramePages(s, t) by { PagesPart(s); }
      FrameRegions(s, t);
      EnterCores(s, c, e, x, t);
      Whole(t);
    }
  }

  lemma EnterCores(s: State, c: nat, e: address, x: address, t: State)
    requires Inv(s) && c < |s.cores| && s.cores[c].owner == UNTRUSTED
    requires e in s.enclaves && x in s.threads && s.threads[x].owner == e
    requires t == s.(cores := s.cores[c := Core(e, x, s.cores[c].mmrbm, Bitmap(s.enclaves[e].regions))],
                     threads := s.threads[x := s.threads[x].(saved := s.cores[c].memrbm)])
    ensures SavedInv(t) && CoresInv(t) && ScansInv(t)
  {
    hide PagesInv, Bitmap, Accessible;
    NotMonitor(s) by { PagesPart(s); }
    assert CoreInv(s, s.cores[c]);
    BitmapConfined(s, s.enclaves[e].regions, e);
    forall k | 0 <= k < |t.cores| ensures CoreInv(t, t.cores[k]) {
      assert CoreInv(s, s.cores[k]);
    }
    forall r, k | r in t.scans && 0 <= k < t.scans[r] ensures !Reaches(t.cores[k], r) {
      BitmapBit(s.enclaves[e].regions, r);
    }
  }

  lemma ExitKeeps(s: State, c: nat)
    requires Inv(s) && c < |s.cores| && s.cores[c].thread in s.threads
    ensures Inv(Exit(s, c).0)
  {
    hide PagesInv, RegionsInv, CoresInv, ScansInv, RegionOf;
    StrayExitKeeps(s, c);
    assert s.threads[s.cores[c].thread].saved == 0;
  }

  /** A core that takes an empty bitmap on its exit. */
  lemma StrayExitKeeps(s: State, c: nat)
    requires Inv(s) && c < |s.cores|
    ensures Inv(StrayExit(s, c, 0).0)
  {
    hide PagesInv, RegionsInv, Accessible, RegionOf;
    var t := StrayExit(s, c, 0).0;
    if StrayExit(s, c, 0).1 == Ok {
      assert PagesInv(t) by { PagesPart(s); FramePages(s, t); }
      FrameRegions(s, t);
      ZeroConfined(s, UNTRUSTED);
      assert CoreInv(s, s.cores[c]);
      forall k | 0 <= k < |t.cores| ensures CoreInv(t, t.cores[k]) {
        assert CoreInv(s, s.cores[k]);
      }
      forall r, k | r in t.scans && 0 <= k < t.scans[r] ensures !Reaches(t.cores[k], r) {
        NothingAccessible(r);
      }
    }
  }

  /** A core whose thread is gone keeps the invariant on its exit exactly when it takes an empty bitmap. */
  lemma StrayExitExactly(s: State, c: nat, bitmap: nat)
    requires Inv(s) && c < |s.cores|
    ensures Inv(StrayExit(s, c, bitmap).0) <==> StrayExit(s, c, bitmap).1 != Ok || bitmap == 0
  {
    hide PagesInv, RegionsInv, SavedInv, ScansInv, Accessible, RegionOf;
    if bitmap == 0 {
      StrayExitKeeps(s, c);
    } else if StrayExit(s, c, bitmap).1 == Ok {
      var t := StrayExit(s, c, bitmap).0;
      assert t.cores[c].owner == UNTRUSTED && t.cores[c].memrbm != 0;
      assert !CoreInv(t, t.cores[c]);
    }
  }

  /** A core whose enclave is gone is refused by region_block. */
  lemma DetachedBlock(s: State, c: nat, r: nat)
    requires Tracked(s) && c < |s.cores| && !Known(s, s.cores[c].owner)
    ensures Block(s, c, r).0 == s && Block(s, c, r).1 != Ok
  {
    hide RegionOf, PageOf, CheckMetadata, Marked;
    CheckedIsLive(s, s.cores[c].owner, EnclavePage);
  }
}
