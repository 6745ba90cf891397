/** The monitor calls as they are written: checks with early returns, loops over regions, cores and pages, and
    updates of the monitor's fields (src/api, src/common, platform). */
module Monitor {
  import opened Bytes
  import opened MonitorState
  import opened MonitorSpec
  import opened MonitorInv
  import opened MonitorBooks
  import opened MonitorCalls
  import opened MonitorRuns

  /** regions_to_bitmap */
  method RegionsToBitmap(flags: seq<bool>) returns (bitmap: nat)
    requires |flags| == NUM_REGIONS
    ensures bitmap == Bitmap(flags)
  {
    hide Bitmap, BitOr, Pow2;
    bitmap := 0;
    NoBits(flags);
    for i := 0 to NUM_REGIONS
      invariant bitmap == Bitmap(flags[..i]) < Pow2(i)
    {
      NextFlag(flags, i);
      if flags[i] {
        OrDisjoint(bitmap, 1, i);
        bitmap := BitOr(bitmap, Pow2(i));
      }
    }
    assert flags[..NUM_REGIONS] == flags;
  }

  lemma NoBits(flags: seq<bool>)
    ensures Bitmap(flags[..0]) == 0 < Pow2(0)
  {}

  lemma {:induction false} NextFlag(flags: seq<bool>, i: nat)
    requires i < |flags|
    ensures Bitmap(flags[..i + 1]) == Bitmap(flags[..i]) + if flags[i] then Pow2(i) else 0
    ensures Bitmap(flags[..i]) < Pow2(i) ==> Bitmap(flags[..i + 1]) < Pow2(i + 1)
  {
    if i == 0 {
      assert flags[..1][1..] == [];
    } else {
      NextFlag(flags[1..], i - 1);
      DropFirst(flags, i);
      DropFirst(flags, i + 1);
    }
  }

  lemma DropFirst(flags: seq<bool>, i: nat)
    requires 1 <= i <= |flags|
    ensures flags[..i][1..] == flags[1..][..i - 1]
  {}

  /** region_is_accessible: mrbm & (1 << region_id) */
  method IsAccessible(bitmap: nat, r: nat) returns (b: bool)
    ensures b == Accessible(bitmap, r)
  {
    b := BitAnd(Pow2(r), bitmap) != 0;
    OneBit(bitmap, r);
  }

  lemma {:induction false} OneBit(bitmap: nat, r: nat)
    ensures BitAnd(Pow2(r), bitmap) != 0 <==> Accessible(bitmap, r)
  {
    if r == 0 {
      AndMask(1, bitmap);
      SmallPowers();
    } else {
      hide BitAnd;
      OneBit(bitmap / 2, r - 1);
      AndEven(Pow2(r - 1), bitmap);
    }
  }

  /** bitmap_to_regions, the inverse of regions_to_bitmap */
  method BitmapToRegions(bitmap: nat) returns (flags: seq<bool>)
    ensures |flags| == NUM_REGIONS && forall r :: 0 <= r < NUM_REGIONS ==> flags[r] == Accessible(bitmap, r)
    ensures forall was: seq<bool> :: |was| == NUM_REGIONS && bitmap == Bitmap(was) ==> flags == was
  {
    hide Bitmap, Accessible;
    flags := [];
    for i := 0 to NUM_REGIONS
      invariant |flags| == i && forall r :: 0 <= r < i ==> flags[r] == Accessible(bitmap, r)
    {
      var b := IsAccessible(bitmap, i);
      flags := flags + [b];
    }
    forall was: seq<bool> | |was| == NUM_REGIONS && bitmap == Bitmap(was) ensures flags == was {
      forall r | 0 <= r < NUM_REGIONS ensures flags[r] == was[r] {
        BitmapBit(was, r);
      }
    }
  }

  class SecurityMonitor {
    var cores: seq<Core>
    var regions: seq<Region>
    var untrusted: seq<bool>
    var pages: seq<seq<PageKind>>
    var enclaves: map<address, Enclave>
    var threads: map<address, Thread>
    var scans: map<nat, nat>

    function Abs(): State
      reads this
    {
      State(cores, regions, untrusted, pages, enclaves, threads, scans)
    }

    /** What every call keeps. */
    ghost predicate Valid()
      reads this
    {
      Inv(Abs())
    }

    /** sm_init, and the first update of every core. */
    constructor (n: nat)
      ensures Abs() == Boot(n) && Valid() && Balanced(Abs()) && Attached(Abs())
    {
      hide Bitmap;
      cores, regions, untrusted := [], [], [];
      pages := seq(NUM_REGIONS, _ => seq(NUM_REGION_PAGES, _ => InvalidPage));
      enclaves, threads, scans := map[], map[], map[];
      new;
      for i := 0 to n
        modifies this`cores
        invariant cores == seq(i, _ => Core(UNTRUSTED, 1, 0, 0))
      {
        cores := cores + [Core(UNTRUSTED, 1, 0, 0)];
      }
      InitializeRegions();
      var bitmap := RegionsToBitmap(untrusted);
      for c := 0 to n
        modifies this`cores
        invariant cores == seq(n, i => Core(UNTRUSTED, 1, if i < c then bitmap else 0, 0))
      {
        cores := cores[c := cores[c].(mmrbm := bitmap)];
      }
      assert cores == Boot(n).cores;
      BootInv(n);
      BootBooks(n);
    }

    /** The loop of sm_init over the regions: only region 0 holds the monitor. */
    method InitializeRegions()
      requires regions == [] && untrusted == []
      modifies this`regions, this`untrusted
      ensures untrusted == Boot(0).untrusted && regions == Boot(0).regions
    {
      hide Bitmap;
      for i := 0 to NUM_REGIONS
        invariant |untrusted| == |regions| == i
        invariant forall r :: 0 <= r < i ==> untrusted[r] == Boot(0).untrusted[r] && regions[r] == Boot(0).regions[r]
      {
        var outside := AddressOf(i, 0) as int > SM_LAST_ADDRESS;
        untrusted := untrusted + [outside];
        var region := if outside then Region(UNTRUSTED, UntrustedRegion, Owned) else Region(SM, SmRegion, Owned);
        regions := regions + [region];
      }
    }

    /** add_lock_region_iff_valid_metadata: the object must be live, and of the right kind. */
    method LockMetadata(x: address, kind: PageKind) returns (result: Result)
      requires Valid()
      ensures result == CheckMetadata(Abs(), x, kind)
      ensures kind == EnclavePage ==> (result == Ok <==> x in enclaves)
      ensures kind == ThreadPage ==> (result == Ok <==> x in threads)
      ensures result == InvalidValue <==> !Aligned(x) || RegionOf(x) >= NUM_REGIONS
      ensures result == ConcurrentCall ==> x !in enclaves && x !in threads
    {
      hide PagesInv, CoresInv, RegionOf, PageOf, Aligned;
      Parts(Abs());
      CheckIsLive(Abs(), x);
      if !Aligned(x) {
        return InvalidValue;
      }
      var r := RegionOf(x);
      if !(r < NUM_REGIONS) {
        return InvalidValue;
      }
      if r in scans {
        return ConcurrentCall;
      }
      if regions[r].kind != MetadataRegion {
        return InvalidState;
      }
      if regions[r].state != Owned {
        return InvalidState;
      }
      if pages[r][PageOf(x)] != kind {
        return InvalidState;
      }
      return Ok;
    }

    /** add_lock_region_iff_free_metadata_pages */
    method LockFree(x: address, n: nat) returns (result: Result)
      requires Shaped(Abs()) && n >= 1
      ensures result == CheckFree(Abs(), x, n)
      ensures result == Ok <==> FreePages(Abs(), x, n) && RegionOf(x) !in scans
      ensures result == InvalidValue <==> !Aligned(x) || RegionOf(x) >= NUM_REGIONS || PageOf(x) + n > NUM_REGION_PAGES
      ensures result == ConcurrentCall ==> RegionOf(x) in scans
      ensures result == InvalidState ==> !FreePages(Abs(), x, n)
    {
      hide RegionOf, PageOf, Aligned;
      if !Aligned(x) {
        return InvalidValue;
      }
      var r, p := RegionOf(x), PageOf(x);
      if !(r < NUM_REGIONS) {
        return InvalidValue;
      }
      if !(p + n - 1 < NUM_REGION_PAGES) {
        return InvalidValue;
      }
      if r in scans {
        return ConcurrentCall;
      }
      if regions[r].kind != MetadataRegion {
        return InvalidState;
      }
      if regions[r].state != Owned {
        return InvalidState;
      }
      for i := 0 to n
        invariant forall j :: p <= j < p + i ==> pages[r][j] == FreePage
      {
        if pages[r][p + i] != FreePage {
          return InvalidState;
        }
      }
      return Ok;
    }

    /** platform_update_memory_protection */
    method UpdateProtection(c: nat)
      requires Shaped(Abs()) && Running(Abs(), c)
      modifies this`cores
      ensures Abs() == Protect(old(Abs()), c) && OnlyBitmaps(old(Abs()), Abs(), c)
      ensures Running(Abs(), c) && UpToDate(Abs(), c)
    {
      hide Bitmap;
      var mmrbm := RegionsToBitmap(untrusted);
      var memrbm := 0;
      if cores[c].owner != UNTRUSTED {
        memrbm := RegionsToBitmap(enclaves[cores[c].owner].regions);
      }
      cores := cores[c := cores[c].(memrbm := memrbm)];
      cores := cores[c := cores[c].(mmrbm := mmrbm)];
      hide UpToDate;
      assert Abs() == Protect(old(Abs()), c);
      ProtectedIsUpToDate(old(Abs()), c);
    }

    /** platform_update_untrusted_regions and platform_update_enclave_regions */
    method UpdateRegions(c: nat, owner: address, r: nat, flag: bool)
      requires Shaped(Abs()) && Running(Abs(), c) && r < NUM_REGIONS && Known(Abs(), owner)
      modifies this`cores, this`untrusted, this`enclaves
      ensures Abs() == Protect(SetFlag(old(Abs()), owner, r, flag), c)
    {
      hide Bitmap, UpToDate;
      if owner == UNTRUSTED {
        untrusted := untrusted[r := flag];
      } else {
        enclaves := enclaves[owner := enclaves[owner].(regions := enclaves[owner].regions[r := flag])];
      }
      UpdateProtection(c);
    }

    /** region_assign */
    method RegionAssign(c: nat, r: nat, owner: address) returns (result: Result)
      requires Valid() && Running(Abs(), c)
      modifies this`cores, this`regions, this`untrusted, this`enclaves
      ensures Tracked(old(Abs())) && (Abs(), result) == Assign(old(Abs()), c, r, owner)
      ensures result == Ok <==> r < NUM_REGIONS && old(regions)[r].state == Free && Known(old(Abs()), owner)
      ensures result == Ok ==> OnlyFlag(old(Abs()), Abs(), owner, r, true) && Running(Abs(), c) && UpToDate(Abs(), c)
      ensures Valid() && (old(Balanced(Abs())) ==> Balanced(Abs())) && (old(Attached(Abs())) ==> Attached(Abs()))
    {
      hide Bitmap, Marked, CheckMetadata, Protect, SetFlag, Inv, Attached, Balanced, UpToDate, Reaches;
      Parts(Abs());
      AssignKeeps(Abs(), c, r, owner);
      AssignExactly(Abs(), c, r, owner);
      AssignBooks(Abs(), c, r, owner);
      if !(r < NUM_REGIONS) {
        return InvalidValue;
      }
      if r in scans {
        return ConcurrentCall;
      }
      if regions[r].state != Free {
        return InvalidState;
      }
      if owner != UNTRUSTED {
        result := LockMetadata(owner, EnclavePage);
        if result != Ok {
          return;
        }
      }
      var kind := if owner == UNTRUSTED then UntrustedRegion else EnclaveRegion;
      regions := regions[r := Region(owner, kind, Owned)];
      UpdateRegions(c, owner, r, true);
      return Ok;
    }

    /** region_block */
    method RegionBlock(c: nat, r: nat) returns (result: Result)
      requires Valid() && c < |cores|
      modifies this`cores, this`regions, this`untrusted, this`enclaves
      ensures Tracked(old(Abs())) && (Abs(), result) == Block(old(Abs()), c, r)
      ensures var caller := old(cores)[c].owner;
              result == Ok <==> r < NUM_REGIONS && OwnedBy(old(Abs()), r, caller) && Known(old(Abs()), caller)
                                && old(regions)[r].kind != SmRegion
      ensures result == Ok ==> OnlyFlag(old(Abs()), Abs(), old(cores)[c].owner, r, false)
      ensures result == Ok ==> Running(Abs(), c) && UpToDate(Abs(), c) && !Reaches(cores[c], r)
      ensures Valid() && (old(Balanced(Abs())) ==> Balanced(Abs())) && (old(Attached(Abs())) ==> Attached(Abs()))
    {
      hide Bitmap, Marked, CheckMetadata, Protect, SetFlag, Inv, Attached, Balanced, UpToDate, Reaches;
      Parts(Abs());
      BlockKeeps(Abs(), c, r);
      BlockExactly(Abs(), c, r);
      BlockBooks(Abs(), c, r);
      if !(r < NUM_REGIONS) {
        return InvalidValue;
      }
      var caller := cores[c].owner;
      if r in scans {
        return ConcurrentCall;
      }
      if regions[r].state != Owned {
        return InvalidState;
      }
      if regions[r].kind == SmRegion {
        return AccessDenied;
      }
      if regions[r].owner != caller {
        return AccessDenied;
      }
      if caller != UNTRUSTED {
        result := LockMetadata(caller, EnclavePage);
        if result != Ok {
          return ConcurrentCall;
        }
      }
      regions := regions[r := regions[r].(owner := SM, state := Blocked)];
      UpdateRegions(c, caller, r, false);
      return Ok;
    }

    /** region_update: the calling core reaches what its owner owns by now, and nothing else changes. */
    method RegionUpdate(c: nat) returns (result: Result)
      requires Valid() && Running(Abs(), c)
      modifies this`cores
      ensures result == Ok && Abs() == old(Abs()).(cores := cores) && |cores| == |old(cores)|
      ensures cores == old(cores)[c := old(cores)[c].(mmrbm := cores[c].mmrbm, memrbm := cores[c].memrbm)]
      ensures Shaped(Abs()) && Running(Abs(), c) && UpToDate(Abs(), c)
      ensures Valid() && (old(Balanced(Abs())) ==> Balanced(Abs())) && (old(Attached(Abs())) ==> Attached(Abs()))
    {
      hide Inv, Attached, Balanced, Bitmap, UpToDate;
      Parts(Abs());
      ProtectKeeps(Abs(), c);
      ProtectBooks(Abs(), c);
      UpdateProtection(c);
      return Ok;
    }

    /** region_free, run without interruption: the lock is taken, every core is looked at, the lock is given back. */
    method RegionFree(r: nat) returns (result: Result)
      requires Valid()
      modifies this`regions, this`scans
      ensures Valid() && (old(Balanced(Abs())) ==> Balanced(Abs())) && (old(Attached(Abs())) ==> Attached(Abs()))
      ensures result != Ok ==> Abs() == old(Abs())
      ensures result == InvalidValue <==> r >= NUM_REGIONS
      ensures result == ConcurrentCall <==> r < NUM_REGIONS && r in old(scans)
      ensures result == Ok || result == InvalidState || result == InvalidValue || result == ConcurrentCall
      ensures result == Ok <==> (r < NUM_REGIONS && r !in old(scans) && old(regions[r].state) == Blocked &&
                                 forall c :: 0 <= c < |cores| ==> !Reaches(cores[c], r))
      ensures result == Ok ==> Abs() == old(Abs()).(regions := old(regions)[r := old(regions[r]).(state := Free)])
    {
      hide Accessible, Inv, Attached, Balanced;
      Parts(Abs());
      if !(r < NUM_REGIONS) {
        return InvalidValue;
      }
      if r in scans {
        return ConcurrentCall;
      }
      if regions[r].state != Blocked {
        return InvalidState;
      }
      ghost var before := scans;
      scans := scans[r := 0];
      for i := 0 to |cores|
        invariant scans == before[r := i] && regions == old(regions)
        invariant forall c :: 0 <= c < i ==> !Reaches(cores[c], r)
      {
        var m := IsAccessible(cores[i].mmrbm, r);
        var e := IsAccessible(cores[i].memrbm, r);
        if m || e {
          scans := scans - {r};
          assert scans == before;
          assert Abs() == old(Abs());
          return InvalidState;
        }
        scans := scans[r := i + 1];
      }
      FreeKeeps(old(Abs()), r);
      regions := regions[r := regions[r].(state := Free)];
      scans := scans - {r};
      assert scans == before;
      assert Abs() == Freed(old(Abs()), r);
      return Ok;
    }

    /** region_metadata_create */
    method RegionMetadataCreate(r: nat) returns (result: Result)
      requires Valid()
      modifies this`regions, this`pages
      ensures Shaped(old(Abs())) && (Abs(), result) == MetadataCreate(old(Abs()), r)
      ensures result == Ok <==> r < NUM_REGIONS && old(regions)[r].state == Free
      ensures Valid() && (old(Balanced(Abs())) ==> Balanced(Abs())) && (old(Attached(Abs())) ==> Attached(Abs()))
    {
      hide Inv, Attached, Balanced;
      Parts(Abs());
      MetadataCreateKeeps(Abs(), r);
      MetadataCreateExactly(Abs(), r);
      MetadataBooks(Abs(), r);
      if !(r < NUM_REGIONS) {
        return InvalidValue;
      }
      if r in scans {
        return ConcurrentCall;
      }
      if regions[r].state != Free {
        return InvalidState;
      }
      var info: seq<PageKind> := [];
      for i := 0 to NUM_REGION_PAGES
        invariant |info| == i && forall j :: 0 <= j < i ==> info[j] == FreshPages()[j]
      {
        info := info + [if i < METADATA_START then InvalidPage else FreePage];
      }
      assert info == FreshPages();
      pages := pages[r := info];
      regions := regions[r := Region(SM, MetadataRegion, Owned)];
      return Ok;
    }

    /** The loops that mark the n pages from x on: the first one first, the others rest. */
    method MarkPages(x: address, n: nat, first: PageKind, rest: PageKind)
      requires Shaped(Abs()) && RegionOf(x) < NUM_REGIONS && 1 <= n && PageOf(x) + n <= NUM_REGION_PAGES
      modifies this`pages
      ensures pages == old(pages)[RegionOf(x) := Mark(old(pages)[RegionOf(x)], PageOf(x), n, first, rest)]
    {
      hide RegionOf, PageOf;
      var r, p := RegionOf(x), PageOf(x);
      ghost var before := pages[r];
      pages := pages[r := pages[r][p := first]];
      for i := 1 to n
        invariant |pages| == NUM_REGIONS && pages == old(pages)[r := pages[r]] && |pages[r]| == NUM_REGION_PAGES
        invariant forall j :: 0 <= j < NUM_REGION_PAGES ==>
                    pages[r][j] == if j == p then first else if p < j < p + i then rest else before[j]
      {
        pages := pages[r := pages[r][p + i := rest]];
      }
      assert pages[r] == Mark(before, p, n, first, rest);
    }

    /** enclave_create */
    method CreateEnclave(x: address, mailboxes: nat) returns (result: Result)
      requires Valid()
      modifies this`pages, this`enclaves
      ensures Shaped(old(Abs())) && (Abs(), result) == EnclaveCreate(old(Abs()), x, mailboxes)
      ensures result == Ok <==> FreePages(old(Abs()), x, EnclavePages(mailboxes))
      ensures Valid() && (old(Balanced(Abs())) ==> Balanced(Abs())) && (old(Attached(Abs())) ==> Attached(Abs()))
    {
      hide RegionOf, PageOf, Aligned, EnclavePages, Mark, Inv, Attached, Balanced, FreePages, OnlyPages;
      Parts(Abs());
      EnclaveCreateKeeps(Abs(), x, mailboxes);
      EnclaveCreateExactly(Abs(), x, mailboxes);
      CreateBooks(Abs(), x, mailboxes);
      var n := EnclavePages(mailboxes);
      result := LockFree(x, n);
      if result != Ok {
        return;
      }
      MarkPages(x, n, EnclavePage, InvalidPage);
      enclaves := enclaves[x := Enclave(Created, mailboxes, 0, seq(NUM_REGIONS, _ => false))];
    }

    /** thread_load */
    method LoadThread(e: address, x: address) returns (result: Result)
      requires Valid()
      modifies this`pages, this`threads, this`enclaves
      ensures Tracked(old(Abs())) && (Abs(), result) == ThreadLoad(old(Abs()), e, x)
      ensures result == Ok <==> e in old(enclaves) && old(enclaves)[e].init == DataLoaded
                                && FreePages(old(Abs()), x, ThreadPages())
      ensures Valid() && (old(Balanced(Abs())) ==> Balanced(Abs())) && (old(Attached(Abs())) ==> Attached(Abs()))
    {
      hide RegionOf, PageOf, Aligned, ThreadPages, Mark, Marked, Inv, Attached, Balanced, FreePages, OnlyPages;
      Parts(Abs());
      ThreadLoadKeeps(Abs(), e, x);
      ThreadLoadExactly(Abs(), e, x);
      LoadBooks(Abs(), e, x);
      result := LockMetadata(e, EnclavePage);
      if result != Ok {
        return;
      }
      if enclaves[e].init != DataLoaded {
        return InvalidState;
      }
      result := LockFree(x, ThreadPages());
      if result != Ok {
        return;
      }
      MarkPages(x, ThreadPages(), ThreadPage, InvalidPage);
      threads := threads[x := Thread(e, 0)];
      enclaves := enclaves[e := enclaves[e].(threads := enclaves[e].threads + 1)];
    }

    /** thread_delete; scheduled is what is_scheduled holds. */
    method DeleteThread(x: address, scheduled: bool) returns (result: Result)
      requires Valid()
      modifies this`pages, this`threads, this`enclaves
      ensures Tracked(old(Abs())) && FitsInRegions(old(Abs()))
      ensures (Abs(), result) == ThreadDelete(old(Abs()), x, scheduled)
      ensures result == Ok <==> x in old(threads) && !scheduled && RegionOf(old(threads)[x].owner) !in scans
      ensures Valid() && (old(Balanced(Abs())) ==> Balanced(Abs()))
      ensures old(Balanced(Abs()) && Attached(Abs())) ==> (Attached(Abs()) <==> scheduled || !RunsOn(old(Abs()), x))
    {
      hide RegionOf, PageOf, Aligned, ThreadPages, Mark, Marked, Inv, Attached, Balanced, RunsOn, OnlyPages;
      Parts(Abs());
      DeleteThreadAll(Abs(), x, scheduled);
      result := LockMetadata(x, ThreadPage);
      if result != Ok {
        return;
      }
      var e := threads[x].owner;
      if RegionOf(e) in scans {
        return ConcurrentCall;
      }
      if scheduled {
        return InvalidState;
      }
      if e in enclaves {
        enclaves := enclaves[e := enclaves[e].(threads := enclaves[e].threads - 1)];
      }
      threads := threads - {x};
      MarkPages(x, ThreadPages(), FreePage, FreePage);
    }

    /** enclave_delete as written. */
    method DeleteEnclave(x: address) returns (result: Result)
      requires Valid()
      modifies this`regions, this`pages, this`enclaves, this`threads
      ensures Tracked(old(Abs())) && FitsInRegions(old(Abs())) && (Abs(), result) == EnclaveDelete(old(Abs()), x)
      ensures Valid() && (result == Ok <==> x in old(enclaves) && old(enclaves)[x].threads <= 0)
      ensures x in old(enclaves) && old(enclaves)[x].threads > 0 ==> result == InvalidState
      ensures old(Balanced(Abs())) && result == Ok ==>
                (Balanced(Abs()) <==> OwnsNothing(old(enclaves)[x]) || SparesBooks(old(Abs()), x))
      ensures old(Balanced(Abs()) && Attached(Abs())) && result == Ok ==>
                (Attached(Abs()) <==> OwnsNothing(old(enclaves)[x]) || SparesCores(old(Abs()), x))
      ensures result != Ok ==> Abs() == old(Abs())
    {
      hide RegionOf, PageOf, Aligned, EnclavePages, Mark, Marked, Inv, Balanced, Attached, OwnsNothing, SparesBooks;
      hide SparesCores, Outside, CheckMetadata;
      Parts(Abs());
      DeleteAll(Abs(), x);
      result := LockMetadata(x, EnclavePage);
      if result != Ok {
        return;
      }
      if enclaves[x].threads > 0 {
        return InvalidState;
      }
      for i := 0 to NUM_REGIONS
        invariant forall q :: 0 <= q < i && enclaves[x].regions[q] ==> q !in scans
      {
        if enclaves[x].regions[i] {
          if i in scans {
            return ConcurrentCall;
          }
        }
      }
      BlockRegions(x);
      NotOutside(old(enclaves), x);
      var mailboxes := if x in enclaves then enclaves[x].mailboxes else 0;
      FewestPages(old(enclaves)[x].mailboxes);
      MarkPages(x, EnclavePages(mailboxes), FreePage, FreePage);
      enclaves := enclaves - {x};
      assert Outside(old(enclaves), RegionOf(x)) - {x} == Outside(old(enclaves), RegionOf(x));
      UpdateTwice(old(pages), RegionOf(x), WipedPages(), pages[RegionOf(x)]);
    }

    /** The loop of enclave_delete over the regions of the enclave, whose flags are in the metadata that it wipes. */
    method BlockRegions(x: address)
      requires Shaped(Abs()) && x in enclaves && RegionOf(x) < NUM_REGIONS
      modifies this`regions, this`pages, this`enclaves, this`threads
      ensures OwnsNothing(old(enclaves)[x]) ==> Abs() == old(Abs())
      ensures !OwnsNothing(old(enclaves)[x]) ==>
                (exists q :: 0 <= q < |old(enclaves)[x].regions| && old(enclaves)[x].regions[q]) && Shaped(Abs())
      ensures !OwnsNothing(old(enclaves)[x]) ==>
                var q, r := FirstRegion(old(enclaves)[x].regions), RegionOf(x);
                && regions == old(regions)[q := Region(SM, old(regions)[q].kind, Blocked)]
                && pages == old(pages)[r := WipedPages()]
                && enclaves == Outside(old(enclaves), r) && threads == Outside(old(threads), r)
    {
      hide RegionOf, Outside;
      ghost var flags := enclaves[x].regions;
      for i := 0 to NUM_REGIONS
        invariant x in enclaves ==> Abs() == old(Abs()) && forall q :: 0 <= q < i ==> !flags[q]
        invariant x !in enclaves ==>
                    && (exists q :: 0 <= q < |flags| && flags[q])
                    && var q, r := FirstRegion(flags), RegionOf(x);
                       && regions == old(regions)[q := Region(SM, old(regions)[q].kind, Blocked)]
                       && pages == old(pages)[r := WipedPages()]
                       && enclaves == Outside(old(enclaves), r) && threads == Outside(old(threads), r)
      {
        if x in enclaves && enclaves[x].regions[i] {
          assert i == FirstRegion(flags);
          regions := regions[i := regions[i].(state := Blocked)];
          regions := regions[i := regions[i].(owner := SM)];
          WipeRegion(RegionOf(x));
          NotOutside(old(enclaves), x);
        }
      }
      if x !in enclaves { OutsideShaped(old(enclaves), RegionOf(x)); }
    }

    /** Zeros over a whole metadata region: its page map and every object in it. */
    method WipeRegion(r: nat)
      requires |pages| == NUM_REGIONS && r < NUM_REGIONS
      modifies this`pages, this`enclaves, this`threads
      ensures pages == old(pages)[r := WipedPages()]
      ensures enclaves == Outside(old(enclaves), r) && threads == Outside(old(threads), r)
    {
      var info: seq<PageKind> := [];
      for i := 0 to NUM_REGION_PAGES
        invariant info == seq(i, _ => InvalidPage)
      {
        info := info + [InvalidPage];
      }
      pages := pages[r := info];
      enclaves, threads := Outside(enclaves, r), Outside(threads, r);
    }

    /** enclave_enter */
    method EnterEnclave(c: nat, e: address, x: address, scheduled: bool) returns (result: Result)
      requires Valid() && c < |cores|
      modifies this`cores, this`threads
      ensures Tracked(old(Abs())) && (Abs(), result) == Enter(old(Abs()), c, e, x, scheduled)
      ensures result == Ok <==> e in enclaves && enclaves[e].init == Initialized
                                && x in old(threads) && old(threads)[x].owner == e && !scheduled
      ensures result == Ok ==> |cores| == |old(cores)| && cores[c].owner == e && cores[c].thread == x
                               && Grants(cores[c].memrbm, enclaves[e].regions)
      ensures old(cores[c].owner) == UNTRUSTED ==> Valid()
      ensures (old(Balanced(Abs())) ==> Balanced(Abs())) && (old(Attached(Abs())) ==> Attached(Abs()))
    {
      hide RegionOf, PageOf, Aligned, Bitmap, Marked, Inv, Attached, Balanced, Grants;
      Parts(Abs());
      EnterAll(Abs(), c, e, x, scheduled);
      EnterExactly(Abs(), c, e, x, scheduled);
      result := LockMetadata(e, EnclavePage);
      if result != Ok {
        return;
      }
      if enclaves[e].init != Initialized {
        return InvalidState;
      }
      result := LockMetadata(x, ThreadPage);
      if result != Ok {
        return;
      }
      if scheduled {
        return InvalidState;
      }
      if threads[x].owner != e {
        return InvalidState;
      }
      cores := cores[c := cores[c].(owner := e, thread := x)];
      var memrbm := RegionsToBitmap(enclaves[e].regions);
      threads := threads[x := threads[x].(saved := cores[c].memrbm)];
      cores := cores[c := cores[c].(memrbm := memrbm)];
      assert cores == old(cores)[c := cores[c]];
    }

    /** enclave_exit; found is what the pages of the core's thread hold if the thread is gone. */
    method ExitEnclave(c: nat, found: nat) returns (result: Result)
      requires Valid() && c < |cores|
      modifies this`cores
      ensures old(cores[c].thread) in threads ==> (Abs(), result) == Exit(old(Abs()), c) && result == Ok
      ensures old(cores[c].thread) !in threads ==> (Abs(), result) == StrayExit(old(Abs()), c, found)
      ensures old(cores[c].thread) in threads || found == 0 ==> Valid()
      ensures (old(Balanced(Abs())) ==> Balanced(Abs())) && (old(Attached(Abs())) ==> Attached(Abs()))
    {
      hide Inv, Attached, Balanced, RegionOf;
      var x := cores[c].thread;
      var memrbm := if x in threads then threads[x].saved else found;
      ExitAll(Abs(), c, memrbm);
      if x in threads { ExitExactly(Abs(), c); }
      if RegionOf(x) in scans {
        return ConcurrentCall;
      }
      cores := cores[c := cores[c].(owner := UNTRUSTED, thread := 0)];
      cores := cores[c := cores[c].(memrbm := memrbm)];
      assert cores == old(cores)[c := cores[c]];
      return Ok;
    }
  }

  lemma ExitAll(s: State, c: nat, memrbm: nat)
    requires Inv(s) && c < |s.cores|
    requires s.cores[c].thread in s.threads ==> memrbm == s.threads[s.cores[c].thread].saved
    ensures s.cores[c].thread in s.threads || memrbm == 0 ==> Inv(StrayExit(s, c, memrbm).0)
    ensures Balanced(s) ==> Balanced(StrayExit(s, c, memrbm).0)
    ensures Attached(s) ==> Attached(StrayExit(s, c, memrbm).0)
  {
    hide Inv, Attached, Balanced, StrayExit;
    Parts(s);
    StrayExitKeeps(s, c);
    ExitBooks(s, c, memrbm);
  }

  lemma UpdateTwice(pages: seq<seq<PageKind>>, r: nat, p: seq<PageKind>, q: seq<PageKind>)
    requires r < |pages|
    ensures pages[r := p][r := q] == pages[r := q]
  {}

  lemma NotOutside(enclaves: map<address, Enclave>, x: address)
    ensures x !in Outside(enclaves, RegionOf(x))
  {
    hide RegionOf;
  }

  lemma OutsideShaped(enclaves: map<address, Enclave>, r: nat)
    ensures forall e :: e in Outside(enclaves, r) ==> e in enclaves && Outside(enclaves, r)[e] == enclaves[e]
  {
    hide RegionOf;
  }

  lemma DeleteThreadAll(s: State, x: address, scheduled: bool)
    requires Inv(s) && Tracked(s) && FitsInRegions(s)
    ensures var (t, result) := ThreadDelete(s, x, scheduled);
            && (result == Ok <==> x in s.threads && !scheduled && RegionOf(s.threads[x].owner) !in s.scans)
            && Inv(t) && (Balanced(s) ==> Balanced(t))
            && (Balanced(s) && Attached(s) ==> (Attached(t) <==> scheduled || !RunsOn(s, x)))
  {
    hide Inv, Tracked, FitsInRegions, Balanced, Attached, RunsOn, OnlyPages, RegionOf, CheckMetadata, Marked;
    ThreadDeleteKeeps(s, x, scheduled);
    ThreadDeletes(s, x, scheduled);
    if Balanced(s) { DeleteThreadBalanced(s, x, scheduled); }
    if Balanced(s) && Attached(s) { ThreadDeleteExactly(s, x); }
  }

  lemma DeleteAll(s: State, x: address)
    requires Inv(s) && Tracked(s) && FitsInRegions(s)
    ensures Inv(EnclaveDelete(s, x).0)
    ensures EnclaveDelete(s, x).1 == Ok <==> x in s.enclaves && s.enclaves[x].threads <= 0
    ensures EnclaveDelete(s, x).1 == Ok && Balanced(s) ==>
              (Balanced(EnclaveDelete(s, x).0) <==> OwnsNothing(s.enclaves[x]) || SparesBooks(s, x))
    ensures EnclaveDelete(s, x).1 == Ok && Balanced(s) && Attached(s) ==>
              (Attached(EnclaveDelete(s, x).0) <==> OwnsNothing(s.enclaves[x]) || SparesCores(s, x))
  {
    hide Inv, Tracked, FitsInRegions, Balanced, Attached, OwnsNothing, SparesBooks, SparesCores, CheckMetadata, Marked;
    EnclaveDeleteKeeps(s, x);
    if x in s.enclaves { EnclaveDeleteSucceeds(s, x); }
    if EnclaveDelete(s, x).1 == Ok {
      CheckedIsLive(s, x, EnclavePage);
      if Balanced(s) { EnclaveDeleteExactly(s, x); }
      if Balanced(s) && Attached(s) { EnclaveDeleteAttached(s, x); }
    }
  }

  lemma ProtectBooks(s: State, c: nat)
    requires Inv(s) && Running(s, c)
    ensures Balanced(s) ==> Balanced(Protect(s, c))
    ensures Attached(s) ==> Attached(Protect(s, c))
  {
    hide Inv, Balanced, Attached, Protect;
    if Balanced(s) { ProtectBalanced(s, c); }
    if Attached(s) { ProtectAttached(s, s, c); }
  }

  lemma EnterAll(s: State, c: nat, e: address, x: address, scheduled: bool)
    requires Inv(s) && Tracked(s) && c < |s.cores|
    ensures s.cores[c].owner == UNTRUSTED ==> Inv(Enter(s, c, e, x, scheduled).0)
    ensures Balanced(s) ==> Balanced(Enter(s, c, e, x, scheduled).0)
    ensures Attached(s) ==> Attached(Enter(s, c, e, x, scheduled).0)
  {
    hide Inv, Balanced, Attached, Enter, Tracked;
    if s.cores[c].owner == UNTRUSTED { EnterKeeps(s, c, e, x, scheduled); }
    EnterBooks(s, c, e, x, scheduled);
  }

  /** s with region r free. */
  function Freed(s: State, r: nat): State
    requires r < |s.regions|
  {
    s.(regions := s.regions[r := s.regions[r].(state := Free)])
  }

  /** A blocked region that no core reaches can be freed. */
  lemma FreeKeeps(s: State, r: nat)
    requires Inv(s) && r < NUM_REGIONS && |s.regions| == NUM_REGIONS && r !in s.scans && s.regions[r].state == Blocked
    requires forall c :: 0 <= c < |s.cores| ==> !Reaches(s.cores[c], r)
    ensures Inv(Freed(s, r)) && (Balanced(s) ==> Balanced(Freed(s, r))) && (Attached(s) ==> Attached(Freed(s, r)))
  {
    hide PagesInv, ThreadsInv, RegionsInv, CoresInv, Reaches, Attached;
    if Balanced(s) { FrameThreads(s, Freed(s, r)); }
    if Attached(s) { FrameAttached(s, Freed(s, r)); }
    var t := s.(scans := s.scans[r := |s.cores|]);
    ScanKeeps(s, t);
    FreeEndKeeps(t, r);
    assert t.scans - {r} == s.scans;
  }
}
