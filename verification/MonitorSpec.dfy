/** What each monitor call does to the monitor's state: one atomic step per transaction, except that
    region_free looks at the cores one at a time while it holds only the lock of its region. */
module MonitorSpec {
  import opened MonitorState

  datatype Result = Ok | InvalidValue | InvalidState | ConcurrentCall | AccessDenied

  /** Everything has the size that the source declares. */
  ghost predicate Shaped(s: State) {
    && |s.regions| == NUM_REGIONS && |s.untrusted| == NUM_REGIONS && |s.pages| == NUM_REGIONS
    && (forall r :: 0 <= r < NUM_REGIONS ==> |s.pages[r]| == NUM_REGION_PAGES)
    && (forall e :: e in s.enclaves ==> |s.enclaves[e].regions| == NUM_REGIONS)
  }

  /** A metadata region in use. */
  predicate IsMetadata(s: State, r: nat)
    requires r < |s.regions|
  {
    s.regions[r].kind == MetadataRegion && s.regions[r].state == Owned
  }

  /** x is the first page of an object of this kind in a metadata region. */
  ghost predicate Marked(s: State, x: address, kind: PageKind)
    requires Shaped(s)
  {
    Aligned(x) && RegionOf(x) < NUM_REGIONS && IsMetadata(s, RegionOf(x)) && s.pages[RegionOf(x)][PageOf(x)] == kind
  }

  /** The tables of enclaves and threads hold exactly the objects whose pages are marked. */
  ghost predicate Tracked(s: State) {
    && Shaped(s)
    && (forall x :: Marked(s, x, EnclavePage) <==> x in s.enclaves)
    && (forall x :: Marked(s, x, ThreadPage) <==> x in s.threads)
  }

  /** add_lock_region_iff_valid_metadata: x is a live object of this kind. */
  function CheckMetadata(s: State, x: address, kind: PageKind): Result
    requires Shaped(s)
  {
    var r := RegionOf(x);
    if !Aligned(x) || r >= NUM_REGIONS then InvalidValue
    else if r in s.scans then ConcurrentCall
    else if !IsMetadata(s, r) || s.pages[r][PageOf(x)] != kind then InvalidState
    else Ok
  }

  /** add_lock_region_iff_free_metadata_pages: n free pages inside one metadata region. */
  function CheckFree(s: State, x: address, n: nat): Result
    requires Shaped(s) && n >= 1
  {
    var r, p := RegionOf(x), PageOf(x);
    if !Aligned(x) || r >= NUM_REGIONS || p + n - 1 >= NUM_REGION_PAGES then InvalidValue
    else if r in s.scans then ConcurrentCall
    else if !IsMetadata(s, r) || exists i :: p <= i < p + n && s.pages[r][i] != FreePage then InvalidState
    else Ok
  }

  /** Untrusted software, or a live enclave. */
  predicate Known(s: State, owner: address) { owner == UNTRUSTED || owner in s.enclaves }

  /** Core c exists and runs something known. */
  predicate Running(s: State, c: nat) { c < |s.cores| && Known(s, s.cores[c].owner) }

  /** platform_update_memory_protection: recompute the bitmaps of core c from the ownership maps. */
  function Protect(s: State, c: nat): State
    requires Running(s, c)
  {
    var core := s.cores[c];
    var memrbm := if core.owner == UNTRUSTED then 0 else Bitmap(s.enclaves[core.owner].regions);
    s.(cores := s.cores[c := core.(mmrbm := Bitmap(s.untrusted), memrbm := memrbm)])
  }

  /** Set the flag of region r in the region map of its owner. */
  function SetFlag(s: State, owner: address, r: nat, flag: bool): State
    requires Shaped(s) && r < NUM_REGIONS && Known(s, owner)
  {
    if owner == UNTRUSTED then s.(untrusted := s.untrusted[r := flag])
    else
      var e := s.enclaves[owner];
      s.(enclaves := s.enclaves[owner := e.(regions := e.regions[r := flag])])
  }

  /** region_update */
  function Update(s: State, c: nat): (State, Result)
    requires Running(s, c)
  {
    (Protect(s, c), Ok)
  }

  /** region_assign by core c: a free region gets an owner. */
  function Assign(s: State, c: nat, r: nat, owner: address): (State, Result)
    requires Tracked(s) && Running(s, c)
  {
    if r >= NUM_REGIONS then (s, InvalidValue)
    else if r in s.scans then (s, ConcurrentCall)
    else if s.regions[r].state != Free then (s, InvalidState)
    else if owner != UNTRUSTED && CheckMetadata(s, owner, EnclavePage) != Ok then
      (s, CheckMetadata(s, owner, EnclavePage))
    else
      assert owner == UNTRUSTED || Marked(s, owner, EnclavePage);
      var kind := if owner == UNTRUSTED then UntrustedRegion else EnclaveRegion;
      var t := s.(regions := s.regions[r := Region(owner, kind, Owned)]);
      (Protect(SetFlag(t, owner, r, true), c), Ok)
  }

  /** region_block by core c: an owned region of the caller is taken away from it. */
  function Block(s: State, c: nat, r: nat): (State, Result)
    requires Tracked(s) && c < |s.cores|
  {
    var caller := s.cores[c].owner;
    if r >= NUM_REGIONS then (s, InvalidValue)
    else if r in s.scans then (s, ConcurrentCall)
    else if s.regions[r].state != Owned then (s, InvalidState)
    else if s.regions[r].kind == SmRegion || s.regions[r].owner != caller then (s, AccessDenied)
    else if caller != UNTRUSTED && CheckMetadata(s, caller, EnclavePage) != Ok then (s, ConcurrentCall)
    else
      assert caller == UNTRUSTED || Marked(s, caller, EnclavePage);
      var t := s.(regions := s.regions[r := Region(SM, s.regions[r].kind, Blocked)]);
      (Protect(SetFlag(t, caller, r, false), c), Ok)
  }

  /** The start of region_free: the lock of a blocked region is taken. */
  function FreeBegin(s: State, r: nat): (State, Result)
    requires Shaped(s)
  {
    if r >= NUM_REGIONS then (s, InvalidValue)
    else if r in s.scans then (s, ConcurrentCall)
    else if s.regions[r].state != Blocked then (s, InvalidState)
    else (s.(scans := s.scans[r := 0]), Ok)
  }

  /** One turn of its loop: look at the next core, give up if it can access the region. */
  function FreeLook(s: State, r: nat): (State, Result)
    requires r in s.scans && s.scans[r] < |s.cores|
  {
    var core := s.cores[s.scans[r]];
    if Accessible(core.mmrbm, r) || Accessible(core.memrbm, r) then (s.(scans := s.scans - {r}), InvalidState)
    else (s.(scans := s.scans[r := s.scans[r] + 1]), Ok)
  }

  /** Its end, after all cores: the region becomes free. */
  function FreeEnd(s: State, r: nat): (State, Result)
    requires Shaped(s) && r < NUM_REGIONS && r in s.scans
  {
    (s.(regions := s.regions[r := s.regions[r].(state := Free)], scans := s.scans - {r}), Ok)
  }

  /** A fresh page map: the reserved pages are invalid, all others free. */
  function FreshPages(): (p: seq<PageKind>)
    ensures |p| == NUM_REGION_PAGES
  {
    seq(NUM_REGION_PAGES, i => if i < METADATA_START then InvalidPage else FreePage)
  }

  /** region_metadata_create */
  function MetadataCreate(s: State, r: nat): (State, Result)
    requires Shaped(s)
  {
    if r >= NUM_REGIONS then (s, InvalidValue)
    else if r in s.scans then (s, ConcurrentCall)
    else if s.regions[r].state != Free then (s, InvalidState)
    else (s.(regions := s.regions[r := Region(SM, MetadataRegion, Owned)], pages := s.pages[r := FreshPages()]), Ok)
  }

  /** Pages p .. p + n of a page map get a first kind and a rest kind. */
  function Mark(pages: seq<PageKind>, p: nat, n: nat, first: PageKind, rest: PageKind): (q: seq<PageKind>)
    requires 1 <= n && p + n <= |pages|
    ensures |q| == |pages|
  {
    seq(|pages|, i requires 0 <= i < |pages| => if i == p then first else if p < i < p + n then rest else pages[i])
  }

  /** enclave_create */
  function EnclaveCreate(s: State, x: address, mailboxes: nat): (State, Result)
    requires Shaped(s)
  {
    var n := EnclavePages(mailboxes);
    if CheckFree(s, x, n) != Ok then (s, CheckFree(s, x, n))
    else
      var r := RegionOf(x);
      (s.(pages := s.pages[r := Mark(s.pages[r], PageOf(x), n, EnclavePage, InvalidPage)],
          enclaves := s.enclaves[x := Enclave(Created, mailboxes, 0, seq(NUM_REGIONS, _ => false))]), Ok)
  }

  /** enclave_load_handler, enclave_load_page_table and enclave_load_page, as far as the state of the enclave goes. */
  function EnclaveLoad(s: State, x: address): (State, Result)
    requires Tracked(s)
  {
    if CheckMetadata(s, x, EnclavePage) != Ok then (s, CheckMetadata(s, x, EnclavePage))
    else
      assert Marked(s, x, EnclavePage);
      if s.enclaves[x].init == Initialized then (s, InvalidState)
      else (s.(enclaves := s.enclaves[x := s.enclaves[x].(init := DataLoaded)]), Ok)
  }

  /** enclave_init */
  function EnclaveInit(s: State, x: address): (State, Result)
    requires Tracked(s)
  {
    if CheckMetadata(s, x, EnclavePage) != Ok then (s, CheckMetadata(s, x, EnclavePage))
    else
      assert Marked(s, x, EnclavePage);
      if s.enclaves[x].init != DataLoaded then (s, InvalidState)
      else (s.(enclaves := s.enclaves[x := s.enclaves[x].(init := Initialized)]), Ok)
  }

  predicate OwnsNothing(e: Enclave) { forall q :: 0 <= q < |e.regions| ==> !e.regions[q] }

  /** The first region of a region map. */
  function FirstRegion(flags: seq<bool>): (q: nat)
    requires exists q :: 0 <= q < |flags| && flags[q]
    ensures q < |flags| && flags[q] && forall p :: 0 <= p < q ==> !flags[p]
  {
    if flags[0] then 0 else
      assert exists q :: 0 <= q < |flags| - 1 && flags[1..][q] by {
        var q :| 0 <= q < |flags| && flags[q];
        assert flags[1..][q - 1];
      }
      1 + FirstRegion(flags[1..])
  }

  /** The objects that are not in metadata region r. */
  function Outside<T>(objects: map<address, T>, r: nat): map<address, T> {
    map y | y in objects && RegionOf(y) != r :: objects[y]
  }

  /** A page map of zeros. */
  function WipedPages(): (p: seq<PageKind>)
    ensures |p| == NUM_REGION_PAGES
  {
    seq(NUM_REGION_PAGES, _ => InvalidPage)
  }

  lemma FewestPages(mailboxes: nat)
    ensures EnclavePages(0) <= EnclavePages(mailboxes)
  {
    MailboxSpace(mailboxes);
  }

  /** Who may be deleted: a live enclave without threads, none of whose regions is locked. */
  function CheckDelete(s: State, x: address): Result
    requires Tracked(s)
  {
    if CheckMetadata(s, x, EnclavePage) != Ok then CheckMetadata(s, x, EnclavePage)
    else
      assert Marked(s, x, EnclavePage);
      var e := s.enclaves[x];
      if e.threads > 0 then InvalidState
      else if exists q :: 0 <= q < NUM_REGIONS && e.regions[q] && q in s.scans then ConcurrentCall
      else Ok
  }

  /** enclave_delete as written. The loop over the enclave's regions blocks the first one and then wipes the metadata
      region of the enclave, where it finds its own flags, the page map and every other object. */
  function EnclaveDelete(s: State, x: address): (State, Result)
    requires Tracked(s) && FitsInRegions(s)
  {
    if CheckDelete(s, x) != Ok then (s, CheckDelete(s, x))
    else
      assert Marked(s, x, EnclavePage);
      var e, r := s.enclaves[x], RegionOf(x);
      if OwnsNothing(e) then
        (s.(pages := s.pages[r := Mark(s.pages[r], PageOf(x), EnclavePages(e.mailboxes), FreePage, FreePage)],
            enclaves := s.enclaves - {x}), Ok)
      else
        FewestPages(e.mailboxes);
        var q := FirstRegion(e.regions);
        (s.(regions := s.regions[q := Region(SM, s.regions[q].kind, Blocked)],
            pages := s.pages[r := Mark(WipedPages(), PageOf(x), EnclavePages(0), FreePage, FreePage)],
            enclaves := Outside(s.enclaves, r), threads := Outside(s.threads, r)), Ok)
  }

  /** The regions of an enclave become blocked. */
  function BlockAll(regions: seq<Region>, flags: seq<bool>): (q: seq<Region>)
    requires |regions| == |flags|
    ensures |q| == |regions|
  {
    seq(|regions|, r requires 0 <= r < |regions| =>
      if flags[r] then Region(SM, regions[r].kind, Blocked) else regions[r])
  }

  /** enclave_delete as documented: all regions of the enclave are blocked and only its own pages are freed. */
  function EnclaveDeleteIntended(s: State, x: address): (State, Result)
    requires Tracked(s) && FitsInRegions(s)
  {
    if CheckDelete(s, x) != Ok then (s, CheckDelete(s, x))
    else
      assert Marked(s, x, EnclavePage);
      var e, r := s.enclaves[x], RegionOf(x);
      (s.(regions := BlockAll(s.regions, e.regions),
          pages := s.pages[r := Mark(s.pages[r], PageOf(x), EnclavePages(e.mailboxes), FreePage, FreePage)],
          enclaves := s.enclaves - {x}), Ok)
  }

  /** No live object sticks out of its region. */
  ghost predicate FitsInRegions(s: State) {
    && (forall x :: x in s.enclaves ==> PageOf(x) + EnclavePages(s.enclaves[x].mailboxes) <= NUM_REGION_PAGES)
    && (forall x :: x in s.threads ==> PageOf(x) + ThreadPages() <= NUM_REGION_PAGES)
  }

  /** thread_load */
  function ThreadLoad(s: State, e: address, x: address): (State, Result)
    requires Tracked(s)
  {
    if CheckMetadata(s, e, EnclavePage) != Ok then (s, CheckMetadata(s, e, EnclavePage))
    else
      assert Marked(s, e, EnclavePage);
      if s.enclaves[e].init != DataLoaded then (s, InvalidState)
      else if CheckFree(s, x, ThreadPages()) != Ok then (s, CheckFree(s, x, ThreadPages()))
      else
        var r := RegionOf(x);
        (s.(pages := s.pages[r := Mark(s.pages[r], PageOf(x), ThreadPages(), ThreadPage, InvalidPage)],
            threads := s.threads[x := Thread(e, 0)],
            enclaves := s.enclaves[e := s.enclaves[e].(threads := s.enclaves[e].threads + 1)]), Ok)
  }

  /** The enclave counts one thread fewer, if it is still there. */
  function Uncount(enclaves: map<address, Enclave>, e: address): map<address, Enclave> {
    if e in enclaves then enclaves[e := enclaves[e].(threads := enclaves[e].threads - 1)] else enclaves
  }

  /** thread_delete; scheduled is what it reads from is_scheduled. */
  function ThreadDelete(s: State, x: address, scheduled: bool): (State, Result)
    requires Tracked(s) && FitsInRegions(s)
  {
    if CheckMetadata(s, x, ThreadPage) != Ok then (s, CheckMetadata(s, x, ThreadPage))
    else
      assert Marked(s, x, ThreadPage);
      var e, r := s.threads[x].owner, RegionOf(x);
      if RegionOf(e) in s.scans then (s, ConcurrentCall)
      else if scheduled then (s, InvalidState)
      else
        (s.(pages := s.pages[r := Mark(s.pages[r], PageOf(x), ThreadPages(), FreePage, FreePage)],
            threads := s.threads - {x}, enclaves := Uncount(s.enclaves, e)), Ok)
  }

  /** enclave_enter by core c */
  function Enter(s: State, c: nat, e: address, x: address, scheduled: bool): (State, Result)
    requires Tracked(s) && c < |s.cores|
  {
    if CheckMetadata(s, e, EnclavePage) != Ok then (s, CheckMetadata(s, e, EnclavePage))
    else
      assert Marked(s, e, EnclavePage);
      if s.enclaves[e].init != Initialized then (s, InvalidState)
      else if CheckMetadata(s, x, ThreadPage) != Ok then (s, CheckMetadata(s, x, ThreadPage))
      else
        assert Marked(s, x, ThreadPage);
        if scheduled || s.threads[x].owner != e then (s, InvalidState)
        else
          var core := s.cores[c];
          (s.(cores := s.cores[c := Core(e, x, core.mmrbm, Bitmap(s.enclaves[e].regions))],
              threads := s.threads[x := s.threads[x].(saved := core.memrbm)]), Ok)
  }

  /** enclave_exit by core c, which runs a thread */
  function Exit(s: State, c: nat): (State, Result)
    requires c < |s.cores| && s.cores[c].thread in s.threads
  {
    if RegionOf(s.cores[c].thread) in s.scans then (s, ConcurrentCall)
    else
      var core := s.cores[c];
      (s.(cores := s.cores[c := Core(UNTRUSTED, 0, core.mmrbm, s.threads[core.thread].saved)]), Ok)
  }

  /** enclave_exit by core c when the metadata of its thread is gone: bitmap is what the thread's pages hold by now. */
  function StrayExit(s: State, c: nat, bitmap: nat): (State, Result)
    requires c < |s.cores|
  {
    if RegionOf(s.cores[c].thread) in s.scans then (s, ConcurrentCall)
    else (s.(cores := s.cores[c := Core(UNTRUSTED, 0, s.cores[c].mmrbm, bitmap)]), Ok)
  }
}
