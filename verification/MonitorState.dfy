/** The security monitor's record of cores, DRAM regions, enclaves and threads (src/sm_types.h, src/sm.h). */
module MonitorState {
  import opened Bytes

  const NUM_REGIONS: nat := 64

  const RAM_BASE: nat := 0x8000_0000

  const REGION_SIZE: nat := 0x200_0000

  const PAGE_SIZE: nat := 0x1000

  const NUM_REGION_PAGES: nat := REGION_SIZE / PAGE_SIZE

  /** get_metadata_start_page: one page, and the pages that page_info takes with a byte for each page. */
  const METADATA_START: nat := 1 + (NUM_REGION_PAGES + (PAGE_SIZE - 1)) / PAGE_SIZE

  type address = x: nat | x < 0x1_0000_0000_0000_0000

  /** OWNER_UNTRUSTED and OWNER_SM; not page aligned, so never the address of an enclave. */
  const UNTRUSTED: address := 1

  const SM: address := 2

  type positive = x: nat | x > 0 witness 1

  /** sizeof(thread_metadata_t), sizeof(enclave_metadata_t), sizeof(mailbox_t) */
  const THREAD_BYTES: positive

  const ENCLAVE_BYTES: positive

  const MAILBOX_BYTES: positive

  /** The fewest pages that hold a thread's metadata. */
  function ThreadPages(): (n: nat)
    ensures n >= 1 && (n - 1) * PAGE_SIZE < THREAD_BYTES <= n * PAGE_SIZE
  {
    (THREAD_BYTES + (PAGE_SIZE - 1)) / PAGE_SIZE
  }

  /** The fewest pages that hold an enclave's metadata with its mailboxes. */
  function EnclavePages(mailboxes: nat): (n: nat)
    ensures n >= 1 && (n - 1) * PAGE_SIZE < ENCLAVE_BYTES + mailboxes * MAILBOX_BYTES <= n * PAGE_SIZE
  {
    MailboxSpace(mailboxes);
    (ENCLAVE_BYTES + mailboxes * MAILBOX_BYTES + (PAGE_SIZE - 1)) / PAGE_SIZE
  }

  lemma MailboxSpace(mailboxes: nat)
    ensures mailboxes * MAILBOX_BYTES >= 0
  {}

  /** addr_to_region_id: an illegally large number for an address outside RAM. */
  function RegionOf(x: address): nat {
    (x as int - RAM_BASE) % 0x1_0000_0000_0000_0000 / REGION_SIZE
  }

  /** addr_to_region_page_id */
  function PageOf(x: address): (p: nat)
    ensures p < NUM_REGION_PAGES
  {
    (x as int - RAM_BASE) % 0x1_0000_0000_0000_0000 % REGION_SIZE / PAGE_SIZE
  }

  predicate Aligned(x: address) { x as int % PAGE_SIZE == 0 }

  /** region_id_to_addr(r), plus p pages. */
  function AddressOf(r: nat, p: nat): address
    requires r < NUM_REGIONS && p < NUM_REGION_PAGES
  {
    RAM_BASE + r * REGION_SIZE + p * PAGE_SIZE
  }

  lemma AddressParts(r: nat, p: nat)
    requires r < NUM_REGIONS && p < NUM_REGION_PAGES
    ensures RegionOf(AddressOf(r, p)) == r && PageOf(AddressOf(r, p)) == p && Aligned(AddressOf(r, p))
  {}

  /** Regions of 32 MiB from 0x8000_0000 on, with pages of 4 KiB, three of which metadata cannot use. */
  lemma MemoryMap(r: nat, p: nat, d: nat)
    requires r < 64 && p < 8192 && d < 4096
    ensures RegionOf(0x8000_0000 + r * 33554432 + p * 4096 + d) == r
    ensures PageOf(0x8000_0000 + r * 33554432 + p * 4096 + d) == p
    ensures Aligned(0x8000_0000 + r * 33554432 + p * 4096 + d) <==> d == 0
    ensures NUM_REGIONS == 64 && NUM_REGION_PAGES == 8192 && METADATA_START == 3
  {
    ModUnique(r * 33554432 + p * 4096 + d, 33554432, r, p * 4096 + d);
    ModUnique(p * 4096 + d, 4096, p, d);
  }

  /** The last address that the monitor itself takes. */
  const SM_LAST_ADDRESS: nat := 0x8004_3000

  /** An aligned address in RAM is determined by its region and its page. */
  lemma AddressIs(x: address)
    requires Aligned(x) && RegionOf(x) < NUM_REGIONS
    ensures x == AddressOf(RegionOf(x), PageOf(x))
  {}

  datatype RegionState = Free | Owned | Blocked

  datatype RegionKind = SmRegion | UntrustedRegion | EnclaveRegion | MetadataRegion

  datatype Region = Region(owner: address, kind: RegionKind, state: RegionState)

  /** mmrbm and memrbm: the regions that untrusted software and the enclave on this core may access. */
  datatype Core = Core(owner: address, thread: address, mmrbm: nat, memrbm: nat)

  datatype PageKind = InvalidPage | FreePage | EnclavePage | ThreadPage

  datatype InitState = Created | DataLoaded | Initialized

  datatype Enclave = Enclave(init: InitState, mailboxes: nat, threads: int, regions: seq<bool>)

  /** saved: the memrbm of the core before the thread was entered. */
  datatype Thread = Thread(owner: address, saved: nat)

  /** scans: the regions that a region_free call has locked, and how many cores it has looked at. */
  datatype State = State(
    cores: seq<Core>,
    regions: seq<Region>,
    untrusted: seq<bool>,
    pages: seq<seq<PageKind>>,
    enclaves: map<address, Enclave>,
    threads: map<address, Thread>,
    scans: map<nat, nat>)

  /** The bitmap of a region map. */
  function Bitmap(flags: seq<bool>): nat {
    if flags == [] then 0 else (if flags[0] then 1 else 0) + 2 * Bitmap(flags[1..])
  }

  /** region_is_accessible: (mrbm >> region_id) & 1 */
  predicate Accessible(bitmap: nat, r: nat) { Shr(bitmap, r) % 2 == 1 }

  lemma {:induction false} BitmapBit(flags: seq<bool>, r: nat)
    ensures Accessible(Bitmap(flags), r) <==> r < |flags| && flags[r]
  {
    if flags == [] {
      NothingAccessible(r);
    } else if r > 0 {
      BitmapBit(flags[1..], r - 1);
    }
  }

  lemma {:induction false} NothingAccessible(r: nat)
    ensures !Accessible(0, r)
  {
    if r > 0 { NothingAccessible(r - 1); }
  }
}
