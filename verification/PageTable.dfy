/** Enclave page tables: load_page_table_entry (src/common/load_page_table_entry.c) and the Sv39 address
    translation of section 4.4 of the RISC-V Privileged Architecture v1.11 that it prepares. */
module PageTable {
  import opened Bytes
  import opened MonitorState
  import opened Sv39

  const PPN_SPACE: nat := 0x1000_0000_0000

  /** 1 << (12 + 9 i) */
  function Span(i: nat): nat { if i == 0 then 0x1000 else 0x200 * Span(i - 1) }

  /** (virtual_addr >> (PAGE_SHIFT + PN_OFFSET * i)) & PN_MASK */
  function Index(va: nat, i: nat): (k: nat)
    ensures k < 512
  {
    SpanPositive(i);
    va / Span(i) % 512
  }

  lemma {:induction false} SpanPositive(i: nat)
    ensures Span(i) > 0
  {
    if i > 0 { SpanPositive(i - 1); }
  }

  /** The entry for va in the table at base. */
  function EntryAddress(base: nat, va: nat, i: nat): nat { base + Index(va, i) * 8 }

  /** ((pte & PPNs_MASK) >> PAGE_ENTRY_ACL_OFFSET) << PAGE_SHIFT */
  function Target(pte: nat): nat { pte / 0x400 % PPN_SPACE * 0x1000 }

  /** The low ten bits: D, A, G, U, X, W, R, V and two reserved ones. */
  function Acl(pte: nat): nat { pte % 0x400 }

  predicate BitV(pte: nat) { pte % 2 == 1 }

  predicate BitR(pte: nat) { pte / 2 % 2 == 1 }

  predicate BitW(pte: nat) { pte / 4 % 2 == 1 }

  predicate BitX(pte: nat) { pte / 8 % 2 == 1 }

  /** A valid entry that is not a leaf. */
  predicate IsPointer(pte: nat) { BitV(pte) && !BitR(pte) && !BitW(pte) && !BitX(pte) }

  /** ((phys_addr >> PAGE_SHIFT) << PAGE_ENTRY_ACL_OFFSET) & PPNs_MASK | acl & ACL_MASK */
  function MakeEntry(phys: nat, acl: nat): nat {
    BitOr(acl % 0x400, (phys / 0x1000 % PPN_SPACE) * 0x400)
  }

  /** The fields of an entry do not run into each other. */
  lemma EntryFields(phys: nat, acl: nat)
    ensures Acl(MakeEntry(phys, acl)) == acl % 0x400
    ensures Target(MakeEntry(phys, acl)) == phys / 0x1000 % PPN_SPACE * 0x1000
    ensures phys % 0x1000 == 0 && phys < 0x100_0000_0000_0000 ==> Target(MakeEntry(phys, acl)) == phys
  {
    hide BitOr, Pow2;
    Pow2of10();
    var q := phys / 0x1000 % PPN_SPACE;
    OrDisjoint(acl % 0x400, q, 10);
    ModUnique(MakeEntry(phys, acl), 0x400, q, acl % 0x400);
  }

  lemma Pow2of10()
    ensures Pow2(10) == 0x400
  {
    Powers();
    Pow2Add(8, 2);
    SmallPowers();
  }

  datatype Option = None | Some(pte: nat)

  /** The Sv39 walk for va from the table of level i at base, down to an entry of the given level. */
  function Walk(mem: Memory, base: nat, va: nat, i: nat, level: nat): Option
    decreases i
  {
    var pte := Read(mem, EntryAddress(base, va, i));
    if i <= level then Some(pte)
    else if IsPointer(pte) then Walk(mem, Target(pte), va, i - 1, level)
    else None
  }

  /** The addresses that the walk reads above the given level. */
  function Above(mem: Memory, base: nat, va: nat, i: nat, level: nat): set<nat>
    decreases i
  {
    var a := EntryAddress(base, va, i);
    if i <= level then {}
    else if IsPointer(Read(mem, a)) then {a} + Above(mem, Target(Read(mem, a)), va, i - 1, level)
    else {a}
  }

  /** The address of the entry where the walk ends. */
  function Last(mem: Memory, base: nat, va: nat, i: nat, level: nat): nat
    decreases i
  {
    var a := EntryAddress(base, va, i);
    if i <= level || !IsPointer(Read(mem, a)) then a else Last(mem, Target(Read(mem, a)), va, i - 1, level)
  }

  /** Everything the walk reads. */
  function Touched(mem: Memory, base: nat, va: nat, i: nat, level: nat): set<nat> {
    Above(mem, base, va, i, level) + {Last(mem, base, va, i, level)}
  }

  /** A write that a walk does not read leaves the walk as it was. */
  lemma {:induction false} WalkUnchanged(mem: Memory, base: nat, va: nat, i: nat, level: nat, a: nat, v: nat)
    requires a !in Touched(mem, base, va, i, level)
    ensures Walk(mem[a := v], base, va, i, level) == Walk(mem, base, va, i, level)
    decreases i
  {
    hide EntryAddress, Target, IsPointer;
    var pte := Read(mem, EntryAddress(base, va, i));
    if i > level && IsPointer(pte) { WalkUnchanged(mem, Target(pte), va, i - 1, level, a, v); }
  }

  /** A write to the entry where a walk ends is what the walk then finds there. */
  lemma {:induction false} WalkFinds(mem: Memory, base: nat, va: nat, i: nat, level: nat, v: nat)
    requires Walk(mem, base, va, i, level) != None
    requires Last(mem, base, va, i, level) !in Above(mem, base, va, i, level)
    ensures Walk(mem[Last(mem, base, va, i, level) := v], base, va, i, level) == Some(v)
    decreases i
  {
    hide EntryAddress, Target, IsPointer;
    var pte := Read(mem, EntryAddress(base, va, i));
    if i > level { WalkFinds(mem, Target(pte), va, i - 1, level, v); }
  }

  /** A leaf written over an entry that a walk reads above its end cuts the walk off. */
  lemma {:induction false} WalkCut(mem: Memory, base: nat, va: nat, i: nat, level: nat, a: nat, v: nat)
    requires a in Above(mem, base, va, i, level) && !IsPointer(v)
    ensures Walk(mem[a := v], base, va, i, level) == None
    decreases i
  {
    hide EntryAddress, Target, IsPointer;
    var pte := Read(mem, EntryAddress(base, va, i));
    if a != EntryAddress(base, va, i) { WalkCut(mem, Target(pte), va, i - 1, level, a, v); }
  }

  /** The first level at which the walk reads address a. */
  function FirstLevel(mem: Memory, base: nat, va: nat, i: nat, level: nat, a: nat): (j: nat)
    requires a in Above(mem, base, va, i, level)
    ensures level < j <= i
    decreases i
  {
    var b := EntryAddress(base, va, i);
    if a == b then i else FirstLevel(mem, Target(Read(mem, b)), va, i - 1, level, a)
  }

  /** A pointer written over such an entry sends the walk on to its own table, one level below. */
  lemma {:induction false} WalkRedirected(mem: Memory, base: nat, va: nat, i: nat, level: nat, a: nat, v: nat)
    requires a in Above(mem, base, va, i, level) && IsPointer(v)
    ensures var j := FirstLevel(mem, base, va, i, level, a);
            Walk(mem[a := v], base, va, i, level) == Walk(mem[a := v], Target(v), va, j - 1, level)
    decreases i
  {
    hide EntryAddress, Target, IsPointer;
    var pte := Read(mem, EntryAddress(base, va, i));
    if a != EntryAddress(base, va, i) { WalkRedirected(mem, Target(pte), va, i - 1, level, a, v); }
  }

  datatype Result = Ok | InvalidState

  /** A table address: page aligned, 56 bits. */
  predicate TableAddress(base: nat) { base % 0x1000 == 0 && base < 0x100_0000_0000_0000 }

  /** The owner check of the code: an address outside RAM has no owner. */
  predicate Owns(owned: set<nat>, a: nat)
    requires a < 0x1_0000_0000_0000_0000
  {
    RegionOf(a) in owned
  }

  lemma TargetIsTable(pte: nat)
    ensures TableAddress(Target(pte))
  {}

  /** An entry lies in the region of its table. */
  lemma EntryRegion(base: nat, va: nat, i: nat)
    requires TableAddress(base)
    ensures EntryAddress(base, va, i) < 0x1_0000_0000_0000_0000
    ensures RegionOf(EntryAddress(base, va, i)) == RegionOf(base)
  {
    hide Index;
    SameRegion(base, Index(va, i) * 8);
  }

  lemma SameRegion(base: nat, d: nat)
    requires TableAddress(base) && d < 0x1000
    ensures RegionOf(base + d) == RegionOf(base)
  {
    var space := 0x1_0000_0000_0000_0000;
    var q, x := (base - RAM_BASE) / space, (base - RAM_BASE) % space;
    PageMultiple(base - RAM_BASE, space, q, x);
    ModUnique(base + d - RAM_BASE, space, q, x + d);
    PageMultiple(x, REGION_SIZE, x / REGION_SIZE, x % REGION_SIZE);
    ModUnique(x + d, REGION_SIZE, x / REGION_SIZE, x % REGION_SIZE + d);
  }

  lemma PageMultiple(y: int, m: int, q: int, r: int)
    requires y % 0x1000 == 0 && m > 0 && m % 0x1000 == 0 && y == m * q + r && 0 <= r < m
    ensures r % 0x1000 == 0 && r <= m - 0x1000
  {
    assert r == 0x1000 * (y / 0x1000 - m / 0x1000 * q);
  }

  /** The owner checks and pointer checks of load_page_table_entry all pass. */
  predicate Loadable(mem: Memory, owned: set<nat>, base: nat, va: nat, i: nat, level: nat)
    requires TableAddress(base)
    decreases i
  {
    && Owns(owned, base)
    && (i <= level ||
        var pte := Read(mem, EntryAddress(base, va, i));
        TargetIsTable(pte);
        IsPointer(pte) && Loadable(mem, owned, Target(pte), va, i - 1, level))
  }

  /** The table root in eptbr: its low 44 bits are a page number. */
  function RootOf(eptbr: nat): nat { eptbr % PPN_SPACE * 0x1000 }

  /** The state that load_page_table_entry changes. */
  class Tables {
    var eptbr: nat
    var mem: Memory

    /** For any page-table contents: the loader reads and writes only in regions owned by the enclave, and it
        succeeds exactly when the whole path is owned and made of pointers. */
    method LoadPageTableEntry(owned: set<nat>, phys: nat, va: nat, level: nat, acl: nat)
      returns (result: Result, ghost touched: set<nat>)
      requires level < 0x8000_0000 && phys < 0x1_0000_0000_0000_0000
      modifies this
      ensures forall a | a in touched :: a < 0x1_0000_0000_0000_0000 && Owns(owned, a)
      ensures level == 3 ==> result == Ok && mem == old(mem) && eptbr == phys / 0x1000 + 0x8000_0000_0000_0000
      ensures level != 3 ==> eptbr == old(eptbr) && TableAddress(RootOf(eptbr))
      ensures level > 3 ==> mem == old(mem) && (result == Ok <==> Owns(owned, RootOf(eptbr)))
      ensures level < 3 ==> (result == Ok <==> Loadable(old(mem), owned, RootOf(eptbr), va, 2, level))
      ensures level < 3 && result == Ok ==>
              mem == old(mem)[Last(old(mem), RootOf(eptbr), va, 2, level) := MakeEntry(phys, acl)]
      ensures result != Ok ==> mem == old(mem)
    {
      hide RegionOf, EntryAddress, Target, IsPointer, BitOr, Owns;
      touched := {};
      if level == 3 {
        eptbr := phys / 0x1000;
        SetMode(eptbr);
        eptbr := BitOr(eptbr, 8 * 0x1000_0000_0000_0000);
        return Ok, touched;
      }
      var base := RootOf(eptbr);
      RootIsTable(eptbr);
      if !Owns(owned, base) {
        return InvalidState, touched;
      }
      if 2 < level {
        return Ok, touched;
      }
      var i := 2;
      while i > level
        invariant level <= i <= 2 && mem == old(mem) && eptbr == old(eptbr) && TableAddress(base) && Owns(owned, base)
        invariant forall a | a in touched :: a < 0x1_0000_0000_0000_0000 && Owns(owned, a)
        invariant Loadable(mem, owned, RootOf(eptbr), va, 2, level) <==> Loadable(mem, owned, base, va, i, level)
        invariant Last(mem, RootOf(eptbr), va, 2, level) == Last(mem, base, va, i, level)
                  || !Loadable(mem, owned, base, va, i, level)
      {
        var a := EntryAddress(base, va, i);
        InOwned(owned, base, va, i);
        touched := touched + {a};
        var pte := Read(mem, a);
        if !IsPointer(pte) {
          return InvalidState, touched;
        }
        TargetIsTable(pte);
        base := Target(pte);
        if !Owns(owned, base) {
          return InvalidState, touched;
        }
        i := i - 1;
      }
      var a := EntryAddress(base, va, level);
      InOwned(owned, base, va, level);
      touched := touched + {a};
      mem := mem[a := MakeEntry(phys, acl)];
      return Ok, touched;
    }
  }

  lemma InOwned(owned: set<nat>, base: nat, va: nat, i: nat)
    requires TableAddress(base) && Owns(owned, base)
    ensures EntryAddress(base, va, i) < 0x1_0000_0000_0000_0000 && Owns(owned, EntryAddress(base, va, i))
  {
    EntryRegion(base, va, i);
  }

  lemma RootIsTable(eptbr: nat)
    ensures TableAddress(RootOf(eptbr))
  {}

  /** Setting the mode field of eptbr. */
  lemma SetMode(ppn: nat)
    requires ppn < 0x10_0000_0000_0000
    ensures BitOr(ppn, 8 * 0x1000_0000_0000_0000) == ppn + 0x8000_0000_0000_0000
    ensures RootOf(ppn + 0x8000_0000_0000_0000) == ppn % PPN_SPACE * 0x1000
  {
    Pow2of60();
    OrDisjoint(ppn, 8, 60);
  }

  lemma Pow2of60()
    ensures Pow2(60) == 0x1000_0000_0000_0000
  {
    hide Pow2;
    SmallPowers();
    Powers();
    Pow2Add(24, 24);
    Pow2Add(48, 8);
    Pow2Add(56, 4);
  }

  /** A path that can be loaded is a walk. */
  lemma {:induction false} LoadableWalks(mem: Memory, owned: set<nat>, base: nat, va: nat, i: nat, level: nat)
    requires TableAddress(base) && Loadable(mem, owned, base, va, i, level)
    ensures Walk(mem, base, va, i, level) != None
    decreases i
  {
    hide EntryAddress, Target, IsPointer, Owns;
    var pte := Read(mem, EntryAddress(base, va, i));
    if i > level {
      TargetIsTable(pte);
      LoadableWalks(mem, owned, Target(pte), va, i - 1, level);
    }
  }

  /** The tables on the path to the given level, from the table of level i at base. */
  function PathTables(mem: Memory, base: nat, va: nat, i: nat, level: nat): (t: seq<nat>)
    ensures |t| >= 1
    decreases i
  {
    if i <= level then [base]
    else [base] + PathTables(mem, Target(Read(mem, EntryAddress(base, va, i))), va, i - 1, level)
  }

  function PageBase(a: nat): nat { a / 0x1000 * 0x1000 }

  lemma EntryPage(base: nat, va: nat, i: nat)
    requires TableAddress(base)
    ensures PageBase(EntryAddress(base, va, i)) == base
  {
    hide Index;
  }

  lemma {:induction false} LastTable(mem: Memory, owned: set<nat>, base: nat, va: nat, i: nat, level: nat)
    requires TableAddress(base) && Loadable(mem, owned, base, va, i, level)
    ensures var t := PathTables(mem, base, va, i, level); t[|t| - 1] == PageBase(Last(mem, base, va, i, level))
    decreases i
  {
    hide EntryAddress, Target, IsPointer, Owns, PageBase;
    if i <= level {
      EntryPage(base, va, i);
    } else {
      var pte := Read(mem, EntryAddress(base, va, i));
      TargetIsTable(pte);
      LastTable(mem, owned, Target(pte), va, i - 1, level);
    }
  }

  /** All tables but the last. */
  function Earlier(t: seq<nat>): seq<nat>
    requires |t| >= 1
  {
    t[..|t| - 1]
  }

  /** Every entry read above the given level lies in one of the tables before the last. */
  lemma {:induction false} AboveTables(mem: Memory, owned: set<nat>, base: nat, va: nat, i: nat, level: nat, a: nat)
    requires TableAddress(base) && Loadable(mem, owned, base, va, i, level) && a in Above(mem, base, va, i, level)
    ensures PageBase(a) in Earlier(PathTables(mem, base, va, i, level))
    decreases i
  {
    hide EntryAddress, Target, IsPointer, Owns, PageBase;
    var pte := Read(mem, EntryAddress(base, va, i));
    TargetIsTable(pte);
    var t, u := PathTables(mem, base, va, i, level), PathTables(mem, Target(pte), va, i - 1, level);
    assert t == [base] + u;
    if a == EntryAddress(base, va, i) {
      EntryPage(base, va, i);
    } else {
      AboveTables(mem, owned, Target(pte), va, i - 1, level, a);
    }
    assert Earlier(t) == [base] + Earlier(u);
  }

  predicate Distinct(t: seq<nat>) { forall j, k :: 0 <= j < k < |t| ==> t[j] != t[k] }

  /** Whether an entry is a pointer is a matter of its access bits. */
  lemma PointerByAcl(phys: nat, acl: nat)
    ensures IsPointer(MakeEntry(phys, acl)) <==> IsPointer(acl)
  {
    hide MakeEntry;
    EntryFields(phys, acl);
    LowBits(MakeEntry(phys, acl));
    LowBits(acl);
  }

  lemma LowBits(x: nat)
    ensures IsPointer(x) <==> IsPointer(x % 0x400)
  {
    var q, r := x / 0x400, x % 0x400;
    BitBelow(x, 1, 0x200 * q, r);
    BitBelow(x, 2, 0x100 * q, r);
    BitBelow(x, 4, 0x80 * q, r);
    BitBelow(x, 8, 0x40 * q, r);
  }

  /** A multiple of 2 d does not reach the bit of weight d. */
  lemma BitBelow(x: nat, d: nat, k: nat, r: nat)
    requires d > 0 && x == d * (2 * k) + r
    ensures x / d % 2 == r / d % 2
  {
    Euclid(r, d);
    assert d * (2 * k + r / d) == d * (2 * k) + d * (r / d);
    ModUnique(x, d, 2 * k + r / d, r % d);
  }

  /** After a successful load the Sv39 walk for the virtual address finds, at the loaded level, exactly the physical
      address and the access bits, unless the entry written is one that the walk read on its way. */
  lemma LoadThenWalk(mem: Memory, owned: set<nat>, root: nat, va: nat, level: nat, phys: nat, acl: nat)
    requires level < 3 && TableAddress(root) && Loadable(mem, owned, root, va, 2, level) && TableAddress(phys)
    requires Last(mem, root, va, 2, level) !in Above(mem, root, va, 2, level)
    ensures var w := Walk(mem[Last(mem, root, va, 2, level) := MakeEntry(phys, acl)], root, va, 2, level);
            w == Some(MakeEntry(phys, acl)) && Target(w.pte) == phys && Acl(w.pte) == acl % 0x400
  {
    hide EntryAddress, Target, Acl, IsPointer, Owns, MakeEntry, Walk, Above, Last, Loadable;
    LoadableWalks(mem, owned, root, va, 2, level);
    WalkFinds(mem, root, va, 2, level, MakeEntry(phys, acl));
    EntryFields(phys, acl);
  }

  /** For a leaf that is the exact condition: otherwise the walk fails. */
  lemma LeafFoundExactly(mem: Memory, owned: set<nat>, root: nat, va: nat, level: nat, phys: nat, acl: nat)
    requires level < 3 && TableAddress(root) && Loadable(mem, owned, root, va, 2, level) && !IsPointer(acl)
    ensures var a := Last(mem, root, va, 2, level);
            var w := Walk(mem[a := MakeEntry(phys, acl)], root, va, 2, level);
            && (w == Some(MakeEntry(phys, acl)) <==> a !in Above(mem, root, va, 2, level))
            && (w == None <==> a in Above(mem, root, va, 2, level))
  {
    hide EntryAddress, Target, Acl, IsPointer, Owns, MakeEntry, Walk, Above, Last, Loadable;
    var a := Last(mem, root, va, 2, level);
    LoadableWalks(mem, owned, root, va, 2, level);
    PointerByAcl(phys, acl);
    if a in Above(mem, root, va, 2, level) {
      WalkCut(mem, root, va, 2, level, a, MakeEntry(phys, acl));
    } else {
      WalkFinds(mem, root, va, 2, level, MakeEntry(phys, acl));
    }
  }

  /** For a pointer, that is a new table, the walk otherwise goes on in that table below the level of the first read. */
  lemma PointerRedirects(mem: Memory, root: nat, va: nat, level: nat, phys: nat, acl: nat)
    requires level < 3 && TableAddress(phys) && IsPointer(acl)
    requires Last(mem, root, va, 2, level) in Above(mem, root, va, 2, level)
    ensures var a := Last(mem, root, va, 2, level);
            var after := mem[a := MakeEntry(phys, acl)];
            Walk(after, root, va, 2, level) == Walk(after, phys, va, FirstLevel(mem, root, va, 2, level, a) - 1, level)
  {
    hide EntryAddress, Target, Acl, IsPointer, MakeEntry, Walk, Above, Last;
    PointerByAcl(phys, acl);
    EntryFields(phys, acl);
    WalkRedirected(mem, root, va, 2, level, Last(mem, root, va, 2, level), MakeEntry(phys, acl));
  }

  /** Distinct tables on the path are enough: then the entry written is not read on the way. */
  lemma DistinctTables(mem: Memory, owned: set<nat>, root: nat, va: nat, level: nat)
    requires level < 3 && TableAddress(root) && Loadable(mem, owned, root, va, 2, level)
    requires Distinct(PathTables(mem, root, va, 2, level))
    ensures Last(mem, root, va, 2, level) !in Above(mem, root, va, 2, level)
  {
    hide EntryAddress, Owns, PageBase, Above, Last, Loadable, PathTables;
    if Last(mem, root, va, 2, level) in Above(mem, root, va, 2, level) {
      LastTable(mem, owned, root, va, 2, level);
      AboveTables(mem, owned, root, va, 2, level, Last(mem, root, va, 2, level));
    }
  }

  /** Loading leaves every walk unchanged that does not read the entry written. */
  lemma LoadKeepsWalks(mem: Memory, root: nat, va: nat, level: nat, v: nat, va': nat, level': nat)
    requires level < 3 && Last(mem, root, va, 2, level) !in Touched(mem, root, va', 2, level')
    ensures Walk(mem[Last(mem, root, va, 2, level) := v], root, va', 2, level') == Walk(mem, root, va', 2, level')
  {
    WalkUnchanged(mem, root, va', 2, level', Last(mem, root, va, 2, level), v);
  }

  /** The loader's index is the page number of the architecture. */
  lemma IndexIs(va: nat, i: nat)
    requires i < 3
    ensures Index(va, i) == VirtualPageNumber(va, i)
  {
    assert Span(0) == 0x1000 && Span(1) == 0x20_0000 && Span(2) == 0x4000_0000;
  }

  /** So are its pointers and its table addresses. */
  lemma PointerIs(pte: nat)
    ensures IsPointer(pte) <==> !Faults(pte) && !IsLeaf(pte)
    ensures Target(pte) == PageNumber(pte) * 0x1000
  {}

  /** The page numbers from a level on are the same. */
  predicate SameFrom(va: nat, va': nat, level: nat) {
    forall i :: level <= i < 3 ==> VirtualPageNumber(va, i) == VirtualPageNumber(va', i)
  }

  /** What the hardware makes of a leaf in an entry of level i. */
  function Mapped(pte: nat, va: nat, i: nat): Translation
    requires i < 3
  {
    if PageNumber(pte) * 0x1000 % PageBytes(i) != 0 then PageFault
    else Physical(PageNumber(pte) * 0x1000 + va % PageBytes(i))
  }

  /** The hardware translates by the leaf where the walk ends. */
  lemma {:induction false} WalkTranslates(mem: Memory, base: nat, va: nat, va': nat, i: nat, level: nat, pte: nat)
    requires level <= i < 3 && base % 0x1000 == 0 && Walk(mem, base, va, i, level) == Some(pte)
    requires SameFrom(va, va', level) && !Faults(pte) && IsLeaf(pte)
    ensures Translate(mem, base / 0x1000, va', i) == Mapped(pte, va', level)
    decreases i
  {
    hide Index, VirtualPageNumber, Target, IsPointer, Faults, IsLeaf, PageNumber, PageBytes;
    IndexIs(va, i);
    var entry := Read(mem, EntryAddress(base, va, i));
    PointerIs(entry);
    if i > level { WalkTranslates(mem, Target(entry), va, va', i - 1, level, pte); }
  }

  /** After a leaf has been loaded, the hardware maps every address of its page to the physical page, unless the entry
      written is one that the walk read on its way. */
  lemma LoadThenTranslate(mem: Memory, owned: set<nat>, eptbr: nat, va: nat, level: nat, phys: nat, acl: nat, va': nat)
    requires level < 3 && eptbr / 0x1000_0000_0000_0000 == 8 && TableAddress(phys) && phys % PageBytes(level) == 0
    requires TableAddress(RootOf(eptbr)) && Loadable(mem, owned, RootOf(eptbr), va, 2, level)
    requires Last(mem, RootOf(eptbr), va, 2, level) !in Above(mem, RootOf(eptbr), va, 2, level)
    requires !Faults(acl) && IsLeaf(acl) && Canonical(va') && SameFrom(va, va', level)
    ensures TranslateAddress(mem[Last(mem, RootOf(eptbr), va, 2, level) := MakeEntry(phys, acl)], eptbr, va') ==
            Physical(phys + va' % PageBytes(level))
  {
    hide EntryAddress, Target, Acl, IsPointer, Owns, MakeEntry, Walk, Above, Last, Loadable, Faults, IsLeaf, Translate;
    hide PageBytes, SameFrom;
    var root := RootOf(eptbr);
    var after := mem[Last(mem, root, va, 2, level) := MakeEntry(phys, acl)];
    LoadThenWalk(mem, owned, root, va, level, phys, acl);
    LeafByAcl(phys, acl);
    PointerIs(MakeEntry(phys, acl));
    WalkTranslates(after, root, va, va', 2, level, MakeEntry(phys, acl));
    assert root / 0x1000 == eptbr % 0x1000_0000_0000;
  }

  /** Whether an entry is a leaf is a matter of its access bits. */
  lemma LeafByAcl(phys: nat, acl: nat)
    ensures Faults(MakeEntry(phys, acl)) <==> Faults(acl)
    ensures IsLeaf(MakeEntry(phys, acl)) <==> IsLeaf(acl)
  {
    hide MakeEntry;
    EntryFields(phys, acl);
    LowLeafBits(MakeEntry(phys, acl));
    LowLeafBits(acl);
  }

  lemma LowLeafBits(x: nat)
    ensures Faults(x) <==> Faults(x % 0x400)
    ensures IsLeaf(x) <==> IsLeaf(x % 0x400)
  {
    var q, r := x / 0x400, x % 0x400;
    BitBelow(x, 1, 0x200 * q, r);
    BitBelow(x, 2, 0x100 * q, r);
    BitBelow(x, 4, 0x80 * q, r);
    BitBelow(x, 8, 0x40 * q, r);
  }

  /** A leaf written over an entry that the walk reads above its end is what the hardware then uses, as a leaf of the
      level of the first read. */
  lemma {:induction false} TranslateCut(mem: Memory, base: nat, va: nat, i: nat, level: nat, a: nat, pte: nat)
    requires level <= i < 3 && base % 0x1000 == 0 && a in Above(mem, base, va, i, level)
    requires !Faults(pte) && IsLeaf(pte)
    ensures Translate(mem[a := pte], base / 0x1000, va, i) == Mapped(pte, va, FirstLevel(mem, base, va, i, level, a))
    decreases i
  {
    hide Index, VirtualPageNumber, Target, IsPointer, Faults, IsLeaf, PageNumber, PageBytes;
    IndexIs(va, i);
    var entry := Read(mem, EntryAddress(base, va, i));
    PointerIs(entry);
    if a != EntryAddress(base, va, i) { TranslateCut(mem, Target(entry), va, i - 1, level, a, pte); }
  }

  /** Otherwise the leaf ends up as a leaf of a higher level: a misaligned one, which faults, or one that maps more. */
  lemma LeafAtHigherLevel(mem: Memory, eptbr: nat, va: nat, level: nat, phys: nat, acl: nat)
    requires level < 3 && eptbr / 0x1000_0000_0000_0000 == 8 && TableAddress(phys) && Canonical(va)
    requires Last(mem, RootOf(eptbr), va, 2, level) in Above(mem, RootOf(eptbr), va, 2, level)
    requires !Faults(acl) && IsLeaf(acl)
    ensures var a := Last(mem, RootOf(eptbr), va, 2, level);
            var j := FirstLevel(mem, RootOf(eptbr), va, 2, level, a);
            level < j < 3 && TranslateAddress(mem[a := MakeEntry(phys, acl)], eptbr, va) ==
                             if phys % PageBytes(j) != 0 then PageFault else Physical(phys + va % PageBytes(j))
  {
    hide EntryAddress, Target, Acl, IsPointer, MakeEntry, Walk, Above, Last, Faults, IsLeaf, Translate, PageBytes;
    var root := RootOf(eptbr);
    LeafByAcl(phys, acl);
    EntryFields(phys, acl);
    PointerIs(MakeEntry(phys, acl));
    TranslateCut(mem, root, va, 2, level, Last(mem, root, va, 2, level), MakeEntry(phys, acl));
    assert root / 0x1000 == eptbr % 0x1000_0000_0000;
  }

  /** A write to an entry that the hardware does not read for an address leaves its translation as it was. */
  lemma {:induction false} TranslateUnchanged(mem: Memory, base: nat, va: nat, i: nat, a: nat, v: nat)
    requires i < 3 && base % 0x1000 == 0 && a !in Touched(mem, base, va, i, 0)
    ensures Translate(mem[a := v], base / 0x1000, va, i) == Translate(mem, base / 0x1000, va, i)
    decreases i
  {
    hide Index, VirtualPageNumber, Target, IsPointer, Faults, IsLeaf, PageNumber, PageBytes;
    IndexIs(va, i);
    var entry := Read(mem, EntryAddress(base, va, i));
    PointerIs(entry);
    if i > 0 && IsPointer(entry) { TranslateUnchanged(mem, Target(entry), va, i - 1, a, v); }
  }

  /** Entries are the same exactly when they are the same entry of the same table. */
  lemma EntriesDistinct(base: nat, va: nat, i: nat, base': nat, va': nat, i': nat)
    requires TableAddress(base) && TableAddress(base') && i < 3 && i' < 3
    ensures EntryAddress(base, va, i) == EntryAddress(base', va', i') <==>
            base == base' && VirtualPageNumber(va, i) == VirtualPageNumber(va', i')
  {
    hide Index, VirtualPageNumber;
    IndexIs(va, i);
    IndexIs(va', i');
    EntryPage(base, va, i);
    EntryPage(base', va', i');
  }

  /** A case where the entry written is read on the way: in a root table that points to itself, loading a table at
      level 1 replaces the pointer of the root, and the walk ends at an empty entry instead. */
  lemma SharedTable()
    ensures var root, phys := 0x8400_0000, 0x8600_0000;
            var mem := map[root := MakeEntry(root, 1)];
            && Loadable(mem, {RegionOf(root)}, root, 0, 2, 1)
            && Walk(mem[Last(mem, root, 0, 2, 1) := MakeEntry(phys, 1)], root, 0, 2, 1) == Some(0)
  {
    var root, phys := 0x8400_0000, 0x8600_0000;
    hide MakeEntry, RegionOf;
    EntryFields(root, 1);
    EntryFields(phys, 1);
    PointerOf(MakeEntry(root, 1));
    PointerOf(MakeEntry(phys, 1));
    ZeroIndex(1);
    ZeroIndex(2);
    var mem := map[root := MakeEntry(root, 1)];
    hide Index, Target, IsPointer;
    assert EntryAddress(root, 0, 2) == root && EntryAddress(root, 0, 1) == root && EntryAddress(phys, 0, 1) == phys;
    assert Last(mem, root, 0, 2, 1) == root;
    var after := mem[root := MakeEntry(phys, 1)];
    assert Read(after, root) == MakeEntry(phys, 1) && Read(after, phys) == 0;
  }

  /** The same root, and a leaf at level 0: it replaces the pointer of the root, and the walk fails. */
  lemma SharedTableLeaf(phys: nat)
    ensures var root := 0x8400_0000;
            var mem := map[root := MakeEntry(root, 1)];
            && Loadable(mem, {RegionOf(root)}, root, 0, 2, 0)
            && Walk(mem[Last(mem, root, 0, 2, 0) := MakeEntry(phys, 3)], root, 0, 2, 0) == None
  {
    var root := 0x8400_0000;
    var mem := map[root := MakeEntry(root, 1)];
    SelfMapped(root);
    hide MakeEntry, RegionOf, Index, Target, IsPointer, Walk, Above, Last;
    assert !IsPointer(3) by { LeafAcl(); }
    LeafFoundExactly(mem, {RegionOf(root)}, root, 0, 0, phys, 3);
  }

  lemma LeafAcl()
    ensures !IsPointer(3)
  {}

  lemma SelfMapped(root: nat)
    requires TableAddress(root)
    ensures var mem := map[root := MakeEntry(root, 1)];
            && Loadable(mem, {RegionOf(root)}, root, 0, 2, 0)
            && Last(mem, root, 0, 2, 0) in Above(mem, root, 0, 2, 0)
  {
    hide MakeEntry, RegionOf, Index, Target, IsPointer;
    EntryFields(root, 1);
    PointerOf(MakeEntry(root, 1));
    ZeroIndex(0);
    ZeroIndex(1);
    ZeroIndex(2);
    var mem := map[root := MakeEntry(root, 1)];
    assert EntryAddress(root, 0, 2) == root && EntryAddress(root, 0, 1) == root && EntryAddress(root, 0, 0) == root;
    assert Read(mem, root) == MakeEntry(root, 1);
    assert Loadable(mem, {RegionOf(root)}, root, 0, 0, 0) && Loadable(mem, {RegionOf(root)}, root, 0, 1, 0);
    assert Last(mem, root, 0, 1, 0) == root;
  }

  lemma PointerOf(pte: nat)
    requires Acl(pte) == 1
    ensures IsPointer(pte)
  {}

  lemma ZeroIndex(i: nat)
    ensures Index(0, i) == 0
  {
    SpanPositive(i);
  }
}
