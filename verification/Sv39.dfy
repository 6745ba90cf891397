/** Sv39 address translation as section 4.4 of the RISC-V Privileged Architecture v1.11 defines it, without permission
    checks and accessed and dirty bits. */
module Sv39 {
  import opened Bytes

  /** Physical memory as 64-bit words; words never written read as zero. */
  type Memory = map<nat, nat>

  function Read(mem: Memory, a: nat): nat { if a in mem then mem[a] else 0 }

  datatype Translation = PageFault | Physical(address: nat)

  /** V is clear, or W is set without R. */
  predicate Faults(pte: nat) { pte % 2 == 0 || (pte / 2 % 2 == 0 && pte / 4 % 2 == 1) }

  /** R or X is set. */
  predicate IsLeaf(pte: nat) { pte / 2 % 2 == 1 || pte / 8 % 2 == 1 }

  /** Bits 53 to 10. */
  function PageNumber(pte: nat): nat { pte / 0x400 % 0x1000_0000_0000 }

  /** The bytes that an entry of level i maps: 4 KiB, 2 MiB or 1 GiB. */
  function PageBytes(i: nat): nat
    requires i < 3
  {
    if i == 0 then 0x1000 else if i == 1 then 0x20_0000 else 0x4000_0000
  }

  /** VPN[i]: bits 20 to 12, 29 to 21 or 38 to 30. */
  function VirtualPageNumber(va: nat, i: nat): (n: nat)
    requires i < 3
    ensures n < 512
  {
    va / PageBytes(i) % 512
  }

  /** Steps 2 to 8 of section 4.3.2 for the table of level i in page a. */
  function Translate(mem: Memory, a: nat, va: nat, i: nat): Translation
    requires i < 3
    decreases i
  {
    var pte := Read(mem, a * 0x1000 + VirtualPageNumber(va, i) * 8);
    if Faults(pte) then PageFault
    else if !IsLeaf(pte) then
      if i == 0 then PageFault else Translate(mem, PageNumber(pte), va, i - 1)
    else if PageNumber(pte) * 0x1000 % PageBytes(i) != 0 then PageFault
    else Physical(PageNumber(pte) * 0x1000 + va % PageBytes(i))
  }

  /** Bits 63 to 39 of an address are all equal to bit 38. */
  predicate Canonical(va: nat) { va < 0x40_0000_0000 || 0xffff_ffc0_0000_0000 <= va < 0x1_0000_0000_0000_0000 }

  /** The translation with this satp, in mode 8. */
  function TranslateAddress(mem: Memory, satp: nat, va: nat): Translation {
    if satp / 0x1000_0000_0000_0000 != 8 || !Canonical(va) then PageFault
    else Translate(mem, satp % 0x1000_0000_0000, va, 2)
  }

  /** The page numbers and the offset make up the low 39 bits of an address. */
  lemma VirtualParts(va: nat)
    ensures va % 0x80_0000_0000 == VirtualPageNumber(va, 2) * 0x4000_0000 + VirtualPageNumber(va, 1) * 0x20_0000
                                   + VirtualPageNumber(va, 0) * 0x1000 + va % 0x1000
  {
    var p0 := va / 0x1000;
    var p1 := p0 / 512;
    var p2 := p1 / 512;
    ModUnique(va, 0x20_0000, p1, p0 % 512 * 0x1000 + va % 0x1000);
    ModUnique(va, 0x4000_0000, p2, p1 % 512 * 0x20_0000 + va % 0x20_0000);
    ModUnique(va, 0x80_0000_0000, p2 / 512, p2 % 512 * 0x4000_0000 + va % 0x4000_0000);
  }

  /** Addresses have the same page numbers exactly when they lie in one page modulo 2^39. */
  lemma SamePage(va: nat, va': nat)
    ensures (&& VirtualPageNumber(va, 0) == VirtualPageNumber(va', 0)
             && VirtualPageNumber(va, 1) == VirtualPageNumber(va', 1)
             && VirtualPageNumber(va, 2) == VirtualPageNumber(va', 2)) <==>
            va % 0x80_0000_0000 / 0x1000 == va' % 0x80_0000_0000 / 0x1000
  {
    hide VirtualPageNumber;
    PageIs(va);
    PageIs(va');
    SameDigits(VirtualPageNumber(va, 2), VirtualPageNumber(va, 1), VirtualPageNumber(va, 0),
               VirtualPageNumber(va', 2), VirtualPageNumber(va', 1), VirtualPageNumber(va', 0));
  }

  lemma SameDigits(n2: nat, n1: nat, n0: nat, m2: nat, m1: nat, m0: nat)
    requires n1 < 512 && n0 < 512 && m1 < 512 && m0 < 512
    ensures n2 * 0x4_0000 + n1 * 0x200 + n0 == m2 * 0x4_0000 + m1 * 0x200 + m0 <==> n2 == m2 && n1 == m1 && n0 == m0
  {}

  lemma PageIs(va: nat)
    ensures va % 0x80_0000_0000 / 0x1000 ==
            VirtualPageNumber(va, 2) * 0x4_0000 + VirtualPageNumber(va, 1) * 0x200 + VirtualPageNumber(va, 0)
  {
    hide VirtualPageNumber;
    VirtualParts(va);
    var n := VirtualPageNumber(va, 2) * 0x4_0000 + VirtualPageNumber(va, 1) * 0x200 + VirtualPageNumber(va, 0);
    ModUnique(va % 0x80_0000_0000, 0x1000, n, va % 0x1000);
  }
}
