/** Last-level-cache partitioning (src/api/region_cache_partitionning.c): which cache sets each region uses. */
module LlcPartition {
  import opened Bytes

  const NUM_REGIONS: nat := 64

  const CACHE_SETS: nat := 1024

  /** The sets base .. base + 2^lgsize of a region. */
  datatype Slice = Slice(base: nat, lgsize: nat)

  /** 2^lgsizes[0] + ... + 2^lgsizes[n - 1] */
  function Total(lgsizes: seq<nat>, n: nat): nat
    requires n <= |lgsizes|
  {
    if n == 0 then 0 else Total(lgsizes, n - 1) + Pow2(lgsizes[n - 1])
  }

  /** Every region gets the sets right above those of the regions before it. */
  function Layout(lgsizes: seq<nat>): (t: seq<Slice>)
    ensures |t| == |lgsizes|
    ensures forall r :: 0 <= r < |t| ==> t[r] == Slice(Total(lgsizes, r), lgsizes[r])
  {
    seq(|lgsizes|, r requires 0 <= r < |lgsizes| => Slice(Total(lgsizes, r), lgsizes[r]))
  }

  predicate Fits(lgsizes: seq<nat>) {
    && |lgsizes| == NUM_REGIONS
    && (forall r :: 0 <= r < NUM_REGIONS ==> lgsizes[r] < 10)
    && Total(lgsizes, NUM_REGIONS) <= CACHE_SETS
  }

  lemma {:induction false} TotalGrows(lgsizes: seq<nat>, m: nat, n: nat)
    requires m <= n <= |lgsizes|
    ensures Total(lgsizes, m) + (n - m) <= Total(lgsizes, n)
    ensures m < n ==> Total(lgsizes, m) + Pow2(lgsizes[m]) <= Total(lgsizes, n)
  {
    if m < n { TotalGrows(lgsizes, m, n - 1); }
  }

  /** The slices of a partitioning that fits are disjoint and inside the cache. */
  lemma SlicesDisjoint(lgsizes: seq<nat>, r: nat, q: nat)
    requires Fits(lgsizes) && r < q < NUM_REGIONS
    ensures var t := Layout(lgsizes);
            0 <= t[r].base && t[r].base + Pow2(t[r].lgsize) <= t[q].base && t[q].base + Pow2(t[q].lgsize) <= CACHE_SETS
  {
    TotalGrows(lgsizes, r, q);
    TotalGrows(lgsizes, q, NUM_REGIONS);
  }

  lemma {:induction false} SamePrefix(a: seq<nat>, b: seq<nat>, n: nat)
    requires n <= |a| && n <= |b| && forall r :: 0 <= r < n ==> a[r] == b[r]
    ensures Total(a, n) == Total(b, n)
  {
    if n > 0 { SamePrefix(a, b, n - 1); }
  }

  /** (rid << 14) + (base << 4) + size */
  function ControlWord(rid: nat, base: nat, size: nat): nat {
    rid * 0x4000 + base * 0x10 + size
  }

  /** How the cache controller reads a control word. */
  function WordRegion(w: nat): nat { w / 0x4000 }

  function WordSlice(w: nat): Slice { Slice(w / 0x10 % 0x400, w % 0x10) }

  /** The three fields do not run into each other. */
  lemma WordRoundTrip(rid: nat, base: nat, size: nat)
    requires base < 1024 && size < 16
    ensures WordRegion(ControlWord(rid, base, size)) == rid
    ensures WordSlice(ControlWord(rid, base, size)) == Slice(base, size)
  {
    var w := ControlWord(rid, base, size);
    ModUnique(w, 0x4000, rid, base * 0x10 + size);
    ModUnique(w, 0x10, rid * 0x400 + base, size);
    ModUnique(rid * 0x400 + base, 0x400, rid, base);
  }

  /** The sum is the or of the region at bit 14, the base at bit 4 and the size at bit 0. */
  lemma ControlBits(rid: nat, base: nat, size: nat)
    requires base < 1024 && size < 16
    ensures ControlWord(rid, base, size) == BitOr(size + base * Pow2(4), rid * Pow2(14))
    ensures size + base * Pow2(4) == BitOr(size, base * Pow2(4))
  {
    hide Pow2, BitOr;
    SmallPowers();
    Powers();
    Pow2Add(8, 6);
    OrDisjoint(size, base, 4);
    OrDisjoint(size + base * Pow2(4), rid, 14);
  }

  datatype Result = Ok | InvalidValue | ConcurrentCall | InvalidState

  lemma NoTotal(part: seq<nat>)
    ensures Total(part, 0) == 0
  {}

  lemma NextTotal(part: seq<nat>, n: nat)
    requires n < |part|
    ensures Total(part, n + 1) == Total(part, n) + Pow2(part[n])
  {}

  predicate IsBases(bases: seq<nat>, part: seq<nat>) {
    |bases| == |part| && forall r :: 0 <= r < |part| ==> bases[r] == Total(part, r)
  }

  /** What the first loop finds out about a request. */
  datatype Survey = Rejected | Accepted(bases: seq<nat>, firstModified: nat)

  /** The accumulation loop: the bases, and the first region whose size changes (NUM_REGIONS if none does). */
  method SurveyRequest(part: seq<nat>, lgsizes: seq<nat>) returns (s: Survey)
    requires |part| == |lgsizes| == NUM_REGIONS
    ensures s.Accepted? <==> Fits(part)
    ensures s.Accepted? ==> IsBases(s.bases, part)
    ensures s.Accepted? ==> s.firstModified <= NUM_REGIONS && part[..s.firstModified] == lgsizes[..s.firstModified]
    ensures s.Accepted? && s.firstModified < NUM_REGIONS ==> part[s.firstModified] != lgsizes[s.firstModified]
  {
    hide Pow2, Total;
    NoTotal(part);
    var sum: nat := 0;
    var found, first := false, 0;
    var bases: seq<nat> := [];
    for i := 0 to NUM_REGIONS
      invariant |bases| == i && sum == Total(part, i) && first <= i
      invariant forall r :: 0 <= r < i ==> part[r] < 10 && bases[r] == Total(part, r)
      invariant forall r :: 0 <= r < first ==> part[r] == lgsizes[r]
      invariant if found then first < i && part[first] != lgsizes[first] else first == i
    {
      if part[i] >= 10 {
        return Rejected;
      }
      if !found {
        if part[i] != lgsizes[i] { found := true; } else { first := first + 1; }
      }
      bases := bases + [sum];
      NextTotal(part, i);
      sum := sum + Pow2(part[i]);
    }
    if sum > CACHE_SETS {
      return Rejected;
    }
    s := Accepted(bases, first);
  }

  class Llc {
    /** The sizes that the monitor remembers. */
    const lgsizes: array<nat>
    /** The slices that the cache uses. */
    const slices: array<Slice>

    ghost predicate Valid()
      reads this, lgsizes, slices
    {
      && lgsizes.Length == NUM_REGIONS && slices.Length == NUM_REGIONS
      && Fits(lgsizes[..]) && slices[..] == Layout(lgsizes[..])
    }

    /** sm_init gives every region sixteen sets. */
    constructor ()
      ensures Valid() && fresh(lgsizes) && fresh(slices)
      ensures forall r :: 0 <= r < NUM_REGIONS ==> lgsizes[r] == 4
    {
      lgsizes := new nat[NUM_REGIONS](_ => 4);
      slices := new Slice[NUM_REGIONS](r => Slice(16 * r, 4));
      new;
      hide Fits, Layout;
      EvenLayout(lgsizes[..]);
      assert slices[..] == Layout(lgsizes[..]);
    }

    /** A store to the control register. */
    method WriteControl(w: nat)
      requires slices.Length == NUM_REGIONS && WordRegion(w) < NUM_REGIONS
      modifies slices
      ensures slices[..] == old(slices[..])[WordRegion(w) := WordSlice(w)]
    {
      slices[WordRegion(w)] := WordSlice(w);
    }

    /** The second loop: only the regions from first on are programmed, yet all slices are those of part. */
    method Reprogram(part: seq<nat>, bases: seq<nat>, first: nat)
      requires Valid() && Fits(part) && first <= NUM_REGIONS && part[..first] == lgsizes[..first]
      requires IsBases(bases, part)
      modifies lgsizes, slices
      ensures Valid() && lgsizes[..] == part && slices[..] == Layout(part)
    {
      hide Pow2, Total, ControlWord, WordRegion, WordSlice, Layout;
      KeptPrefix(part, first);
      for rid := first to NUM_REGIONS
        invariant forall r :: 0 <= r < rid ==> lgsizes[r] == part[r] && slices[r] == Slice(Total(part, r), part[r])
      {
        TotalGrows(part, rid, NUM_REGIONS);
        WordRoundTrip(rid, bases[rid], part[rid]);
        WriteControl(ControlWord(rid, bases[rid], part[rid]));
        lgsizes[rid] := part[rid];
      }
      assert lgsizes[..] == part;
    }

    lemma KeptPrefix(part: seq<nat>, first: nat)
      requires Valid() && |part| == NUM_REGIONS && first <= NUM_REGIONS && part[..first] == lgsizes[..first]
      ensures forall r :: 0 <= r < first ==> lgsizes[r] == part[r] && slices[r] == Slice(Total(part, r), part[r])
    {
      forall r | 0 <= r < first ensures lgsizes[r] == part[r] && slices[r] == Slice(Total(part, r), part[r]) {
        assert slices[..][r] == Layout(lgsizes[..])[r];
        forall q | 0 <= q <= r ensures part[q] == lgsizes[q] {
          assert part[..first][q] == lgsizes[..first][q];
        }
        SamePrefix(part, lgsizes[..], r);
      }
    }

    /** region_cache_partitioning. busy: the barrier is taken; enclaves: an enclave is seen running. */
    method Repartition(part: seq<nat>, busy: bool, enclaves: bool) returns (result: Result)
      requires Valid() && |part| == NUM_REGIONS
      modifies lgsizes, slices
      ensures Valid() && slices[0] == old(slices[0])
      ensures result == Outcome(old(lgsizes[..]), part, busy, enclaves)
      ensures var fits := (forall r :: 0 <= r < 64 ==> part[r] < 10) && Total(part, 64) <= 1024;
              && (result == Ok <==> fits && part[0] == old(lgsizes[0]) && !busy && !enclaves)
              && (result == InvalidValue <==> !fits || part[0] != old(lgsizes[0]))
              && (result == ConcurrentCall <==> fits && part[0] == old(lgsizes[0]) && busy)
              && (result == InvalidState <==> fits && part[0] == old(lgsizes[0]) && !busy && enclaves)
      ensures lgsizes[..] == if result == Ok then part else old(lgsizes[..])
    {
      hide Pow2, Total, Layout;
      NoTotal(part);
      NoTotal(lgsizes[..]);
      var survey := SurveyRequest(part, lgsizes[..]);
      if survey.Rejected? {
        return InvalidValue;
      }
      if survey.firstModified <= 0 {
        return InvalidValue;
      }
      assert part[0] == part[..survey.firstModified][0] == lgsizes[..][..survey.firstModified][0] == lgsizes[0];
      if busy {
        return ConcurrentCall;
      }
      if !enclaves {
        assert lgsizes[..survey.firstModified] == lgsizes[..][..survey.firstModified];
        Reprogram(part, survey.bases, survey.firstModified);
        return Ok;
      }
      return InvalidState;
    }
  }

  /** A request is accepted when it fits, keeps region 0, and comes while nothing is in its way. */
  function Outcome(lgsizes: seq<nat>, part: seq<nat>, busy: bool, enclaves: bool): Result
    requires |lgsizes| == |part| == NUM_REGIONS
  {
    if !Fits(part) || part[0] != lgsizes[0] then InvalidValue
    else if busy then ConcurrentCall
    else if enclaves then InvalidState
    else Ok
  }

  /** The sizes after a sequence of requests. */
  function After(lgsizes: seq<nat>, requests: seq<(seq<nat>, bool, bool)>): seq<nat>
    requires |lgsizes| == NUM_REGIONS && forall q <- requests :: |q.0| == NUM_REGIONS
    decreases |requests|
  {
    if requests == [] then lgsizes
    else
      var (part, busy, enclaves) := requests[0];
      After(if Outcome(lgsizes, part, busy, enclaves) == Ok then part else lgsizes, requests[1..])
  }

  /** Over every run of requests the sizes go on fitting and region 0 keeps its slice. */
  lemma {:induction false} RunKeepsRegionZero(lgsizes: seq<nat>, requests: seq<(seq<nat>, bool, bool)>)
    requires Fits(lgsizes) && forall q <- requests :: |q.0| == NUM_REGIONS
    ensures Fits(After(lgsizes, requests)) && Layout(After(lgsizes, requests))[0] == Layout(lgsizes)[0]
    decreases |requests|
  {
    if requests != [] {
      var (part, busy, enclaves) := requests[0];
      RunKeepsRegionZero(if Outcome(lgsizes, part, busy, enclaves) == Ok then part else lgsizes, requests[1..]);
    }
  }

  lemma EvenLayout(s: seq<nat>)
    requires |s| == NUM_REGIONS && forall r :: 0 <= r < NUM_REGIONS ==> s[r] == 4
    ensures Fits(s) && forall r :: 0 <= r < NUM_REGIONS ==> Layout(s)[r] == Slice(16 * r, 4)
  {
    hide Total, Layout;
    EvenTotal(s, NUM_REGIONS);
    forall r | 0 <= r < NUM_REGIONS ensures Layout(s)[r] == Slice(16 * r, 4) {
      EvenTotal(s, r);
    }
  }

  lemma {:induction false} EvenTotal(s: seq<nat>, n: nat)
    requires n <= |s| && forall r :: 0 <= r < n ==> s[r] == 4
    ensures Total(s, n) == 16 * n
  {
    if n > 0 {
      EvenTotal(s, n - 1);
      SmallPowers();
    }
  }
}
