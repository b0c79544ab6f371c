/**
 Placing new regions: overlap test, gap search, ordered insertion, `mem_map`, and runs of
 map and unmap calls over one region list.
 */
module VmSpace {
  import opened Regions

  /** The arguments of `mem_map`; [lo, hi) is the range of the partition mapped into. */
  datatype Request = Request(
    addr: int, mlen: int, file: Option<nat>, offset: int, attr: int,
    noreplace: bool, fixed: bool, lo: int, hi: int)

  datatype MapResult = Placed(loc: int) | Eexist | Enomem

  predicate RequestOk(q: Request) {
    && 0 < q.addr && 0 < q.mlen && q.mlen % PAGE == 0 && PageFrame(q.addr) + q.mlen <= LIMIT
    && 0 <= q.lo <= q.hi <= LIMIT && 0 <= q.offset < TWO64
  }

  /** [a, a + size) meets no region. */
  predicate Free(rs: seq<Region>, a: int, size: int) {
    forall i :: 0 <= i < |rs| ==> rs[i].end <= a || a + size <= rs[i].start
  }

  // ---------------------------------------------------------------- overlap test

  /** `mem_has_overlap` also counts a region that ends exactly where the range starts. */
  predicate Touches(v: Region, a: int, e: int) {
    || (v.end >= a && v.start < a)
    || (v.end <= e && v.start >= a)
    || (v.end >= e && v.start < e)
  }

  predicate HasOverlap(rs: seq<Region>, a: int, e: int) {
    exists i :: 0 <= i < |rs| && Touches(rs[i], a, e)
  }

  /** The three tests together: the range is refused exactly if it overlaps or abuts from above. */
  lemma {:induction false} OverlapExact(rs: seq<Region>, a: int, e: int)
    requires Valid(rs) && a < e
    ensures HasOverlap(rs, a, e) <==> !Free(rs, a, e - a) || exists i :: 0 <= i < |rs| && rs[i].end == a
  {
  }

  // ---------------------------------------------------------------- gap search

  /** Distance from an address to a region, as `__mem_find_nearest` measures it. */
  function Distance(v: Region, addr: int): int {
    if Contains(v, addr) then 0 else if addr < v.start then v.start - addr else addr - v.end
  }

  /** Gap `j` of the list lies before region `j`; the last one reaches up to `hi`. */
  function GapStart(rs: seq<Region>, j: nat, lo: int): int
    requires j <= |rs|
  {
    if j == 0 then lo else rs[j - 1].end
  }

  function GapEnd(rs: seq<Region>, j: nat, hi: int): int
    requires j <= |rs|
  {
    if j == |rs| then hi else rs[j].start
  }

  predicate GapFits(rs: seq<Region>, j: nat, size: int, lo: int, hi: int)
    requires j <= |rs|
  {
    GapEnd(rs, j, hi) - GapStart(rs, j, lo) >= size
  }

  /** `__mem_find_slot_backward`: the first fitting gap above the anchor; 0 if there is none. */
  function SlotAbove(rs: seq<Region>, i: nat, size: int, hi: int): int
    requires i <= |rs|
    decreases |rs| - i
  {
    if i == |rs| then 0
    else if GapEnd(rs, i + 1, hi) - rs[i].end >= size then rs[i].end
    else SlotAbove(rs, i + 1, size, hi)
  }

  /** `__mem_find_slot_forward`: the first fitting gap below the anchor, by unsigned difference. */
  function SlotBelow(rs: seq<Region>, i: nat, size: int, lo: int): int
    requires i < |rs|
  {
    if Wrap(rs[i].start - GapStart(rs, i, lo)) >= size then Wrap(rs[i].start - size)
    else if i == 0 then 0
    else SlotBelow(rs, i - 1, size, lo)
  }

  function FindSlot(rs: seq<Region>, i: nat, q: Request): int
    requires i < |rs|
  {
    var up := SlotAbove(rs, i, q.mlen, q.hi);
    if up != 0 then up else SlotBelow(rs, i, q.mlen, q.lo)
  }

  predicate InRange(rs: seq<Region>, lo: int, hi: int) {
    forall i :: 0 <= i < |rs| ==> lo <= rs[i].start && rs[i].end <= hi
  }

  lemma {:induction false} AboveSound(rs: seq<Region>, i: nat, size: int, lo: int, hi: int)
    requires Valid(rs) && i <= |rs| && 0 < size && hi <= LIMIT
    ensures var p := SlotAbove(rs, i, size, hi);
            p != 0 ==> 0 < p && p + size <= LIMIT && p % PAGE == 0 && Free(rs, p, size)
    ensures forall j :: i < j <= |rs| && SlotAbove(rs, i, size, hi) == 0 ==>
                          !GapFits(rs, j, size, lo, hi)
    decreases |rs| - i
  {
    if i < |rs| {
      assert RegionOk(rs[i]);
      assert i + 1 < |rs| ==> RegionOk(rs[i + 1]);
      AboveSound(rs, i + 1, size, lo, hi);
    }
  }

  lemma {:induction false} BelowSound(rs: seq<Region>, i: nat, size: int, lo: int, hi: int)
    requires Valid(rs) && i < |rs| && 0 < size <= LIMIT && size % PAGE == 0 && 0 <= lo <= hi <= LIMIT
    ensures var p := SlotBelow(rs, i, size, lo);
            lo <= p < hi && p != 0 ==> p + size <= LIMIT && p % PAGE == 0 && Free(rs, p, size)
  {
    assert RegionOk(rs[i]);
    if i > 0 {
      assert RegionOk(rs[i - 1]);
      assert rs[i - 1].end <= rs[i].start;
      if rs[i].start - rs[i - 1].end < size {
        BelowSound(rs, i - 1, size, lo, hi);
      }
    }
  }

  /** With every region inside the range, a failed search below has seen every gap. */
  lemma {:induction false} BelowComplete(rs: seq<Region>, i: nat, size: int, lo: int, hi: int, j: nat)
    requires Valid(rs) && InRange(rs, lo, hi) && i < |rs| && j <= i && 0 < size && 0 < lo
    ensures SlotBelow(rs, i, size, lo) == 0 ==> !GapFits(rs, j, size, lo, hi)
  {
    assert RegionOk(rs[i]);
    assert i > 0 ==> RegionOk(rs[i - 1]) && rs[i - 1].end <= rs[i].start;
    if j < i {
      BelowComplete(rs, i - 1, size, lo, hi, j);
    }
  }

  /** Every free place lies in some gap. */
  lemma {:induction false} FreeInGap(rs: seq<Region>, p: int, size: int, lo: int, hi: int) returns (j: nat)
    requires Valid(rs) && 0 < size && lo <= p && p + size <= hi && Free(rs, p, size)
    ensures j <= |rs| && GapFits(rs, j, size, lo, hi)
  {
    j := 0;
    while j < |rs| && rs[j].end <= p
      invariant j <= |rs|
      invariant j > 0 ==> rs[j - 1].end <= p
    {
      j := j + 1;
    }
  }

  /**
   The gap search is sound and complete.  A place it returns inside the range overlaps
   nothing, whatever the anchor; with every region inside the range it fails exactly when
   no gap anywhere in the range is large enough.
   */
  lemma {:induction false} SearchExact(rs: seq<Region>, i: nat, q: Request)
    requires Valid(rs) && i < |rs| && RequestOk(q)
    ensures var p := FindSlot(rs, i, q);
            q.lo <= p < q.hi && p != 0 ==>
              p + q.mlen <= LIMIT && p % PAGE == 0 && Free(rs, p, q.mlen)
    ensures InRange(rs, q.lo, q.hi) && 0 < q.lo ==>
              (FindSlot(rs, i, q) == 0 <==>
               forall p :: q.lo <= p && p + q.mlen <= q.hi ==> !Free(rs, p, q.mlen))
  {
    AboveSound(rs, i, q.mlen, q.lo, q.hi);
    BelowSound(rs, i, q.mlen, q.lo, q.hi);
    if InRange(rs, q.lo, q.hi) && 0 < q.lo {
      SearchComplete(rs, i, q);
    }
  }

  lemma {:induction false} SearchComplete(rs: seq<Region>, i: nat, q: Request)
    requires Valid(rs) && i < |rs| && RequestOk(q) && InRange(rs, q.lo, q.hi) && 0 < q.lo
    ensures FindSlot(rs, i, q) == 0 <==>
            forall p :: q.lo <= p && p + q.mlen <= q.hi ==> !Free(rs, p, q.mlen)
  {
    AboveSound(rs, i, q.mlen, q.lo, q.hi);
    if FindSlot(rs, i, q) == 0 {
      forall p | q.lo <= p && p + q.mlen <= q.hi ensures !Free(rs, p, q.mlen) {
        if Free(rs, p, q.mlen) {
          var j := FreeInGap(rs, p, q.mlen, q.lo, q.hi);
          if j <= i { BelowComplete(rs, i, q.mlen, q.lo, q.hi, j); }
          assert false;
        }
      }
    } else {
      var p := FindSlot(rs, i, q);
      FoundInRange(rs, i, q);
      assert Free(rs, p, q.mlen);
    }
  }

  lemma {:induction false} FoundInRange(rs: seq<Region>, i: nat, q: Request)
    requires Valid(rs) && i < |rs| && RequestOk(q) && InRange(rs, q.lo, q.hi) && 0 < q.lo
    requires FindSlot(rs, i, q) != 0
    ensures var p := FindSlot(rs, i, q); q.lo <= p && p + q.mlen <= q.hi && Free(rs, p, q.mlen)
  {
    AboveSound(rs, i, q.mlen, q.lo, q.hi);
    BelowSound(rs, i, q.mlen, q.lo, q.hi);
    AboveInRange(rs, i, q.mlen, q.lo, q.hi);
    BelowInRange(rs, i, q.mlen, q.lo, q.hi);
  }

  lemma {:induction false} AboveInRange(rs: seq<Region>, i: nat, size: int, lo: int, hi: int)
    requires Valid(rs) && InRange(rs, lo, hi) && i <= |rs| && 0 < size
    ensures var p := SlotAbove(rs, i, size, hi); p != 0 ==> lo <= p && p + size <= hi
    decreases |rs| - i
  {
    if i < |rs| {
      assert RegionOk(rs[i]);
      assert i + 1 < |rs| ==> RegionOk(rs[i + 1]) && rs[i + 1].end <= hi;
      AboveInRange(rs, i + 1, size, lo, hi);
    }
  }

  lemma {:induction false} BelowInRange(rs: seq<Region>, i: nat, size: int, lo: int, hi: int)
    requires Valid(rs) && InRange(rs, lo, hi) && i < |rs| && 0 < size && 0 < lo
    ensures var p := SlotBelow(rs, i, size, lo); p != 0 ==> lo <= p && p + size <= hi
  {
    assert RegionOk(rs[i]);
    if i > 0 {
      assert RegionOk(rs[i - 1]) && rs[i - 1].end <= rs[i].start;
      BelowInRange(rs, i - 1, size, lo, hi);
    }
  }

  lemma {:induction false} AboveLowest(rs: seq<Region>, i: nat, size: int, hi: int, p: int)
    requires Valid(rs) && i < |rs| && 0 < size && rs[i].end <= p && p + size <= hi && Free(rs, p, size)
    ensures 0 < SlotAbove(rs, i, size, hi) <= p
    decreases |rs| - i
  {
    assert RegionOk(rs[i]);
    if GapEnd(rs, i + 1, hi) - rs[i].end < size {
      AboveLowest(rs, i + 1, size, hi, p);
    }
  }

  lemma {:induction false} BelowHighest(rs: seq<Region>, i: nat, size: int, lo: int, hi: int, p: int)
    requires Valid(rs) && InRange(rs, lo, hi) && i < |rs| && 0 < size && 0 < lo
    requires lo <= p && p + size <= rs[i].start && Free(rs, p, size)
    ensures SlotBelow(rs, i, size, lo) >= p
  {
    assert RegionOk(rs[i]);
    if i > 0 {
      assert RegionOk(rs[i - 1]) && rs[i - 1].end <= rs[i].start;
      if rs[i].start - rs[i - 1].end < size {
        BelowHighest(rs, i - 1, size, lo, hi, p);
      }
    }
  }

  lemma {:induction false} AboveStarts(rs: seq<Region>, i: nat, size: int, hi: int)
    requires Valid(rs) && i < |rs|
    ensures SlotAbove(rs, i, size, hi) == 0 || rs[i].end <= SlotAbove(rs, i, size, hi)
    decreases |rs| - i
  {
    if i + 1 < |rs| {
      assert RegionOk(rs[i + 1]) && rs[i].end <= rs[i + 1].start;
      AboveStarts(rs, i + 1, size, hi);
    }
  }

  lemma {:induction false} BelowEnds(rs: seq<Region>, i: nat, size: int, lo: int, hi: int)
    requires Valid(rs) && InRange(rs, lo, hi) && i < |rs| && 0 < size && 0 < lo
    ensures SlotBelow(rs, i, size, lo) == 0 || SlotBelow(rs, i, size, lo) + size <= rs[i].start
  {
    assert RegionOk(rs[i]);
    if i > 0 {
      assert RegionOk(rs[i - 1]) && rs[i - 1].end <= rs[i].start;
      BelowEnds(rs, i - 1, size, lo, hi);
    }
  }

  /** The lowest free place above region `i` or, if there is none, the highest one below it. */
  ghost predicate Chosen(rs: seq<Region>, i: nat, q: Request, p: int)
    requires i < |rs|
  {
    && (p == 0 || rs[i].end <= p || p + q.mlen <= rs[i].start)
    && (forall x :: rs[i].end <= x && x + q.mlen <= q.hi && Free(rs, x, q.mlen) ==> rs[i].end <= p <= x)
    && (rs[i].end > p ==> forall x :: q.lo <= x && x + q.mlen <= rs[i].start && Free(rs, x, q.mlen) ==> x <= p)
  }

  /** Which place the search takes, with every region inside the range. */
  lemma {:induction false} PlaceChosen(rs: seq<Region>, i: nat, q: Request)
    requires Valid(rs) && i < |rs| && RequestOk(q) && InRange(rs, q.lo, q.hi) && 0 < q.lo
    ensures Chosen(rs, i, q, FindSlot(rs, i, q))
  {
    hide SlotAbove, SlotBelow, Free;
    assert RegionOk(rs[i]);
    AboveStarts(rs, i, q.mlen, q.hi);
    BelowEnds(rs, i, q.mlen, q.lo, q.hi);
    forall x | rs[i].end <= x && x + q.mlen <= q.hi && Free(rs, x, q.mlen) ensures rs[i].end <= FindSlot(rs, i, q) <= x {
      AboveLowest(rs, i, q.mlen, q.hi, x);
    }
    forall x | q.lo <= x && x + q.mlen <= rs[i].start && Free(rs, x, q.mlen) ensures x <= SlotBelow(rs, i, q.mlen, q.lo) {
      BelowHighest(rs, i, q.mlen, q.lo, q.hi, x);
    }
  }

  /** `__mem_find_nearest` from region `i` on, with the best candidate so far. */
  function NearestFrom(rs: seq<Region>, addr: int, i: nat, best: nat, dist: int): nat
    requires i <= |rs|
    decreases |rs| - i
  {
    if i == |rs| then best
    else if Contains(rs[i], addr) then i
    else if Distance(rs[i], addr) < dist then NearestFrom(rs, addr, i + 1, i, Distance(rs[i], addr))
    else NearestFrom(rs, addr, i + 1, best, dist)
  }

  function Nearest(rs: seq<Region>, addr: int): nat {
    NearestFrom(rs, addr, 0, 0, TWO64 - 1)
  }

  predicate DistanceOk(v: Region, addr: int) {
    && 0 <= Distance(v, addr) && (Contains(v, addr) ==> Distance(v, addr) == 0)
    && (0 <= addr < LIMIT ==> Distance(v, addr) < TWO64 - 1)
  }

  lemma {:induction false} DistanceFacts(v: Region, addr: int)
    requires RegionOk(v)
    ensures DistanceOk(v, addr)
  {
  }

  function Gap(x: int, y: int): int { if x < y then y - x else x - y }

  /** It is how far the address is from the closest point of the region, its end included. */
  lemma {:induction false} DistanceExact(v: Region, addr: int)
    requires RegionOk(v)
    ensures forall x :: v.start <= x <= v.end ==> Distance(v, addr) <= Gap(addr, x)
    ensures exists x :: v.start <= x <= v.end && Distance(v, addr) == Gap(addr, x)
  {
    var x := if addr < v.start then v.start else if addr > v.end then v.end else addr;
    assert Distance(v, addr) == Gap(addr, x);
  }

  lemma {:induction false} NearestFromMinimal(rs: seq<Region>, addr: int, i: nat, best: nat, dist: int)
    requires Valid(rs) && i <= |rs| && best < |rs|
    requires i > 0 ==> best < i && dist == Distance(rs[best], addr)
    requires forall j :: 0 <= j < i ==> dist <= Distance(rs[j], addr) && !Contains(rs[j], addr)
    requires forall j :: 0 <= j < best && i > 0 ==> dist < Distance(rs[j], addr)
    requires i == 0 ==> 0 <= addr < LIMIT && dist == TWO64 - 1
    ensures var k := NearestFrom(rs, addr, i, best, dist);
            && k < |rs| && (forall j :: 0 <= j < |rs| ==> Distance(rs[k], addr) <= Distance(rs[j], addr))
            && (Contains(rs[k], addr)
                || forall j :: 0 <= j < k ==> Distance(rs[k], addr) < Distance(rs[j], addr) && !Contains(rs[j], addr))
            && (forall j :: k < j < |rs| && !Contains(rs[k], addr) ==> !Contains(rs[j], addr))
    decreases |rs| - i
  {
    hide Distance, Contains, RegionOk;
    if i < |rs| {
      forall j | 0 <= j < |rs| ensures DistanceOk(rs[j], addr) { DistanceFacts(rs[j], addr); }
      assert DistanceOk(rs[i], addr);
      if Contains(rs[i], addr) {
      } else if Distance(rs[i], addr) < dist {
        NearestFromMinimal(rs, addr, i + 1, i, Distance(rs[i], addr));
      } else {
        NearestFromMinimal(rs, addr, i + 1, best, dist);
      }
    }
  }

  /** The region that holds the hint or else the first of those that are closest to it. */
  ghost predicate IsAnchor(rs: seq<Region>, k: nat, addr: int) {
    && k < |rs| && (forall j :: 0 <= j < |rs| ==> Distance(rs[k], addr) <= Distance(rs[j], addr))
    && (Contains(rs[k], addr)
        || forall j :: 0 <= j < |rs| ==>
             !Contains(rs[j], addr) && (j < k ==> Distance(rs[k], addr) < Distance(rs[j], addr)))
  }

  lemma {:induction false} NearestMinimal(rs: seq<Region>, addr: int)
    requires Valid(rs) && rs != [] && 0 <= addr < LIMIT
    ensures IsAnchor(rs, Nearest(rs, addr), addr)
  {
    NearestFromMinimal(rs, addr, 0, 0, TWO64 - 1);
  }

  // ---------------------------------------------------------------- insertion

  /** `region_add`: the first place where the region fits between its neighbours, else the end. */
  function InsertIndex(rs: seq<Region>, v: Region, i: nat, curEnd: int): (k: nat)
    requires i <= |rs|
    ensures i <= k <= |rs|
    decreases |rs| - i
  {
    if i == |rs| || (v.start >= curEnd && v.end <= rs[i].start) then i
    else InsertIndex(rs, v, i + 1, rs[i].end)
  }

  function Insert(rs: seq<Region>, v: Region): seq<Region> {
    var k := InsertIndex(rs, v, 0, 0);
    rs[..k] + ([v] + rs[k..])
  }

  lemma {:induction false} InsertIndexFits(rs: seq<Region>, v: Region, i: nat, curEnd: int)
    requires Valid(rs) && RegionOk(v) && Free(rs, v.start, v.end - v.start) && i <= |rs|
    requires curEnd == if i == 0 then 0 else rs[i - 1].end
    requires curEnd <= v.start
    ensures var k := InsertIndex(rs, v, i, curEnd);
            (k > 0 ==> rs[k - 1].end <= v.start) && (k < |rs| ==> v.end <= rs[k].start)
    decreases |rs| - i
  {
    hide Valid, RegionOk;
    if i < |rs| {
      if v.end > rs[i].start {
        InsertIndexFits(rs, v, i + 1, rs[i].end);
      }
    }
  }

  lemma {:induction false} PrefixBelow(rs: seq<Region>, k: nat, m: int)
    requires Valid(rs) && k <= |rs| && (k > 0 ==> rs[k - 1].end <= m)
    ensures Valid(rs[..k]) && forall i :: 0 <= i < |rs[..k]| ==> rs[..k][i].end <= m
  {
  }

  lemma {:induction false} SuffixAbove(rs: seq<Region>, k: nat, m: int)
    requires Valid(rs) && k <= |rs| && (k < |rs| ==> m <= rs[k].start)
    ensures Valid(rs[k..]) && forall i :: 0 <= i < |rs[k..]| ==> m <= rs[k..][i].start
  {
  }

  lemma {:induction false} ConsValid(v: Region, b: seq<Region>)
    requires RegionOk(v) && Valid(b) && forall i :: 0 <= i < |b| ==> v.end <= b[i].start
    ensures Valid([v] + b) && forall i :: 0 <= i < |[v] + b| ==> v.start <= ([v] + b)[i].start
  {
  }

  lemma {:induction false} BetweenValid(rs: seq<Region>, k: nat, v: Region)
    requires Valid(rs) && RegionOk(v) && k <= |rs|
    requires (k > 0 ==> rs[k - 1].end <= v.start) && (k < |rs| ==> v.end <= rs[k].start)
    ensures Valid(rs[..k] + ([v] + rs[k..]))
  {
    PrefixBelow(rs, k, v.start);
    SuffixAbove(rs, k, v.end);
    ConsValid(v, rs[k..]);
    ValidConcat(rs[..k], [v] + rs[k..], v.start);
  }

  lemma {:induction false} InsertValid(rs: seq<Region>, v: Region)
    requires Valid(rs) && RegionOk(v) && Free(rs, v.start, v.end - v.start)
    ensures Valid(Insert(rs, v))
  {
    InsertIndexFits(rs, v, 0, 0);
    BetweenValid(rs, InsertIndex(rs, v, 0, 0), v);
  }

  /** Insertion adds the new region's addresses and nothing else. */
  lemma {:induction false} InsertMeaning(rs: seq<Region>, v: Region, va: int)
    requires Free(rs, v.start, v.end - v.start)
    ensures At(Insert(rs, v), va) == if Contains(v, va) then Some(BackingOf(v, va)) else At(rs, va)
  {
    var k := InsertIndex(rs, v, 0, 0);
    assert rs == rs[..k] + rs[k..];
    AtConcat(rs[..k], rs[k..], va);
    AtConcat(rs[..k], [v] + rs[k..], va);
    AtConcat([v], rs[k..], va);
    if Contains(v, va) {
      AtNone(rs[..k], va);
    }
  }

  // ---------------------------------------------------------------- mem_unmap as its callers see it

  /** The page of `va` starts inside the `length` bytes from the page of `addr` on. */
  predicate Covered(addr: int, length: int, va: int) {
    PageFrame(addr) <= PageFrame(va) < PageFrame(addr) + length
  }

  /** What is left of `rs` after an unmap of `length` bytes at `addr`, at one address. */
  predicate UnmappedAt(rs: seq<Region>, out: seq<Region>, addr: int, length: int, va: int) {
    && (Covered(addr, length, va) ==> At(out, va) == None)
    && (!Covered(addr, length, va) && At(rs, va) != None ==> At(out, va) == At(rs, va))
  }

  /** In terms of the caller's address and length: the pages that start in the range go, all others stay. */
  lemma {:induction false} CallUnmaps(rs: seq<Region>, addr: int, length: int, va: int)
    requires Valid(rs) && 0 <= addr && 0 <= length && PageFrame(addr) + RoundUp(length) <= LIMIT
    requires !Truncated(rs, PageFrame(addr), RoundUp(length))
    ensures UnmappedAt(rs, Unmap(rs, PageFrame(addr), RoundUp(length)), addr, length, va)
  {
    CoveredRounded(addr, length, va);
    Rounded(addr, length);
    if length == 0 {
      UnmapNothing(rs, PageFrame(addr));
    } else {
      PageBounds(length);
      UnmapMeaning(rs, PageFrame(addr), RoundUp(length), va);
    }
  }

  lemma {:induction false} UnmapNothing(rs: seq<Region>, a: int)
    ensures Unmap(rs, a, 0) == rs
  {
  }

  lemma {:induction false} CoveredRounded(addr: int, length: int, va: int)
    requires 0 <= length
    ensures Covered(addr, length, va) <==> PageFrame(addr) <= va < PageFrame(addr) + RoundUp(length)
  {
    PageBounds(va);
  }

  /** The bytes asked for are all covered if and only if the part page in front does not push their end over a page. */
  lemma {:induction false} CallCoversIff(addr: int, length: int)
    requires 0 <= addr && 0 < length
    ensures (forall va :: addr <= va < addr + length ==> Covered(addr, length, va))
       <==> addr % PAGE + length <= RoundUp(length)
  {
    forall va ensures Covered(addr, length, va) <==> PageFrame(addr) <= va < PageFrame(addr) + RoundUp(length) {
      CoveredRounded(addr, length, va);
    }
    hide Covered;
    PageBounds(addr);
    assert PageFrame(addr) + addr % PAGE == addr;
    if addr % PAGE + length > RoundUp(length) {
      assert !Covered(addr, length, addr + length - 1);
    }
  }

  /** Two bytes across a page boundary: the second page stays mapped. */
  lemma {:induction false} TailStays(rs: seq<Region>)
    requires rs == [Region(0x1000, 0x3000, 0, None, 0)]
    ensures At(Unmap(rs, PageFrame(0x1fff), RoundUp(2)), 0x2000) == Some(Anonymous(0))
  {
    assert PageFrame(0x1fff) == 0x1000 && RoundUp(2) == 0x1000 && PageFrame(0x2000) == 0x2000;
    LowRangesExact(rs, 0x1000, 0x1000);
    UnmapMeaning(rs, 0x1000, 0x1000, 0x2000);
  }

  // ---------------------------------------------------------------- mem_map

  function NewRegion(loc: int, q: Request): Region {
    Region(loc, RoundUp(loc + q.mlen), q.offset, q.file, q.attr)
  }

  /** The common end of `mem_map`: only the start is checked against the range. */
  function Place(rs: seq<Region>, loc: int, q: Request): (MapResult, seq<Region>) {
    if loc >= q.hi || loc < q.lo then (Enomem, rs)
    else (Placed(loc), Insert(rs, NewRegion(loc, q)))
  }

  function Map(rs: seq<Region>, q: Request): (MapResult, seq<Region>) {
    var loc := PageFrame(q.addr);
    if q.noreplace then
      if HasOverlap(rs, loc, loc + q.mlen) then (Eexist, rs) else Place(rs, loc, q)
    else if q.fixed then Place(Unmap(rs, loc, q.mlen), loc, q)
    else if rs == [] then Place(rs, loc, q)
    else
      var k := Nearest(rs, loc);
      var p := if k < |rs| then FindSlot(rs, k, q) else 0;
      if p == 0 then (Enomem, rs) else Place(rs, p, q)
  }

  /** The list a request is placed into. */
  function Base(rs: seq<Region>, q: Request): seq<Region> {
    if q.fixed && !q.noreplace then Unmap(rs, PageFrame(q.addr), q.mlen) else rs
  }

  /** The request neither corrupts the list by a truncated distance nor lands on a range that stayed mapped. */
  predicate MapLegal(rs: seq<Region>, q: Request) {
    var loc := PageFrame(q.addr);
    RequestOk(q) && (q.fixed && !q.noreplace ==>
                       && Tame(rs, loc, q.mlen)
                       && (q.lo <= loc < q.hi && Truncated(rs, loc, q.mlen) ==> Free(rs, loc, q.mlen)))
  }

  /** The list has room for a request at a page. */
  predicate Room(rs: seq<Region>, loc: int, q: Request) {
    0 <= loc && loc + q.mlen <= LIMIT && loc % PAGE == 0 && Free(rs, loc, q.mlen)
  }

  lemma {:induction false} HintRoom(rs: seq<Region>, q: Request)
    requires Valid(rs) && RequestOk(q) && !q.noreplace && !q.fixed && Map(rs, q).0.Placed?
    ensures Room(rs, Map(rs, q).0.loc, q) && Map(rs, q).1 == Insert(rs, NewRegion(Map(rs, q).0.loc, q))
  {
    if rs != [] {
      NearestMinimal(rs, PageFrame(q.addr));
      SearchExact(rs, Nearest(rs, PageFrame(q.addr)), q);
    }
  }

  lemma {:induction false} FixedRoom(rs: seq<Region>, q: Request)
    requires Valid(rs) && MapLegal(rs, q) && (q.noreplace || q.fixed) && Map(rs, q).0.Placed?
    ensures var loc := Map(rs, q).0.loc;
            && Valid(Base(rs, q)) && Room(Base(rs, q), loc, q)
            && Map(rs, q).1 == Insert(Base(rs, q), NewRegion(loc, q))
  {
    var loc := PageFrame(q.addr);
    if q.noreplace {
      OverlapExact(rs, loc, loc + q.mlen);
    } else {
      UnmapValidIff(rs, loc, q.mlen);
      UnmapFreeIff(rs, loc, q.mlen);
    }
  }

  lemma {:induction false} NewRegionOk(loc: int, q: Request)
    requires RequestOk(q) && 0 <= loc && loc + q.mlen <= LIMIT && loc % PAGE == 0
    ensures RegionOk(NewRegion(loc, q)) && NewRegion(loc, q).end == loc + q.mlen
  {
  }

  /** Where a request is placed, the base list has room, and the new region is well formed. */
  lemma {:induction false} PlacedFree(rs: seq<Region>, q: Request)
    requires Valid(rs) && MapLegal(rs, q) && Map(rs, q).0.Placed?
    ensures var loc := Map(rs, q).0.loc;
            && Valid(Base(rs, q)) && Free(Base(rs, q), loc, q.mlen)
            && RegionOk(NewRegion(loc, q)) && NewRegion(loc, q).end == loc + q.mlen
            && Map(rs, q).1 == Insert(Base(rs, q), NewRegion(loc, q))
  {
    if q.noreplace || q.fixed { FixedRoom(rs, q); } else { HintRoom(rs, q); }
    NewRegionOk(Map(rs, q).0.loc, q);
  }

  /** After an unmap the range has room, unless a truncated distance left it as it was. */
  lemma {:induction false} UnmapFreeIff(rs: seq<Region>, a: int, len: int)
    requires Valid(rs) && RangeOk(a, len) && 0 < len
    ensures Free(Unmap(rs, a, len), a, len) <==> !Truncated(rs, a, len) || Free(rs, a, len)
  {
    if Truncated(rs, a, len) {
      ScanTruncated(rs, a, len);
      var k := Scan(rs, a, len);
      var out := rs[k := rs[k].(end := a)];
      assert forall i :: 0 <= i < |rs| && i != k ==> out[i] == rs[i];
    } else {
      UnmapFree(rs, a, len);
    }
  }

  lemma {:induction false} UnmapFree(rs: seq<Region>, a: int, len: int)
    requires Valid(rs) && RangeOk(a, len) && 0 < len && !Truncated(rs, a, len)
    ensures Free(Unmap(rs, a, len), a, len)
  {
    var out := Unmap(rs, a, len);
    UnmapValid(rs, a, len);
    forall i | 0 <= i < |out| ensures out[i].end <= a || a + len <= out[i].start {
      assert RegionOk(out[i]);
      var va := if out[i].start >= a then out[i].start else a;
      UnmapMeaning(rs, a, len, va);
      AtNone(out, va);
    }
  }

  /** A list with one more region is valid exactly if it was before and had room. */
  lemma {:induction false} InsertValidIff(rs: seq<Region>, v: Region)
    requires RegionOk(v)
    ensures Valid(Insert(rs, v)) <==> Valid(rs) && Free(rs, v.start, v.end - v.start)
  {
    if Valid(Insert(rs, v)) {
      InsertedApart(rs, v, InsertIndex(rs, v, 0, 0));
    } else if Valid(rs) && Free(rs, v.start, v.end - v.start) {
      InsertValid(rs, v);
    }
  }

  lemma {:induction false} InsertedApart(rs: seq<Region>, v: Region, k: nat)
    requires k <= |rs| && Valid(rs[..k] + ([v] + rs[k..]))
    ensures Valid(rs) && Free(rs, v.start, v.end - v.start)
  {
    var out := rs[..k] + ([v] + rs[k..]);
    assert out[k] == v;
    forall i | 0 <= i < |rs| ensures rs[i] == out[if i < k then i else i + 1] {
    }
    forall i | 0 <= i < |rs| ensures RegionOk(rs[i]) && (rs[i].end <= v.start || v.end <= rs[i].start) {
      assert RegionOk(out[if i < k then i else i + 1]);
      assert i < k ==> out[i].end <= out[k].start;
      assert i >= k ==> out[k].end <= out[i + 1].start;
    }
    forall i, j | 0 <= i < j < |rs| ensures rs[i].end <= rs[j].start {
      assert out[if i < k then i else i + 1].end <= out[if j < k then j else j + 1].start;
    }
  }

  /** `mem_map` keeps the list valid, whichever way it ends, exactly on the legal requests. */
  lemma {:induction false} MapValidIff(rs: seq<Region>, q: Request)
    requires Valid(rs) && RequestOk(q)
    ensures Valid(Map(rs, q).1) <==> MapLegal(rs, q)
  {
    var loc := PageFrame(q.addr);
    if q.fixed && !q.noreplace {
      UnmapValidIff(rs, loc, q.mlen);
      UnmapFreeIff(rs, loc, q.mlen);
      NewRegionOk(loc, q);
      InsertValidIff(Base(rs, q), NewRegion(loc, q));
    } else if Map(rs, q).0.Placed? {
      PlacedFree(rs, q);
      InsertValid(rs, NewRegion(Map(rs, q).0.loc, q));
    }
  }

  lemma {:induction false} UnmapKeeps(rs: seq<Region>, a: int, len: int, va: int)
    requires Valid(rs) && RangeOk(a, len) && 0 < len && Tame(rs, a, len)
    ensures !(a <= va < a + len) && At(rs, va) != None ==> At(Unmap(rs, a, len), va) == At(rs, va)
  {
    hide At, BackingOf;
    UnmapMeaning(rs, a, len, va);
    if Truncated(rs, a, len) && rs[Scan(rs, a, len)].end <= va < a {
      GapUnmapped(rs, Scan(rs, a, len), va);
    }
  }

  /** What a request asks for at an address `delta` bytes into its range. */
  function Asked(q: Request, delta: int): Backing {
    match q.file
    case None => Anonymous(q.attr)
    case Some(f) => FileAt(f, Wrap(q.offset + delta), q.attr)
  }

  /**
   A placed request maps its own range as asked, at its own address unless a place was
   searched for, and changes nothing that was mapped outside it.
   */
  lemma {:induction false} MapMeaning(rs: seq<Region>, q: Request, va: int)
    requires Valid(rs) && MapLegal(rs, q) && Map(rs, q).0.Placed?
    ensures var (r, out) := Map(rs, q);
            && (!Searches(rs, q) ==> r.loc == PageFrame(q.addr))
            && (r.loc <= va < r.loc + q.mlen ==> At(out, va) == Some(Asked(q, va - r.loc)))
            && (!(r.loc <= va < r.loc + q.mlen) && At(rs, va) != None ==> At(out, va) == At(rs, va))
            && (!(r.loc <= va < r.loc + q.mlen) && At(rs, va) == None && (q.noreplace || !q.fixed) ==>
                  At(out, va) == None)
  {
    var (r, out) := Map(rs, q);
    PlacedFree(rs, q);
    InsertMeaning(Base(rs, q), NewRegion(r.loc, q), va);
    NewRegionBacks(r.loc, q, va);
    if q.fixed && !q.noreplace {
      UnmapKeeps(rs, r.loc, q.mlen, va);
    }
  }

  lemma {:induction false} NewRegionBacks(loc: int, q: Request, va: int)
    ensures BackingOf(NewRegion(loc, q), va) == Asked(q, va - loc)
  {
    assert q.offset + va - loc == q.offset + (va - loc);
  }

  /** How a request ends whose place is not searched for. */
  lemma {:induction false} MapOutcome(rs: seq<Region>, q: Request)
    requires Valid(rs) && RequestOk(q) && !Searches(rs, q)
    ensures var loc := PageFrame(q.addr);
            var taken := q.noreplace && (!Free(rs, loc, q.mlen) || exists i :: 0 <= i < |rs| && rs[i].end == loc);
            Map(rs, q).0 == if taken then Eexist else if q.lo <= loc < q.hi then Placed(loc) else Enomem
  {
    OverlapExact(rs, PageFrame(q.addr), PageFrame(q.addr) + q.mlen);
  }

  /**
   A request that fails leaves its range as it was if and only if it is not a fixed one, nothing
   was mapped there, or a truncated distance hid the range: the unmapping comes first.
   */
  lemma {:induction false} FailedKeepsIff(rs: seq<Region>, q: Request)
    requires Valid(rs) && RequestOk(q) && !Map(rs, q).0.Placed?
    ensures var loc := PageFrame(q.addr);
            (forall va :: loc <= va < loc + q.mlen ==> At(Map(rs, q).1, va) == At(rs, va))
            <==> q.noreplace || !q.fixed || Truncated(rs, loc, q.mlen) || Clear(rs, loc, loc + q.mlen)
    ensures q.noreplace || !q.fixed ==> Map(rs, q).1 == rs
  {
    hide Unmap, At;
    if q.fixed && !q.noreplace {
      UnmapKeepsRangeIff(rs, PageFrame(q.addr), q.mlen);
    }
  }

  lemma {:induction false} UnmapKeepsRangeIff(rs: seq<Region>, a: int, len: int)
    requires Valid(rs) && RangeOk(a, len) && 0 < len
    ensures (forall va :: a <= va < a + len ==> At(Unmap(rs, a, len), va) == At(rs, va))
       <==> Truncated(rs, a, len) || Clear(rs, a, a + len)
  {
    hide Unmap, At, Valid, Truncated;
    if Truncated(rs, a, len) || Clear(rs, a, a + len) {
      forall va | a <= va < a + len ensures At(Unmap(rs, a, len), va) == At(rs, va) {
        UnmapMeaning(rs, a, len, va);
      }
    } else {
      var va :| a <= va < a + len && At(rs, va) != None;
      UnmapMeaning(rs, a, len, va);
      assert At(Unmap(rs, a, len), va) != At(rs, va);
    }
  }

  /** A fixed request outside its range fails after it has unmapped what was there. */
  lemma {:induction false} FailedAfterUnmap(rs: seq<Region>, q: Request)
    requires rs == [Region(0x2000, 0x3000, 0, None, 0)]
    requires q == Request(0x2000, 0x1000, None, 0, 0, false, true, 0x4000, 0x8000)
    ensures Map(rs, q).0 == Enomem && At(rs, 0x2000) == Some(Anonymous(0)) && At(Map(rs, q).1, 0x2000) == None
  {
    assert PageFrame(0x2000) == 0x2000;
    LowRangesExact(rs, 0x2000, 0x1000);
    UnmapMeaning(rs, 0x2000, 0x1000, 0x2000);
  }

  /** The request is placed at its hint or anywhere near it, not just where it says. */
  predicate Searches(rs: seq<Region>, q: Request) { rs != [] && !q.noreplace && !q.fixed }

  /**
   With every region inside the range, a hint request fails exactly if no place of its size
   is free there.  Otherwise it gets the lowest free place above the region closest to the
   hint or, if there is none, the highest one below it.
   */
  lemma {:induction false} HintExact(rs: seq<Region>, q: Request)
    requires Valid(rs) && RequestOk(q) && Searches(rs, q) && InRange(rs, q.lo, q.hi) && 0 < q.lo
    ensures match Map(rs, q).0
            case Placed(loc) =>
              && q.lo <= loc && loc + q.mlen <= q.hi && Free(rs, loc, q.mlen)
              && exists k :: IsAnchor(rs, k, PageFrame(q.addr)) && Chosen(rs, k, q, loc)
            case Enomem => forall p :: q.lo <= p && p + q.mlen <= q.hi ==> !Free(rs, p, q.mlen)
            case Eexist => false
  {
    hide FindSlot, Nearest, Insert, RegionOk, Distance;
    var k := Nearest(rs, PageFrame(q.addr));
    NearestMinimal(rs, PageFrame(q.addr));
    SearchExact(rs, k, q);
    PlaceChosen(rs, k, q);
    if FindSlot(rs, k, q) != 0 {
      FoundInRange(rs, k, q);
    }
  }

  /** A placed region ends inside the range exactly if it was searched for or its own end does. */
  lemma {:induction false} PlacedInRangeIff(rs: seq<Region>, q: Request)
    requires Valid(rs) && RequestOk(q) && InRange(rs, q.lo, q.hi) && 0 < q.lo && Map(rs, q).0.Placed?
    ensures q.lo <= Map(rs, q).0.loc < q.hi
    ensures Map(rs, q).0.loc + q.mlen <= q.hi <==> Searches(rs, q) || PageFrame(q.addr) + q.mlen <= q.hi
  {
    hide Insert, HasOverlap, Unmap;
    if Searches(rs, q) {
      HintExact(rs, q);
    }
  }

  /** Only the start of a fixed request is checked: three pages go where the range has one left. */
  lemma {:induction false} FixedPastRange()
    ensures Map([], Request(0x2000, 0x3000, None, 0, 0, false, true, 0x1000, 0x3000))
         == (Placed(0x2000), [Region(0x2000, 0x5000, 0, None, 0)])
  {
    var v := Region(0x2000, 0x5000, 0, None, 0);
    assert PageFrame(0x2000) == 0x2000 && RoundUp(0x5000) == 0x5000;
    assert Unmap([], 0x2000, 0x3000) == [];
    assert Insert([], v) == [] + ([v] + []) == [v];
  }

  /** A free range right behind a region is refused as if it overlapped. */
  lemma {:induction false} AbuttingRefused(rs: seq<Region>, q: Request)
    requires rs == [Region(0x1000, 0x2000, 0, None, 0)]
    requires q == Request(0x2000, 0x1000, None, 0, 0, true, false, 0x1000, 0x8000)
    ensures Free(rs, 0x2000, 0x1000) && Map(rs, q) == (Eexist, rs)
  {
    assert PageFrame(0x2000) == 0x2000;
    assert Touches(rs[0], 0x2000, 0x3000);
  }

  // ---------------------------------------------------------------- runs

  datatype Op = MapOp(q: Request) | UnmapOp(addr: int, length: int)

  /** Arguments inside the address space. */
  predicate ArgsOk(op: Op) {
    match op
    case MapOp(q) => RequestOk(q)
    case UnmapOp(addr, length) => 0 <= addr && 0 <= length && PageFrame(addr) + RoundUp(length) <= LIMIT
  }

  predicate Legal(rs: seq<Region>, op: Op) {
    ArgsOk(op) &&
    match op
    case MapOp(q) => MapLegal(rs, q)
    case UnmapOp(addr, length) => Tame(rs, PageFrame(addr), RoundUp(length))
  }

  function Do(rs: seq<Region>, op: Op): seq<Region> {
    match op
    case MapOp(q) => Map(rs, q).1
    case UnmapOp(addr, length) => Unmap(rs, PageFrame(addr), RoundUp(length))
  }

  function Run(rs: seq<Region>, ops: seq<Op>): seq<Region>
    decreases |ops|
  {
    if ops == [] then rs else Run(Do(rs, ops[0]), ops[1..])
  }

  /** One call keeps a valid list valid exactly if it is legal; every call is, below 4 GiB. */
  lemma {:induction false} StepValidIff(rs: seq<Region>, op: Op)
    requires Valid(rs) && ArgsOk(op)
    ensures Valid(Do(rs, op)) <==> Legal(rs, op)
    ensures op.UnmapOp? && PageFrame(op.addr) + RoundUp(op.length) < TWO32 ==> Legal(rs, op)
    ensures op.MapOp? && PageFrame(op.q.addr) + op.q.mlen < TWO32 ==> Legal(rs, op)
  {
    hide Valid, Tame, Free, Truncated, Map, Unmap, PageFrame, RoundUp;
    match op
    case MapOp(q) =>
      MapValidIff(rs, q);
      if PageFrame(q.addr) + q.mlen < TWO32 { LowIsTame(rs, q.addr, q.mlen); }
    case UnmapOp(addr, length) =>
      Rounded(addr, length);
      UnmapValidIff(rs, PageFrame(addr), RoundUp(length));
      if PageFrame(addr) + RoundUp(length) < TWO32 { LowIsTame(rs, addr, RoundUp(length)); }
  }

  lemma {:induction false} LowIsTame(rs: seq<Region>, addr: int, len: int)
    requires Valid(rs) && 0 <= addr && 0 <= len && len % PAGE == 0 && PageFrame(addr) + len < TWO32
    ensures !Truncated(rs, PageFrame(addr), len) && Tame(rs, PageFrame(addr), len)
  {
    hide Valid, Truncated, NextAbove;
    LowRangesExact(rs, PageFrame(addr), len);
  }

  lemma {:induction false} Rounded(addr: int, length: int)
    requires 0 <= addr && 0 <= length && PageFrame(addr) + RoundUp(length) <= LIMIT
    ensures RangeOk(PageFrame(addr), RoundUp(length))
  {
  }

  /** Every call of the run finds arguments inside the address space. */
  predicate RunArgsOk(ops: seq<Op>) { forall i :: 0 <= i < |ops| ==> ArgsOk(ops[i]) }

  predicate LegalRun(rs: seq<Region>, ops: seq<Op>)
    decreases |ops|
  {
    ops == [] || (Legal(rs, ops[0]) && LegalRun(Do(rs, ops[0]), ops[1..]))
  }

  /** Every list the run goes through is valid. */
  predicate AllValid(rs: seq<Region>, ops: seq<Op>) {
    forall k :: 0 <= k <= |ops| ==> Valid(Run(rs, ops[..k]))
  }

  lemma {:induction false} AllValidUnfold(rs: seq<Region>, ops: seq<Op>)
    ensures AllValid(rs, ops) <==> Valid(rs) && (ops == [] || AllValid(Do(rs, ops[0]), ops[1..]))
    ensures AllValid(rs, ops) ==> Valid(Run(rs, ops))
  {
    hide Valid, Do;
    assert ops[..0] == [] && ops[..|ops|] == ops;
    assert Run(rs, ops[..0]) == rs;
    if ops != [] {
      forall k | 0 < k <= |ops| ensures Run(rs, ops[..k]) == Run(Do(rs, ops[0]), ops[1..][..k - 1]) {
        assert ops[..k][1..] == ops[1..][..k - 1];
      }
      if AllValid(Do(rs, ops[0]), ops[1..]) && Valid(rs) {
        forall k | 0 <= k <= |ops| ensures Valid(Run(rs, ops[..k])) {
          if k > 0 {
            assert Valid(Run(Do(rs, ops[0]), ops[1..][..k - 1]));
          }
        }
      }
      if AllValid(rs, ops) {
        forall k | 0 <= k <= |ops[1..]| ensures Valid(Run(Do(rs, ops[0]), ops[1..][..k])) {
          assert Valid(Run(rs, ops[..k + 1]));
        }
      }
    }
  }

  lemma {:induction false} RunValidIff(rs: seq<Region>, ops: seq<Op>)
    requires Valid(rs) && RunArgsOk(ops)
    ensures AllValid(rs, ops) <==> LegalRun(rs, ops)
    ensures LegalRun(rs, ops) ==> Valid(Run(rs, ops))
    decreases |ops|
  {
    hide Valid, Legal, Do, ArgsOk, AllValid;
    AllValidUnfold(rs, ops);
    if ops != [] {
      StepValidIff(rs, ops[0]);
      if Valid(Do(rs, ops[0])) {
        RunValidIff(Do(rs, ops[0]), ops[1..]);
      } else {
        NotAllValid(Do(rs, ops[0]), ops[1..]);
      }
    }
  }

  lemma {:induction false} NotAllValid(rs: seq<Region>, ops: seq<Op>)
    requires !Valid(rs)
    ensures !AllValid(rs, ops)
  {
    AllValidUnfold(rs, ops);
  }

  /**
   A run of `mem_map` and `mem_unmap` from the empty list keeps the regions non-empty, sorted
   and disjoint all the way exactly if each call is legal; then an address lies in at most one
   region.
   */
  lemma {:induction false} EveryRun(ops: seq<Op>, va: int)
    requires RunArgsOk(ops)
    ensures AllValid([], ops) <==> LegalRun([], ops)
    ensures LegalRun([], ops) ==>
              var rs := Run([], ops);
              && Valid(rs)
              && forall i, j :: 0 <= i < |rs| && 0 <= j < |rs| && Contains(rs[i], va) && Contains(rs[j], va) ==> i == j
  {
    RunValidIff([], ops);
  }
}
