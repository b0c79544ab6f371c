/**
 The virtual memory region list of a process: `region.c` and the mapping half of `mmap.c`.

 Regions are half-open, page-aligned intervals kept in ascending order.  Addresses are
 64-bit words in the lower half of the address space; the unsigned arithmetic of the
 source is written out with `Wrap`, and the 32-bit variable of `mem_unmap` with `Low32`.
 */
module Regions {

  const PAGE: int := 4096
  const TWO32: int := 0x1_0000_0000
  const TWO64: int := 0x1_0000_0000_0000_0000
  const LIMIT: int := 0x8000_0000_0000_0000

  datatype Option<+T> = None | Some(value: T)

  datatype Region = Region(start: int, end: int, foff: int, file: Option<nat>, attr: int)

  /** What backs a mapped address. */
  datatype Backing = Anonymous(attr: int) | FileAt(file: nat, offset: int, attr: int)

  /** Reduction to a 64-bit word. */
  function Wrap(x: int): (w: int)
    ensures 0 <= w < TWO64
    ensures 0 <= x < TWO64 ==> w == x
    ensures -TWO64 <= x < 0 ==> w == x + TWO64
    ensures TWO64 <= x < 2 * TWO64 ==> w == x - TWO64
    decreases if x < 0 then TWO64 - x else x
  {
    if 0 <= x < TWO64 then x else if x < 0 then Wrap(x + TWO64) else Wrap(x - TWO64)
  }

  /** It is the remainder modulo 2^64. */
  lemma {:induction false} WrapIsMod(x: int)
    ensures Wrap(x) == x % TWO64
    decreases if x < 0 then TWO64 - x else x
  {
    if x < 0 {
      assert (x + TWO64) % TWO64 == x % TWO64;
      WrapIsMod(x + TWO64);
    } else if x >= TWO64 {
      assert (x - TWO64) % TWO64 == x % TWO64;
      WrapIsMod(x - TWO64);
    }
  }

  lemma {:induction false} WrapAround(x: int)
    ensures Wrap(x + TWO64) == Wrap(x)
  {
  }

  lemma {:induction false} WrapAdd(a: int, b: int)
    ensures Wrap(Wrap(a) + b) == Wrap(a + b)
    decreases if a < 0 then TWO64 - a else a
  {
    hide Wrap;
    if a < 0 {
      WrapAdd(a + TWO64, b);
      WrapAround(a);
      WrapAround(a + b);
    } else if a >= TWO64 {
      WrapAdd(a - TWO64, b);
      WrapAround(a - TWO64);
      WrapAround(a - TWO64 + b);
    }
  }

  function PageFrame(a: int): int { a / PAGE * PAGE }

  function RoundUp(a: int): int { (a + (PAGE - 1)) / PAGE * PAGE }

  /** The page an address is in, and the first page boundary at or above it. */
  lemma {:induction false} PageBounds(a: int)
    ensures PageFrame(a) <= a < PageFrame(a) + PAGE && PageFrame(a) % PAGE == 0
    ensures a <= RoundUp(a) < a + PAGE && RoundUp(a) % PAGE == 0
  {
  }

  // ---------------------------------------------------------------- the address map

  predicate Contains(v: Region, va: int) { v.start <= va < v.end }

  function BackingOf(v: Region, va: int): Backing {
    match v.file
    case None => Anonymous(v.attr)
    case Some(f) => FileAt(f, Wrap(v.foff + va - v.start), v.attr)
  }

  /** The meaning of a region list: what, if anything, is mapped at an address. */
  function At(rs: seq<Region>, va: int): Option<Backing> {
    if rs == [] then None
    else if Contains(rs[0], va) then Some(BackingOf(rs[0], va))
    else At(rs[1..], va)
  }

  predicate RegionOk(v: Region) {
    0 <= v.start < v.end <= LIMIT && v.start % PAGE == 0 && v.end % PAGE == 0
    && 0 <= v.foff < TWO64
  }

  /** Non-empty, aligned, sorted and pairwise disjoint. */
  predicate Valid(rs: seq<Region>) {
    && (forall i :: 0 <= i < |rs| ==> RegionOk(rs[i]))
    && (forall i, j :: 0 <= i < j < |rs| ==> rs[i].end <= rs[j].start)
  }

  lemma {:induction false} AtConcat(a: seq<Region>, b: seq<Region>, va: int)
    ensures At(a + b, va) == if At(a, va) == None then At(b, va) else At(a, va)
  {
    if a == [] {
      assert a + b == b;
    } else {
      assert (a + b)[1..] == a[1..] + b;
      AtConcat(a[1..], b, va);
    }
  }

  lemma {:induction false} AtNone(rs: seq<Region>, va: int)
    ensures At(rs, va) == None <==> forall i :: 0 <= i < |rs| ==> !Contains(rs[i], va)
  {
    if rs != [] {
      AtNone(rs[1..], va);
      assert forall i :: 1 <= i < |rs| ==> rs[i] == rs[1..][i - 1];
    }
  }

  // ---------------------------------------------------------------- unmapping

  /** `region_dup` with a later start; the file offset moves along. */
  function Tail(v: Region, newStart: int): Region {
    v.(start := newStart, foff := if v.file.Some? then Wrap(v.foff + (newStart - v.start)) else v.foff)
  }

  /** Assignment to a 32-bit unsigned variable. */
  function Low32(x: int): (w: int)
    ensures 0 <= w < TWO32 && (0 <= x ==> w <= x)
    decreases if x < 0 then TWO32 - x else x
  {
    if 0 <= x < TWO32 then x else if x < 0 then Low32(x + TWO32) else Low32(x - TWO32)
  }

  lemma {:induction false} Low32IsMod(x: int)
    ensures Low32(x) == x % TWO32
    decreases if x < 0 then TWO32 - x else x
  {
    if x < 0 {
      Low32IsMod(x + TWO32);
    } else if x >= TWO32 {
      Low32IsMod(x - TWO32);
    }
  }

  /** The first loop of `mem_unmap`; the address difference is truncated to 32 bits. */
  predicate Hit(v: Region, addr: int, length: int) {
    (v.start <= addr < v.end) || Low32(v.start - addr) <= length
  }

  function Scan(rs: seq<Region>, addr: int, length: int): (k: nat)
    ensures k <= |rs|
  {
    if rs == [] || Hit(rs[0], addr, length) then 0 else 1 + Scan(rs[1..], addr, length)
  }

  lemma {:induction false} ScanFirst(rs: seq<Region>, addr: int, length: int)
    ensures var k := Scan(rs, addr, length);
            && (forall i :: 0 <= i < k ==> !Hit(rs[i], addr, length))
            && (k < |rs| ==> Hit(rs[k], addr, length))
  {
    if rs != [] && !Hit(rs[0], addr, length) {
      ScanFirst(rs[1..], addr, length);
      assert forall i :: 1 <= i < |rs| ==> rs[i] == rs[1..][i - 1];
    }
  }

  /** A page-rounded range inside the address space. */
  predicate RangeOk(a: int, len: int) {
    0 <= a && 0 <= len && a + len <= LIMIT && a % PAGE == 0 && len % PAGE == 0
  }

  /** Where a region that reaches past the start of the range begins after the cut. */
  function Lowered(v: Region, e: int): int {
    if v.start > e then e else v.start
  }

  /** What is left of a region once [a, e) is taken out of it. */
  function Pieces(v: Region, a: int, e: int): seq<Region> {
    (if v.start < a then [v.(end := a)] else []) + (if e < v.end then [Tail(v, e)] else [])
  }

  lemma {:induction false} PiecesShape(v: Region, a: int, e: int)
    requires RegionOk(v) && 0 <= a < e && a % PAGE == 0 && e % PAGE == 0 && a <= v.end
    ensures var ps := Pieces(v, a, e);
            && Valid(ps)
            && (forall i :: 0 <= i < |ps| ==> Lowered(v, e) <= ps[i].start && ps[i].end <= v.end)
  {
  }

  /** The range starts above a region that still reaches past its end: only its head goes. */
  predicate HeadCut(v: Region, addr: int, length: int) {
    v.start > addr && addr + length <= v.end
  }

  /** The case split of `__unmap_overlapped_cases`, down to the amounts to cut. */
  method ClassifyOverlap(v: Region, addr: int, length: int)
    returns (displ: int, shrink: int, umpsEnd: int, split: seq<Region>)
    requires 0 <= v.start < v.end <= LIMIT && 0 <= v.foff < TWO64
    requires 0 <= addr < addr + length <= LIMIT
    ensures Wrap(v.start + displ) == if HeadCut(v, addr, length) then addr + length else v.start
    ensures Wrap(v.foff + displ)
         == if HeadCut(v, addr, length) then Wrap(v.foff + (addr + length - v.start)) else v.foff
    ensures Wrap(v.end - shrink)
         == if v.start <= addr then addr else if HeadCut(v, addr, length) then v.end else v.start
    ensures umpsEnd == if HeadCut(v, addr, length) then addr + length else v.end
    ensures split == if v.start <= addr && addr + length < v.end then [Tail(v, addr + length)] else []
  {
    var umpsStart, umpsLen;
    displ, shrink, split := 0, 0, [];
    if v.start <= addr && addr + length <= v.end {
      var newStart := addr + length;
      if newStart < v.end {
        split := [Tail(v, newStart)];
      }
      shrink := Wrap(v.end - addr);
      umpsLen := shrink;
      umpsStart := addr;
    } else if v.start <= addr && addr + length > v.end {
      shrink := Wrap(v.end - addr);
      umpsLen := shrink;
      umpsStart := addr;
    } else if v.start > addr && addr + length <= v.end {
      displ := Wrap(length - (v.start - addr));
      umpsLen := displ;
      umpsStart := v.start;
      WrapAdd(addr + length - v.start, v.foff);
    } else {
      shrink := v.end - v.start;
      umpsLen := shrink;
      umpsStart := v.start;
    }
    umpsEnd := Wrap(umpsStart + umpsLen);
  }

  /**
   `__unmap_overlapped_cases`: cut the range [addr, addr + length) out of one region.
   `parts` replaces the region in the list; the range continues at `addr'`.  A region that
   ends before the range is not cut but stretched up to it, and ends the unmapping.
   */
  method UnmapOverlapped(v: Region, addr: int, length: int)
    returns (parts: seq<Region>, addr': int, length': int)
    requires 0 <= v.start < v.end <= LIMIT && 0 <= v.foff < TWO64
    requires 0 <= addr < addr + length <= LIMIT
    ensures addr <= v.end ==> parts == Pieces(v, addr, addr + length)
    ensures addr <= v.end < addr + length ==> addr' == v.end && addr' + length' == addr + length
    ensures addr + length <= v.end ==> length' == 0
    ensures v.end < addr ==> parts == [v.(end := addr)] && length' == 0
  {
    var displ, shrink, umpsEnd, split := ClassifyOverlap(v, addr, length);
    var start := Wrap(v.start + displ);
    var end := Wrap(v.end - shrink);
    if start >= end {
      parts := split;
    } else {
      var foff := if v.file.Some? then Wrap(v.foff + displ) else v.foff;
      parts := [v.(start := start, end := end, foff := foff)] + split;
    }
    addr' := umpsEnd;
    var umpLen := Wrap(addr' - addr);
    length' := (if length > umpLen then length else umpLen) - umpLen;
  }

  lemma {:induction false} TailBacking(v: Region, newStart: int, va: int)
    ensures BackingOf(Tail(v, newStart), va) == BackingOf(v, va)
    ensures v.file == None ==> Tail(v, newStart) == v.(start := newStart)
  {
    WrapAdd(v.foff + (newStart - v.start), va - newStart);
  }

  /** One region keeps its meaning outside the range, and loses all of it inside. */
  lemma {:induction false} PiecesMeaning(v: Region, a: int, e: int, va: int)
    requires a < e && a <= v.end
    ensures At(Pieces(v, a, e), va)
         == if !(a <= va < e) && Lowered(v, e) <= va < v.end then Some(BackingOf(v, va)) else None
  {
    AtConcat(if v.start < a then [v.(end := a)] else [], if e < v.end then [Tail(v, e)] else [], va);
    TailBacking(v, e, va);
  }

  lemma {:induction false} ValidConcat(a: seq<Region>, b: seq<Region>, m: int)
    requires Valid(a) && Valid(b)
    requires forall i :: 0 <= i < |a| ==> a[i].end <= m
    requires forall i :: 0 <= i < |b| ==> m <= b[i].start
    ensures Valid(a + b)
  {
  }

  /** The second loop without its bookkeeping: take [a, e) out, region by region. */
  function TakeOut(rs: seq<Region>, a: int, e: int, len: int): seq<Region> {
    if rs == [] || a >= e || rs[0].start > a + len then rs
    else Pieces(rs[0], a, e) + if e <= rs[0].end then rs[1..] else TakeOut(rs[1..], rs[0].end, e, len)
  }

  lemma {:induction false} ValidTail(rs: seq<Region>)
    requires Valid(rs) && rs != []
    ensures Valid(rs[1..]) && RegionOk(rs[0])
    ensures forall i :: 0 <= i < |rs[1..]| ==> rs[0].end <= rs[1..][i].start
  {
  }

  lemma {:induction false} AtBelow(rs: seq<Region>, lo: int, va: int)
    requires va < lo && forall i :: 0 <= i < |rs| ==> lo <= rs[i].start
    ensures At(rs, va) == None
  {
    AtNone(rs, va);
  }

  /** The second loop keeps the list valid and never reaches below where it started. */
  lemma {:induction false} TakeOutValid(rs: seq<Region>, a: int, e: int, len: int)
    requires Valid(rs) && 0 <= a <= e && a % PAGE == 0 && e % PAGE == 0 && (rs != [] ==> a <= rs[0].end)
    ensures var out := TakeOut(rs, a, e, len);
            && Valid(out)
            && (rs != [] ==> forall i :: 0 <= i < |out| ==> Lowered(rs[0], e) <= out[i].start)
  {
    hide Pieces;
    if rs != [] && a < e && rs[0].start <= a + len {
      var v := rs[0];
      ValidTail(rs);
      PiecesShape(v, a, e);
      if e > v.end {
        TakeOutValid(rs[1..], v.end, e, len);
      }
      ValidConcat(Pieces(v, a, e), if e <= v.end then rs[1..] else TakeOut(rs[1..], v.end, e, len), v.end);
    }
  }

  /** The second loop address by address: the range goes, everything mapped beside it stays. */
  lemma {:induction false} TakeOutMeaning(rs: seq<Region>, a: int, e: int, len: int, va: int)
    requires Valid(rs) && 0 <= a <= e <= a + len && a % PAGE == 0 && e % PAGE == 0
    requires rs != [] ==> a <= rs[0].end
    ensures var out := TakeOut(rs, a, e, len);
            && (a <= va < e ==> At(out, va) == None)
            && (!(a <= va < e) && At(rs, va) != None ==> At(out, va) == At(rs, va))
  {
    hide Pieces, BackingOf;
    if rs == [] || a >= e {
    } else if rs[0].start > a + len {
      if va < e { AtBelow(rs, e, va); }
    } else {
      var v := rs[0];
      ValidTail(rs);
      PiecesMeaning(v, a, e, va);
      AtConcat(Pieces(v, a, e), if e <= v.end then rs[1..] else TakeOut(rs[1..], v.end, e, len), va);
      if va < v.end { AtBelow(rs[1..], v.end, va); }
      if e > v.end {
        TakeOutMeaning(rs[1..], v.end, e, len, va);
        TakeOutValid(rs[1..], v.end, e, len);
        if va < v.end { AtBelow(TakeOut(rs[1..], v.end, e, len), v.end, va); }
      }
    }
  }

  /** The list after `mem_unmap` of the page-rounded range [a, a + len). */
  function Unmap(rs: seq<Region>, a: int, len: int): seq<Region> {
    var k := Scan(rs, a, len);
    if len == 0 || k == |rs| then rs
    else if rs[k].end < a then rs[k := rs[k].(end := a)]
    else rs[..k] + TakeOut(rs[k..], a, a + len, len)
  }

  /** A region below the range whose distance, cut to 32 bits, looks like one inside it. */
  predicate Truncated(rs: seq<Region>, a: int, len: int) {
    exists i :: 0 <= i < |rs| && rs[i].end < a && Low32(rs[i].start - a) <= len
  }

  /** Region `i` stops short of `e`, and the next one starts past `e` but within `len` of that stop. */
  predicate GrowsAt(rs: seq<Region>, i: int, e: int, len: int) {
    0 <= i && i + 1 < |rs| && rs[i].end < e < rs[i + 1].start <= rs[i].end + len
  }

  predicate Grows(rs: seq<Region>, e: int, len: int) {
    exists i :: 0 <= i < |rs| && GrowsAt(rs, i, e, len)
  }

  /** Ranges that end below 4 GiB are never affected. */
  lemma {:induction false} LowRangesExact(rs: seq<Region>, a: int, len: int)
    requires Valid(rs) && RangeOk(a, len) && a + len < TWO32
    ensures !Truncated(rs, a, len)
  {
    forall i | 0 <= i < |rs| && rs[i].end < a ensures Low32(rs[i].start - a) > len {
      assert RegionOk(rs[i]);
    }
  }

  lemma {:induction false} ScanTruncated(rs: seq<Region>, a: int, len: int)
    requires Valid(rs)
    ensures Truncated(rs, a, len) <==> Scan(rs, a, len) < |rs| && rs[Scan(rs, a, len)].end < a
  {
    var k := Scan(rs, a, len);
    ScanFirst(rs, a, len);
    if Truncated(rs, a, len) {
      var i :| 0 <= i < |rs| && rs[i].end < a && Low32(rs[i].start - a) <= len;
      assert Hit(rs[i], a, len);
      assert k < i ==> rs[k].end <= rs[i].start && RegionOk(rs[i]);
    }
  }

  lemma {:induction false} ScanSkips(rs: seq<Region>, a: int, len: int, i: nat)
    requires i < Scan(rs, a, len)
    ensures rs[i].end <= a || a + len < rs[i].start
  {
    ScanFirst(rs, a, len);
    assert !Hit(rs[i], a, len);
  }

  lemma {:induction false} SplitAt(rs: seq<Region>, k: nat)
    requires Valid(rs) && k <= |rs|
    ensures rs == rs[..k] + rs[k..] && Valid(rs[..k]) && Valid(rs[k..])
  {
  }

  /** A region beyond the range that the scan stopped at is left alone. */
  lemma {:induction false} TakeOutFar(rs: seq<Region>, a: int, e: int)
    requires rs != [] ==> rs[0].start > e
    ensures TakeOut(rs, a, e, e - a) == rs
  {
  }

  /** The scan may stop at `k`: nothing before it meets the range. */
  predicate StopsAt(rs: seq<Region>, k: nat, a: int, len: int) {
    && k < |rs| && a <= rs[k].end
    && forall i :: 0 <= i < k ==> rs[i].end <= a || a + len < rs[i].start
  }

  lemma {:induction false} CutAtValid(rs: seq<Region>, k: nat, a: int, len: int)
    requires Valid(rs) && RangeOk(a, len) && StopsAt(rs, k, a, len)
    ensures Valid(rs[..k] + TakeOut(rs[k..], a, a + len, len))
  {
    SplitAt(rs, k);
    if rs[k].start > a + len {
      TakeOutFar(rs[k..], a, a + len);
    } else {
      TakeOutValid(rs[k..], a, a + len, len);
      ValidConcat(rs[..k], TakeOut(rs[k..], a, a + len, len), Lowered(rs[k], a + len));
    }
  }

  lemma {:induction false} PrefixClear(rs: seq<Region>, k: nat, a: int, len: int, va: int)
    requires StopsAt(rs, k, a, len) && a <= va <= a + len
    ensures At(rs[..k], va) == None
  {
    AtNone(rs[..k], va);
    forall i | 0 <= i < k ensures !Contains(rs[..k][i], va) { assert rs[..k][i] == rs[i]; }
  }

  lemma {:induction false} CutAtMeaning(rs: seq<Region>, k: nat, a: int, len: int, va: int)
    requires Valid(rs) && RangeOk(a, len) && StopsAt(rs, k, a, len)
    ensures var out := rs[..k] + TakeOut(rs[k..], a, a + len, len);
            && (a <= va < a + len ==> At(out, va) == None)
            && (!(a <= va < a + len) && At(rs, va) != None ==> At(out, va) == At(rs, va))
  {
    hide TakeOut, At;
    SplitAt(rs, k);
    AtConcat(rs[..k], rs[k..], va);
    if a <= va < a + len { PrefixClear(rs, k, a, len, va); }
    TakeOutMeaning(rs[k..], a, a + len, len, va);
    AtConcat(rs[..k], TakeOut(rs[k..], a, a + len, len), va);
  }

  lemma {:induction false} GrowthFound(rs: seq<Region>, k: nat, a: int, len: int, i: nat)
    requires Valid(rs) && StopsAt(rs, k, a, len) && GrowsAt(rs, i, a + len, len)
    ensures k <= i && rs[k].start <= a + len && GrowsAt(rs[k..], i - k, a + len, len)
  {
    assert RegionOk(rs[i]) && RegionOk(rs[k]);
    assert k < i ==> rs[k].end <= rs[i].start;
  }

  lemma {:induction false} CutAtGrowth(rs: seq<Region>, k: nat, a: int, len: int, i: nat)
    requires Valid(rs) && RangeOk(a, len) && 0 < len && StopsAt(rs, k, a, len) && GrowsAt(rs, i, a + len, len)
    ensures At(rs[..k] + TakeOut(rs[k..], a, a + len, len), a + len) != None
    ensures At(rs, a + len) == None
  {
    hide TakeOut, At, GrowsAt;
    var e := a + len;
    GrowthFound(rs, k, a, len, i);
    SplitAt(rs, k);
    TakeOutGrowth(rs[k..], a, e, len, i - k);
    PrefixClear(rs, k, a, len, e);
    AtConcat(rs[..k], rs[k..], e);
    AtConcat(rs[..k], TakeOut(rs[k..], a, e, len), e);
  }

  lemma {:induction false} CutAtNoGrowth(rs: seq<Region>, k: nat, a: int, len: int, va: int)
    requires Valid(rs) && RangeOk(a, len) && StopsAt(rs, k, a, len) && !Grows(rs, a + len, len)
    ensures At(rs[..k] + TakeOut(rs[k..], a, a + len, len), va) != None ==> At(rs, va) != None
  {
    hide TakeOut, At, Grows;
    SplitAt(rs, k);
    AtConcat(rs[..k], rs[k..], va);
    AtConcat(rs[..k], TakeOut(rs[k..], a, a + len, len), va);
    if rs[k].start > a + len {
      TakeOutFar(rs[k..], a, a + len);
    } else {
      GrowsSuffix(rs, k, a + len, len);
      TakeOutNoGrowth(rs[k..], a, a + len, len, va);
    }
  }

  lemma {:induction false} GrowsSuffix(rs: seq<Region>, k: nat, e: int, len: int)
    requires k <= |rs|
    ensures Grows(rs[k..], e, len) ==> Grows(rs, e, len)
  {
    if Grows(rs[k..], e, len) {
      var i :| 0 <= i < |rs[k..]| && GrowsAt(rs[k..], i, e, len);
      assert GrowsAt(rs, k + i, e, len);
    }
  }

  lemma {:induction false} TakeOutNoGrowth(rs: seq<Region>, a: int, e: int, len: int, va: int)
    requires Valid(rs) && a <= e <= a + len && (rs != [] ==> a <= rs[0].end && rs[0].start <= e)
    requires !Grows(rs, e, len)
    ensures At(TakeOut(rs, a, e, len), va) != None ==> At(rs, va) != None
  {
    if rs != [] && a < e && rs[0].start <= a + len {
      var v := rs[0];
      ValidTail(rs);
      PiecesMeaning(v, a, e, va);
      AtConcat(Pieces(v, a, e), if e <= v.end then rs[1..] else TakeOut(rs[1..], v.end, e, len), va);
      if e > v.end && |rs| > 1 {
        if rs[1].start <= e {
          GrowsSuffix(rs, 1, e, len);
          TakeOutNoGrowth(rs[1..], v.end, e, len, va);
        } else {
          assert !GrowsAt(rs, 0, e, len);
        }
      }
    }
  }

  lemma {:induction false} TakeOutGrowth(rs: seq<Region>, a: int, e: int, len: int, i: nat)
    requires Valid(rs) && a < e <= a + len && rs != [] && a <= rs[0].end && rs[0].start <= e
    requires GrowsAt(rs, i, e, len)
    ensures At(TakeOut(rs, a, e, len), e) != None && At(rs, e) == None
  {
    var v := rs[0];
    ValidTail(rs);
    assert i > 0 ==> v.end <= rs[i].start && RegionOk(rs[i]);
    PiecesMeaning(v, a, e, e);
    AtConcat(Pieces(v, a, e), TakeOut(rs[1..], v.end, e, len), e);
    if i == 0 {
      AtBelow(rs[1..], rs[1].start, e);
      PiecesMeaning(rs[1], v.end, e, e);
      AtConcat(Pieces(rs[1], v.end, e), rs[1..][1..], e);
    } else {
      assert i > 1 ==> rs[1].end <= rs[i].start;
      assert RegionOk(rs[1]);
      TakeOutGrowth(rs[1..], v.end, e, len, i - 1);
    }
  }

  lemma {:induction false} UnmapCases(rs: seq<Region>, a: int, len: int)
    requires Valid(rs) && RangeOk(a, len) && 0 < len && !Truncated(rs, a, len)
    ensures var k := Scan(rs, a, len);
            || (k < |rs| && StopsAt(rs, k, a, len)
                && Unmap(rs, a, len) == rs[..k] + TakeOut(rs[k..], a, a + len, len))
            || (Unmap(rs, a, len) == rs
                && forall i :: 0 <= i < |rs| ==> rs[i].end <= a || a + len < rs[i].start)
  {
    ScanTruncated(rs, a, len);
    forall i | 0 <= i < Scan(rs, a, len) ensures rs[i].end <= a || a + len < rs[i].start {
      ScanSkips(rs, a, len, i);
    }
  }

  lemma {:induction false} UnmapValid(rs: seq<Region>, a: int, len: int)
    requires Valid(rs) && RangeOk(a, len) && !Truncated(rs, a, len)
    ensures Valid(Unmap(rs, a, len))
  {
    if len > 0 {
      UnmapCases(rs, a, len);
      var k := Scan(rs, a, len);
      if StopsAt(rs, k, a, len) { CutAtValid(rs, k, a, len); }
    }
  }

  /** Nothing lies between the region the scan stops at and the range above it. */
  predicate NextAbove(rs: seq<Region>, a: int, len: int) {
    var k := Scan(rs, a, len);
    k + 1 >= |rs| || a <= rs[k + 1].start
  }

  predicate Tame(rs: seq<Region>, a: int, len: int) {
    len == 0 || !Truncated(rs, a, len) || NextAbove(rs, a, len)
  }

  /**
   Unmapping keeps the list non-empty, sorted and disjoint, unless a truncated distance
   stretches a region over the next one.
   */
  lemma {:induction false} UnmapValidIff(rs: seq<Region>, a: int, len: int)
    requires Valid(rs) && RangeOk(a, len)
    ensures Valid(Unmap(rs, a, len)) <==> Tame(rs, a, len)
  {
    if !Truncated(rs, a, len) {
      UnmapValid(rs, a, len);
    } else if len > 0 {
      ScanTruncated(rs, a, len);
      StretchValidIff(rs, Scan(rs, a, len), a);
    }
  }

  lemma {:induction false} StretchValidIff(rs: seq<Region>, k: nat, a: int)
    requires Valid(rs) && k < |rs| && rs[k].end < a <= LIMIT && a % PAGE == 0
    ensures Valid(rs[k := rs[k].(end := a)]) <==> k + 1 >= |rs| || a <= rs[k + 1].start
  {
    var out := rs[k := rs[k].(end := a)];
    assert RegionOk(rs[k]);
    if k + 1 < |rs| && rs[k + 1].start < a {
      assert out[k].end > out[k + 1].start;
    } else {
      forall i, j | 0 <= i < j < |out| ensures out[i].end <= out[j].start {
        assert rs[i].end <= rs[j].start;
        assert i == k && k + 1 < j ==> rs[k + 1].end <= rs[j].start && RegionOk(rs[k + 1]);
      }
    }
  }

  /**
   Unmapping, address by address.  The page-rounded range is no longer mapped, and every
   address mapped outside it keeps its file, its offset and its attributes.  With a
   truncated distance the region it belongs to is stretched up to the range, over whatever
   lies there, and nothing else changes.
   */
  lemma {:induction false} UnmapMeaning(rs: seq<Region>, a: int, len: int, va: int)
    requires Valid(rs) && RangeOk(a, len) && 0 < len
    ensures !Truncated(rs, a, len) && a <= va < a + len ==> At(Unmap(rs, a, len), va) == None
    ensures !Truncated(rs, a, len) && !(a <= va < a + len) && At(rs, va) != None ==>
              At(Unmap(rs, a, len), va) == At(rs, va)
    ensures Truncated(rs, a, len) ==>
              && Scan(rs, a, len) < |rs|
              && var v := rs[Scan(rs, a, len)];
                 At(Unmap(rs, a, len), va) == if v.end <= va < a then Some(BackingOf(v, va)) else At(rs, va)
  {
    var k := Scan(rs, a, len);
    if !Truncated(rs, a, len) {
      UnmapCases(rs, a, len);
      if StopsAt(rs, k, a, len) { CutAtMeaning(rs, k, a, len, va); }
      AtNone(rs, va);
    } else {
      ScanTruncated(rs, a, len);
      StretchMeaning(rs, k, a, va);
    }
  }

  lemma {:induction false} StretchMeaning(rs: seq<Region>, k: nat, a: int, va: int)
    requires Valid(rs) && k < |rs| && rs[k].end < a
    ensures At(rs[k := rs[k].(end := a)], va) == if rs[k].end <= va < a then Some(BackingOf(rs[k], va)) else At(rs, va)
    decreases k
  {
    var out := rs[k := rs[k].(end := a)];
    assert RegionOk(rs[k]);
    if k == 0 {
      assert out[1..] == rs[1..];
    } else {
      ValidTail(rs);
      assert out[1..] == rs[1..][k - 1 := rs[k].(end := a)];
      StretchMeaning(rs[1..], k - 1, a, va);
    }
  }

  /** Between a region and the next one nothing is mapped. */
  lemma {:induction false} GapUnmapped(rs: seq<Region>, k: nat, va: int)
    requires Valid(rs) && k < |rs| && rs[k].end <= va && (k + 1 < |rs| ==> va < rs[k + 1].start)
    ensures At(rs, va) == None
  {
    forall i | 0 <= i < |rs| ensures !Contains(rs[i], va) {
      assert RegionOk(rs[i]) && RegionOk(rs[k]);
      assert i < k ==> rs[i].end <= rs[k].start;
      assert k + 1 < i ==> rs[k + 1].end <= rs[i].start && RegionOk(rs[k + 1]);
    }
    AtNone(rs, va);
  }

  ghost predicate AllMapped(rs: seq<Region>, from: int, to: int) {
    forall va :: from <= va < to ==> At(rs, va) != None
  }

  /** Nothing new becomes mapped, unless a region is stretched down or up to the range. */
  lemma {:induction false} UnmapExact(rs: seq<Region>, a: int, len: int)
    requires Valid(rs) && RangeOk(a, len) && 0 < len
    ensures Truncated(rs, a, len) ==> Scan(rs, a, len) < |rs|
    ensures (forall va :: At(Unmap(rs, a, len), va) != None ==> At(rs, va) != None)
       <==> if Truncated(rs, a, len) then AllMapped(rs, rs[Scan(rs, a, len)].end, a) else !Grows(rs, a + len, len)
  {
    if Truncated(rs, a, len) {
      ScanTruncated(rs, a, len);
      StretchExact(rs, Scan(rs, a, len), a);
    } else {
      UnmapGrowth(rs, a, len);
    }
  }

  lemma {:induction false} StretchExact(rs: seq<Region>, k: nat, a: int)
    requires Valid(rs) && k < |rs| && rs[k].end < a
    ensures var out := rs[k := rs[k].(end := a)];
            (forall va :: At(out, va) != None ==> At(rs, va) != None) <==> AllMapped(rs, rs[k].end, a)
  {
    hide At;
    var out := rs[k := rs[k].(end := a)];
    if AllMapped(rs, rs[k].end, a) {
      forall va | At(out, va) != None ensures At(rs, va) != None {
        StretchMeaning(rs, k, a, va);
      }
    } else {
      var va :| rs[k].end <= va < a && At(rs, va) == None;
      StretchMeaning(rs, k, a, va);
      assert At(out, va) != None;
    }
  }

  lemma {:induction false} UnmapGrowth(rs: seq<Region>, a: int, len: int)
    requires Valid(rs) && RangeOk(a, len) && 0 < len && !Truncated(rs, a, len)
    ensures (forall va :: At(Unmap(rs, a, len), va) != None ==> At(rs, va) != None) <==> !Grows(rs, a + len, len)
  {
    UnmapCases(rs, a, len);
    var k := Scan(rs, a, len);
    if StopsAt(rs, k, a, len) {
      if Grows(rs, a + len, len) {
        var i :| 0 <= i < |rs| && GrowsAt(rs, i, a + len, len);
        CutAtGrowth(rs, k, a, len, i);
      } else {
        forall va | At(Unmap(rs, a, len), va) != None ensures At(rs, va) != None {
          CutAtNoGrowth(rs, k, a, len, va);
        }
      }
    }
  }

  /** A truncated distance leaves the range itself as it was. */
  lemma {:induction false} TruncatedKeepsRange(rs: seq<Region>, a: int, len: int, va: int)
    requires Valid(rs) && RangeOk(a, len) && Truncated(rs, a, len) && a <= va < a + len
    ensures At(Unmap(rs, a, len), va) == At(rs, va)
  {
    UnmapMeaning(rs, a, len, va);
  }

  ghost predicate Clear(rs: seq<Region>, a: int, e: int) {
    forall va :: a <= va < e ==> At(rs, va) == None
  }

  /**
   The range is really unmapped unless a truncated distance sent the scan to a region
   below it; then nothing in the range changes, so it is unmapped only if it was before.
   */
  lemma {:induction false} UnmapClearsIff(rs: seq<Region>, a: int, len: int)
    requires Valid(rs) && RangeOk(a, len)
    ensures Clear(Unmap(rs, a, len), a, a + len) <==> !Truncated(rs, a, len) || Clear(rs, a, a + len)
  {
    var out := Unmap(rs, a, len);
    forall va | a <= va < a + len
      ensures if Truncated(rs, a, len) then At(out, va) == At(rs, va) else At(out, va) == None
    {
      if Truncated(rs, a, len) { TruncatedKeepsRange(rs, a, len, va); } else { UnmapMeaning(rs, a, len, va); }
    }
    if !Clear(rs, a, a + len) {
      var va :| a <= va < a + len && At(rs, va) != None;
      assert Truncated(rs, a, len) ==> At(out, va) != None;
    }
  }

  /** One page of a two-page range is mapped; a region one page behind the range is stretched down to its end. */
  lemma {:induction false} StretchedDown(v: Region, w: Region)
    requires v == Region(0x1000, 0x2000, 0, None, 0) && w == Region(0x4000, 0x5000, 0, None, 0)
    ensures At([v, w], 0x3000) == None && At(Unmap([v, w], 0x1000, 0x2000), 0x3000) == Some(Anonymous(0))
  {
    var rs := [v, w];
    assert rs[0] == v && rs[1..] == [w] && [w][1..] == [];
    assert Hit(v, 0x1000, 0x2000);
    assert rs[..0] == [] && rs[0..] == rs;
    assert At([w], 0x3000) == At([], 0x3000) == None;
    assert TakeOut([w], 0x2000, 0x3000, 0x2000) == Pieces(w, 0x2000, 0x3000) + [] == [Tail(w, 0x3000)];
    assert Unmap(rs, 0x1000, 0x2000) == Pieces(v, 0x1000, 0x3000) + [Tail(w, 0x3000)] == [Tail(w, 0x3000)];
  }

  /** The distance to a region exactly 4 GiB below counts as zero: the range stays mapped. */
  lemma {:induction false} FourGigabytesBelow(v: Region, w: Region)
    requires v == Region(0x1000, 0x2000, 0, None, 0) && w == Region(0x1_0000_1000, 0x1_0000_2000, 0, None, 0)
    ensures At(Unmap([v, w], 0x1_0000_1000, 0x1000), 0x1_0000_1000) == Some(Anonymous(0))
  {
  }
}
