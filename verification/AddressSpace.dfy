/** The loops of `mmap.c` and `region.c` over the region list of one process. */
module AddressSpace {
  import opened Regions
  import opened VmSpace

  class ProcMm {
    var regions: seq<Region>

    constructor ()
      ensures regions == []
    {
      regions := [];
    }

    /** The first loop of `mem_unmap`. */
    method ScanRegions(cur: int, len: int) returns (i: nat)
      ensures i == Scan(regions, cur, len)
    {
      i := 0;
      while i < |regions|
        invariant i <= |regions|
        invariant Scan(regions, cur, len) == i + Scan(regions[i..], cur, len)
      {
        var l := Low32(regions[i].start - cur);
        if (regions[i].start <= cur && cur < regions[i].end) || l <= len {
          break;
        }
        assert regions[i..][1..] == regions[i + 1..];
        i := i + 1;
      }
    }

    /** `mem_unmap`: round the range to pages, then remove it. */
    method MemUnmap(addr: int, length: int)
      requires Valid(regions)
      requires 0 <= addr && 0 <= length && PageFrame(addr) + RoundUp(length) <= LIMIT
      modifies this
      ensures regions == Unmap(old(regions), PageFrame(addr), RoundUp(length))
      ensures !Truncated(old(regions), PageFrame(addr), RoundUp(length)) ==>
                forall va :: UnmappedAt(old(regions), regions, addr, length, va)
    {
      if !Truncated(regions, PageFrame(addr), RoundUp(length)) {
        forall va ensures UnmappedAt(regions, Unmap(regions, PageFrame(addr), RoundUp(length)), addr, length, va) {
          CallUnmaps(regions, addr, length, va);
        }
      }
      RemovePages(PageFrame(addr), RoundUp(length));
    }

    /** The body of `mem_unmap` on a rounded range. */
    method RemovePages(addr: int, len: int)
      requires Valid(regions) && 0 <= addr && 0 <= len && addr + len <= LIMIT
      modifies this
      ensures regions == Unmap(old(regions), addr, len)
    {
      var start := ScanRegions(addr, len);
      SplitAt(regions, start);
      UnmapIsRest(regions, addr, len);
      var rest := RemoveFrom(regions[start..], addr, len);
      regions := regions[..start] + rest;
    }

    /** `mem_has_overlap` */
    method MemHasOverlap(start: int, end: int) returns (hit: bool)
      ensures hit <==> HasOverlap(regions, start, end)
    {
      for i := 0 to |regions|
        invariant forall j :: 0 <= j < i ==> !Touches(regions[j], start, end)
      {
        var pos := regions[i];
        if pos.end >= start && pos.start < start {
          assert Touches(regions[i], start, end);
          return true;
        }
        if pos.end <= end && pos.start >= start {
          assert Touches(regions[i], start, end);
          return true;
        }
        if pos.end >= end && pos.start < end {
          assert Touches(regions[i], start, end);
          return true;
        }
      }
      return false;
    }

    /** `__mem_find_nearest`; the list is not empty. */
    method FindNearest(addr: int) returns (min: nat)
      requires Valid(regions) && regions != [] && 0 <= addr < LIMIT
      ensures min == Nearest(regions, addr) && min < |regions|
      ensures forall j :: 0 <= j < |regions| ==> Distance(regions[min], addr) <= Distance(regions[j], addr)
    {
      NearestMinimal(regions, addr);
      var minDist := TWO64 - 1;
      min := 0;
      for i := 0 to |regions|
        invariant Nearest(regions, addr) == NearestFrom(regions, addr, i, min, minDist)
      {
        var pos := regions[i];
        if Contains(pos, addr) {
          return i;
        }
        var dist := addr - pos.end;
        if addr < pos.start {
          dist := pos.start - addr;
        }
        if dist < minDist {
          minDist := dist;
          min := i;
        }
      }
    }

    /** `__mem_find_slot_backward` */
    method FindSlotBackward(anchor: nat, size: int, rangeEnd: int) returns (p: int)
      requires anchor < |regions|
      ensures p == SlotAbove(regions, anchor, size, rangeEnd)
    {
      var pos := anchor;
      while pos < |regions|
        invariant pos <= |regions|
        invariant SlotAbove(regions, anchor, size, rangeEnd) == SlotAbove(regions, pos, size, rangeEnd)
      {
        var end := if pos + 1 == |regions| then rangeEnd else regions[pos + 1].start;
        if end - regions[pos].end >= size {
          return regions[pos].end;
        }
        pos := pos + 1;
      }
      return 0;
    }

    /** `__mem_find_slot_forward` */
    method FindSlotForward(anchor: nat, size: int, rangeStart: int) returns (p: int)
      requires anchor < |regions|
      ensures p == SlotBelow(regions, anchor, size, rangeStart)
    {
      var pos: int := anchor;
      while pos >= 0
        invariant -1 <= pos < |regions|
        invariant pos >= 0 ==> SlotBelow(regions, anchor, size, rangeStart) == SlotBelow(regions, pos, size, rangeStart)
        invariant pos < 0 ==> SlotBelow(regions, anchor, size, rangeStart) == 0
      {
        var end := if pos == 0 then rangeStart else regions[pos - 1].end;
        if Wrap(regions[pos].start - end) >= size {
          return Wrap(regions[pos].start - size);
        }
        pos := pos - 1;
      }
      return 0;
    }

    /** `region_add` */
    method RegionAdd(v: Region)
      modifies this
      ensures regions == Insert(old(regions), v)
    {
      var pos := 0;
      var curEnd := 0;
      while pos < |regions|
        invariant pos <= |regions| && regions == old(regions)
        invariant InsertIndex(regions, v, 0, 0) == InsertIndex(regions, v, pos, curEnd)
      {
        if v.start >= curEnd && v.end <= regions[pos].start {
          break;
        }
        curEnd := regions[pos].end;
        pos := pos + 1;
      }
      regions := regions[..pos] + ([v] + regions[pos..]);
    }

    /** `region_get`: the region of an address, and the only one. */
    method RegionGet(vaddr: int) returns (found: Option<nat>)
      requires Valid(regions)
      ensures found.Some? ==>
                && found.value < |regions| && Contains(regions[found.value], vaddr)
                && forall j :: 0 <= j < |regions| && Contains(regions[j], vaddr) ==> j == found.value
      ensures found.None? ==> At(regions, vaddr) == None
    {
      var va := PageFrame(vaddr);
      for i := 0 to |regions|
        invariant forall j :: 0 <= j < i ==> !Contains(regions[j], vaddr)
      {
        assert RegionOk(regions[i]);
        if regions[i].start <= va && va < regions[i].end {
          return Some(i);
        }
      }
      AtNone(regions, vaddr);
      return None;
    }

    /** The end of `mem_map`. */
    method PlaceAt(loc: int, q: Request) returns (r: MapResult)
      modifies this
      ensures (r, regions) == Place(old(regions), loc, q)
    {
      if loc >= q.hi || loc < q.lo {
        return Enomem;
      }
      RegionAdd(NewRegion(loc, q));
      return Placed(loc);
    }

    /** `__mem_find_slot` */
    method MemFindSlot(anchor: nat, q: Request) returns (p: int)
      requires anchor < |regions|
      ensures p == FindSlot(regions, anchor, q)
    {
      p := FindSlotBackward(anchor, q.mlen, q.hi);
      if p == 0 {
        p := FindSlotForward(anchor, q.mlen, q.lo);
      }
    }

    /** `mem_map` */
    method MemMap(q: Request) returns (r: MapResult)
      requires Valid(regions) && RequestOk(q)
      modifies this
      ensures (r, regions) == Map(old(regions), q)
    {
      var loc := PageFrame(q.addr);
      if q.noreplace {
        var hit := MemHasOverlap(loc, loc + q.mlen);
        if hit {
          return Eexist;
        }
        r := PlaceAt(loc, q);
      } else if q.fixed {
        RemovePages(loc, q.mlen);
        r := PlaceAt(loc, q);
      } else if regions == [] {
        r := PlaceAt(loc, q);
      } else {
        var anchor := FindNearest(loc);
        var p := MemFindSlot(anchor, q);
        if p == 0 {
          return Enomem;
        }
        r := PlaceAt(p, q);
      }
    }
  }

  /** The call in the second loop of `mem_unmap`. */
  method Turn(rs: seq<Region>, n: nat, cur: int, remaining: int, len: int)
    returns (parts: seq<Region>, cur': int, remaining': int)
    requires Valid(rs) && n < |rs| && rs[n].start <= cur + len
    requires 0 <= cur < cur + remaining <= LIMIT
    ensures var e := cur + remaining;
            && Rest(rs[n..], cur, remaining, e, len) == parts + Rest(rs[n + 1..], cur', remaining', e, len)
            && 0 <= remaining' && (remaining' != 0 ==> cur <= cur' && cur' + remaining' == e)
  {
    assert RegionOk(rs[n]);
    parts, cur', remaining' := UnmapOverlapped(rs[n], cur, remaining);
    RestStep(rs, n, cur, remaining, cur + remaining, len, parts, cur', remaining');
  }

  /** The second loop of `mem_unmap`, over the regions from where the scan stopped. */
  method RemoveFrom(regions: seq<Region>, addr: int, len: int) returns (out: seq<Region>)
    requires Valid(regions) && 0 <= addr && 0 <= len && addr + len <= LIMIT
    ensures out == Rest(regions, addr, len, addr + len, len)
  {
    hide Rest;
    var n, cur, remaining := 0, addr, len;
    ghost var e := addr + len;
    out := [];
    assert regions[0..] == regions;
    while n < |regions| && remaining != 0
      invariant n <= |regions| && 0 <= remaining
      invariant remaining != 0 ==> 0 <= cur && cur + remaining == e
      invariant Rest(regions, addr, len, e, len) == out + Rest(regions[n..], cur, remaining, e, len)
    {
      var pos := regions[n];
      assert RegionOk(pos);
      if pos.start > cur + len {
        FarRest(regions, n, cur, remaining, e, len);
        break;
      }
      var parts, cur', remaining' := Turn(regions, n, cur, remaining, len);
      out := out + parts;
      n, cur, remaining := n + 1, cur', remaining';
    }
    if n == |regions| || remaining == 0 {
      RestDone(regions[n..], cur, remaining, e, len);
    }
    out := out + regions[n..];
  }

  /** What the second loop still has to make of the regions ahead of it. */
  function Rest(ahead: seq<Region>, cur: int, remaining: int, e: int, len: int): seq<Region> {
    if remaining == 0 || ahead == [] then ahead
    else if ahead[0].end < cur then [ahead[0].(end := cur)] + ahead[1..]
    else TakeOut(ahead, cur, e, len)
  }

  lemma {:induction false} UnmapIsRest(rs: seq<Region>, a: int, len: int)
    ensures var k := Scan(rs, a, len); Unmap(rs, a, len) == rs[..k] + Rest(rs[k..], a, len, a + len, len)
  {
    var k := Scan(rs, a, len);
    if k < |rs| && rs[k].end < a {
      assert rs[k := rs[k].(end := a)] == rs[..k] + ([rs[k].(end := a)] + rs[k..][1..]);
    }
  }

  lemma {:induction false} RestDone(ahead: seq<Region>, cur: int, remaining: int, e: int, len: int)
    requires ahead == [] || remaining == 0
    ensures Rest(ahead, cur, remaining, e, len) == ahead
  {
  }

  lemma {:induction false} FarRest(rs: seq<Region>, n: nat, cur: int, remaining: int, e: int, len: int)
    requires n < |rs| && RegionOk(rs[n]) && 0 <= len && rs[n].start > cur + len
    ensures Rest(rs[n..], cur, remaining, e, len) == rs[n..]
  {
  }

  /** One turn of the second loop, against the specification. */
  lemma {:induction false} RestStep(rs: seq<Region>, n: nat, cur: int, remaining: int, e: int, len: int,
                                    parts: seq<Region>, cur': int, remaining': int)
    requires Valid(rs) && n < |rs| && rs[n].start <= cur + len
    requires 0 < remaining && cur + remaining == e
    requires cur <= rs[n].end ==> parts == Pieces(rs[n], cur, e)
    requires cur <= rs[n].end < e ==> cur' == rs[n].end && cur' + remaining' == e
    requires e <= rs[n].end ==> remaining' == 0
    requires rs[n].end < cur ==> parts == [rs[n].(end := cur)] && remaining' == 0
    ensures Rest(rs[n..], cur, remaining, e, len) == parts + Rest(rs[n + 1..], cur', remaining', e, len)
    ensures 0 <= remaining' && (remaining' != 0 ==> cur <= cur' && cur' + remaining' == e)
  {
    var ahead, v := rs[n..], rs[n];
    assert ahead[1..] == rs[n + 1..];
    if cur <= v.end {
      assert TakeOut(ahead, cur, e, len)
          == Pieces(v, cur, e) + if e <= v.end then ahead[1..] else TakeOut(ahead[1..], v.end, e, len);
      assert n + 1 < |rs| ==> rs[n + 1].start >= v.end && RegionOk(rs[n + 1]);
    }
  }
}
