/**
 What the calls of a whole run say about an address: a mapping lasts until an unmap or a fixed
 request covers it, and nothing else is mapped unless a region is stretched.
 */
module VmHistory {
  import opened Regions
  import opened VmSpace

  predicate Within(loc: int, len: int, va: int) { loc <= va < loc + len }

  /** The request unmaps its range first. */
  predicate Clears(q: Request) { q.fixed && !q.noreplace }

  /** What one call says about an address that held `b`. */
  function Says(rs: seq<Region>, op: Op, va: int, b: Option<Backing>): Option<Backing> {
    match op
    case UnmapOp(addr, length) => if Covered(addr, length, va) then None else b
    case MapOp(q) =>
      match Map(rs, q).0
      case Placed(loc) => if Within(loc, q.mlen, va) then Some(Asked(q, va - loc)) else b
      case _ => if Clears(q) && Within(PageFrame(q.addr), q.mlen, va) then None else b
  }

  /** What all calls of a run say, one after the other. */
  function History(rs: seq<Region>, ops: seq<Op>, va: int, b: Option<Backing>): Option<Backing>
    decreases |ops|
  {
    if ops == [] then b else History(Do(rs, ops[0]), ops[1..], va, Says(rs, ops[0], va, b))
  }

  /** No region is stretched, up or down, by what the call unmaps. */
  predicate Quiet(rs: seq<Region>, op: Op) {
    match op
    case UnmapOp(addr, length) =>
      !Truncated(rs, PageFrame(addr), RoundUp(length)) && !Grows(rs, PageFrame(addr) + RoundUp(length), RoundUp(length))
    case MapOp(q) =>
      Clears(q) ==> !Truncated(rs, PageFrame(q.addr), q.mlen) && !Grows(rs, PageFrame(q.addr) + q.mlen, q.mlen)
  }

  predicate QuietRun(rs: seq<Region>, ops: seq<Op>)
    decreases |ops|
  {
    ops == [] || (Quiet(rs, ops[0]) && QuietRun(Do(rs, ops[0]), ops[1..]))
  }

  // ---------------------------------------------------------------- one call

  lemma {:induction false} RangeStays(rs: seq<Region>, a: int, len: int, va: int)
    requires Valid(rs) && RangeOk(a, len) && Tame(rs, a, len) && !Within(a, len, va) && At(rs, va) != None
    ensures At(Unmap(rs, a, len), va) == At(rs, va)
  {
    hide Unmap, At, Tame;
    if len == 0 {
      UnmapNothing(rs, a);
    } else {
      UnmapKeeps(rs, a, len, va);
    }
  }

  /** A quiet unmap maps nothing new and clears its range. */
  lemma {:induction false} RangeQuiet(rs: seq<Region>, a: int, len: int, va: int)
    requires Valid(rs) && RangeOk(a, len) && !Truncated(rs, a, len) && !Grows(rs, a + len, len)
    requires Within(a, len, va) || At(rs, va) == None
    ensures At(Unmap(rs, a, len), va) == None
  {
    hide Unmap, At, Truncated, Grows;
    if len == 0 {
      UnmapNothing(rs, a);
    } else {
      UnmapMeaning(rs, a, len, va);
      UnmapExact(rs, a, len);
    }
  }

  lemma {:induction false} UnmapSays(rs: seq<Region>, addr: int, length: int, va: int, b: Option<Backing>)
    requires Valid(rs) && Legal(rs, UnmapOp(addr, length)) && (b != None ==> At(rs, va) == b)
    ensures var said := Says(rs, UnmapOp(addr, length), va, b);
            && (said != None ==> At(Do(rs, UnmapOp(addr, length)), va) == said)
            && (Quiet(rs, UnmapOp(addr, length)) && At(rs, va) == b ==> At(Do(rs, UnmapOp(addr, length)), va) == said)
  {
    hide Unmap, At, Tame, Covered, Truncated, Grows, Valid;
    var a, len := PageFrame(addr), RoundUp(length);
    Rounded(addr, length);
    CoveredRounded(addr, length, va);
    if !Within(a, len, va) && At(rs, va) != None {
      RangeStays(rs, a, len, va);
    } else if Quiet(rs, UnmapOp(addr, length)) {
      RangeQuiet(rs, a, len, va);
    }
  }

  /** A request that clears its range, seen from an address outside it. */
  lemma {:induction false} FixedSays(rs: seq<Region>, q: Request, va: int)
    requires Valid(rs) && MapLegal(rs, q) && Clears(q)
    ensures var loc := PageFrame(q.addr);
            && RangeOk(loc, q.mlen)
            && (!Within(loc, q.mlen, va) && At(rs, va) != None ==> At(Unmap(rs, loc, q.mlen), va) == At(rs, va))
            && (Quiet(rs, MapOp(q)) && (Within(loc, q.mlen, va) || At(rs, va) == None) ==>
                  At(Unmap(rs, loc, q.mlen), va) == None)
  {
    hide Unmap, At, Tame, Truncated, Grows, Valid;
    var loc := PageFrame(q.addr);
    PageBounds(q.addr);
    if !Within(loc, q.mlen, va) && At(rs, va) != None {
      RangeStays(rs, loc, q.mlen, va);
    } else if Quiet(rs, MapOp(q)) {
      RangeQuiet(rs, loc, q.mlen, va);
    }
  }

  lemma {:induction false} PlacedSays(rs: seq<Region>, q: Request, va: int, b: Option<Backing>)
    requires Valid(rs) && MapLegal(rs, q) && Map(rs, q).0.Placed? && (b != None ==> At(rs, va) == b)
    ensures var said := Says(rs, MapOp(q), va, b);
            && (said != None ==> At(Map(rs, q).1, va) == said)
            && (Quiet(rs, MapOp(q)) && At(rs, va) == b ==> At(Map(rs, q).1, va) == said)
  {
    hide Unmap, At, Valid, Map, MapLegal, Quiet;
    MapMeaning(rs, q, va);
    if Clears(q) && !Within(Map(rs, q).0.loc, q.mlen, va) {
      FixedSays(rs, q, va);
      PlacedBase(rs, q, va);
    }
  }

  /** Outside its range a placed request leaves what its base list holds. */
  lemma {:induction false} PlacedBase(rs: seq<Region>, q: Request, va: int)
    requires Valid(rs) && MapLegal(rs, q) && Map(rs, q).0.Placed? && Clears(q) && !Within(Map(rs, q).0.loc, q.mlen, va)
    ensures Map(rs, q).0.loc == PageFrame(q.addr)
    ensures At(Map(rs, q).1, va) == At(Unmap(rs, PageFrame(q.addr), q.mlen), va)
  {
    PlacedFree(rs, q);
    InsertMeaning(Base(rs, q), NewRegion(Map(rs, q).0.loc, q), va);
  }

  lemma {:induction false} FailedSays(rs: seq<Region>, q: Request, va: int, b: Option<Backing>)
    requires Valid(rs) && MapLegal(rs, q) && !Map(rs, q).0.Placed? && (b != None ==> At(rs, va) == b)
    ensures var said := Says(rs, MapOp(q), va, b);
            && (said != None ==> At(Map(rs, q).1, va) == said)
            && (Quiet(rs, MapOp(q)) && At(rs, va) == b ==> At(Map(rs, q).1, va) == said)
  {
    FailedBase(rs, q);
    hide Unmap, At, Valid, Map, MapLegal, Quiet;
    if Clears(q) {
      FixedSays(rs, q, va);
    }
  }

  lemma {:induction false} FailedBase(rs: seq<Region>, q: Request)
    requires !Map(rs, q).0.Placed?
    ensures Map(rs, q).1 == if Clears(q) then Unmap(rs, PageFrame(q.addr), q.mlen) else rs
  {
    hide Unmap;
  }

  // ---------------------------------------------------------------- whole runs

  lemma {:induction false} StepSays(rs: seq<Region>, op: Op, va: int, b: Option<Backing>)
    requires Valid(rs) && Legal(rs, op) && (b != None ==> At(rs, va) == b)
    ensures Says(rs, op, va, b) != None ==> At(Do(rs, op), va) == Says(rs, op, va, b)
    ensures Quiet(rs, op) && At(rs, va) == b ==> At(Do(rs, op), va) == Says(rs, op, va, b)
  {
    hide Unmap, At, Valid, Map, Says, Quiet, MapLegal, Tame;
    match op
    case UnmapOp(addr, length) => UnmapSays(rs, addr, length, va, b);
    case MapOp(q) =>
      if Map(rs, q).0.Placed? {
        PlacedSays(rs, q, va, b);
      } else {
        FailedSays(rs, q, va, b);
      }
  }

  lemma {:induction false} RunSays(rs: seq<Region>, ops: seq<Op>, va: int, b: Option<Backing>)
    requires Valid(rs) && RunArgsOk(ops) && LegalRun(rs, ops) && (b != None ==> At(rs, va) == b)
    ensures History(rs, ops, va, b) != None ==> At(Run(rs, ops), va) == History(rs, ops, va, b)
    ensures QuietRun(rs, ops) && At(rs, va) == b ==> At(Run(rs, ops), va) == History(rs, ops, va, b)
    decreases |ops|
  {
    hide At, Valid, Says, Quiet, Legal, Do, ArgsOk;
    if ops != [] {
      StepSays(rs, ops[0], va, b);
      StepValidIff(rs, ops[0]);
      RunSays(Do(rs, ops[0]), ops[1..], va, Says(rs, ops[0], va, b));
    }
  }

  /**
   Over every legal run from the empty list: what the history says is mapped at an address is
   mapped there, with that backing.  If no call stretches a region, the history says exactly what
   is mapped.
   */
  lemma {:induction false} RunHistory(ops: seq<Op>, va: int)
    requires RunArgsOk(ops) && LegalRun([], ops)
    ensures History([], ops, va, None) != None ==> At(Run([], ops), va) == History([], ops, va, None)
    ensures QuietRun([], ops) ==> At(Run([], ops), va) == History([], ops, va, None)
  {
    RunSays([], ops, va, None);
  }
}
