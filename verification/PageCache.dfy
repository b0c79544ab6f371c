/**
 The page cache of kernel/fs/pcache.c over the block cache of kernel/bcache.c: pages of one
 file kept in a trie by page number, written back when evicted.  Reads and writes through the
 cache must behave like reads and writes of the flat file.
 */
module PageCache {
  import B = Btrie

  const PAGE := 4096

  /** Children per trie node: the page cache asks for order 4. */
  const WAYS := 16

  /** A cached page and the references to it; the two source records are one value here. */
  datatype Page = Page(bytes: seq<int>, dirty: bool, refs: nat)

  /** `file` is the backing store, page by page; pages not in the map are zero. */
  datatype Cache = Cache(nodes: B.Nodes<Page>, dirty: seq<nat>, nDirty: int, file: map<nat, seq<int>>)

  function Zeros(): seq<int> { seq(PAGE, i => 0) }

  /** What `read_page` delivers. */
  function Stored(c: Cache, tag: nat): seq<int> { if tag in c.file then c.file[tag] else Zeros() }

  function Cached(c: Cache, tag: nat): B.Option<Page> { B.Get(WAYS, c.nodes, tag) }

  /** The page as a reader sees it. */
  function Contents(c: Cache, tag: nat): seq<int> {
    match Cached(c, tag)
    case Some(pg) => pg.bytes
    case None => Stored(c, tag)
  }

  // ---------------------------------------------------------------- one page at a time

  function Store(c: Cache, tag: nat, pg: Page): Cache
    requires [] in c.nodes
  {
    c.(nodes := B.Set(WAYS, c.nodes, tag, B.Some(pg)))
  }

  function Patch(bytes: seq<int>, off: nat, chunk: seq<int>): seq<int>
    requires off + |chunk| <= |bytes|
  {
    bytes[..off] + chunk + bytes[off + |chunk|..]
  }

  /** The page a write patches: the cached one, or a new one that is filled unless all of it is overwritten. */
  function Target(c: Cache, tag: nat, whole: bool): Page {
    match Cached(c, tag)
    case Some(pg) => pg
    case None => Page(if whole then Zeros() else Stored(c, tag), false, 0)
  }

  function WriteStep(c: Cache, tag: nat, off: nat, chunk: seq<int>): Cache
    requires Ok(c) && off + |chunk| <= PAGE
  {
    var pg := Target(c, tag, |chunk| == PAGE);
    TargetSize(c, tag, |chunk| == PAGE);
    var c' := if pg.dirty then c else c.(dirty := c.dirty + [tag], nDirty := c.nDirty + 1);
    Store(c', tag, Page(Patch(pg.bytes, off, chunk), true, pg.refs))
  }

  function ReadStep(c: Cache, tag: nat): Cache
    requires Ok(c)
  {
    if Cached(c, tag).Some? then c else Store(c, tag, Page(Stored(c, tag), false, 0))
  }

  function Drop(l: seq<nat>, tag: nat): seq<nat> {
    if l == [] then [] else if l[0] == tag then l[1..] else [l[0]] + Drop(l[1..], tag)
  }

  function Commit(c: Cache, tag: nat): Cache
    requires Ok(c)
  {
    match Cached(c, tag)
    case Some(pg) =>
      if !pg.dirty then c
      else
        var c' := c.(file := c.file[tag := pg.bytes], dirty := Drop(c.dirty, tag), nDirty := c.nDirty - 1);
        Store(c', tag, pg.(dirty := false))
    case None => c
  }

  /** A page in use stays; any other is committed, then taken out of the trie. */
  function Evict(c: Cache, tag: nat): Cache
    requires Ok(c)
  {
    if Cached(c, tag).None? || Cached(c, tag).value.refs > 0 then c
    else
      var c' := Commit(c, tag);
      c'.(nodes := B.Remove(WAYS, c'.nodes, tag))
  }

  // ---------------------------------------------------------------- the invariant

  predicate NoDup(l: seq<nat>) { forall j, k :: 0 <= j < k < |l| ==> l[j] != l[k] }

  ghost predicate TagOk(c: Cache, tag: nat) {
    && (Cached(c, tag).Some? ==> |Cached(c, tag).value.bytes| == PAGE)
    && (Cached(c, tag).Some? && !Cached(c, tag).value.dirty ==> Cached(c, tag).value.bytes == Stored(c, tag))
    && (tag in c.dirty <==> Cached(c, tag).Some? && Cached(c, tag).value.dirty)
  }

  /** Pages are whole, clean ones equal their backing page, and the dirty list and counter name the dirty pages exactly. */
  ghost predicate Ok(c: Cache) {
    && B.Wf(WAYS, c.nodes)
    && (forall tag {:trigger c.file[tag]} :: tag in c.file ==> |c.file[tag]| == PAGE)
    && (forall tag {:trigger TagOk(c, tag)} :: TagOk(c, tag))
    && NoDup(c.dirty) && c.nDirty == |c.dirty|
  }

  lemma {:induction false} TargetSize(c: Cache, tag: nat, whole: bool)
    requires Ok(c)
    ensures |Target(c, tag, whole).bytes| == PAGE && |Contents(c, tag)| == PAGE && |Stored(c, tag)| == PAGE
  {
    assert TagOk(c, tag);
  }

  lemma {:induction false} StoreExact(c: Cache, tag: nat, pg: Page)
    requires B.Wf(WAYS, c.nodes)
    ensures B.Wf(WAYS, Store(c, tag, pg).nodes)
    ensures var r := Store(c, tag, pg); r.file == c.file && r.dirty == c.dirty && r.nDirty == c.nDirty
    ensures forall t: nat :: Cached(Store(c, tag, pg), t) == if t == tag then B.Some(pg) else Cached(c, t)
  {
    hide B.Set, B.Wf, B.Get;
    B.SetExact(WAYS, c.nodes, tag, B.Some(pg));
  }

  lemma {:induction false} DropMembers(l: seq<nat>, tag: nat)
    requires NoDup(l)
    ensures NoDup(Drop(l, tag)) && forall t :: t in Drop(l, tag) <==> t in l && t != tag
    ensures |Drop(l, tag)| == if tag in l then |l| - 1 else |l|
  {
    if l != [] && l[0] != tag {
      DropMembers(l[1..], tag);
      var r := Drop(l[1..], tag);
      forall k | 0 <= k < |r| ensures r[k] != l[0] {
        assert r[k] in r;
      }
    }
  }

  lemma {:induction false} WriteStepExact(c: Cache, tag: nat, off: nat, chunk: seq<int>)
    requires Ok(c) && off + |chunk| <= PAGE
    ensures |Contents(c, tag)| == PAGE
    ensures Ok(WriteStep(c, tag, off, chunk)) && WriteStep(c, tag, off, chunk).file == c.file
    ensures forall t: nat :: Contents(WriteStep(c, tag, off, chunk), t)
                          == if t == tag then Patch(Contents(c, tag), off, chunk) else Contents(c, t)
    ensures forall t: nat :: t != tag ==> Cached(WriteStep(c, tag, off, chunk), t) == Cached(c, t)
    ensures var pg := Cached(WriteStep(c, tag, off, chunk), tag);
            pg.Some? && pg.value.refs == if Cached(c, tag).Some? then Cached(c, tag).value.refs else 0
  {
    hide B.Wf, Cached, Store;
    TargetSize(c, tag, |chunk| == PAGE);
    var pg := Target(c, tag, |chunk| == PAGE);
    var bytes := Patch(pg.bytes, off, chunk);
    var c' := if pg.dirty then c else c.(dirty := c.dirty + [tag], nDirty := c.nDirty + 1);
    assert TagOk(c, tag);
    StoreFrame(c, c');
    StoreExact(c', tag, Page(bytes, true, pg.refs));
    var r := WriteStep(c, tag, off, chunk);
    forall t ensures TagOk(r, t) {
      assert TagOk(c, t);
    }
  }

  lemma {:induction false} StoreFrame(c: Cache, c': Cache)
    requires c.nodes == c'.nodes
    ensures forall t: nat :: Cached(c', t) == Cached(c, t)
  {
  }

  lemma {:induction false} ReadStepExact(c: Cache, tag: nat)
    requires Ok(c)
    ensures Ok(ReadStep(c, tag)) && ReadStep(c, tag).file == c.file
    ensures forall t: nat :: Contents(ReadStep(c, tag), t) == Contents(c, t)
  {
    assert [] in c.nodes;
    hide B.Wf, Cached, Store;
    if Cached(c, tag).None? {
      var pg := Page(Stored(c, tag), false, 0);
      TargetSize(c, tag, false);
      StoreExact(c, tag, pg);
      forall t ensures TagOk(Store(c, tag, pg), t) {
        assert TagOk(c, t);
      }
    }
  }

  /** Committing a page leaves it clean and equal to its backing page, and changes nobody's view. */
  lemma {:induction false} CommitExact(c: Cache, tag: nat)
    requires Ok(c)
    ensures Ok(Commit(c, tag)) && Commit(c, tag).dirty == Drop(c.dirty, tag)
    ensures forall t: nat :: Contents(Commit(c, tag), t) == Contents(c, t)
    ensures forall t: nat :: t != tag ==>
                               Stored(Commit(c, tag), t) == Stored(c, t) && Cached(Commit(c, tag), t) == Cached(c, t)
    ensures tag in c.dirty ==> Stored(Commit(c, tag), tag) == Contents(c, tag)
    ensures Cached(c, tag).Some? ==> Cached(Commit(c, tag), tag) == B.Some(Cached(c, tag).value.(dirty := false))
    ensures Cached(c, tag).None? ==> Commit(c, tag) == c
  {
    hide B.Wf, Cached, Store, NoDup;
    assert TagOk(c, tag);
    DropMembers(c.dirty, tag);
    if tag in c.dirty {
      var pg := Cached(c, tag).value;
      var c' := c.(file := c.file[tag := pg.bytes], dirty := Drop(c.dirty, tag), nDirty := c.nDirty - 1);
      StoreFrame(c, c');
      StoreExact(c', tag, pg.(dirty := false));
      forall t ensures TagOk(Commit(c, tag), t) {
        assert TagOk(c, t);
      }
    } else {
      DropAbsent(c.dirty, tag);
    }
  }

  lemma {:induction false} DropAbsent(l: seq<nat>, tag: nat)
    requires tag !in l
    ensures Drop(l, tag) == l
  {
    if l != [] {
      DropAbsent(l[1..], tag);
    }
  }

  /** The trie node of a page has no children. */
  predicate Leaf(c: Cache, tag: nat) {
    B.Digits(WAYS, tag) in c.nodes ==> c.nodes[B.Digits(WAYS, tag)].count == 0
  }

  /** No other page is cached further down the same trie branch. */
  ghost predicate AloneBelow(c: Cache, tag: nat) {
    forall t: nat :: t != tag && B.Extends(WAYS, tag, t) ==> Cached(c, t).None?
  }

  lemma {:induction false} LeafIsAlone(c: Cache, tag: nat)
    requires Ok(c) && Leaf(c, tag)
    ensures AloneBelow(c, tag)
  {
    hide B.Wf, B.Digits;
    forall t: nat | t != tag && B.Extends(WAYS, tag, t) ensures Cached(c, t).None? {
      B.ExtendsIsPrefix(WAYS, tag, t);
      B.LeafKey(WAYS, c.nodes, tag, t);
    }
  }

  predicate Evictable(c: Cache, tag: nat) { Cached(c, tag).Some? && Cached(c, tag).value.refs == 0 }

  /**
   Eviction changes what a reader sees exactly when a page further down the same trie
   branch differs from its backing page.
   */
  lemma {:induction false} EvictKeepsViewIff(c: Cache, tag: nat)
    requires Ok(c) && Evictable(c, tag)
    ensures (forall t: nat :: Contents(Evict(c, tag), t) == Contents(c, t))
       <==> (forall t: nat :: t != tag && B.Extends(WAYS, tag, t) ==> Contents(c, t) == Stored(c, t))
  {
    hide B.Wf, B.Extends, Commit, B.Remove;
    EvictView(c, tag);
  }

  lemma {:induction false} EvictView(c: Cache, tag: nat)
    requires Ok(c) && Evictable(c, tag)
    ensures forall t: nat :: Contents(Evict(c, tag), t)
                          == if t != tag && B.Extends(WAYS, tag, t) then Stored(c, t) else Contents(c, t)
  {
    hide B.Wf, B.Extends, Commit, B.Remove;
    var c1 := Commit(c, tag);
    CommitExact(c, tag);
    CleanIsStored(c, tag);
    B.RemoveExact(WAYS, c1.nodes, tag);
    assert B.Extends(WAYS, tag, tag) by { B.ExtendsIsPrefix(WAYS, tag, tag); }
  }

  lemma {:induction false} CleanIsStored(c: Cache, tag: nat)
    requires Ok(c) && Evictable(c, tag)
    ensures Stored(Commit(c, tag), tag) == Contents(c, tag)
  {
    hide B.Wf;
    assert TagOk(c, tag);
    CommitExact(c, tag);
  }

  /** Evicting an unreferenced page with no cached page below it in the trie keeps the view and the invariant. */
  lemma {:induction false} EvictAlone(c: Cache, tag: nat)
    requires Ok(c) && (Evictable(c, tag) ==> AloneBelow(c, tag))
    ensures Ok(Evict(c, tag))
    ensures forall t: nat :: Contents(Evict(c, tag), t) == Contents(c, t)
    ensures Evictable(c, tag) ==> Cached(Evict(c, tag), tag).None?
  {
    hide B.Wf, B.Extends, Commit, B.Remove, B.Get;
    if Evictable(c, tag) {
      var c1 := Commit(c, tag);
      CommitExact(c, tag);
      CleanIsStored(c, tag);
      DropMembers(c.dirty, tag);
      RemoveCached(c1, tag);
      forall t ensures TagOk(Evict(c, tag), t) {
        assert TagOk(c1, t);
      }
    }
  }

  lemma {:induction false} RemoveCached(c: Cache, tag: nat)
    requires B.Wf(WAYS, c.nodes)
    ensures var c' := c.(nodes := B.Remove(WAYS, c.nodes, tag));
            && B.Wf(WAYS, c'.nodes) && Cached(c', tag).None?
            && forall t: nat :: Cached(c', t) == if B.Extends(WAYS, tag, t) then B.None else Cached(c, t)
  {
    hide B.Wf, B.Extends, B.Remove, B.Get;
    B.RemoveExact(WAYS, c.nodes, tag);
    assert B.Extends(WAYS, tag, tag) by { B.ExtendsIsPrefix(WAYS, tag, tag); }
  }

  /** In particular a page whose trie node has no children. */
  lemma {:induction false} EvictLeaf(c: Cache, tag: nat)
    requires Ok(c) && Leaf(c, tag)
    ensures Ok(Evict(c, tag)) && forall t: nat :: Contents(Evict(c, tag), t) == Contents(c, t)
  {
    hide Ok, Leaf, AloneBelow, Evict;
    LeafIsAlone(c, tag);
    EvictAlone(c, tag);
  }

  // ---------------------------------------------------------------- ranges of bytes

  function Min(a: int, b: int): int { if a < b then a else b }

  function RoundUp(x: nat): nat { (x + PAGE - 1) / PAGE * PAGE }

  function Write(c: Cache, data: seq<int>, fpos: nat): (r: Cache)
    requires Ok(c)
    ensures Ok(r)
    decreases |data|
  {
    if data == [] then c
    else
      var tag, off := Tag(fpos), Off(fpos);
      var n := Min(|data|, PAGE - off);
      WriteStepExact(c, tag, off, data[..n]);
      Write(WriteStep(c, tag, off, data[..n]), data[n..], fpos + n)
  }

  function Tag(fpos: nat): nat { fpos / PAGE }

  function Off(fpos: nat): nat { fpos % PAGE }

  function NextPage(fpos: nat): nat { (fpos + PAGE) / PAGE * PAGE }

  predicate Reading(fpos: nat, end: nat) { fpos <= end || fpos == RoundUp(end) }

  /** Going to the next page boundary passes `end` only on the last page. */
  lemma {:induction false} Paging(fpos: nat, end: nat)
    requires Reading(fpos, end)
    ensures fpos >= RoundUp(end) ==> end <= fpos
    ensures fpos < RoundUp(end) ==> fpos <= end && Reading(NextPage(fpos), end)
    ensures Off(fpos) < PAGE && NextPage(fpos) == fpos - Off(fpos) + PAGE
    ensures NextPage(fpos) > end ==> NextPage(fpos) == RoundUp(end) || fpos >= RoundUp(end)
  {
  }

  /** The bytes a read of `[fpos, end)` delivers, and the cache it leaves. */
  function Read(c: Cache, fpos: nat, end: nat): (r: (seq<int>, Cache))
    requires Ok(c) && Reading(fpos, end)
    ensures Ok(r.1)
    decreases RoundUp(end) - fpos
  {
    if fpos >= RoundUp(end) then ([], c)
    else
      Paging(fpos, end);
      ReadStepExact(c, Tag(fpos));
      TargetSize(c, Tag(fpos), false);
      var n := Min(end - fpos, PAGE - Off(fpos));
      var rest := Read(ReadStep(c, Tag(fpos)), NextPage(fpos), end);
      (Contents(c, Tag(fpos))[Off(fpos)..Off(fpos) + n] + rest.0, rest.1)
  }

  function ByteAt(c: Cache, x: nat): int
    requires Ok(c)
  {
    TargetSize(c, x / PAGE, false);
    Contents(c, x / PAGE)[x % PAGE]
  }

  lemma {:induction false} SameView(c: Cache, d: Cache, x: nat)
    requires Ok(c) && Ok(d) && Contents(d, x / PAGE) == Contents(c, x / PAGE)
    ensures ByteAt(d, x) == ByteAt(c, x)
  {
  }

  lemma {:induction false} PatchByte(c: Cache, tag: nat, off: nat, chunk: seq<int>, x: nat)
    requires Ok(c) && off + |chunk| <= PAGE
    ensures Ok(WriteStep(c, tag, off, chunk))
    ensures var at := x - tag * PAGE - off;
            ByteAt(WriteStep(c, tag, off, chunk), x) == if 0 <= at < |chunk| then chunk[at] else ByteAt(c, x)
  {
    hide WriteStep, Ok, Contents;
    WriteStepExact(c, tag, off, chunk);
    TargetSize(c, x / PAGE, false);
    assert x == x / PAGE * PAGE + x % PAGE;
  }

  /** A write changes the view exactly on its range. */
  lemma {:induction false} WriteExact(c: Cache, data: seq<int>, fpos: nat, x: nat)
    requires Ok(c)
    ensures ByteAt(Write(c, data, fpos), x) == if fpos <= x < fpos + |data| then data[x - fpos] else ByteAt(c, x)
    decreases |data|
  {
    hide Ok, WriteStep, ByteAt;
    if data != [] {
      var tag, off := Tag(fpos), Off(fpos);
      var n := Min(|data|, PAGE - off);
      assert fpos == tag * PAGE + off;
      PatchByte(c, tag, off, data[..n], x);
      WriteExact(WriteStep(c, tag, off, data[..n]), data[n..], fpos + n, x);
    }
  }

  lemma {:induction false} ReadView(c: Cache, fpos: nat, end: nat)
    requires Ok(c) && Reading(fpos, end)
    ensures |Read(c, fpos, end).0| == if fpos <= end then end - fpos else 0
    ensures forall t: nat :: Contents(Read(c, fpos, end).1, t) == Contents(c, t)
    decreases RoundUp(end) - fpos
  {
    hide Ok, Contents, ReadStep, RoundUp, Off, NextPage, Reading;
    Paging(fpos, end);
    if fpos < RoundUp(end) {
      ReadStepExact(c, Tag(fpos));
      TargetSize(c, Tag(fpos), false);
      ReadView(ReadStep(c, Tag(fpos)), NextPage(fpos), end);
    }
  }

  lemma {:induction false} ReadStepCaches(c: Cache, tag: nat, t: nat)
    requires Ok(c)
    ensures Cached(ReadStep(c, tag), t).Some? <==> Cached(c, t).Some? || t == tag
    ensures Cached(c, t).Some? ==> Cached(ReadStep(c, tag), t) == Cached(c, t)
  {
    assert [] in c.nodes;
    hide B.Wf, Cached, Store;
    StoreExact(c, tag, Page(Stored(c, tag), false, 0));
  }

  /** The pages a read touches: from the one `fpos` is in up to the last that starts before `end`. */
  lemma {:induction false} PagesRead(fpos: nat, end: nat)
    requires Reading(fpos, end)
    ensures fpos >= RoundUp(end) ==> forall t :: Tag(fpos) <= t ==> t * PAGE >= end
    ensures fpos < RoundUp(end) ==> Tag(fpos) * PAGE < end && Tag(NextPage(fpos)) == Tag(fpos) + 1
  {
  }

  /** A read caches exactly the pages of its range, and leaves those that are cached as they are. */
  lemma {:induction false} ReadCaches(c: Cache, fpos: nat, end: nat, t: nat)
    requires Ok(c) && Reading(fpos, end)
    ensures Cached(Read(c, fpos, end).1, t).Some? <==> Cached(c, t).Some? || (Tag(fpos) <= t && t * PAGE < end)
    ensures Cached(c, t).Some? ==> Cached(Read(c, fpos, end).1, t) == Cached(c, t)
    decreases RoundUp(end) - fpos
  {
    hide Ok, Contents, ReadStep, RoundUp, Off, NextPage, Reading, Tag, Cached;
    Paging(fpos, end);
    PagesRead(fpos, end);
    if fpos < RoundUp(end) {
      ReadStepExact(c, Tag(fpos));
      ReadStepCaches(c, Tag(fpos), t);
      ReadCaches(ReadStep(c, Tag(fpos)), NextPage(fpos), end, t);
    }
  }

  /** A write caches the pages of its range and makes them dirty; all others stay as they are. */
  lemma {:induction false} WriteCaches(c: Cache, data: seq<int>, fpos: nat, t: nat)
    requires Ok(c)
    ensures var touched := data != [] && Tag(fpos) <= t && t * PAGE < fpos + |data|;
            && (touched ==> Cached(Write(c, data, fpos), t).Some? && Cached(Write(c, data, fpos), t).value.dirty)
            && (!touched ==> Cached(Write(c, data, fpos), t) == Cached(c, t))
    decreases |data|
  {
    hide Ok, WriteStep, Cached;
    if data != [] {
      var tag, off := Tag(fpos), Off(fpos);
      var n := Min(|data|, PAGE - off);
      WriteStepExact(c, tag, off, data[..n]);
      WriteStepDirty(c, tag, off, data[..n]);
      WriteCaches(WriteStep(c, tag, off, data[..n]), data[n..], fpos + n, t);
      NextTag(fpos, n);
    }
  }

  lemma {:induction false} NextTag(fpos: nat, n: nat)
    requires 0 < n <= PAGE - Off(fpos)
    ensures Tag(fpos) * PAGE < fpos + n
    ensures n == PAGE - Off(fpos) ==> Tag(fpos + n) == Tag(fpos) + 1
    ensures n < PAGE - Off(fpos) ==> forall t :: t > Tag(fpos) ==> t * PAGE >= fpos + n
  {
    assert fpos == Tag(fpos) * PAGE + Off(fpos);
  }

  lemma {:induction false} WriteStepDirty(c: Cache, tag: nat, off: nat, chunk: seq<int>)
    requires Ok(c) && off + |chunk| <= PAGE
    ensures Cached(WriteStep(c, tag, off, chunk), tag).Some? && Cached(WriteStep(c, tag, off, chunk), tag).value.dirty
  {
    assert [] in c.nodes;
    hide Cached, Store;
    TargetSize(c, tag, |chunk| == PAGE);
    var pg := Target(c, tag, |chunk| == PAGE);
    var c' := if pg.dirty then c else c.(dirty := c.dirty + [tag], nDirty := c.nDirty + 1);
    StoreExact(c', tag, Page(Patch(pg.bytes, off, chunk), true, pg.refs));
  }

  lemma {:induction false} SamePage(fpos: nat, i: nat)
    requires Off(fpos) + i < PAGE
    ensures (fpos + i) / PAGE == Tag(fpos) && (fpos + i) % PAGE == Off(fpos) + i
  {
  }

  lemma {:induction false} ReadByte(c: Cache, fpos: nat, end: nat, i: nat)
    requires Ok(c) && fpos + i < end && Reading(fpos, end)
    ensures |Read(c, fpos, end).0| == end - fpos && Read(c, fpos, end).0[i] == ByteAt(c, fpos + i)
    decreases RoundUp(end) - fpos
  {
    hide Ok, Contents, ReadStep, RoundUp, Off, NextPage, Reading, Tag;
    var n := Min(end - fpos, PAGE - Off(fpos));
    Paging(fpos, end);
    ReadView(c, fpos, end);
    ReadStepExact(c, Tag(fpos));
    TargetSize(c, Tag(fpos), false);
    if i < n {
      SamePage(fpos, i);
    } else {
      ReadByte(ReadStep(c, Tag(fpos)), NextPage(fpos), end, i - n);
      SameView(c, ReadStep(c, Tag(fpos)), fpos + i);
    }
  }

  /** A read delivers the view, byte for byte, and does not change it. */
  lemma {:induction false} ReadExact(c: Cache, fpos: nat, end: nat)
    requires Ok(c) && fpos <= end
    ensures |Read(c, fpos, end).0| == end - fpos
    ensures forall i: nat :: i < end - fpos ==> Read(c, fpos, end).0[i] == ByteAt(c, fpos + i)
    ensures forall t: nat :: Contents(Read(c, fpos, end).1, t) == Contents(c, t)
  {
    hide Ok, Contents, Read, ByteAt, RoundUp;
    ReadView(c, fpos, end);
    forall i: nat | i < end - fpos ensures Read(c, fpos, end).0[i] == ByteAt(c, fpos + i) {
      ReadByte(c, fpos, end, i);
    }
  }
}
