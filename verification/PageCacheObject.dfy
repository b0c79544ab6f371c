/**
 The page cache as the object the kernel updates.  Each operation is proved to compute the
 corresponding transition of module PageCache, about which coherence is proved.
 */
module PageCacheObject {
  import B = Btrie
  import opened PageCache
  import opened PageCacheRuns

  class FileCache {
    var nodes: B.Nodes<Page>
    var dirty: seq<nat>
    var nDirty: int
    var file: map<nat, seq<int>>

    ghost function Value(): Cache
      reads this
    {
      Cache(nodes, dirty, nDirty, file)
    }

    ghost predicate Valid()
      reads this
    {
      Ok(Value())
    }

    /** Take a reference to a cached page, or make a new page for the tag. */
    method GetPage(tag: nat) returns (hit: bool, pg: Page)
      requires Valid()
      modifies this`nodes
      ensures hit == Cached(old(Value()), tag).Some? == Cached(Value(), tag).Some?
      ensures B.Wf(WAYS, nodes) && (hit ==> pg.refs > 0)
      ensures hit ==> Value() == Ref(old(Value()), tag) && pg == Cached(Value(), tag).value
      ensures !hit ==> Value() == old(Value()) && pg == Page(Zeros(), false, 0)
    {
      var found := B.Get(WAYS, nodes, tag);
      if found.Some? {
        pg := found.value.(refs := found.value.refs + 1);
        StoreExact(Value(), tag, pg);
        nodes := B.Set(WAYS, nodes, tag, B.Some(pg));
        return true, pg;
      }
      return false, Page(Zeros(), false, 0);
    }

    /**
     Put a page under a tag, with one reference.  A page that is there already is committed and
     replaced; false is the failed assertion that nobody uses it.
     */
    method BcachePutAndRef(tag: nat, pg: Page) returns (ok: bool)
      requires B.Wf(WAYS, nodes) && (Cached(Value(), tag).Some? ==> Valid())
      modifies this
      ensures ok <==> Cached(old(Value()), tag).None? || Cached(old(Value()), tag).value.refs == 0
      ensures ok && Cached(old(Value()), tag).None? ==> Value() == Store(old(Value()), tag, pg.(refs := 1))
      ensures ok && Cached(old(Value()), tag).Some? ==> Value() == Store(Commit(old(Value()), tag), tag, pg.(refs := 1))
      ensures ok ==> B.Wf(WAYS, nodes) && Cached(Value(), tag) == B.Some(pg.(refs := 1))
      ensures ok ==> forall t: nat :: t != tag ==>
                       Cached(Value(), t) == Cached(old(Value()), t) && Stored(Value(), t) == Stored(old(Value()), t)
      ensures ok && tag in old(dirty) && Cached(old(Value()), tag).Some? ==>
                Stored(Value(), tag) == Contents(old(Value()), tag) && tag !in dirty
    {
      var found := B.Get(WAYS, nodes, tag);
      if found.Some? {
        if found.value.refs > 0 { return false; }
        DropMembers(dirty, tag);
        CommitExact(Value(), tag);
        PcacheCommit(tag);
      }
      StoreExact(Value(), tag, pg.(refs := 1));
      nodes := B.Set(WAYS, nodes, tag, B.Some(pg.(refs := 1)));
      return true;
    }

    /** Give one reference back; false is the failed assertion that there is one. */
    method BcacheReturn(tag: nat) returns (ok: bool)
      requires B.Wf(WAYS, nodes) && Cached(Value(), tag).Some?
      modifies this`nodes
      ensures ok == (Cached(old(Value()), tag).value.refs > 0)
      ensures ok ==> B.Wf(WAYS, nodes) && Value() == Unref(old(Value()), tag)
      ensures ok ==> forall t: nat :: t != tag ==> Cached(Value(), t) == Cached(old(Value()), t)
      ensures ok ==> Cached(Value(), tag).Some?
                     && Cached(Value(), tag).value.refs + 1 == Cached(old(Value()), tag).value.refs
      ensures ok ==> Contents(Value(), tag) == Contents(old(Value()), tag)
    {
      var pg := B.Get(WAYS, nodes, tag).value;
      if pg.refs == 0 { return false; }
      StoreExact(Value(), tag, pg.(refs := pg.refs - 1));
      nodes := B.Set(WAYS, nodes, tag, B.Some(pg.(refs := pg.refs - 1)));
      return true;
    }

    /** What a read or write does last: the page is as changed, with no reference of its own left. */
    method Finish(tag: nat, hit: bool, pg: Page)
      requires B.Wf(WAYS, nodes) && hit == Cached(Value(), tag).Some? && (hit ==> pg.refs > 0)
      modifies this
      ensures Value() == Store(old(Value()), tag, pg.(refs := if hit then pg.refs - 1 else 0))
    {
      ghost var was := Value();
      var held := if hit then pg else pg.(refs := 1);
      StoreTwice(was, tag, held, held.(refs := held.refs - 1));
      StoreExact(was, tag, held);
      hide B.Wf, Store, Cached;
      if hit {
        Modify(tag, pg);
      } else {
        var put := BcachePutAndRef(tag, pg);
      }
      UnrefIs(Value(), tag);
      var ok := BcacheReturn(tag);
    }

    /** The page a reference stands for is changed in place. */
    method Modify(tag: nat, pg: Page)
      requires [] in nodes
      modifies this`nodes
      ensures Value() == Store(old(Value()), tag, pg)
    {
      nodes := B.Set(WAYS, nodes, tag, B.Some(pg));
    }

    method WriteOne(tag: nat, off: nat, chunk: seq<int>)
      requires Valid() && off + |chunk| <= PAGE
      modifies this
      ensures Valid() && Value() == WriteStep(old(Value()), tag, off, chunk)
    {
      ghost var was := Value();
      WriteStepExact(was, tag, off, chunk);
      TargetSize(was, tag, |chunk| == PAGE);
      hide Cached, Store, NoDup, TagOk;
      var hit, pg := GetPage(tag);
      ghost var got := pg;
      if !hit && |chunk| != PAGE {
        pg := pg.(bytes := if tag in file then file[tag] else Zeros());
      }
      pg := pg.(bytes := pg.bytes[..off] + chunk + pg.bytes[off + |chunk|..]);
      if !pg.dirty {
        pg := pg.(dirty := true);
        nDirty := nDirty + 1;
        dirty := dirty + [tag];
      }
      ghost var c' := Cache(was.nodes, dirty, nDirty, file);
      if hit {
        StoreFields(was, c', tag, got);
        StoreTwice(c', tag, got, pg.(refs := pg.refs - 1));
      }
      Finish(tag, hit, pg);
      assert Value() == Store(c', tag, pg.(refs := if hit then pg.refs - 1 else 0));
    }

    method PcacheWrite(data: seq<int>, fpos: nat) returns (n: int)
      requires Valid() && fpos + |data| < 0x1_0000_0000
      modifies this
      ensures Valid() && n == |data| && Value() == Write(old(Value()), data, fpos)
    {
      hide Ok, WriteStep;
      var rest, pos, end := data, fpos, fpos + |data|;
      while pos < end
        invariant fpos <= pos <= end && |rest| == end - pos
        invariant Valid() && Write(Value(), rest, pos) == Write(old(Value()), data, fpos)
        decreases end - pos
      {
        var tag, off := Tag(pos), Off(pos);
        var cnt := Min(end - pos, PAGE - off);
        WriteOne(tag, off, rest[..cnt]);
        rest := rest[cnt..];
        pos := pos + cnt;
      }
      return |data| - (end - pos);
    }

    method ReadOne(tag: nat) returns (bytes: seq<int>)
      requires Valid()
      modifies this
      ensures Valid() && bytes == Contents(old(Value()), tag)
      ensures |bytes| == PAGE
      ensures Value() == ReadStep(old(Value()), tag)
    {
      ghost var was := Value();
      ReadStepExact(was, tag);
      TargetSize(was, tag, false);
      var hit, pg := GetPage(tag);
      if !hit {
        pg := pg.(bytes := if tag in file then file[tag] else Zeros());
      }
      if hit {
        StoreTwice(was, tag, pg, pg.(refs := pg.refs - 1));
        StoreBack(was, tag);
      }
      Finish(tag, hit, pg);
      return pg.bytes;
    }

    method PcacheRead(len: nat, fpos: nat) returns (data: seq<int>)
      requires Valid() && RoundUp(fpos + len) < 0x1_0000_0000
      modifies this
      ensures Valid() && |data| == len && (data, Value()) == Read(old(Value()), fpos, fpos + len)
    {
      hide Ok, Read, ReadStep, Contents, Reading, Progress, RoundUp, NextPage, Off, Tag;
      ghost var was := Value();
      data := [];
      var pos, end := fpos, fpos + len;
      ReadStart(was, fpos, end);
      while pos < RoundUp(end)
        invariant Valid() && Progress(was, fpos, end, Value(), pos, data)
        decreases RoundUp(end) - pos
      {
        ReadTurn(was, fpos, end, Value(), pos, data);
        var bytes := ReadOne(Tag(pos));
        data := data + bytes[Off(pos)..Off(pos) + Min(end - pos, PAGE - Off(pos))];
        pos := NextPage(pos);
      }
      ReadDone(was, fpos, end, Value(), pos, data);
    }

    method PcacheCommit(tag: nat)
      requires Valid()
      modifies this
      ensures Valid() && Value() == Commit(old(Value()), tag)
    {
      CommitExact(Value(), tag);
      var found := B.Get(WAYS, nodes, tag);
      if found.None? || !found.value.dirty { return; }
      file := file[tag := found.value.bytes];
      nodes := B.Set(WAYS, nodes, tag, B.Some(found.value.(dirty := false)));
      dirty := Drop(dirty, tag);
      nDirty := nDirty - 1;
    }

    method PcacheCommitAll()
      requires Valid()
      modifies this
      ensures Valid() && Value() == CommitAll(old(Value()))
    {
      while dirty != []
        invariant Valid() && CommitAll(Value()) == CommitAll(old(Value()))
        decreases |dirty|
      {
        ghost var was := Value();
        CommitExact(was, dirty[0]);
        PcacheCommit(dirty[0]);
        assert CommitAll(was) == CommitAll(Value());
      }
    }

    /** For the invariant no other page may be cached below the victim; the transition is the same without. */
    method BcacheEvict(tag: nat)
      requires Valid()
      modifies this
      ensures Value() == Evict(old(Value()), tag)
      ensures (Evictable(old(Value()), tag) ==> AloneBelow(old(Value()), tag)) ==> Valid()
    {
      if Evictable(Value(), tag) ==> AloneBelow(Value(), tag) {
        EvictAlone(Value(), tag);
      }
      var found := B.Get(WAYS, nodes, tag);
      if found.None? || found.value.refs > 0 { return; }
      PcacheCommit(tag);
      nodes := B.Remove(WAYS, nodes, tag);
    }
  }

  lemma {:induction false} UnrefIs(c: Cache, tag: nat)
    requires [] in c.nodes && Cached(c, tag).Some? && Cached(c, tag).value.refs > 0
    ensures Unref(c, tag) == Store(c, tag, Cached(c, tag).value.(refs := Cached(c, tag).value.refs - 1))
  {
  }

  /** Storing a page over itself with other counts is the same as storing it once. */
  lemma {:induction false} StoreTwice(c: Cache, tag: nat, pg: Page, pg': Page)
    requires [] in c.nodes
    ensures Store(Store(c, tag, pg), tag, pg') == Store(c, tag, pg')
  {
  }

  /** `data` and the rest still to be read from `pos` on make up the whole read. */
  ghost predicate Progress(was: Cache, fpos: nat, end: nat, c: Cache, pos: nat, data: seq<int>)
    requires Ok(was) && fpos <= end && Ok(c)
  {
    && Reading(pos, end)
    && data + Read(c, pos, end).0 == Read(was, fpos, end).0
    && Read(c, pos, end).1 == Read(was, fpos, end).1
  }

  lemma {:induction false} ReadStart(was: Cache, fpos: nat, end: nat)
    requires Ok(was) && fpos <= end
    ensures Progress(was, fpos, end, was, fpos, [])
  {
    hide Ok, Read;
    assert [] + Read(was, fpos, end).0 == Read(was, fpos, end).0;
  }

  lemma {:induction false} ReadTurn(was: Cache, fpos: nat, end: nat, c: Cache, pos: nat, data: seq<int>)
    requires Ok(was) && fpos <= end && Ok(c) && Progress(was, fpos, end, c, pos, data) && pos < RoundUp(end)
    ensures pos <= end && Off(pos) < PAGE && pos < NextPage(pos)
    ensures |Contents(c, Tag(pos))| == PAGE && Ok(ReadStep(c, Tag(pos)))
    ensures var chunk := Contents(c, Tag(pos))[Off(pos)..Off(pos) + Min(end - pos, PAGE - Off(pos))];
            Progress(was, fpos, end, ReadStep(c, Tag(pos)), NextPage(pos), data + chunk)
  {
    hide Ok, ReadStep, Contents, NextPage, Off, RoundUp, Reading;
    Paging(pos, end);
    ReadStepExact(c, Tag(pos));
    TargetSize(c, Tag(pos), false);
    var chunk := Contents(c, Tag(pos))[Off(pos)..Off(pos) + Min(end - pos, PAGE - Off(pos))];
    var tail := Read(ReadStep(c, Tag(pos)), NextPage(pos), end);
    assert data + (chunk + tail.0) == data + chunk + tail.0;
  }

  lemma {:induction false} ReadDone(was: Cache, fpos: nat, end: nat, c: Cache, pos: nat, data: seq<int>)
    requires Ok(was) && fpos <= end && Ok(c) && Progress(was, fpos, end, c, pos, data) && pos >= RoundUp(end)
    ensures (data, c) == Read(was, fpos, end) && |data| == end - fpos
  {
    hide Ok;
    assert data + [] == data;
    ReadView(was, fpos, end);
  }

  lemma {:induction false} StoreFields(c: Cache, d: Cache, tag: nat, pg: Page)
    requires [] in c.nodes && c.nodes == d.nodes
    ensures Store(d, tag, pg) == Store(c, tag, pg).(dirty := d.dirty, nDirty := d.nDirty, file := d.file)
  {
  }

  lemma {:induction false} StoreBack(c: Cache, tag: nat)
    requires B.Wf(WAYS, c.nodes) && Cached(c, tag).Some?
    ensures Store(c, tag, Cached(c, tag).value) == c
  {
  }
}
