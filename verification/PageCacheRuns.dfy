/**
 Runs of the page cache.  Whatever mix of reads, writes, commits, references and evictions
 has happened, a byte reads as the last write to it, or as the file held it at the start.
 */
module PageCacheRuns {
  import B = Btrie
  import opened PageCache

  function CommitAll(c: Cache): (r: Cache)
    requires Ok(c)
    ensures Ok(r)
    decreases |c.dirty|
  {
    if c.dirty == [] then c
    else
      CommitExact(c, c.dirty[0]);
      CommitAll(Commit(c, c.dirty[0]))
  }

  /** After committing all, no page is dirty and the file is what readers see. */
  lemma {:induction false} CommitAllSyncs(c: Cache)
    requires Ok(c)
    ensures CommitAll(c).nDirty == 0
    ensures forall t: nat :: Contents(CommitAll(c), t) == Contents(c, t) && Stored(CommitAll(c), t) == Contents(c, t)
    decreases |c.dirty|
  {
    hide Commit, Cached, B.Wf;
    if c.dirty == [] {
      forall t: nat ensures Stored(c, t) == Contents(c, t) {
        assert TagOk(c, t);
      }
    } else {
      CommitExact(c, c.dirty[0]);
      CommitAllSyncs(Commit(c, c.dirty[0]));
    }
  }

  function Ref(c: Cache, tag: nat): Cache
    requires [] in c.nodes
  {
    match Cached(c, tag)
    case Some(pg) => Store(c, tag, pg.(refs := pg.refs + 1))
    case None => c
  }

  function Unref(c: Cache, tag: nat): Cache
    requires [] in c.nodes && Cached(c, tag).Some? && Cached(c, tag).value.refs > 0
  {
    var pg := Cached(c, tag).value;
    Store(c, tag, pg.(refs := pg.refs - 1))
  }

  /** A reference counts one, giving it back undoes it, and a page with one is not evicted. */
  lemma {:induction false} RefCounts(c: Cache, tag: nat)
    requires Ok(c) && Cached(c, tag).Some?
    ensures [] in c.nodes
    ensures var d, pg := Ref(c, tag), Cached(c, tag).value;
            && Ok(d) && Cached(d, tag) == B.Some(pg.(refs := pg.refs + 1))
            && (forall t: nat :: t != tag ==> Cached(d, t) == Cached(c, t))
            && Unref(d, tag) == c && Evict(d, tag) == d
  {
    assert [] in c.nodes;
    var pg := Cached(c, tag).value;
    StoreExact(c, tag, pg.(refs := pg.refs + 1));
    RefsExact(c, tag, pg.refs + 1);
    StoreOver(c, tag, pg.(refs := pg.refs + 1));
  }

  lemma {:induction false} StoreOver(c: Cache, tag: nat, pg: Page)
    requires Ok(c) && Cached(c, tag).Some?
    ensures [] in c.nodes && [] in Store(c, tag, pg).nodes && Store(Store(c, tag, pg), tag, Cached(c, tag).value) == c
  {
    assert [] in c.nodes;
  }

  /** Reference counts are no part of what readers see. */
  lemma {:induction false} RefsExact(c: Cache, tag: nat, refs: nat)
    requires Ok(c) && Cached(c, tag).Some?
    ensures var d := Store(c, tag, Cached(c, tag).value.(refs := refs));
            Ok(d) && forall t: nat :: Contents(d, t) == Contents(c, t)
  {
    assert [] in c.nodes;
    hide Cached, Store, B.Wf, NoDup;
    var pg := Cached(c, tag).value.(refs := refs);
    StoreExact(c, tag, pg);
    assert TagOk(c, tag);
    forall t ensures TagOk(Store(c, tag, pg), t) {
      assert TagOk(c, t);
    }
  }

  datatype Op =
    | OpWrite(data: seq<int>, fpos: nat)
    | OpRead(fpos: nat, end: nat)
    | OpCommit(tag: nat)
    | OpCommitAll
    | OpRef(tag: nat)
    | OpUnref(tag: nat)
    | OpEvict(tag: nat)

  /** Only held pages are given back, and only pages with no cached page below them in the trie are evicted. */
  ghost predicate Legal(c: Cache, op: Op)
    requires Ok(c)
  {
    match op
    case OpRead(fpos, end) => fpos <= end
    case OpUnref(tag) => Cached(c, tag).Some? && Cached(c, tag).value.refs > 0
    case OpEvict(tag) => Evictable(c, tag) ==> AloneBelow(c, tag)
    case _ => true
  }

  ghost function Do(c: Cache, op: Op): Cache
    requires Ok(c) && Legal(c, op)
  {
    match op
    case OpWrite(data, fpos) => Write(c, data, fpos)
    case OpRead(fpos, end) => Read(c, fpos, end).1
    case OpCommit(tag) => Commit(c, tag)
    case OpCommitAll => CommitAll(c)
    case OpRef(tag) => Ref(c, tag)
    case OpUnref(tag) => Unref(c, tag)
    case OpEvict(tag) => Evict(c, tag)
  }

  /** Every operation keeps the invariant, and none but a write changes the view. */
  lemma {:induction false} StepExact(c: Cache, op: Op)
    requires Ok(c) && Legal(c, op)
    ensures Ok(Do(c, op))
    ensures !op.OpWrite? ==> forall t: nat :: Contents(Do(c, op), t) == Contents(c, t)
  {
    hide Ok, Contents, Write, Read, Commit, CommitAll, Evict, Store, AloneBelow;
    match op
    case OpWrite(data, fpos) =>
    case OpRead(fpos, end) => ReadExact(c, fpos, end);
    case OpCommit(tag) => CommitExact(c, tag);
    case OpCommitAll => CommitAllSyncs(c);
    case OpRef(tag) =>
      if Cached(c, tag).Some? {
        RefsExact(c, tag, Cached(c, tag).value.refs + 1);
      }
    case OpUnref(tag) => RefsExact(c, tag, Cached(c, tag).value.refs - 1);
    case OpEvict(tag) => EvictAlone(c, tag);
  }

  function Empty(file: map<nat, seq<int>>): Cache { Cache(B.Init(), [], 0, file) }

  /** A run of legal operations that starts with an empty cache over `file` and ends in `c`. */
  ghost predicate Reaches(file: map<nat, seq<int>>, ops: seq<Op>, c: Cache) {
    if ops == [] then c == Empty(file)
    else exists b :: Reaches(file, ops[..|ops| - 1], b) && Ok(b) && Legal(b, ops[|ops| - 1]) && Do(b, ops[|ops| - 1]) == c
  }

  /** The byte at `x` according to the history alone: the last write to it, else the file, else zero. */
  function Expected(file: map<nat, seq<int>>, ops: seq<Op>, x: nat): int {
    if ops == [] then
      if x / PAGE in file && x % PAGE < |file[x / PAGE]| then file[x / PAGE][x % PAGE] else 0
    else
      var op := ops[|ops| - 1];
      if op.OpWrite? && op.fpos <= x < op.fpos + |op.data| then op.data[x - op.fpos]
      else Expected(file, ops[..|ops| - 1], x)
  }

  lemma {:induction false} EmptyOk(file: map<nat, seq<int>>)
    requires forall t: nat :: t in file ==> |file[t]| == PAGE
    ensures Ok(Empty(file)) && forall t: nat :: Contents(Empty(file), t) == Stored(Empty(file), t)
    ensures forall t: nat :: Cached(Empty(file), t).None?
  {
  }

  /** The cache agrees with the flat file after every run. */
  lemma {:induction false} EveryRunAgrees(file: map<nat, seq<int>>, ops: seq<Op>, c: Cache, x: nat)
    requires forall t: nat :: t in file ==> |file[t]| == PAGE
    requires Reaches(file, ops, c)
    ensures Ok(c) && ByteAt(c, x) == Expected(file, ops, x)
    decreases |ops|
  {
    hide Ok, Do, Legal, Contents;
    if ops == [] {
      EmptyOk(file);
      TargetSize(c, Tag(x), false);
    } else {
      var op := ops[|ops| - 1];
      var b :| Reaches(file, ops[..|ops| - 1], b) && Ok(b) && Legal(b, op) && Do(b, op) == c;
      EveryRunAgrees(file, ops[..|ops| - 1], b, x);
      StepByte(b, op, x);
    }
  }

  lemma {:induction false} StepByte(b: Cache, op: Op, x: nat)
    requires Ok(b) && Legal(b, op)
    ensures Ok(Do(b, op))
    ensures ByteAt(Do(b, op), x)
         == if op.OpWrite? && op.fpos <= x < op.fpos + |op.data| then op.data[x - op.fpos] else ByteAt(b, x)
  {
    hide Ok, Contents, ByteAt;
    StepExact(b, op);
    if op.OpWrite? {
      WriteExact(b, op.data, op.fpos, x);
    } else {
      SameView(b, Do(b, op), x);
    }
  }

  /**
   Evicting a page with another one below it in the trie can lose data: write pages 1 and 16,
   evict page 1, and page 16 reads as the file held it.
   */
  lemma {:induction false} EvictLosesBelow()
    ensures var one := seq(PAGE, i => 1);
            exists c :: Reaches(map[], [OpWrite(one, PAGE), OpWrite(one, 16 * PAGE)], c) && Ok(c)
                        && Contents(c, 16) == one && Contents(Evict(c, 1), 16) == Zeros()
  {
    hide Ok, B.Wf, WriteStep, Contents, B.Extends, Write, Cached;
    var one := seq(PAGE, i => 1);
    var ops := [OpWrite(one, PAGE), OpWrite(one, 16 * PAGE)];
    var c0 := Empty(map[]);
    EmptyOk(map[]);
    WritePage(c0, 1, one);
    var c1 := WriteStep(c0, 1, 0, one);
    WritePage(c1, 16, one);
    var c2 := WriteStep(c1, 16, 0, one);
    assert Reaches(map[], [], c0);
    assert ops[..1] == [ops[0]] && ops[..1][..0] == [];
    assert Reaches(map[], ops[..1], c1);
    assert ops[..2][..1] == ops[..1];
    assert Reaches(map[], ops, c2);
    EvictView(c2, 1);
    BelowOne();
  }

  lemma {:induction false} BelowOne()
    ensures B.Extends(WAYS, 1, 16)
  {
    assert B.Shift(16, 16, 1) == 1;
  }

  lemma {:induction false} WritePage(c: Cache, tag: nat, page: seq<int>)
    requires Ok(c) && |page| == PAGE
    ensures Ok(WriteStep(c, tag, 0, page)) && Write(c, page, tag * PAGE) == WriteStep(c, tag, 0, page)
    ensures Contents(WriteStep(c, tag, 0, page), tag) == page
    ensures forall t: nat :: Stored(WriteStep(c, tag, 0, page), t) == Stored(c, t)
    ensures Evictable(c, tag) || Cached(c, tag).None? ==> Evictable(WriteStep(c, tag, 0, page), tag)
    ensures forall t: nat :: t != tag ==> Cached(WriteStep(c, tag, 0, page), t) == Cached(c, t)
  {
    hide Ok, WriteStep, Cached;
    WriteStepExact(c, tag, 0, page);
    assert page[..PAGE] == page && page[PAGE..] == [];
    assert Tag(tag * PAGE) == tag && Off(tag * PAGE) == 0;
  }
}
