/**
 The slab allocator of kernel/mm/cake.c, embedded piles: a pile hands out fixed-size
 pieces of its cakes.  A cake is a run of pages holding a header, an index array that
 threads the free pieces into a chain, and the pieces themselves.
 */
module Cakes {
  import opened Arith

  /** End-of-chain mark of a free list slot. */
  const EO := 65535

  /** The part of a cake header the allocator changes.  A cake is named by its page address. */
  datatype Cake = Cake(used: int, nextFree: int, freeList: seq<int>)

  /** What `__init_pile` fixes for a pile; `bytes` is the size of the pages of one cake. */
  datatype Geometry = Geometry(size: nat, offset: nat, count: int, bytes: nat)

  datatype Slab = Slab(cakes: map<int, Cake>, free: seq<int>, partial: seq<int>, full: seq<int>, alloced: int, total: int)

  // ---------------------------------------------------------------- geometry of a pile

  function RoundUp(v: nat, k: nat): nat
    requires k > 0
  {
    (v + k - 1) / k * k
  }

  function Ceil(x: nat, y: nat): nat
    requires y > 0
  {
    x / y + if x % y != 0 then 1 else 0
  }

  /** First estimate of the pieces in a cake: each piece pays for its free list slot. */
  function Estimate(piece: nat, align: nat, bytes: nat): nat
    requires align > 0
  {
    bytes / (RoundUp(piece, align) + 2)
  }

  /** Pieces given up for the header and the padding after the free list. */
  function Lost(header: nat, piece: nat, align: nat, bytes: nat): nat
    requires align > 0 && piece > 0
  {
    var slots := 2 * Estimate(piece, align, bytes);
    RoundsUp(header + slots, align);
    RoundsUp(piece, align);
    Ceil(RoundUp(header + slots, align) - slots, RoundUp(piece, align))
  }

  /** The geometry `__init_pile` computes, the last subtraction being on 32-bit unsigned numbers. */
  function InitPile(header: nat, piece: nat, align: nat, bytes: nat): Geometry
    requires align > 0 && piece > 0
  {
    var n := Estimate(piece, align, bytes);
    var lost := Lost(header, piece, align, bytes);
    var left := if n >= lost then n - lost else 0x1_0000_0000 + n - lost;
    Geometry(RoundUp(piece, align), RoundUp(header + 2 * n, align), left, bytes)
  }

  lemma {:induction false} RoundsUp(v: nat, k: nat)
    requires k > 0
    ensures v <= RoundUp(v, k) < v + k
  {
  }

  /** Header and free list come before the pieces, the pieces end inside the pages. */
  predicate Fits(g: Geometry, header: nat) {
    header + 2 * g.count <= g.offset && g.offset + g.count * g.size <= g.bytes
  }

  /** What the list discipline needs: at least two pieces that fit. */
  predicate Usable(g: Geometry, header: nat) {
    g.size > 0 && 2 <= g.count && Fits(g, header)
  }

  /** How many pieces of a cake its chain goes through: slot 65534 always reads as the end mark. */
  function Slots(g: Geometry): int { if g.count < EO then g.count else EO }

  lemma {:induction false} CeilCovers(x: nat, y: nat)
    requires y > 0
    ensures x <= Ceil(x, y) * y && Ceil(x, y) <= x
  {
    assert x == x / y * y + x % y;
    if x % y != 0 {
      assert (x / y + 1) * y == x / y * y + y;
    }
    if x / y > 0 {
      MulGrows(x / y, y);
    }
  }

  lemma {:induction false} MulGrows(a: nat, b: nat)
    requires b > 0
    ensures a <= a * b
  {
  }

  /**
   The computed layout fits in the pages exactly when the header and padding cost no more
   pieces than the estimate has; otherwise the count wraps around and runs past the pages.
   */
  lemma {:induction false} LayoutFits(header: nat, piece: nat, align: nat, bytes: nat)
    requires align > 0 && piece > 0 && bytes < 0x1_0000_0000 && header + align <= 0x1_0000_0000
    ensures Fits(InitPile(header, piece, align, bytes), header)
       <==> Lost(header, piece, align, bytes) <= Estimate(piece, align, bytes)
  {
    hide RoundUp, Ceil, Estimate;
    var n, k := Estimate(piece, align, bytes), Lost(header, piece, align, bytes);
    var g := InitPile(header, piece, align, bytes);
    RoundsUp(piece, align);
    RoundsUp(header + 2 * n, align);
    CeilCovers(g.offset - 2 * n, g.size);
    EstimateFits(piece, align, bytes);
    LeftFits(n, k, g);
  }

  lemma {:induction false} EstimateFits(piece: nat, align: nat, bytes: nat)
    requires align > 0
    ensures Estimate(piece, align, bytes) * RoundUp(piece, align) + 2 * Estimate(piece, align, bytes) <= bytes
  {
  }

  lemma {:induction false} LeftFits(n: nat, k: nat, g: Geometry)
    requires g.size > 0 && n * g.size + 2 * n <= g.bytes < 0x1_0000_0000
    requires 2 * n <= g.offset && g.offset - 2 * n <= k * g.size && k <= g.offset - 2 * n <= 0x1_0000_0000
    requires g.count == if n >= k then n - k else 0x1_0000_0000 + n - k
    ensures g.offset + g.count * g.size <= g.bytes <==> k <= n
  {
    if k <= n {
      assert (n - k) * g.size == n * g.size - k * g.size;
    } else {
      MulGrows(g.count, g.size);
    }
  }

  /** The piles with at least two pieces that fit, by what the caller passes to `__init_pile`. */
  lemma {:induction false} UsablePile(header: nat, piece: nat, align: nat, bytes: nat)
    requires align > 0 && piece > 0 && bytes < 0x1_0000_0000 && header + align <= 0x1_0000_0000
    ensures Usable(InitPile(header, piece, align, bytes), header)
       <==> Lost(header, piece, align, bytes) + 2 <= Estimate(piece, align, bytes)
  {
    hide Lost, Estimate, RoundUp;
    LayoutFits(header, piece, align, bytes);
    RoundsUp(piece, align);
  }

  /** A piece as large as the page leaves no room for the header: the count becomes 2^32 - 1. */
  lemma {:induction false} PageSizedPiece()
    ensures InitPile(48, 4096, 8, 4096) == Geometry(4096, 48, 0xffff_ffff, 4096)
  {
  }

  // ---------------------------------------------------------------- grab, release, reclaim

  function Piece(g: Geometry, a: int, i: int): int { a + g.offset + i * g.size }

  lemma {:induction false} SumOfMultiples(x: int, y: int, i: int, z: int, k: nat)
    requires k > 0
    ensures (x * k + y * k + i * (z * k)) % k == 0
  {
    assert i * (z * k) == i * z * k;
    assert x * k + y * k + i * z * k == (x + y + i * z) * k;
    Remainder((x + y + i * z) * k, k, x + y + i * z, 0);
  }

  /** Every piece of a cake on aligned pages is aligned, and holds what the client asked for. */
  lemma {:induction false} PieceAligned(header: nat, piece: nat, align: nat, bytes: nat, a: int, i: int)
    requires align > 0 && piece > 0 && a % align == 0
    ensures var g := InitPile(header, piece, align, bytes);
            Piece(g, a, i) % align == 0 && g.size % align == 0 && piece <= g.size < piece + align
  {
    var g, slots := InitPile(header, piece, align, bytes), header + 2 * Estimate(piece, align, bytes);
    var x, y, z := a / align, (slots + align - 1) / align, (piece + align - 1) / align;
    RoundsUp(piece, align);
    assert g.offset == y * align && g.size == z * align;
    hide InitPile, RoundUp, Estimate;
    DivMod(a, align);
    Remainder(z * align, align, z, 0);
    SumOfMultiples(x, y, i, z, align);
    assert Piece(g, a, i) == x * align + y * align + i * (z * align);
  }

  /** Take a node off whichever list it is on. */
  function Drop(l: seq<int>, a: int): seq<int> {
    if l == [] then [] else if l[0] == a then l[1..] else [l[0]] + Drop(l[1..], a)
  }

  datatype Home = Free | Partial | Full

  function Append(l: seq<int>, a: int, here: bool): seq<int> {
    Drop(l, a) + if here then [a] else []
  }

  function Rehome(s: Slab, a: int, c: Cake, home: Home, alloced: int): Slab {
    Slab(s.cakes[a := c], Append(s.free, a, home.Free?), Append(s.partial, a, home.Partial?),
         Append(s.full, a, home.Full?), alloced, s.total)
  }

  /** The free list of a new cake; slots are 16 bits wide. */
  function FreshList(n: int): (l: seq<int>)
    requires n > 0
    ensures |l| == n
  {
    seq(n, i => if i == n - 1 then EO else (i + 1) % 65536)
  }

  function NewCake(g: Geometry, s: Slab, page: int): Slab
    requires g.count > 0
  {
    s.(cakes := s.cakes[page := Cake(0, 0, FreshList(g.count))], free := s.free + [page], total := s.total + 1)
  }

  predicate Linked(s: Slab) {
    && (forall a :: a in s.free ==> a in s.cakes)
    && (forall a :: a in s.partial ==> a in s.cakes)
    && (forall a :: a in s.full ==> a in s.cakes)
  }

  /** A panic is a failed assertion, or a free list slot outside the array. */
  datatype GrabResult = Got(slab: Slab, cake: int, index: int) | GrabPanic

  /** Take the head of the chain of cake `a`. */
  function Take(s: Slab, a: int): GrabResult
    requires a in s.cakes
  {
    var c := s.cakes[a];
    if !(0 <= c.nextFree < |c.freeList|) then GrabPanic
    else
      var next := c.freeList[c.nextFree];
      if !(0 <= next < |c.freeList|) then GrabPanic
      else
        var home := if c.freeList[next] == EO then Full else Partial;
        Got(Rehome(s, a, Popped(c), home, s.alloced + 1), a, c.nextFree)
  }

  /** `page` is what the page allocator answers if a new cake is needed. */
  function Grab(g: Geometry, s: Slab, page: int): GrabResult
    requires Linked(s)
  {
    if s.partial != [] then Take(s, s.partial[0])
    else if s.free != [] then Take(s, s.free[0])
    else if g.count <= 0 then GrabPanic
    else Take(NewCake(g, s, page), page)
  }

  /** Whether `area` is in the piece range of cake `a`. */
  predicate Covers(g: Geometry, a: int, area: int)
    requires g.size > 0
  {
    a + g.offset <= area && (area - (a + g.offset)) / g.size < g.count
  }

  datatype Option<T> = None | Some(value: T)

  function FindIn(g: Geometry, l: seq<int>, area: int): (r: Option<int>)
    requires g.size > 0
    ensures r.Some? ==> r.value in l && Covers(g, r.value, area)
    ensures r.None? ==> forall a :: a in l ==> !Covers(g, a, area)
  {
    if l == [] then None else if Covers(g, l[0], area) then Some(l[0]) else FindIn(g, l[1..], area)
  }

  function Owner(g: Geometry, s: Slab, area: int): Option<int>
    requires g.size > 0
  {
    var r := FindIn(g, s.full, area);
    if r.Some? then r else FindIn(g, s.partial, area)
  }

  datatype ReleaseResult = Released(slab: Slab) | NotFound | ReleasePanic

  /** Push piece `i` on the chain of cake `a`. */
  function Give(s: Slab, a: int, i: int): ReleaseResult
    requires a in s.cakes
  {
    var c := s.cakes[a];
    if i == c.nextFree || !(0 <= i < |c.freeList|) then ReleasePanic
    else
      var c' := Pushed(c, i);
      Released(Rehome(s, a, c', if c'.used == 0 then Free else Partial, s.alloced - 1))
  }

  function Release(g: Geometry, s: Slab, area: int): ReleaseResult
    requires g.size > 0 && Linked(s)
  {
    match Owner(g, s, area)
    case None => NotFound
    case Some(a) =>
      var d := area - (a + g.offset);
      if d % g.size != 0 then ReleasePanic else Give(s, a, d / g.size % 65536)
  }

  /** Return the pages of every cake with no piece in use. */
  function Reclaim(s: Slab): Slab {
    s.(cakes := map a | a in s.cakes && a !in s.free :: s.cakes[a], free := [], total := s.total - |s.free|)
  }

  /** Grabs and releases leave no list with an unknown cake. */
  lemma {:induction false} StaysLinked(g: Geometry, s: Slab, arg: int)
    requires g.size > 0 && Linked(s)
    ensures Grab(g, s, arg).Got? ==> Linked(Grab(g, s, arg).slab)
    ensures Release(g, s, arg).Released? ==> Linked(Release(g, s, arg).slab)
  {
    hide Rehome, Popped, Pushed;
    forall s1: Slab, a, c, home, n | Linked(s1) && a in s1.cakes ensures Linked(Rehome(s1, a, c, home, n)) {
      RehomeLinked(s1, a, c, home, n);
    }
  }

  lemma {:induction false} RehomeLinked(s: Slab, a: int, c: Cake, home: Home, alloced: int)
    requires Linked(s) && a in s.cakes
    ensures Linked(Rehome(s, a, c, home, alloced))
  {
    DropSubset(s.free, a);
    DropSubset(s.partial, a);
    DropSubset(s.full, a);
  }

  lemma {:induction false} DropSubset(l: seq<int>, a: int)
    ensures forall b :: b in Drop(l, a) ==> b in l
  {
    if l != [] {
      DropSubset(l[1..], a);
    }
  }

  // ---------------------------------------------------------------- the invariant

  /** `ch` is the chain that starts at `start`: linked by the slots, ended by the mark, never revisiting. */
  predicate IsChain(list: seq<int>, start: int, ch: seq<int>) {
    && |ch| > 0 && ch[0] == start
    && (forall k :: 0 <= k < |ch| ==> 0 <= ch[k] < |list|)
    && (forall k :: 0 < k < |ch| ==> list[ch[k - 1]] == ch[k])
    && list[ch[|ch| - 1]] == EO
    && (forall j, k :: 0 <= j < k < |ch| ==> ch[j] != ch[k])
  }

  predicate NoDup(l: seq<int>) { forall j, k :: 0 <= j < k < |l| ==> l[j] != l[k] }

  /** Chain and handed-out pieces split the indices of the cake, and `used` counts the latter. */
  predicate CakeGood(g: Geometry, c: Cake, ch: seq<int>, a: int, live: set<(int, int)>) {
    && |c.freeList| == g.count && IsChain(c.freeList, c.nextFree, ch)
    && c.used + |ch| == Slots(g) && (forall k :: 0 <= k < |ch| ==> ch[k] < Slots(g))
    && (forall i :: 0 <= i < Slots(g) ==> (i in ch <==> (a, i) !in live))
  }

  /** The list a cake with `n` free pieces is on. */
  function HomeOf(g: Geometry, n: int): Home {
    if n == Slots(g) then Free else if n == 1 then Full else Partial
  }

  predicate Housed(s: Slab, a: int, home: Home) {
    (a in s.free <==> home.Free?) && (a in s.partial <==> home.Partial?) && (a in s.full <==> home.Full?)
  }

  predicate Apart(g: Geometry, a: int, b: int) { a + g.bytes <= b || b + g.bytes <= a }

  ghost predicate Good(g: Geometry, s: Slab, chains: map<int, seq<int>>, live: set<(int, int)>) {
    && Linked(s) && chains.Keys == s.cakes.Keys
    && (forall a :: a in s.cakes ==> CakeGood(g, s.cakes[a], chains[a], a, live) && Housed(s, a, HomeOf(g, |chains[a]|)))
    && (forall a, b :: a in s.cakes && b in s.cakes && a != b ==> Apart(g, a, b))
    && NoDup(s.free) && NoDup(s.partial) && NoDup(s.full)
    && (forall x :: x in live ==> x.0 in s.cakes && 0 <= x.1 < Slots(g))
    && s.alloced == |live| && s.total == |s.cakes|
  }

  lemma {:induction false} DropMembers(l: seq<int>, a: int)
    requires NoDup(l)
    ensures NoDup(Drop(l, a)) && forall b :: b in Drop(l, a) <==> b in l && b != a
  {
    if l != [] && l[0] != a {
      DropMembers(l[1..], a);
      var r := Drop(l[1..], a);
      forall k | 0 <= k < |r| ensures r[k] != l[0] {
        assert r[k] in r;
      }
    }
  }

  lemma {:induction false} AppendMembers(l: seq<int>, a: int, here: bool)
    requires NoDup(l)
    ensures NoDup(Append(l, a, here)) && (a in Append(l, a, here) <==> here)
    ensures forall b :: b != a ==> (b in Append(l, a, here) <==> b in l)
  {
    DropMembers(l, a);
    var r := Drop(l, a);
    forall k | 0 <= k < |r| ensures r[k] != a {
      assert r[k] in r;
    }
  }

  lemma {:induction false} CakeFrame(g: Geometry, c: Cake, ch: seq<int>, b: int, live: set<(int, int)>,
                                     live': set<(int, int)>)
    requires CakeGood(g, c, ch, b, live)
    requires forall x: (int, int) :: x.0 == b ==> (x in live' <==> x in live)
    ensures CakeGood(g, c, ch, b, live')
  {
  }

  /** Changing one cake and moving it to the list its new chain calls for keeps the invariant. */
  lemma {:induction false} RehomeGood(g: Geometry, s: Slab, chains: map<int, seq<int>>, live: set<(int, int)>,
                                      a: int, c: Cake, ch: seq<int>, home: Home, live': set<(int, int)>)
    requires Good(g, s, chains, live) && a in s.cakes
    requires CakeGood(g, c, ch, a, live') && home == HomeOf(g, |ch|)
    requires forall x: (int, int) :: x.0 != a ==> (x in live' <==> x in live)
    requires forall x: (int, int) :: x in live' && x.0 == a ==> 0 <= x.1 < Slots(g)
    ensures Good(g, Rehome(s, a, c, home, |live'|), chains[a := ch], live')
  {
    hide CakeGood, Append, HomeOf, NoDup, Linked, Housed;
    RehomeLists(s, a, c, home, |live'|);
    assert s.cakes[a := c].Keys == s.cakes.Keys;
    forall b | b in s.cakes && b != a ensures CakeGood(g, s.cakes[b], chains[b], b, live') {
      CakeFrame(g, s.cakes[b], chains[b], b, live, live');
    }
  }

  /** Only the moved cake changes its list. */
  lemma {:induction false} RehomeLists(s: Slab, a: int, c: Cake, home: Home, alloced: int)
    requires Linked(s) && a in s.cakes && NoDup(s.free) && NoDup(s.partial) && NoDup(s.full)
    ensures var r := Rehome(s, a, c, home, alloced);
            && Linked(r) && NoDup(r.free) && NoDup(r.partial) && NoDup(r.full) && Housed(r, a, home)
            && forall b, h :: b != a && Housed(s, b, h) ==> Housed(r, b, h)
  {
    hide Append, NoDup;
    AppendMembers(s.free, a, home.Free?);
    AppendMembers(s.partial, a, home.Partial?);
    AppendMembers(s.full, a, home.Full?);
  }

  function Popped(c: Cake): Cake
    requires 0 <= c.nextFree < |c.freeList|
  {
    c.(used := c.used + 1, nextFree := c.freeList[c.nextFree])
  }

  function Pushed(c: Cake, i: int): Cake
    requires 0 <= i < |c.freeList|
  {
    Cake(c.used - 1, i, c.freeList[i := c.nextFree])
  }

  lemma {:induction false} PopGood(g: Geometry, c: Cake, ch: seq<int>, a: int, live: set<(int, int)>)
    requires CakeGood(g, c, ch, a, live) && |ch| > 1
    ensures 0 <= c.nextFree < |c.freeList| == g.count && ch[0] == c.nextFree < Slots(g) && (a, ch[0]) !in live
    ensures CakeGood(g, Popped(c), ch[1..], a, live + {(a, ch[0])})
  {
  }

  /** The end mark tells whether the chain will have one piece left. */
  lemma {:induction false} PopHome(g: Geometry, c: Cake, ch: seq<int>, a: int, live: set<(int, int)>)
    requires CakeGood(g, c, ch, a, live) && 1 < |ch|
    ensures 0 <= c.nextFree < g.count && 0 <= c.freeList[c.nextFree] < g.count
    ensures HomeOf(g, |ch| - 1) == if c.freeList[c.freeList[c.nextFree]] == EO then Full else Partial
  {
    assert c.freeList[ch[0]] == ch[1];
    if |ch| > 2 {
      assert c.freeList[ch[1]] == ch[2];
    }
    Pigeon(ch, Slots(g));
  }

  lemma {:induction false} Distinct(l: seq<int>)
    requires NoDup(l)
    ensures |set x | x in l| == |l|
  {
    if l != [] {
      Distinct(l[1..]);
      assert (set x | x in l) == (set x | x in l[1..]) + {l[0]};
    }
  }

  lemma {:induction false} Pigeon(l: seq<int>, n: nat)
    requires NoDup(l) && forall k :: 0 <= k < |l| ==> 0 <= l[k] < n
    ensures |l| <= n
  {
    Distinct(l);
    assert (set x | x in l) <= Upto(n);
    assert |Upto(n) - (set x | x in l)| == |Upto(n)| - |set x | x in l|;
  }

  function Upto(n: nat): (r: set<int>)
    ensures |r| == n && forall i :: i in r <==> 0 <= i < n
  {
    if n == 0 then {} else Upto(n - 1) + {n - 1}
  }

  lemma {:induction false} PushGood(g: Geometry, c: Cake, ch: seq<int>, a: int, i: int, live: set<(int, int)>)
    requires CakeGood(g, c, ch, a, live) && (a, i) in live && 0 <= i < Slots(g)
    ensures |c.freeList| == g.count && i != c.nextFree && CakeGood(g, Pushed(c, i), [i] + ch, a, live - {(a, i)})
    ensures HomeOf(g, |ch| + 1) == if c.used == 1 then Free else Partial
  {
  }

  lemma {:induction false} TakeGood(g: Geometry, s: Slab, chains: map<int, seq<int>>, live: set<(int, int)>, a: int)
    requires Good(g, s, chains, live) && a in s.cakes && |chains[a]| > 1
    ensures var r := Take(s, a);
            && r.Got? && r.cake == a && 0 <= r.index < Slots(g) && (a, r.index) !in live
            && Good(g, r.slab, chains[a := chains[a][1..]], live + {(a, r.index)})
  {
    hide NoDup, Rehome, CakeGood, HomeOf;
    var c, ch := s.cakes[a], chains[a];
    assert CakeGood(g, c, ch, a, live);
    PopGood(g, c, ch, a, live);
    PopHome(g, c, ch, a, live);
    RehomeGood(g, s, chains, live, a, Popped(c), ch[1..], HomeOf(g, |ch| - 1), live + {(a, ch[0])});
  }

  lemma {:induction false} GiveGood(g: Geometry, s: Slab, chains: map<int, seq<int>>, live: set<(int, int)>,
                                    a: int, i: int)
    requires Good(g, s, chains, live) && (a, i) in live && g.count >= 2
    ensures a in s.cakes && 0 <= i < Slots(g) && s.cakes[a].nextFree != i
    ensures var r := Give(s, a, i);
            r.Released? && Good(g, r.slab, chains[a := [i] + chains[a]], live - {(a, i)})
  {
    hide NoDup, Rehome, CakeGood, HomeOf;
    assert (a, i).0 == a && (a, i).1 == i;
    var c, ch := s.cakes[a], chains[a];
    assert CakeGood(g, c, ch, a, live);
    PushGood(g, c, ch, a, i, live);
    RehomeGood(g, s, chains, live, a, Pushed(c, i), [i] + ch, HomeOf(g, |ch| + 1), live - {(a, i)});
  }

  /** The `used` count of a cake is the number of its pieces handed out. */
  lemma {:induction false} UsedCounts(g: Geometry, c: Cake, ch: seq<int>, a: int, live: set<(int, int)>)
    requires CakeGood(g, c, ch, a, live) && g.count >= 0
    ensures c.used == |set i | i in Upto(Slots(g)) && (a, i) in live|
  {
    var all, chained := Upto(Slots(g)), set x | x in ch;
    var out := set i | i in all && (a, i) in live;
    Distinct(ch);
    forall i ensures i in all - chained <==> i in out {
    }
    assert out == all - chained;
    assert chained <= all;
    assert |all - chained| == |all| - |chained|;
  }

  lemma {:induction false} NewCakeGood(g: Geometry, s: Slab, chains: map<int, seq<int>>, live: set<(int, int)>, page: int)
    requires Good(g, s, chains, live) && 2 <= g.count && g.bytes > 0
    requires forall a :: a in s.cakes ==> Apart(g, a, page)
    ensures Good(g, NewCake(g, s, page), chains[page := seq(Slots(g), i => i)], live)
  {
    hide CakeGood, FreshList, HomeOf, NoDup;
    assert page !in s.cakes;
    assert forall i {:trigger (page, i)} :: (page, i) !in live by {
      forall i ensures (page, i) !in live {
        assert (page, i).0 == page;
      }
    }
    FreshCakeGood(g, page, live);
    AddedNoDup(s.free, page);
    assert NewCake(g, s, page).cakes.Keys == s.cakes.Keys + {page};
  }

  lemma {:induction false} AddedNoDup(l: seq<int>, a: int)
    requires NoDup(l) && a !in l
    ensures NoDup(l + [a])
  {
  }

  lemma {:induction false} FreshCakeGood(g: Geometry, page: int, live: set<(int, int)>)
    requires 2 <= g.count && forall i {:trigger (page, i)} :: (page, i) !in live
    ensures CakeGood(g, Cake(0, 0, FreshList(g.count)), seq(Slots(g), i => i), page, live) && HomeOf(g, Slots(g)) == Free
  {
    hide IsChain, FreshList;
    FreshChain(g);
    var ch := seq(Slots(g), i => i);
    forall i | 0 <= i < Slots(g) ensures i in ch {
      assert ch[i] == i;
    }
  }

  /** The chain of a new cake goes through all its pieces, or the first 65535. */
  lemma {:induction false} FreshChain(g: Geometry)
    requires 2 <= g.count
    ensures IsChain(FreshList(g.count), 0, seq(Slots(g), i => i))
  {
  }

  ghost predicate FreshPage(g: Geometry, s: Slab, page: int) { forall a :: a in s.cakes ==> Apart(g, a, page) }

  /** A grab never panics, hands out a piece nobody holds, and keeps the invariant. */
  lemma {:induction false} GrabGood(g: Geometry, s: Slab, chains: map<int, seq<int>>, live: set<(int, int)>, page: int)
      returns (chains': map<int, seq<int>>)
    requires Good(g, s, chains, live) && 2 <= g.count && g.bytes > 0 && FreshPage(g, s, page)
    ensures var r := Grab(g, s, page);
            && r.Got? && (r.cake, r.index) !in live && 0 <= r.index < Slots(g)
            && Good(g, r.slab, chains', live + {(r.cake, r.index)})
  {
    hide CakeGood, NoDup, Take, NewCake;
    var s1, chains1, a := s, chains, page;
    if s.partial != [] {
      a := s.partial[0];
      assert a in s.partial;
    } else if s.free != [] {
      a := s.free[0];
      assert a in s.free;
    } else {
      s1, chains1 := NewCake(g, s, page), chains[page := seq(Slots(g), i => i)];
      NewCakeGood(g, s, chains, live, page);
    }
    ChainNonEmpty(g, s1, chains1, live, a);
    TakeGood(g, s1, chains1, live, a);
    chains' := chains1[a := chains1[a][1..]];
  }

  lemma {:induction false} TakeTotal(s: Slab, a: int)
    requires a in s.cakes && Take(s, a).Got?
    ensures Take(s, a).cake == a && Take(s, a).slab.total == s.total
    ensures a !in s.free ==> Take(s, a).slab.free == s.free
  {
    if a !in s.free { DropNothing(s.free, a); }
  }

  lemma {:induction false} DropNothing(l: seq<int>, a: int)
    requires a !in l
    ensures Drop(l, a) == l
  {
    if l != [] { DropNothing(l[1..], a); }
  }

  /** A cake always keeps one piece back. */
  predicate Exhausted(g: Geometry, c: Cake) { c.used == Slots(g) - 1 }

  /**
   A grab makes a new cake exactly if all cakes are exhausted.  As long as a cake is in use and
   not exhausted it takes from such a cake and leaves the unused ones alone.
   */
  lemma {:induction false} GrabGrowsIff(g: Geometry, s: Slab, chains: map<int, seq<int>>,
                                        live: set<(int, int)>, page: int)
    requires Good(g, s, chains, live) && 2 <= g.count && FreshPage(g, s, page) && Grab(g, s, page).Got?
    ensures Grab(g, s, page).slab.total == s.total + 1 <==> forall a :: a in s.cakes ==> Exhausted(g, s.cakes[a])
    ensures Grab(g, s, page).slab.total in {s.total, s.total + 1}
    ensures (exists a :: a in s.cakes && 0 < s.cakes[a].used && !Exhausted(g, s.cakes[a])) ==>
              Grab(g, s, page).cake in s.cakes && 0 < s.cakes[Grab(g, s, page).cake].used
              && Grab(g, s, page).slab.free == s.free
  {
    hide Take, NoDup, FreshPage;
    forall a | a in s.cakes
      ensures a in s.partial <==> 0 < s.cakes[a].used && !Exhausted(g, s.cakes[a])
      ensures a in s.free <==> s.cakes[a].used == 0
      ensures s.cakes[a].used == 0 ==> !Exhausted(g, s.cakes[a])
    {
      HomeByUse(g, s, chains, live, a);
    }
    if s.partial != [] {
      assert s.partial[0] in s.partial;
      TakeTotal(s, s.partial[0]);
    } else if s.free != [] {
      assert s.free[0] in s.free;
      TakeTotal(s, s.free[0]);
    } else {
      TakeTotal(NewCake(g, s, page), page);
    }
  }

  lemma {:induction false} HomeByUse(g: Geometry, s: Slab, chains: map<int, seq<int>>, live: set<(int, int)>, a: int)
    requires Good(g, s, chains, live) && 2 <= g.count && a in s.cakes
    ensures a in s.partial <==> 0 < s.cakes[a].used && !Exhausted(g, s.cakes[a])
    ensures a in s.free <==> s.cakes[a].used == 0
    ensures s.cakes[a].used == 0 ==> !Exhausted(g, s.cakes[a])
    ensures 0 <= s.cakes[a].used < Slots(g)
  {
    assert CakeGood(g, s.cakes[a], chains[a], a, live) && Housed(s, a, HomeOf(g, |chains[a]|));
    UsedCounts(g, s.cakes[a], chains[a], a, live);
  }

  lemma {:induction false} ChainNonEmpty(g: Geometry, s: Slab, chains: map<int, seq<int>>, live: set<(int, int)>, a: int)
    requires Good(g, s, chains, live) && a in s.cakes && g.count >= 2
    ensures |chains[a]| > 0
    ensures a !in s.full ==> |chains[a]| > 1
    ensures a in s.free ==> s.cakes[a].used == 0
    ensures s.cakes[a].used == 0 ==> a in s.free
  {
    assert CakeGood(g, s.cakes[a], chains[a], a, live);
  }

  // ---------------------------------------------------------------- addresses

  lemma {:induction false} Quotient(d: nat, size: nat, count: int)
    requires size > 0
    ensures d / size < count <==> d < count * size
  {
    assert d == d / size * size + d % size;
    if d / size < count {
      Scale(d / size, count, size);
    } else if count < d / size {
      Scale(count, d / size, size);
    }
  }

  lemma {:induction false} Divides(i: nat, size: nat)
    requires size > 0
    ensures i * size / size == i && i * size % size == 0
  {
    Remainder(i * size, size, i, 0);
  }

  /** A piece lies in the pages of its cake, after the header and the free list. */
  lemma {:induction false} PieceInside(g: Geometry, header: nat, a: int, i: int)
    requires Usable(g, header) && 0 <= i < g.count
    ensures a + header + 2 * g.count <= Piece(g, a, i) && Piece(g, a, i) + g.size <= a + g.bytes
  {
    Scale(i, g.count, g.size);
    assert i * g.size >= 0;
  }

  /** Two different pieces of well-separated cakes do not overlap. */
  lemma {:induction false} PiecesApart(g: Geometry, header: nat, a: int, i: int, b: int, j: int)
    requires Usable(g, header) && 0 <= i < g.count && 0 <= j < g.count
    requires (a, i) != (b, j) && (a != b ==> Apart(g, a, b))
    ensures Piece(g, a, i) + g.size <= Piece(g, b, j) || Piece(g, b, j) + g.size <= Piece(g, a, i)
  {
    PieceInside(g, header, a, i);
    PieceInside(g, header, b, j);
    if a == b && i < j {
      Scale(i, j, g.size);
    } else if a == b {
      Scale(j, i, g.size);
    }
  }

  /** Only the cake a piece was cut from covers its addresses. */
  lemma {:induction false} OnlyOwner(g: Geometry, header: nat, a: int, i: int, k: nat, b: int)
    requires Usable(g, header) && 0 <= i < g.count && k < g.size && (a != b ==> Apart(g, a, b))
    ensures Covers(g, b, Piece(g, a, i) + k) <==> b == a
  {
    PieceInside(g, header, a, i);
    var d := Piece(g, a, i) + k - (b + g.offset);
    if d >= 0 {
      Quotient(d, g.size, g.count);
    }
    Scale(i, g.count, g.size);
  }

  /** Release always finds the cake that owns the piece. */
  lemma {:induction false} OwnerFound(g: Geometry, header: nat, s: Slab, chains: map<int, seq<int>>,
                                      live: set<(int, int)>, a: int, i: int)
    requires Usable(g, header) && Good(g, s, chains, live) && (a, i) in live
    ensures Owner(g, s, Piece(g, a, i)) == Some(a)
  {
    hide CakeGood, NoDup, Fits, Owner;
    assert (a, i).0 == a && (a, i).1 == i;
    LiveListed(g, s, chains, live, a, i);
    OwnerIs(g, header, s, chains, live, a, i, 0);
  }

  /** The search looks everywhere but among the cakes that have no piece in use. */
  lemma {:induction false} OwnerIs(g: Geometry, header: nat, s: Slab, chains: map<int, seq<int>>,
                                   live: set<(int, int)>, a: int, i: int, k: nat)
    requires Usable(g, header) && Good(g, s, chains, live) && a in s.cakes && 0 <= i < g.count && k < g.size
    ensures Owner(g, s, Piece(g, a, i) + k) == if a in s.free then None else Some(a)
  {
    hide CakeGood, NoDup, Covers, Piece, Fits;
    forall b | b in s.cakes ensures Covers(g, b, Piece(g, a, i) + k) <==> b == a {
      OnlyOwner(g, header, a, i, k, b);
    }
    assert Housed(s, a, HomeOf(g, |chains[a]|));
  }

  /**
   Releasing a piece that nobody holds is noticed if and only if it is the one the cake would hand
   out next, or its cake has no piece in use; otherwise it goes through and the count is off.
   */
  lemma {:induction false} DoubleFreeIff(g: Geometry, header: nat, s: Slab, chains: map<int, seq<int>>,
                                         live: set<(int, int)>, a: int, i: int)
    requires Usable(g, header) && Good(g, s, chains, live) && a in s.cakes && 0 <= i < Slots(g) && (a, i) !in live
    ensures var r := Release(g, s, Piece(g, a, i));
            && (a in s.free ==> r == NotFound)
            && (a !in s.free ==> (r == ReleasePanic <==> i == s.cakes[a].nextFree))
            && (r.Released? ==> r.slab.alloced == |live| - 1)
  {
    hide NoDup, Fits, Owner, Piece, Rehome, Housed;
    assert CakeGood(g, s.cakes[a], chains[a], a, live);
    hide CakeGood;
    OwnerIs(g, header, s, chains, live, a, i, 0);
    if a !in s.free {
      ReleaseIs(g, s, a, i);
      GiveCounts(s, a, i);
    }
  }

  /** An address inside a piece is refused. */
  lemma {:induction false} InsidePanics(g: Geometry, header: nat, s: Slab, chains: map<int, seq<int>>,
                                        live: set<(int, int)>, a: int, i: int, k: nat)
    requires Usable(g, header) && Good(g, s, chains, live) && a in s.cakes && a !in s.free && 0 <= i < g.count
    requires 0 < k < g.size
    ensures Release(g, s, Piece(g, a, i) + k) == ReleasePanic
  {
    hide Good, Owner, Give;
    assert Linked(s) && a in s.cakes by { LinkedOf(g, s, chains, live); }
    OwnerIs(g, header, s, chains, live, a, i, k);
    Remainder(i * g.size + k, g.size, i, k);
  }

  lemma {:induction false} LinkedOf(g: Geometry, s: Slab, chains: map<int, seq<int>>, live: set<(int, int)>)
    requires Good(g, s, chains, live)
    ensures Linked(s)
  {
  }

  lemma {:induction false} GiveCounts(s: Slab, a: int, i: int)
    requires a in s.cakes
    ensures Give(s, a, i).Released? ==> Give(s, a, i).slab.alloced == s.alloced - 1
  {
  }

  lemma {:induction false} LiveListed(g: Geometry, s: Slab, chains: map<int, seq<int>>, live: set<(int, int)>,
                                      a: int, i: int)
    requires g.count >= 2 && Good(g, s, chains, live) && (a, i) in live
    ensures a in s.full || a in s.partial
  {
    assert (a, i).0 == a && (a, i).1 == i;
    assert CakeGood(g, s.cakes[a], chains[a], a, live);
    if a in s.free {
      PushGood(g, s.cakes[a], chains[a], a, i, live);
      Pigeon([i] + chains[a], Slots(g));
    }
  }

  /** Releasing a held piece succeeds and takes exactly that piece back. */
  lemma {:induction false} ReleaseGood(g: Geometry, header: nat, s: Slab, chains: map<int, seq<int>>,
                                       live: set<(int, int)>, a: int, i: int)
    requires Usable(g, header) && Good(g, s, chains, live) && (a, i) in live
    ensures var r := Release(g, s, Piece(g, a, i));
            && r.Released? && a in chains
            && Good(g, r.slab, chains[a := [i] + chains[a]], live - {(a, i)})
  {
    assert Linked(s) && a in s.cakes && 0 <= i < Slots(g);
    hide Good, Usable, Linked, Release, Give, Piece;
    OwnerFound(g, header, s, chains, live, a, i);
    GiveGood(g, s, chains, live, a, i);
    ReleaseIs(g, s, a, i);
  }

  lemma {:induction false} ReleaseIs(g: Geometry, s: Slab, a: int, i: int)
    requires g.size > 0 && Linked(s) && a in s.cakes && Owner(g, s, Piece(g, a, i)) == Some(a) && 0 <= i < EO
    ensures Release(g, s, Piece(g, a, i)) == Give(s, a, i)
  {
    hide Linked, Owner, Give;
    Divides(i, g.size);
  }

  /** Reclaiming touches no cake that has a piece out. */
  lemma {:induction false} ReclaimGood(g: Geometry, s: Slab, chains: map<int, seq<int>>, live: set<(int, int)>)
    requires g.count >= 2 && Good(g, s, chains, live)
    ensures Good(g, Reclaim(s), map a | a in s.cakes && a !in s.free :: chains[a], live)
    ensures forall a :: a in s.free ==> a in s.cakes && s.cakes[a].used == 0
  {
    hide CakeGood, NoDup, HomeOf;
    forall x | x in live ensures x.0 !in s.free {
      LiveListed(g, s, chains, live, x.0, x.1);
    }
    forall a | a in s.free ensures s.cakes[a].used == 0 {
      ChainNonEmpty(g, s, chains, live, a);
    }
    ReclaimTotal(s);
  }

  lemma {:induction false} ReclaimTotal(s: Slab)
    requires NoDup(s.free) && forall a :: a in s.free ==> a in s.cakes
    ensures |Reclaim(s).cakes| == |s.cakes| - |s.free| && NoDup(Reclaim(s).free)
  {
    Distinct(s.free);
    var gone := set a | a in s.free;
    assert Reclaim(s).cakes.Keys == s.cakes.Keys - gone;
    assert gone <= s.cakes.Keys;
  }

  // ---------------------------------------------------------------- every run

  datatype Op = OpGrab(page: int) | OpRelease(cake: int, index: int) | OpReclaim

  /** A pile together with the pieces its clients hold. */
  datatype World = World(slab: Slab, live: set<(int, int)>)

  const EMPTY := Slab(map[], [], [], [], 0, 0)

  /** Clients release only what they hold; the page allocator answers unused pages. */
  ghost predicate Legal(g: Geometry, w: World, op: Op) {
    match op
    case OpGrab(page) => FreshPage(g, w.slab, page)
    case OpRelease(a, i) => (a, i) in w.live
    case OpReclaim => true
  }

  /** One call; no value when it panics or does not find the piece. */
  function Do(g: Geometry, w: World, op: Op): Option<World>
    requires g.size > 0 && Linked(w.slab)
  {
    match op
    case OpGrab(page) =>
      var r := Grab(g, w.slab, page);
      if r.Got? then Some(World(r.slab, w.live + {(r.cake, r.index)})) else None
    case OpRelease(a, i) =>
      var r := Release(g, w.slab, Piece(g, a, i));
      if r.Released? then Some(World(r.slab, w.live - {(a, i)})) else None
    case OpReclaim => Some(World(Reclaim(w.slab), w.live))
  }

  /** A run whose every call is legal, ending in `w`. */
  ghost predicate Reaches(g: Geometry, ops: seq<Op>, w: World)
    requires g.size > 0
  {
    if ops == [] then w == World(EMPTY, {})
    else exists v :: Reaches(g, ops[..|ops| - 1], v) && Linked(v.slab) && Legal(g, v, ops[|ops| - 1])
                     && Do(g, v, ops[|ops| - 1]) == Some(w)
  }

  ghost predicate Sound(g: Geometry, w: World) { exists chains :: Good(g, w.slab, chains, w.live) }

  lemma {:induction false} GrabSound(g: Geometry, header: nat, w: World, page: int)
    requires Usable(g, header) && Sound(g, w) && FreshPage(g, w.slab, page)
    ensures Linked(w.slab) && Do(g, w, OpGrab(page)).Some? && Sound(g, Do(g, w, OpGrab(page)).value)
  {
    hide Grab, CakeGood, FreshPage;
    var chains :| Good(g, w.slab, chains, w.live);
    assert g.bytes > 0 by { PieceInside(g, header, 0, 0); }
    hide Fits, NoDup, Housed;
    var chains' := GrabGood(g, w.slab, chains, w.live, page);
  }

  lemma {:induction false} ReleaseSound(g: Geometry, header: nat, w: World, a: int, i: int)
    requires Usable(g, header) && Sound(g, w) && (a, i) in w.live
    ensures Linked(w.slab) && Do(g, w, OpRelease(a, i)).Some? && Sound(g, Do(g, w, OpRelease(a, i)).value)
  {
    hide Release, CakeGood, Fits, NoDup, Housed;
    var chains :| Good(g, w.slab, chains, w.live);
    ReleaseGood(g, header, w.slab, chains, w.live, a, i);
  }

  lemma {:induction false} ReclaimSound(g: Geometry, w: World)
    requires g.size > 0 && g.count >= 2 && Sound(g, w)
    ensures Linked(w.slab) && Do(g, w, OpReclaim).Some? && Sound(g, Do(g, w, OpReclaim).value)
  {
    hide Reclaim, CakeGood, NoDup, Housed;
    var chains :| Good(g, w.slab, chains, w.live);
    ReclaimGood(g, w.slab, chains, w.live);
  }

  /** Every legal call succeeds and keeps the invariant. */
  lemma {:induction false} StepSound(g: Geometry, header: nat, w: World, op: Op)
    requires Usable(g, header) && Sound(g, w) && Legal(g, w, op)
    ensures Linked(w.slab) && Do(g, w, op).Some? && Sound(g, Do(g, w, op).value)
  {
    hide Sound, Do, Fits, FreshPage;
    match op
    case OpGrab(page) => GrabSound(g, header, w, page);
    case OpRelease(a, i) => ReleaseSound(g, header, w, a, i);
    case OpReclaim => ReclaimSound(g, w);
  }

  lemma {:induction false} EmptySound(g: Geometry)
    ensures Sound(g, World(EMPTY, {}))
  {
    assert Good(g, EMPTY, map[], {});
  }

  lemma {:induction false} RunSound(g: Geometry, header: nat, ops: seq<Op>, w: World)
    requires Usable(g, header) && Reaches(g, ops, w)
    ensures Sound(g, w)
  {
    hide Do, Fits, Sound, Legal;
    if ops == [] {
      EmptySound(g);
    } else {
      var v :| Reaches(g, ops[..|ops| - 1], v) && Linked(v.slab) && Legal(g, v, ops[|ops| - 1])
               && Do(g, v, ops[|ops| - 1]) == Some(w);
      RunSound(g, header, ops[..|ops| - 1], v);
      StepSound(g, header, v, ops[|ops| - 1]);
    }
  }

  /** The extent of a held piece. */
  predicate Inside(g: Geometry, header: nat, x: (int, int)) {
    x.0 + header + 2 * g.count <= Piece(g, x.0, x.1) && Piece(g, x.0, x.1) + g.size <= x.0 + g.bytes
  }

  predicate Disjoint(g: Geometry, x: (int, int), y: (int, int)) {
    Piece(g, x.0, x.1) + g.size <= Piece(g, y.0, y.1) || Piece(g, y.0, y.1) + g.size <= Piece(g, x.0, x.1)
  }

  /** The next legal call succeeds; held pieces overlap neither each other nor a header and stay in their pages. */
  ghost predicate Safe(g: Geometry, header: nat, w: World)
    requires g.size > 0
  {
    && (forall op :: Legal(g, w, op) ==> Linked(w.slab) && Do(g, w, op).Some?)
    && (forall x, y :: x in w.live && y in w.live && x != y ==> Disjoint(g, x, y))
    && (forall x :: x in w.live ==> Inside(g, header, x))
  }

  lemma {:induction false} SoundIsSafe(g: Geometry, header: nat, w: World)
    requires Usable(g, header) && Sound(g, w)
    ensures Safe(g, header, w)
  {
    hide Do, Piece, Fits, CakeGood, Sound, Legal, Good;
    forall op | Legal(g, w, op) ensures Linked(w.slab) && Do(g, w, op).Some? {
      StepSound(g, header, w, op);
    }
    forall x, y | x in w.live && y in w.live && x != y ensures Disjoint(g, x, y) {
      LivePlaces(g, w, x, y);
      PiecesApart(g, header, x.0, x.1, y.0, y.1);
    }
    forall x | x in w.live ensures Inside(g, header, x) {
      LivePlaces(g, w, x, x);
      PieceInside(g, header, x.0, x.1);
    }
  }

  lemma {:induction false} LivePlaces(g: Geometry, w: World, x: (int, int), y: (int, int))
    requires Sound(g, w) && x in w.live && y in w.live
    ensures 0 <= x.1 < Slots(g) && 0 <= y.1 < Slots(g) && (x.0 != y.0 ==> Apart(g, x.0, y.0))
  {
    hide CakeGood, NoDup, Housed;
    var chains :| Good(g, w.slab, chains, w.live);
  }

  /**
   After any run of grabs, releases of held pieces and reclaims: every cake has an acyclic
   chain that with the held pieces partitions its indices, the counts are right, the next
   legal call succeeds, and held pieces overlap neither each other nor a header.
   */
  lemma {:induction false} SlabSafety(g: Geometry, header: nat, ops: seq<Op>, w: World)
    requires Usable(g, header) && Reaches(g, ops, w)
    ensures Sound(g, w) && Safe(g, header, w)
    ensures w.slab.alloced == |w.live|
    ensures forall a :: a in w.slab.cakes ==>
                          w.slab.cakes[a].used == |set i | i in Upto(Slots(g)) && (a, i) in w.live|
  {
    hide Reaches, Safe, CakeGood, Fits, NoDup, Housed;
    RunSound(g, header, ops, w);
    SoundIsSafe(g, header, w);
    var chains :| Good(g, w.slab, chains, w.live);
    forall a | a in w.slab.cakes
      ensures w.slab.cakes[a].used == |set i | i in Upto(Slots(g)) && (a, i) in w.live|
    {
      UsedCounts(g, w.slab.cakes[a], chains[a], a, w.live);
    }
  }

  // ---------------------------------------------------------------- which piles are safe

  /** Every state any run can reach is safe. */
  ghost predicate PileSafe(g: Geometry, header: nat) {
    g.size > 0 && forall ops, w :: Reaches(g, ops, w) ==> Safe(g, header, w)
  }

  /** With no piece or a single one per cake the first grab fails. */
  lemma {:induction false} FewPiecesPanic(g: Geometry, page: int)
    requires 0 <= g.count <= 1
    ensures Grab(g, EMPTY, page) == GrabPanic
  {
  }

  lemma {:induction false} FewPiecesUnsafe(g: Geometry, header: nat)
    requires 0 <= g.count <= 1
    ensures !PileSafe(g, header)
  {
    hide Grab;
    if g.size > 0 {
      var w := World(EMPTY, {});
      assert Reaches(g, [], w);
      FewPiecesPanic(g, 0);
      assert Legal(g, w, OpGrab(0)) && Do(g, w, OpGrab(0)) == None;
    }
  }

  /** The first two grabs hand out the first two pieces of one cake. */
  lemma {:induction false} FirstGrabs(g: Geometry) returns (w: World)
    requires g.size > 0 && g.count >= 4
    ensures Reaches(g, [OpGrab(0), OpGrab(g.bytes)], w) && (0, 1) in w.live
  {
    var w0 := World(EMPTY, {});
    var r1 := Grab(g, EMPTY, 0);
    assert r1.Got? && r1.cake == 0 && r1.index == 0 && r1.slab.partial == [0] && r1.slab.cakes.Keys == {0};
    var w1 := World(r1.slab, {(0, 0)});
    assert w0.live + {(r1.cake, r1.index)} == {(0, 0)};
    assert Do(g, w0, OpGrab(0)) == Some(w1);
    var r2 := Grab(g, w1.slab, g.bytes);
    assert r2.Got? && r2.cake == 0 && r2.index == 1;
    w := World(r2.slab, w1.live + {(0, 1)});
    assert Do(g, w1, OpGrab(g.bytes)) == Some(w);
    hide Do, Grab;
    var ops := [OpGrab(0), OpGrab(g.bytes)];
    assert ops[..1] == [OpGrab(0)] && [OpGrab(0)][..0] == [];
    assert Reaches(g, [], w0);
    assert Reaches(g, [OpGrab(0)], w1);
  }

  /** When the count wraps around, not even the second piece lies inside the pages. */
  lemma {:induction false} WrappedLayout(header: nat, piece: nat, align: nat, bytes: nat)
    requires align > 0 && piece > 0 && header + align < 0x8000_0000
    requires Estimate(piece, align, bytes) < Lost(header, piece, align, bytes)
    ensures var g := InitPile(header, piece, align, bytes);
            g.size > 0 && g.count >= 4 && g.offset + 2 * g.size > g.bytes
  {
    hide RoundUp, Ceil, Estimate;
    var n := Estimate(piece, align, bytes);
    var g := InitPile(header, piece, align, bytes);
    RoundsUp(piece, align);
    RoundsUp(header + 2 * n, align);
    CeilCovers(g.offset - 2 * n, g.size);
    CeilAbove(g.offset - 2 * n, g.size, n);
    EstimateNear(piece, align, bytes);
  }

  lemma {:induction false} CeilAbove(x: nat, y: nat, n: nat)
    requires y > 0 && Ceil(x, y) > n
    ensures x > n * y
  {
    assert x == x / y * y + x % y;
    if x / y > n {
      Scale(n, x / y, y);
    }
  }

  lemma {:induction false} EstimateNear(piece: nat, align: nat, bytes: nat)
    requires align > 0
    ensures var n, s := Estimate(piece, align, bytes), RoundUp(piece, align);
            bytes < n * s + 2 * n + s + 2
  {
    hide RoundUp;
    var s := RoundUp(piece, align);
    var n := bytes / (s + 2);
    assert bytes == n * (s + 2) + bytes % (s + 2);
    assert n * (s + 2) == n * s + 2 * n;
  }

  lemma {:induction false} WrappedUnsafe(header: nat, piece: nat, align: nat, bytes: nat)
    requires align > 0 && piece > 0 && header + align < 0x8000_0000
    requires Estimate(piece, align, bytes) < Lost(header, piece, align, bytes)
    ensures !PileSafe(InitPile(header, piece, align, bytes), header)
  {
    hide InitPile, Estimate, Lost, Reaches, Do;
    var g := InitPile(header, piece, align, bytes);
    WrappedLayout(header, piece, align, bytes);
    var w := FirstGrabs(g);
    assert Piece(g, 0, 1) == g.offset + g.size;
    assert !Inside(g, header, (0, 1));
  }

  /**
   The exact condition on the arguments of `__init_pile`: every run on the pile is safe if and
   only if the estimate leaves at least two pieces after header and padding.
   */
  lemma {:induction false} PileSafeIff(header: nat, piece: nat, align: nat, bytes: nat)
    requires align > 0 && piece > 0 && bytes < 0x1_0000_0000 && header + align < 0x8000_0000
    ensures PileSafe(InitPile(header, piece, align, bytes), header)
       <==> Lost(header, piece, align, bytes) + 2 <= Estimate(piece, align, bytes)
  {
    var g := InitPile(header, piece, align, bytes);
    hide Estimate, Lost, Reaches, Safe, Fits, RoundUp;
    if Estimate(piece, align, bytes) < Lost(header, piece, align, bytes) {
      WrappedUnsafe(header, piece, align, bytes);
    } else if Estimate(piece, align, bytes) < Lost(header, piece, align, bytes) + 2 {
      FewPiecesUnsafe(g, header);
    } else {
      UsablePile(header, piece, align, bytes);
      forall ops, w | Reaches(g, ops, w) ensures Safe(g, header, w) {
        SlabSafety(g, header, ops, w);
      }
    }
  }
}
