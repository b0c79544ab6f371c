/**
 The cake pile object of kernel/mm/cake.c, updated in place.  Every operation is proved to
 compute the transition of module Cakes, whose runs are proved safe there.
 */
module CakePile {
  import opened Cakes

  class Pile {
    const g: Geometry
    var cakes: map<int, Cake>
    var free: seq<int>
    var partial: seq<int>
    var full: seq<int>
    var alloced: int
    var total: int

    ghost function Value(): Slab
      reads this
    {
      Slab(cakes, free, partial, full, alloced, total)
    }

    ghost predicate Valid()
      reads this
    {
      g.size > 0 && Linked(Value())
    }

    constructor (header: nat, piece: nat, align: nat, bytes: nat)
      requires align > 0 && piece > 0
      ensures g == InitPile(header, piece, align, bytes) && Valid() && Value() == EMPTY
    {
      var size := RoundUp(piece, align);
      var estimate := bytes / (size + 2);
      var slots := 2 * estimate;
      var offset := RoundUp(header + slots, align);
      RoundsUp(piece, align);
      RoundsUp(header + slots, align);
      var left := estimate - Ceil(offset - slots, size);
      if left < 0 {
        left := left + 0x1_0000_0000;
      }
      g := Geometry(size, offset, left, bytes);
      cakes, free, partial, full, alloced, total := map[], [], [], [], 0, 0;
    }

    method CreateCake() returns (cake: Cake)
      requires g.count > 0
      ensures cake == Cake(0, 0, FreshList(g.count))
    {
      var list := seq(g.count, i => 0);
      var i := 0;
      while i < g.count - 1
        invariant 0 <= i <= g.count - 1 && |list| == g.count
        invariant forall k :: 0 <= k < i ==> list[k] == FreshList(g.count)[k]
      {
        list := list[i := (i + 1) % 65536];
        i := i + 1;
      }
      list := list[g.count - 1 := EO];
      assert list == FreshList(g.count);
      return Cake(0, 0, list);
    }

    /** Take the cake off its list and put it at the end of another. */
    method Move(a: int, home: Home)
      modifies this`free, this`partial, this`full
      ensures free == Append(old(free), a, home.Free?)
      ensures partial == Append(old(partial), a, home.Partial?)
      ensures full == Append(old(full), a, home.Full?)
    {
      free, partial, full := Drop(free, a), Drop(partial, a), Drop(full, a);
      match home
      case Free => free := free + [a];
      case Partial => partial := partial + [a];
      case Full => full := full + [a];
    }

    /** Take the head of the chain of cake `a`; no value when a slot is outside the free list. */
    method TakeFrom(a: int) returns (r: Option<int>)
      requires a in cakes
      modifies this`cakes, this`free, this`partial, this`full, this`alloced
      ensures var out := Take(old(Value()), a);
              && (r.Some? <==> out.Got?)
              && (out.Got? ==> Value() == out.slab && r.value == out.index)
    {
      hide Drop, Append;
      var c := cakes[a];
      var found := c.nextFree;
      if !(0 <= found < |c.freeList|) { return None; }
      var next := c.freeList[found];
      if !(0 <= next < |c.freeList|) { return None; }
      c := c.(nextFree := next, used := c.used + 1);
      cakes := cakes[a := c];
      alloced := alloced + 1;
      Move(a, if c.freeList[next] == EO then Full else Partial);
      return Some(found);
    }

    method Grab(page: int) returns (r: Option<int>)
      requires Valid()
      modifies this
      ensures var out := Cakes.Grab(g, old(Value()), page);
              && (r.Some? <==> out.Got?)
              && (out.Got? ==> Valid() && Value() == out.slab && r.value == Piece(g, out.cake, out.index))
    {
      StaysLinked(g, Value(), page);
      hide Take, FreshList;
      var a: int;
      if |partial| > 0 {
        a := partial[0];
      } else if |free| == 0 {
        if g.count <= 0 { return None; }
        var cake := CreateCake();
        cakes, free, total := cakes[page := cake], free + [page], total + 1;
        a := page;
      } else {
        a := free[0];
      }
      TakesFrom(Value(), a);
      var found := TakeFrom(a);
      if found == None { return None; }
      return Some(a + g.offset + found.value * g.size);
    }

    /** The scan of one list for the cake whose pieces cover `area`. */
    method Scan(l: seq<int>, area: int) returns (r: Option<int>)
      requires g.size > 0
      ensures r == FindIn(g, l, area)
    {
      var k := 0;
      while k < |l|
        invariant 0 <= k <= |l| && FindIn(g, l, area) == FindIn(g, l[k..], area)
      {
        if l[k] + g.offset <= area {
          var d := area - (l[k] + g.offset);
          if d / g.size < g.count { return Some(l[k]); }
        }
        k := k + 1;
      }
      return None;
    }

    method Release(area: int) returns (r: Option<bool>)
      requires Valid()
      modifies this
      ensures var out := Cakes.Release(g, old(Value()), area);
              && (r == None <==> out.ReleasePanic?)
              && (r == Some(false) <==> out.NotFound?)
              && (out.NotFound? ==> Value() == old(Value()))
              && (out.Released? ==> Valid() && Value() == out.slab)
    {
      StaysLinked(g, Value(), area);
      var owner := Scan(full, area);
      if owner == None {
        owner := Scan(partial, area);
      }
      if owner == None { return Some(false); }
      var a := owner.value;
      var d := area - (a + g.offset);
      if d % g.size != 0 { return None; }
      var i, c := d / g.size % 65536, cakes[a];
      if i == c.nextFree || !(0 <= i < |c.freeList|) { return None; }
      c := c.(freeList := c.freeList[i := c.nextFree], nextFree := i);
      c := c.(used := c.used - 1);
      cakes := cakes[a := c];
      alloced := alloced - 1;
      Move(a, if c.used == 0 then Free else Partial);
      return Some(true);
    }

    /** Give back the pages of every cake on the free list, one at a time. */
    method ReclaimFreed()
      requires Valid() && NoDup(free)
      modifies this`cakes, this`free, this`total
      ensures Value() == Cakes.Reclaim(old(Value()))
      ensures (forall a :: a in old(free) ==> a !in partial && a !in full) ==> Valid()
    {
      ghost var k := 0;
      while free != []
        invariant 0 <= k <= |old(free)| && free == old(free)[k..] && total == old(total) - k
        invariant cakes == map a | a in old(cakes) && a !in old(free)[..k] :: old(cakes)[a]
        decreases |free|
      {
        var a := free[0];
        assert old(free)[..k + 1] == old(free)[..k] + [a];
        free, total := free[1..], total - 1;
        cakes := map b | b in cakes && b != a :: cakes[b];
        k := k + 1;
      }
      assert old(free)[..k] == old(free);
    }
  }

  lemma {:induction false} TakesFrom(s: Slab, a: int)
    requires a in s.cakes
    ensures Take(s, a).Got? ==> Take(s, a).cake == a
  {
  }
}
