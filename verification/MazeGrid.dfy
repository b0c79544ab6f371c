/**
 The maze generator of usr/maze.c on its own arrays: the character grid and the road list,
 both updated in place.  Random numbers are arbitrary.
 */
module MazeGrid {
  import opened Maze

  const WALL := '#'
  const ROAD := ' '

  /** Make room at position `r` of the first `n` entries. */
  method ShiftUp(a: array<Node>, r: nat, n: nat)
    requires r <= n < a.Length
    modifies a
    ensures a[..r] == old(a[..r]) && a[r + 1..n + 1] == old(a[r..n])
  {
    var i := n;
    while i > r
      invariant r <= i <= n
      invariant forall k :: 0 <= k < i ==> a[k] == old(a[k])
      invariant forall k :: i < k <= n ==> a[k] == old(a[k - 1])
    {
      a[i] := a[i - 1];
      i := i - 1;
    }
  }

  class Generator {
    const maze: array2<char>
    const road: array<Node>
    var length: nat
    var dropped: bool

    ghost predicate Shaped()
      reads this
    {
      maze.Length0 == HEIGHT && maze.Length1 == WIDTH && road.Length == CAP && length <= CAP
    }

    ghost function Value(): State
      requires Shaped()
      reads this, maze, road
    {
      State(set x, y | 0 <= x < WIDTH && 0 <= y < HEIGHT && maze[y, x] == ROAD :: Node(x, y), road[..length], dropped)
    }

    /** All walls, and an empty list. */
    constructor ()
      ensures Shaped() && Value() == State({}, [], false) && fresh(maze) && fresh(road)
    {
      maze := new char[HEIGHT, WIDTH]((i, j) => WALL);
      road := new Node[CAP](i => Node(0, 0));
      length, dropped := 0, false;
    }

    method Open(n: Node)
      requires Shaped() && InGrid(n)
      modifies maze
      ensures Value() == old(Value()).(open := old(Value()).open + {n})
    {
      maze[n.y, n.x] := ROAD;
      assert Value().open == old(Value()).open + {n};
    }

    method InsertRoad(n: Node, draw: nat)
      requires Shaped()
      modifies this`length, this`dropped, road
      ensures Shaped() && Value() == Insert(old(Value()), n, draw)
    {
      hide Rand;
      if length >= CAP {
        dropped := true;
        return;
      }
      var r := Rand(draw, length);
      ShiftUp(road, r, length);
      road[r] := n;
      length := length + 1;
      assert road[..length] == old(road[..length])[..r] + [n] + old(road[..length])[r..];
    }

    method PopRoad() returns (n: Node)
      requires Shaped() && length > 0
      modifies this`length, road
      ensures Shaped() && n == old(road[length - 1])
      ensures Value() == old(Value()).(list := old(road[..length - 1]))
    {
      n := road[length - 1];
      road[length - 1] := Node(0, 0);
      length := length - 1;
      assert road[..length] == old(road[..length - 1]);
    }

    method OfferRoad(n: Node, draw: nat)
      requires Shaped()
      modifies this`length, this`dropped, road
      ensures Shaped() && Value() == Offer(old(Value()), n, draw)
    {
      if Cell(n) && maze[n.y, n.x] != ROAD {
        assert n !in Value().open;
        InsertRoad(n, draw);
      } else if Cell(n) {
        assert n in Value().open;
      }
    }

    method PickNearRoadToList(n: Node, ds: Draws)
      requires Shaped()
      modifies this`length, this`dropped, road
      ensures Shaped() && Value() == OfferAll(old(Value()), n, ds)
    {
      hide Offer, Cell;
      OfferRoad(Node(n.x, n.y - 2), ds.up);
      OfferRoad(Node(n.x + 2, n.y), ds.right);
      OfferRoad(Node(n.x, n.y + 2), ds.down);
      OfferRoad(Node(n.x - 2, n.y), ds.left);
    }

    method IsRoad(n: Node) returns (yes: bool)
      requires Shaped()
      ensures yes == Road(Value().open, n)
    {
      if !Cell(n) { return false; }
      yes := maze[n.y, n.x] == ROAD;
      assert yes <==> n in Value().open;
    }

    method PickNearRoad(n: Node) returns (m: Node)
      requires Shaped()
      ensures m == PickNear(Value().open, n)
    {
      m := Node(n.x, n.y - 2);
      var found := IsRoad(m);
      if found { return; }
      m := Node(n.x - 2, n.y);
      found := IsRoad(m);
      if found { return; }
      m := Node(n.x, n.y + 2);
      found := IsRoad(m);
      if found { return; }
      m := Node(n.x + 2, n.y);
    }

    method BreakWall(n: Node, m: Node)
      requires Shaped() && (n.x == m.x || n.y == m.y) && InGrid(Between(n, m))
      modifies maze
      ensures Value() == old(Value()).(open := old(Value()).open + {Between(n, m)})
    {
      if n.x == m.x {
        Open(Node(n.x, (n.y + m.y + 1) / 2));
      } else if n.y == m.y {
        Open(Node((n.x + m.x + 1) / 2, n.y));
      }
    }

    /** Pop a cell, open it, and break the wall to a road beside it. */
    method OpenNext(ghost start: Node) returns (n: Node)
      requires Shaped() && length > 0 && Inv(Value(), start)
      modifies this`length, maze, road
      ensures Shaped() && n == old(road[length - 1]) && Value() == Opened(old(Value()))
    {
      hide Inv, PickNear, Between, InGrid, Road;
      PickedInGrid(Value(), start);
      n := PopRoad();
      Open(n);
      var m := PickNearRoad(n);
      Open(m);
      BreakWall(n, m);
      assert Value().open == old(Value()).open + {n, m, Between(n, m)};
    }

    /** Carve the maze from a start cell; the list starts empty and the grid all walls. */
    method Generate(start: Node)
      requires Shaped() && Value() == State({}, [], false) && Cell(start)
      modifies this`length, this`dropped, maze, road
      ensures Shaped() && Value().list == []
      ensures forall n :: Road(Value().open, n) ==> Connected(Value().open, start, n)
      ensures !dropped ==> forall n :: Cell(n) ==> n in Value().open
    {
      CellInGrid(start);
      Open(start);
      assert Value() == State({start}, [], false);
      var ds: Draws := *;
      PickNearRoadToList(start, ds);
      BeginInv(start, ds);
      hide Inv, Turn, OfferAll, Cell, Road, Connected, Stale, Unopened;
      while length > 0
        invariant Shaped() && Inv(Value(), start)
        decreases Unopened(Value().open), Stale(Value().list, Value().open)
      {
        ghost var was := Value();
        var n := OpenNext(start);
        ds := *;
        PickNearRoadToList(n, ds);
        UnfoldTurn(was, ds);
        TurnInv(was, start, ds);
        TurnProgress(was, start, ds);
      }
      EmptyListDone(Value(), start);
    }
  }

  lemma {:induction false} UnfoldTurn(s: State, ds: Draws)
    requires s.list != []
    ensures Turn(s, ds) == OfferAll(Opened(s), s.list[|s.list| - 1], ds)
  {
  }

  lemma {:induction false} PickedInGrid(s: State, start: Node)
    requires Inv(s, start) && s.list != []
    ensures var n := s.list[|s.list| - 1];
            var m := PickNear(s.open + {n}, n);
            InGrid(n) && InGrid(m) && InGrid(Between(n, m)) && (n.x == m.x || n.y == m.y)
  {
    hide Between, PickNear, Road;
    OpenKeeps(s, start);
    var n := s.list[|s.list| - 1];
    assert n in s.list;
    var m := PickNear(s.open + {n}, n);
    assert m in Opened(s).open && n in Opened(s).open && Between(n, m) in Opened(s).open;
    SameLine(s.open + {n}, n);
  }

  lemma {:induction false} SameLine(open: set<Node>, n: Node)
    ensures n.x == PickNear(open, n).x || n.y == PickNear(open, n).y
  {
  }

  lemma {:induction false} EmptyListDone(s: State, start: Node)
    requires Inv(s, start) && s.list == []
    ensures forall n :: Road(s.open, n) ==> Connected(s.open, start, n)
    ensures !s.dropped ==> forall n :: Cell(n) ==> n in s.open
  {
    MazeFinished(s, start, k => Draws(0, 0, 0, 0), 0);
  }
}
