/**
 The maze generator of usr/maze.c: a randomised worklist over the cells with odd coordinates.
 The grid is the set of its open positions here; module MazeGrid has the arrays.
 */
module Maze {
  const WIDTH := 79
  const HEIGHT := 25
  const CAP := 1000

  datatype Node = Node(x: int, y: int)

  /** `dropped`: some insertion found the list full. */
  datatype State = State(open: set<Node>, list: seq<Node>, dropped: bool)

  predicate InGrid(n: Node) { 0 <= n.x < WIDTH && 0 <= n.y < HEIGHT }

  /** A position that becomes a room of the maze. */
  predicate Cell(n: Node) {
    0 < n.x < WIDTH - 1 && 0 < n.y < HEIGHT - 1 && n.x % 2 == 1 && n.y % 2 == 1
  }

  // ---------------------------------------------------------------- the start cell

  /**
   The start cell from two draws.  The halving of the width is applied to the macro as it
   expands, so the bound for `x` is 80.
   */
  function StartNode(x: nat, y: nat): Node
    requires x < WIDTH && y < HEIGHT
  {
    if Cell(Node(x, y)) then Node(x, y)
    else
      Node(if x % 2 == 0 then if x <= 80 then x + 1 else x - 1 else x,
           if y % 2 == 0 then if y <= 12 then y + 1 else y - 1 else y)
  }

  /** Odd coordinates are kept; an even column moves right, an even row towards the middle. */
  lemma {:induction false} StartNear(x: nat, y: nat)
    requires x < WIDTH && y < HEIGHT
    ensures StartNode(x, y).x == if x % 2 == 1 then x else x + 1
    ensures StartNode(x, y).y == if y % 2 == 1 then y else if y < 13 then y + 1 else y - 1
  {
  }

  /** The start is a cell unless the draw is the last column. */
  lemma {:induction false} StartIsCellIff(x: nat, y: nat)
    requires x < WIDTH && y < HEIGHT
    ensures Cell(StartNode(x, y)) <==> x != WIDTH - 1
  {
    assert x % 2 == 0 ==> (x + 1) % 2 == 1;
  }

  /** From the last column the start lands one column outside the grid. */
  lemma {:induction false} LastColumnLeaves(y: nat)
    requires y < HEIGHT
    ensures StartNode(78, y).x == 79 && !InGrid(StartNode(78, y))
  {
  }

  // ---------------------------------------------------------------- one turn of the worklist

  datatype Direction = Up | Right | Down | Left

  function Near(n: Node, d: Direction): Node {
    match d
    case Up => Node(n.x, n.y - 2)
    case Right => Node(n.x + 2, n.y)
    case Down => Node(n.x, n.y + 2)
    case Left => Node(n.x - 2, n.y)
  }

  /** A random number below `max`, or zero. */
  function Rand(draw: nat, max: nat): (r: nat)
    ensures if max == 0 then r == 0 else r < max
  {
    if max == 0 then 0 else draw % max
  }

  /** Insert at a position drawn at random; the first entry goes to the front. */
  function Insert(s: State, n: Node, draw: nat): State {
    if |s.list| >= CAP then s.(dropped := true)
    else
      var r := Rand(draw, |s.list|);
      s.(list := s.list[..r] + [n] + s.list[r..])
  }

  /** Every position of the list can be drawn. */
  lemma {:induction false} RandReaches(max: nat, r: nat)
    requires r < max
    ensures exists draw :: Rand(draw, max) == r
  {
    assert Rand(r, max) == r;
  }

  /** The new entry joins the others wherever the draw says; only a full list turns it away. */
  lemma {:induction false} InsertExact(s: State, n: Node, draw: nat)
    ensures var r := Insert(s, n, draw);
            && r.open == s.open && (r.dropped <==> s.dropped || |s.list| >= CAP)
            && multiset(r.list) == (if |s.list| >= CAP then multiset(s.list) else multiset(s.list) + multiset{n})
            && (0 < |s.list| < CAP ==> r.list[draw % |s.list|] == n)
            && (|s.list| < CAP ==> |r.list| == |s.list| + 1)
  {
    if |s.list| < CAP {
      var i := Rand(draw, |s.list|);
      assert s.list == s.list[..i] + s.list[i..];
    }
  }

  function Offer(s: State, n: Node, draw: nat): State {
    if Cell(n) && n !in s.open then Insert(s, n, draw) else s
  }

  datatype Draws = Draws(up: nat, right: nat, down: nat, left: nat)

  function OfferAll(s: State, n: Node, ds: Draws): State {
    var s1 := Offer(s, Near(n, Up), ds.up);
    var s2 := Offer(s1, Near(n, Right), ds.right);
    var s3 := Offer(s2, Near(n, Down), ds.down);
    Offer(s3, Near(n, Left), ds.left)
  }

  predicate Road(open: set<Node>, n: Node) { Cell(n) && n in open }

  /** The first road next to `n`; when there is none, the last position looked at. */
  function PickNear(open: set<Node>, n: Node): Node {
    if Road(open, Near(n, Up)) then Near(n, Up)
    else if Road(open, Near(n, Left)) then Near(n, Left)
    else if Road(open, Near(n, Down)) then Near(n, Down)
    else Near(n, Right)
  }

  /** The wall position two neighbouring cells share. */
  function Between(a: Node, b: Node): Node {
    if a.x == b.x then Node(a.x, (a.y + b.y + 1) / 2) else Node((a.x + b.x + 1) / 2, a.y)
  }

  /** Take the last entry, open it, and break the wall to a road next to it. */
  function Opened(s: State): State
    requires s.list != []
  {
    var n := s.list[|s.list| - 1];
    var m := PickNear(s.open + {n}, n);
    State(s.open + {n, m, Between(n, m)}, s.list[..|s.list| - 1], s.dropped)
  }

  function Turn(s: State, ds: Draws): State
    requires s.list != []
  {
    OfferAll(Opened(s), s.list[|s.list| - 1], ds)
  }

  // ---------------------------------------------------------------- what every turn keeps

  /** Two roads with the wall between them broken. */
  predicate Link(open: set<Node>, a: Node, b: Node) {
    Road(open, a) && Road(open, b) && (exists d :: b == Near(a, d)) && Between(a, b) in open
  }

  ghost predicate IsPath(open: set<Node>, p: seq<Node>, a: Node, b: Node) {
    && p != [] && p[0] == a && p[|p| - 1] == b
    && forall k :: 0 < k < |p| ==> Link(open, p[k - 1], p[k])
  }

  ghost predicate Connected(open: set<Node>, a: Node, b: Node) { exists p :: IsPath(open, p, a, b) }

  predicate HasRoad(open: set<Node>, n: Node) { exists d :: Road(open, Near(n, d)) }

  /** Every neighbour of a road is a road or waiting in the list. */
  predicate Fringe(s: State, a: Node) {
    forall d :: Cell(Near(a, d)) ==> Near(a, d) in s.open || Near(a, d) in s.list
  }

  ghost predicate Inv(s: State, start: Node) {
    && Road(s.open, start) && |s.list| <= CAP
    && (forall n :: n in s.open ==> InGrid(n))
    && (forall n :: n in s.list ==> Cell(n) && HasRoad(s.open, n))
    && (forall n :: Road(s.open, n) ==> Connected(s.open, start, n))
    && (!s.dropped ==> forall n :: Road(s.open, n) ==> Fringe(s, n))
  }

  lemma {:induction false} OfferShape(s: State, n: Node, draw: nat)
    requires |s.list| <= CAP
    ensures var r := Offer(s, n, draw);
            && r.open == s.open && |r.list| <= CAP && (s.dropped ==> r.dropped)
            && (forall m :: m in s.list ==> m in r.list)
            && (forall m :: m in r.list ==> m in s.list || (m == n && Cell(n) && n !in s.open))
            && (!r.dropped && Cell(n) ==> n in s.open || n in r.list)
  {
  }

  lemma {:induction false} OfferAllShape(s: State, n: Node, ds: Draws)
    requires |s.list| <= CAP
    ensures var r := OfferAll(s, n, ds);
            && r.open == s.open && |r.list| <= CAP && (s.dropped ==> r.dropped)
            && (forall m :: m in s.list ==> m in r.list)
            && (forall m :: m in r.list ==> m in s.list || (m !in s.open && Cell(m) && exists d :: m == Near(n, d)))
            && (!r.dropped ==> Fringe(r, n))
  {
    hide Offer, Cell;
    var s1 := Offer(s, Near(n, Up), ds.up);
    OfferShape(s, Near(n, Up), ds.up);
    var s2 := Offer(s1, Near(n, Right), ds.right);
    OfferShape(s1, Near(n, Right), ds.right);
    var s3 := Offer(s2, Near(n, Down), ds.down);
    OfferShape(s2, Near(n, Down), ds.down);
    OfferShape(s3, Near(n, Left), ds.left);
  }

  lemma {:induction false} OfferRoom(s: State, n: Node, draw: nat)
    requires |s.list| < CAP
    ensures Offer(s, n, draw).dropped == s.dropped && |Offer(s, n, draw).list| <= |s.list| + 1
  {
    InsertExact(s, n, draw);
  }

  /** A turn drops nothing as long as the list is three short of full. */
  lemma {:induction false} TurnRoom(s: State, ds: Draws)
    requires s.list != [] && |s.list| + 3 <= CAP
    ensures Turn(s, ds).dropped == s.dropped && |Turn(s, ds).list| <= |s.list| + 3
  {
    hide Offer, PickNear, Between;
    var n, s0 := s.list[|s.list| - 1], Opened(s);
    var s1 := Offer(s0, Near(n, Up), ds.up);
    OfferRoom(s0, Near(n, Up), ds.up);
    var s2 := Offer(s1, Near(n, Right), ds.right);
    OfferRoom(s1, Near(n, Right), ds.right);
    var s3 := Offer(s2, Near(n, Down), ds.down);
    OfferRoom(s2, Near(n, Down), ds.down);
    OfferRoom(s3, Near(n, Left), ds.left);
  }

  function Opposite(d: Direction): Direction {
    match d
    case Up => Down
    case Right => Left
    case Down => Up
    case Left => Right
  }

  /** The wall between two neighbours lies half way, whichever is named first. */
  lemma {:induction false} BetweenNear(n: Node, d: Direction)
    ensures Near(Near(n, d), Opposite(d)) == n && Between(Near(n, d), n) == Between(n, Near(n, d))
    ensures Between(n, Near(n, d)) == (match d
                                       case Up => Node(n.x, n.y - 1)
                                       case Right => Node(n.x + 1, n.y)
                                       case Down => Node(n.x, n.y + 1)
                                       case Left => Node(n.x - 1, n.y))
  {
  }

  lemma {:induction false} WallNear(n: Node, d: Direction)
    requires Cell(n) && Cell(Near(n, d))
    ensures !Cell(Between(n, Near(n, d))) && InGrid(Between(n, Near(n, d)))
  {
  }

  lemma {:induction false} PickedIsRoad(open: set<Node>, n: Node) returns (d: Direction)
    requires HasRoad(open, n)
    ensures PickNear(open, n) == Near(n, d) && Road(open, Near(n, d))
  {
    hide Cell;
    d :| Road(open, Near(n, d));
    if Road(open, Near(n, Up)) {
      d := Up;
    } else if Road(open, Near(n, Left)) {
      d := Left;
    } else if Road(open, Near(n, Down)) {
      d := Down;
    }
  }

  lemma {:induction false} PathGrows(open: set<Node>, more: set<Node>, p: seq<Node>, a: Node, b: Node)
    requires open <= more && IsPath(open, p, a, b)
    ensures IsPath(more, p, a, b)
  {
  }

  lemma {:induction false} ConnectNext(open: set<Node>, a: Node, b: Node, c: Node)
    requires Connected(open, a, b) && Link(open, b, c)
    ensures Connected(open, a, c)
  {
    var p :| IsPath(open, p, a, b);
    var q := p + [c];
    forall k | 0 < k < |q| ensures Link(open, q[k - 1], q[k]) {
      if k < |p| {
        assert Link(open, p[k - 1], p[k]);
      }
    }
    assert IsPath(open, q, a, c);
  }

  /** What opening a cell and the wall to its neighbour does to the roads. */
  lemma {:induction false} OpenKeeps(s: State, start: Node)
    requires Inv(s, start) && s.list != []
    ensures var n, open := s.list[|s.list| - 1], Opened(s).open;
            && s.open <= open && Road(open, n)
            && (forall c :: Road(open, c) <==> Road(s.open, c) || c == n)
            && (forall c :: c in open ==> InGrid(c))
            && (forall c :: Road(open, c) ==> Connected(open, start, c))
  {
    hide Cell, Between, IsPath, Fringe, InGrid;
    var n := s.list[|s.list| - 1];
    assert n in s.list;
    var d0 :| Road(s.open, Near(n, d0));
    assert Road(s.open + {n}, Near(n, d0));
    var d := PickedIsRoad(s.open + {n}, n);
    var m := Near(n, d);
    WallNear(n, d);
    BetweenNear(n, d);
    NotSelf(n, d);
    var open := s.open + {n, m, Between(n, m)};
    CellInGrid(n);
    assert Road(s.open, m);
    forall c | Road(open, c) ensures Connected(open, start, c) {
      var b := if c != n || n in s.open then c else m;
      assert Road(s.open, b);
      var p :| IsPath(s.open, p, start, b);
      PathGrows(s.open, open, p, start, b);
      if b != c {
        assert n == Near(m, Opposite(d));
        assert Link(open, m, n);
        ConnectNext(open, start, m, n);
      }
    }
  }

  lemma {:induction false} NotSelf(n: Node, d: Direction)
    ensures Near(n, d) != n
  {
  }

  lemma {:induction false} CellInGrid(n: Node)
    requires Cell(n)
    ensures InGrid(n)
  {
  }

  /** One turn keeps every road connected to the start, and every frontier cell in the list unless one was dropped. */
  lemma {:induction false} TurnInv(s: State, start: Node, ds: Draws)
    requires Inv(s, start) && s.list != []
    ensures Inv(Turn(s, ds), start)
  {
    hide Cell, Connected, OfferAll, InGrid, Between, PickNear, HasRoad, Fringe;
    OpenKeeps(s, start);
    var n, s1, r := s.list[|s.list| - 1], Opened(s), Turn(s, ds);
    OfferAllShape(s1, n, ds);
    forall c | c in r.list ensures Cell(c) && HasRoad(r.open, c) {
      ListedHasRoad(s, s1, n, c);
    }
    forall c | !r.dropped && Road(r.open, c) ensures Fringe(r, c) {
      FringeKept(s, r, n, c);
    }
  }

  lemma {:induction false} ListedHasRoad(s: State, s1: State, n: Node, c: Node)
    requires s.open <= s1.open && Road(s1.open, n)
    requires (c in s.list && Cell(c) && HasRoad(s.open, c)) || (Cell(c) && exists d :: c == Near(n, d))
    ensures Cell(c) && HasRoad(s1.open, c)
  {
    hide Cell;
    if c in s.list && HasRoad(s.open, c) {
      var d :| Road(s.open, Near(c, d));
      assert Road(s1.open, Near(c, d));
    } else {
      var d :| c == Near(n, d);
      BetweenNear(n, d);
      assert Road(s1.open, Near(c, Opposite(d)));
    }
  }

  lemma {:induction false} FringeKept(s: State, r: State, n: Node, c: Node)
    requires c == n ==> Fringe(r, n)
    requires c != n ==> Fringe(s, c)
    requires s.open <= r.open && n in r.open && (forall m :: m in s.list ==> m == n || m in r.list)
    ensures Fringe(r, c)
  {
  }

  // ---------------------------------------------------------------- termination

  ghost function Unopened(open: set<Node>): set<Node> {
    set x, y | 0 < x < WIDTH - 1 && 0 < y < HEIGHT - 1 && Cell(Node(x, y)) && Node(x, y) !in open :: Node(x, y)
  }

  /** How many list entries are roads already. */
  function Stale(list: seq<Node>, open: set<Node>): nat {
    if list == [] then 0 else (if list[|list| - 1] in open then 1 else 0) + Stale(list[..|list| - 1], open)
  }

  lemma {:induction false} StaleJoin(a: seq<Node>, b: seq<Node>, open: set<Node>)
    ensures Stale(a + b, open) == Stale(a, open) + Stale(b, open)
  {
    if b == [] {
      assert a + b == a;
    } else {
      assert (a + b)[..|a + b| - 1] == a + b[..|b| - 1];
      StaleJoin(a, b[..|b| - 1], open);
    }
  }

  lemma {:induction false} OfferStale(s: State, n: Node, draw: nat)
    ensures Stale(Offer(s, n, draw).list, s.open) == Stale(s.list, s.open)
  {
    if Cell(n) && n !in s.open && |s.list| < CAP {
      var r := Rand(draw, |s.list|);
      var a, b := s.list[..r], s.list[r..];
      assert s.list == a + b;
      StaleJoin(a, b, s.open);
      StaleJoin(a + [n], b, s.open);
      StaleJoin(a, [n], s.open);
      assert [n][..0] == [];
    }
  }

  lemma {:induction false} OfferAllStale(s: State, n: Node, ds: Draws)
    ensures Stale(OfferAll(s, n, ds).list, s.open) == Stale(s.list, s.open) && OfferAll(s, n, ds).open == s.open
  {
    hide Cell, Stale;
    var s1 := Offer(s, Near(n, Up), ds.up);
    OfferStale(s, Near(n, Up), ds.up);
    var s2 := Offer(s1, Near(n, Right), ds.right);
    OfferStale(s1, Near(n, Right), ds.right);
    var s3 := Offer(s2, Near(n, Down), ds.down);
    OfferStale(s2, Near(n, Down), ds.down);
    OfferStale(s3, Near(n, Left), ds.left);
  }

  /** A turn opens a new cell, or uses up an entry that was a road already. */
  lemma {:induction false} TurnProgress(s: State, start: Node, ds: Draws)
    requires Inv(s, start) && s.list != []
    ensures var r := Turn(s, ds);
            || Unopened(r.open) < Unopened(s.open)
            || (Unopened(r.open) == Unopened(s.open) && Stale(r.list, r.open) < Stale(s.list, s.open))
  {
    hide Cell, OfferAll, PickNear, Between, Connected, InGrid, HasRoad, Fringe;
    OpenKeeps(s, start);
    var n := s.list[|s.list| - 1];
    OfferAllStale(Opened(s), n, ds);
    UnopenedIs(s.open, n);
    if n in s.open {
      assert Unopened(Opened(s).open) == Unopened(s.open) by {
        SameRoads(s.open, Opened(s).open);
      }
      StaleSame(s.list[..|s.list| - 1], s.open, Opened(s).open);
    } else {
      MoreRoads(s.open, Opened(s).open, n);
    }
  }

  lemma {:induction false} UnopenedIs(open: set<Node>, n: Node)
    ensures n in Unopened(open) <==> Cell(n) && n !in open
  {
  }

  lemma {:induction false} SameRoads(a: set<Node>, b: set<Node>)
    requires forall c :: Road(b, c) <==> Road(a, c)
    ensures Unopened(b) == Unopened(a)
  {
    hide Cell;
    forall c ensures c in Unopened(b) <==> c in Unopened(a) {
      UnopenedIs(a, c);
      UnopenedIs(b, c);
      assert Road(b, c) <==> Road(a, c);
    }
  }

  lemma {:induction false} MoreRoads(a: set<Node>, b: set<Node>, n: Node)
    requires Cell(n) && n !in a && n in b && a <= b
    ensures Unopened(b) < Unopened(a)
  {
    hide Cell;
    forall c | c in Unopened(b) ensures c in Unopened(a) && c != n {
      UnopenedIs(a, c);
      UnopenedIs(b, c);
    }
    UnopenedIs(a, n);
    UnopenedIs(b, n);
  }

  lemma {:induction false} StaleSame(list: seq<Node>, a: set<Node>, b: set<Node>)
    requires forall n :: n in list ==> Cell(n)
    requires forall c :: Road(b, c) <==> Road(a, c)
    ensures Stale(list, b) == Stale(list, a)
  {
    hide Cell;
    if list != [] {
      var n := list[|list| - 1];
      assert n in list;
      assert Road(b, n) <==> Road(a, n);
      StaleSame(list[..|list| - 1], a, b);
    }
  }

  // ---------------------------------------------------------------- the finished maze

  function Begin(start: Node, ds: Draws): State { OfferAll(State({start}, [], false), start, ds) }

  lemma {:induction false} BeginInv(start: Node, ds: Draws)
    requires Cell(start)
    ensures Inv(Begin(start, ds), start)
  {
    hide Cell, OfferAll, InGrid;
    var s := State({start}, [], false);
    OfferAllShape(s, start, ds);
    CellInGrid(start);
    assert IsPath(s.open, [start], start, start);
    forall c | c in Begin(start, ds).list ensures Cell(c) && HasRoad(s.open, c) {
      ListedHasRoad(s, s, start, c);
    }
  }

  /** Run the worklist dry, turn `k` taking its random numbers from `rnd(k)`. */
  ghost function Finish(s: State, start: Node, rnd: nat -> Draws, k: nat): State
    requires Inv(s, start)
    decreases Unopened(s.open), Stale(s.list, s.open)
  {
    if s.list == [] then s
    else
      TurnInv(s, start, rnd(k));
      TurnProgress(s, start, rnd(k));
      Finish(Turn(s, rnd(k)), start, rnd, k + 1)
  }

  ghost predicate Closed(open: set<Node>) {
    forall a, d :: Road(open, a) && Cell(Near(a, d)) ==> Near(a, d) in open
  }

  /** From an open cell one gets to every cell, two positions at a time. */
  lemma {:induction false} AllOpen(open: set<Node>, a: Node, b: Node)
    requires Closed(open) && Road(open, a) && Cell(b)
    ensures b in open
    decreases (if a.x < b.x then b.x - a.x else a.x - b.x) + if a.y < b.y then b.y - a.y else a.y - b.y
  {
    if a != b {
      var d := if a.x < b.x then Right else if a.x > b.x then Left else if a.y < b.y then Down else Up;
      StepTowards(a, b, d);
      AllOpen(open, Near(a, d), b);
    }
  }

  lemma {:induction false} StepTowards(a: Node, b: Node, d: Direction)
    requires Cell(a) && Cell(b) && a != b
    requires d == if a.x < b.x then Right else if a.x > b.x then Left else if a.y < b.y then Down else Up
    ensures Cell(Near(a, d))
    ensures d == Right ==> a.x + 2 <= b.x
    ensures d == Left ==> b.x <= a.x - 2
    ensures d == Down ==> a.y + 2 <= b.y
    ensures d == Up ==> b.y <= a.y - 2
  {
  }

  /**
   From any cell and for any random numbers the worklist runs dry.  Then all roads are
   connected to the start through broken walls, and unless an insertion was dropped every
   cell is a road.
   */
  lemma {:induction false} MazeFinished(s: State, start: Node, rnd: nat -> Draws, k: nat)
    requires Inv(s, start)
    ensures var r := Finish(s, start, rnd, k);
            && r.list == []
            && (forall n :: Road(r.open, n) ==> Connected(r.open, start, n))
            && (!r.dropped ==> forall n :: Cell(n) ==> n in r.open)
    decreases Unopened(s.open), Stale(s.list, s.open)
  {
    hide Cell, Turn, Stale, Unopened, Connected;
    if s.list == [] {
      if !s.dropped {
        assert forall n :: Road(s.open, n) ==> Fringe(s, n);
        assert Closed(s.open);
        forall n | Cell(n) ensures n in s.open {
          AllOpen(s.open, start, n);
        }
      }
    } else {
      TurnInv(s, start, rnd(k));
      TurnProgress(s, start, rnd(k));
      MazeFinished(Turn(s, rnd(k)), start, rnd, k + 1);
    }
  }

  lemma {:induction false} GenerateMaze(start: Node, first: Draws, rnd: nat -> Draws)
    requires Cell(start)
    ensures Inv(Begin(start, first), start)
    ensures var r := Finish(Begin(start, first), start, rnd, 0);
            && r.list == []
            && (forall n :: Road(r.open, n) ==> Connected(r.open, start, n))
            && (!r.dropped ==> forall n :: Cell(n) ==> n in r.open)
  {
    hide Cell, Begin, Connected, Inv;
    BeginInv(start, first);
    MazeFinished(Begin(start, first), start, rnd, 0);
  }
}
