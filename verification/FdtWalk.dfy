/** Sibling iteration and property lookup over a flattened devicetree. */
module FdtWalk {
  import opened Fdt

  // ---------------------------------------------------------------- next sibling

  lemma {:induction false} SiblingUnfold(mem: seq<int>, p: int, q: int, d: int, depth: int)
    requires InBlock(mem, p) && NextToken(mem, p) == Some((q, d))
    ensures SiblingAt(mem, p, depth) == if depth + d > 0 then SiblingAt(mem, q, depth + d) else Some(q)
  {
  }

  lemma {:induction false} SiblingProps(mem: seq<int>, p: int, ps: seq<Prop>, depth: int)
    requires PropsAt(mem, p, ps) && InBlock(mem, p) && 0 < depth
    ensures InBlock(mem, p + |EncProps(ps)|)
    ensures SiblingAt(mem, p, depth) == SiblingAt(mem, p + |EncProps(ps)|, depth)
    decreases |ps|
  {
    hide EncProp, Has, Word, Aligned, NextToken, SiblingAt;
    if ps != [] {
      PropsParts(mem, p, ps);
      PropStep(mem, p, ps[0]);
      SiblingUnfold(mem, p, p + |EncProp(ps[0])|, 0, depth);
      SiblingProps(mem, p + |EncProp(ps[0])|, ps[1..], depth);
    }
  }

  /** Inside some node, a whole subtree is stepped over. */
  lemma {:induction false} SiblingTree(mem: seq<int>, p: int, t: Tree, depth: int)
    requires TreeAt(mem, p, t) && InBlock(mem, p) && 0 <= depth
    ensures InBlock(mem, p + |EncTree(t)|)
    ensures SiblingAt(mem, p, depth)
         == if depth == 0 then Some(p + |EncTree(t)|) else SiblingAt(mem, p + |EncTree(t)|, depth)
    decreases t, 1
  {
    hide EncBegin, EncEnd, EncProps, EncForest, EncTree, Has, Word, CStr, NextToken, Aligned, SiblingAt;
    TreeParts(mem, p, t);
    SiblingUnfold(mem, p, PropsLoc(p, t), 1, depth);
    SiblingProps(mem, PropsLoc(p, t), t.props, depth + 1);
    SiblingForest(mem, KidsLoc(p, t), t.kids, depth + 1);
    SiblingUnfold(mem, EndLoc(p, t), p + |EncTree(t)|, -1, depth + 1);
  }

  lemma {:induction false} SiblingForest(mem: seq<int>, p: int, f: Forest, depth: int)
    requires ForestAt(mem, p, f) && InBlock(mem, p) && 0 < depth
    ensures InBlock(mem, p + |EncForest(f)|)
    ensures SiblingAt(mem, p, depth) == SiblingAt(mem, p + |EncForest(f)|, depth)
    decreases f
  {
    hide EncTree, Has, Word, Aligned, NextToken, SiblingAt;
    if f.Cons? {
      ForestParts(mem, p, f);
      SiblingTree(mem, p, f.head, depth);
      SiblingForest(mem, p + |EncTree(f.head)|, f.tail, depth);
    }
  }

  /** `fdt_next_sibling` from a node lands just past its subtree, whatever is nested in it. */
  lemma {:induction false} NextSiblingOfNode(mem: seq<int>, p: int, t: Tree)
    requires TreeAt(mem, p, t)
    ensures InBlock(mem, p) && SiblingAt(mem, p, 0) == Some(p + |EncTree(t)|)
  {
    TreeSolid(mem, p, t);
    SiblingTree(mem, p, t, 0);
  }

  // ---------------------------------------------------------------- iteration

  /** The locations a `do … while (fdt_next_sibling(loc, &loc))` loop stops at. */
  function Visit(mem: seq<int>, p: int): (r: Option<seq<int>>)
    requires InBlock(mem, p)
    ensures r.Some? ==> r.value != []
    decreases |mem| - p
  {
    match SiblingAt(mem, p, 0)
    case None => None
    case Some(q) =>
      if IsNodeEnd(Word(mem, q)) then Some([p])
      else
        match Visit(mem, q)
        case None => None
        case Some(rest) => Some([p] + rest)
  }

  function PropLocs(p: int, ps: seq<Prop>): seq<int>
    decreases |ps|
  {
    if ps == [] then [] else [p] + PropLocs(p + |EncProp(ps[0])|, ps[1..])
  }

  function KidLocs(p: int, f: Forest): seq<int>
    decreases f
  {
    match f
    case Nil => []
    case Cons(t, rest) => [p] + KidLocs(p + |EncTree(t)|, rest)
  }

  /** A list of items is followed by the end of the enclosing node. */
  predicate Closed(mem: seq<int>, p: int) {
    InBlock(mem, p) && IsNodeEnd(Word(mem, p))
  }

  lemma {:induction false} VisitUnfold(mem: seq<int>, p: int, q: int, rest: seq<int>)
    requires InBlock(mem, p) && SiblingAt(mem, p, 0) == Some(q)
    requires if IsNodeEnd(Word(mem, q)) then rest == [] else Visit(mem, q) == Some(rest)
    ensures Visit(mem, p) == Some([p] + rest)
  {
    assert [p] + [] == [p];
  }

  lemma {:induction false} VisitForest(mem: seq<int>, p: int, f: Forest)
    requires ForestAt(mem, p, f) && f.Cons? && Closed(mem, p + |EncForest(f)|)
    ensures InBlock(mem, p) && Visit(mem, p) == Some(KidLocs(p, f))
    decreases f
  {
    hide EncTree, Has, Aligned, NextToken, SiblingAt, Visit;
    ForestParts(mem, p, f);
    var q := p + |EncTree(f.head)|;
    NextSiblingOfNode(mem, p, f.head);
    if f.tail.Cons? {
      ForestParts(mem, q, f.tail);
      TreeSolid(mem, q, f.tail.head);
      VisitForest(mem, q, f.tail);
    }
    VisitUnfold(mem, p, q, KidLocs(q, f.tail));
  }

  lemma {:induction false} SiblingOfProp(mem: seq<int>, p: int, ps: seq<Prop>)
    requires PropsAt(mem, p, ps) && ps != []
    ensures InBlock(mem, p) && Word(mem, p) == PROP
    ensures SiblingAt(mem, p, 0) == Some(p + |EncProp(ps[0])|)
    ensures PropsAt(mem, p + |EncProp(ps[0])|, ps[1..]) && InBlock(mem, p + |EncProp(ps[0])|)
  {
    hide EncProp, Has, Aligned, NextToken;
    PropsParts(mem, p, ps);
    PropStep(mem, p, ps[0]);
  }

  lemma {:induction false} VisitItems(mem: seq<int>, p: int, ps: seq<Prop>, f: Forest)
    requires PropsAt(mem, p, ps) && ForestAt(mem, p + |EncProps(ps)|, f)
    requires Closed(mem, p + |EncProps(ps)| + |EncForest(f)|) && (ps != [] || f.Cons?)
    ensures InBlock(mem, p) && Visit(mem, p) == Some(PropLocs(p, ps) + KidLocs(p + |EncProps(ps)|, f))
    decreases |ps|
  {
    hide EncTree, EncProp, Has, Aligned, NextToken, SiblingAt, Visit, Word;
    if ps == [] {
      VisitForest(mem, p, f);
      assert PropLocs(p, ps) + KidLocs(p, f) == KidLocs(p, f);
    } else {
      SiblingOfProp(mem, p, ps);
      var q := p + |EncProp(ps[0])|;
      if |ps| > 1 {
        SiblingOfProp(mem, q, ps[1..]);
        VisitItems(mem, q, ps[1..], f);
      } else if f.Cons? {
        ForestParts(mem, q, f);
        TreeSolid(mem, q, f.head);
        VisitItems(mem, q, ps[1..], f);
      }
      VisitUnfold(mem, p, q, PropLocs(q, ps[1..]) + KidLocs(p + |EncProps(ps)|, f));
      assert PropLocs(p, ps) + KidLocs(p + |EncProps(ps)|, f)
          == [p] + (PropLocs(q, ps[1..]) + KidLocs(p + |EncProps(ps)|, f));
    }
  }

  /** What the iteration visits in a node that stands before the siblings `rest`. */
  function Visited(p: int, t: Tree, rest: Forest): seq<int> {
    if t.props != [] || t.kids.Cons? then PropLocs(PropsLoc(p, t), t.props) + KidLocs(KidsLoc(p, t), t.kids)
    else [EndLoc(p, t)] + KidLocs(p + |EncTree(t)|, rest)
  }

  /**
   Iterating from `fdt_descend_into` visits the properties and then the direct subnodes of
   a node, each once and in order — except in a node that has neither, where the loop
   starts at the node's own end and goes on through the siblings behind it.
   */
  lemma {:induction false} ChildrenVisited(mem: seq<int>, p: int, t: Tree, rest: Forest)
    requires TreeAt(mem, p, t)
    requires ForestAt(mem, p + |EncTree(t)|, rest) && Closed(mem, p + |EncTree(t)| + |EncForest(rest)|)
    ensures InBlock(mem, p) && Descend(mem, p) == Some(PropsLoc(p, t)) && InBlock(mem, PropsLoc(p, t))
    ensures Visit(mem, PropsLoc(p, t)) == Some(Visited(p, t, rest))
  {
    hide EncBegin, EncEnd, EncTree, Has, CStr, NextToken, Aligned, SiblingAt, Visit, Word;
    TreeParts(mem, p, t);
    if t.props != [] || t.kids.Cons? {
      VisitItems(mem, PropsLoc(p, t), t.props, t.kids);
    } else {
      VisitFromEnd(mem, p, t, rest);
    }
  }

  lemma {:induction false} VisitFromEnd(mem: seq<int>, p: int, t: Tree, rest: Forest)
    requires TreeAt(mem, p, t)
    requires ForestAt(mem, p + |EncTree(t)|, rest) && Closed(mem, p + |EncTree(t)| + |EncForest(rest)|)
    ensures InBlock(mem, EndLoc(p, t))
    ensures Visit(mem, EndLoc(p, t)) == Some([EndLoc(p, t)] + KidLocs(p + |EncTree(t)|, rest))
  {
    hide EncBegin, EncEnd, EncTree, Has, CStr, NextToken, Aligned, SiblingAt, Visit, Word;
    TreeParts(mem, p, t);
    var q := p + |EncTree(t)|;
    SiblingUnfold(mem, EndLoc(p, t), q, -1, 0);
    if rest.Cons? {
      ForestParts(mem, q, rest);
      TreeSolid(mem, q, rest.head);
      VisitForest(mem, q, rest);
    }
    VisitUnfold(mem, EndLoc(p, t), q, KidLocs(q, rest));
  }

  /** Going into something that is not a node stays where it is. */
  lemma {:induction false} DescendStays(mem: seq<int>, p: int, q: Prop)
    requires Aligned(p) && PropOk(q) && Has(mem, p, EncProp(q)) && Solid(mem, p + |EncProp(q)|)
    ensures InBlock(mem, p) && Descend(mem, p) == Some(p)
  {
    hide EncProp, Aligned, NextToken;
    PropStep(mem, p, q);
  }

  /** A root with two empty subnodes: iterating over the first visits its end and then the second. */
  lemma {:induction false} EmptyNodeWalksOut(a: Tree, b: Tree, root: Tree)
    requires a == Tree([97], 0, [], Nil, 0) && b == Tree([98], 0, [], Nil, 0)
    requires root == Tree([], 0, [], Cons(a, Cons(b, Nil)), 0)
    ensures var mem := EncBlock(0, root);
            && InBlock(mem, 8) && Descend(mem, 8) == Some(16)
            && InBlock(mem, 16) && Visit(mem, 16) == Some([16, 20])
  {
    hide EncTree, EncBegin, Has, CStr, NextToken, Aligned, SiblingAt, Visit, Word, EncBlock;
    var mem := EncBlock(0, root);
    BlockParts(0, root);
    TreeParts(mem, 0, root);
    ForestParts(mem, KidsLoc(0, root), root.kids);
    SmallNode([]);
    SmallNode([97]);
    assert KidsLoc(0, root) == 8 && |EncTree(a)| == 12;
    ForestParts(mem, 20, root.kids.tail);
    ChildrenVisited(mem, 8, a, Cons(b, Nil));
    assert KidLocs(20, Cons(b, Nil)) == [20] + KidLocs(20 + |EncTree(b)|, Nil) == [20];
    assert [16] + [20] == [16, 20];
  }

  lemma {:induction false} SmallNode(name: seq<int>)
    requires |name| < 4
    ensures |EncBegin(name, 0)| == 8 && |EncTree(Tree(name, 0, [], Nil, 0))| == 12
  {
    hide Aligned;
    assert RoundUp4(|name + [0]|) == 4;
  }

  // ---------------------------------------------------------------- property lookup

  /** The loop of `fdt_find_prop`: `None` is a bad read, `Some(None)` is "not found". */
  function FindFrom(mem: seq<int>, strs: seq<int>, p: int, name: seq<int>): Option<Option<int>>
    requires InBlock(mem, p)
    decreases |mem| - p, 1
  {
    if Word(mem, p) != PROP then FindNext(mem, strs, p, name)
    else if !InBlock(mem, p + 8) || Word(mem, p + 8) < 0 then None
    else
      match CStr(strs, Word(mem, p + 8))
      case None => None
      case Some(key) => if key == name then Some(Some(p)) else FindNext(mem, strs, p, name)
  }

  function FindNext(mem: seq<int>, strs: seq<int>, p: int, name: seq<int>): Option<Option<int>>
    requires InBlock(mem, p)
    decreases |mem| - p, 0
  {
    match SiblingAt(mem, p, 0)
    case None => None
    case Some(q) => if IsNodeEnd(Word(mem, q)) then Some(None) else FindFrom(mem, strs, q, name)
  }

  /** `fdt_find_prop` */
  method FdtFindProp(mem: seq<int>, strs: seq<int>, loc: int, name: seq<int>) returns (r: Option<Option<int>>)
    requires InBlock(mem, loc)
    ensures r == match Descend(mem, loc) case None => None case Some(q) => FindFrom(mem, strs, q, name)
  {
    var start := Descend(mem, loc);
    if start == None { return None; }
    var p := start.value;
    while true
      invariant InBlock(mem, p)
      invariant FindFrom(mem, strs, start.value, name) == FindFrom(mem, strs, p, name)
      decreases |mem| - p
    {
      if Word(mem, p) == PROP {
        if !InBlock(mem, p + 8) || Word(mem, p + 8) < 0 { return None; }
        var key := CStr(strs, Word(mem, p + 8));
        if key == None { return None; }
        if key.value == name { return Some(Some(p)); }
      }
      var q, more := FdtNextSibling(mem, p);
      if q == None { return None; }
      if !more { return Some(None); }
      p := q.value;
    }
  }

  predicate KeysOk(strs: seq<int>, ps: seq<Prop>) {
    forall i :: 0 <= i < |ps| ==> 0 <= ps[i].nameoff && CStr(strs, ps[i].nameoff).Some?
  }

  /** Where the first property of a name lies. */
  function FirstNamed(strs: seq<int>, p: int, ps: seq<Prop>, name: seq<int>): Option<int>
    requires KeysOk(strs, ps)
    decreases |ps|
  {
    if ps == [] then None
    else if CStr(strs, ps[0].nameoff) == Some(name) then Some(p)
    else FirstNamed(strs, p + |EncProp(ps[0])|, ps[1..], name)
  }

  lemma {:induction false} FindPast(mem: seq<int>, strs: seq<int>, p: int, q: int, name: seq<int>)
    requires InBlock(mem, p) && SiblingAt(mem, p, 0) == Some(q)
    requires Word(mem, p) == PROP ==>
               && InBlock(mem, p + 8) && 0 <= Word(mem, p + 8)
               && CStr(strs, Word(mem, p + 8)).Some? && CStr(strs, Word(mem, p + 8)) != Some(name)
    ensures FindFrom(mem, strs, p, name)
         == if IsNodeEnd(Word(mem, q)) then Some(None) else FindFrom(mem, strs, q, name)
  {
  }

  lemma {:induction false} FindHit(mem: seq<int>, strs: seq<int>, p: int, name: seq<int>)
    requires InBlock(mem, p) && Word(mem, p) == PROP && InBlock(mem, p + 8) && 0 <= Word(mem, p + 8)
    requires CStr(strs, Word(mem, p + 8)) == Some(name)
    ensures FindFrom(mem, strs, p, name) == Some(Some(p))
  {
  }

  lemma {:induction false} FindInForest(mem: seq<int>, strs: seq<int>, p: int, f: Forest, name: seq<int>)
    requires ForestAt(mem, p, f) && f.Cons? && Closed(mem, p + |EncForest(f)|)
    ensures InBlock(mem, p) && FindFrom(mem, strs, p, name) == Some(None)
    decreases f
  {
    hide EncTree, Has, Aligned, NextToken, SiblingAt, FindFrom;
    ForestParts(mem, p, f);
    var q := p + |EncTree(f.head)|;
    TreeSolid(mem, p, f.head);
    NextSiblingOfNode(mem, p, f.head);
    if f.tail.Cons? {
      ForestParts(mem, q, f.tail);
      TreeSolid(mem, q, f.tail.head);
      FindInForest(mem, strs, q, f.tail, name);
    }
    FindPast(mem, strs, p, q, name);
  }

  lemma {:induction false} FindInItems(mem: seq<int>, strs: seq<int>, p: int, ps: seq<Prop>, f: Forest, name: seq<int>)
    requires PropsAt(mem, p, ps) && ForestAt(mem, p + |EncProps(ps)|, f) && KeysOk(strs, ps)
    requires Closed(mem, p + |EncProps(ps)| + |EncForest(f)|) && (ps != [] || f.Cons?)
    ensures InBlock(mem, p) && FindFrom(mem, strs, p, name) == Some(FirstNamed(strs, p, ps, name))
    decreases |ps|
  {
    hide EncTree, EncProp, Has, Aligned, NextToken, SiblingAt, FindFrom, CStr, Word;
    if ps == [] {
      FindInForest(mem, strs, p, f, name);
    } else {
      SiblingOfProp(mem, p, ps);
      PropKey(mem, p, ps);
      var q := p + |EncProp(ps[0])|;
      if |ps| > 1 {
        SiblingOfProp(mem, q, ps[1..]);
        FindInItems(mem, strs, q, ps[1..], f, name);
      } else if f.Cons? {
        ForestParts(mem, q, f);
        TreeSolid(mem, q, f.head);
        FindInItems(mem, strs, q, ps[1..], f, name);
      }
      if CStr(strs, ps[0].nameoff) == Some(name) {
        FindHit(mem, strs, p, name);
      } else {
        FindPast(mem, strs, p, q, name);
      }
    }
  }

  lemma {:induction false} PropKey(mem: seq<int>, p: int, ps: seq<Prop>)
    requires PropsAt(mem, p, ps) && ps != []
    ensures InBlock(mem, p + 8) && Word(mem, p + 8) == ps[0].nameoff
  {
    hide EncProp, Has, Aligned, NextToken;
    PropsParts(mem, p, ps);
    PropStep(mem, p, ps[0]);
  }

  /**
   `fdt_find_prop` on any node of a block returns the first direct property of the name, or
   "not found" if the node itself has none.  The properties of subnodes never match, and
   neither does anything behind an empty node.
   */
  lemma {:induction false} FindPropExact(mem: seq<int>, strs: seq<int>, p: int, t: Tree, rest: Forest, name: seq<int>)
    requires TreeAt(mem, p, t) && KeysOk(strs, t.props)
    requires ForestAt(mem, p + |EncTree(t)|, rest) && Closed(mem, p + |EncTree(t)| + |EncForest(rest)|)
    ensures InBlock(mem, p) && Descend(mem, p) == Some(PropsLoc(p, t)) && InBlock(mem, PropsLoc(p, t))
    ensures FindFrom(mem, strs, PropsLoc(p, t), name) == Some(FirstNamed(strs, PropsLoc(p, t), t.props, name))
  {
    hide EncBegin, EncEnd, EncTree, Has, CStr, Aligned, NextToken, SiblingAt, FindFrom, Word, Visit;
    ChildrenVisited(mem, p, t, rest);
    TreeParts(mem, p, t);
    if t.props != [] || t.kids.Cons? {
      FindInItems(mem, strs, PropsLoc(p, t), t.props, t.kids, name);
    } else {
      var q := p + |EncTree(t)|;
      SiblingUnfold(mem, EndLoc(p, t), q, -1, 0);
      if rest.Cons? {
        ForestParts(mem, q, rest);
        TreeSolid(mem, q, rest.head);
        FindInForest(mem, strs, q, rest, name);
      }
      FindPast(mem, strs, EndLoc(p, t), q, name);
    }
  }
}
