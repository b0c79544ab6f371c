/**
 What the nodes rebuilt by `dt_load` are, node by node, in terms of the tree that was flattened:
 whose child each one is, its properties, and where each of its cell counts comes from.
 */
module DtNodes {
  import opened Fdt
  import opened DtLoad

  /** The nodes of a tree, each before its subnodes. */
  function Flat(t: Tree): (r: seq<Tree>)
    ensures |r| > 0
  {
    [t] + FlatForest(t.kids)
  }

  function FlatForest(f: Forest): seq<Tree> {
    match f
    case Nil => []
    case Cons(t, rest) => Flat(t) + FlatForest(rest)
  }

  predicate KidOf(t: Tree, f: Forest) {
    f.Cons? && (f.head == t || KidOf(t, f.tail))
  }

  /** The characters of a key are those of `s`. */
  predicate Spells(key: seq<int>, s: string) {
    |key| == |s| && forall i :: 0 <= i < |s| ==> key[i] == s[i] as int
  }

  predicate Named(strs: seq<int>, ps: seq<Prop>, i: int, s: string)
    requires PropsMeaningful(strs, ps) && 0 <= i < |ps|
  {
    Spells(CStr(strs, ps[i].nameoff).value, s)
  }

  /** `n` is what the last property called `s` says in the low byte of its first word, or else `inherited`. */
  ghost predicate LastSays(strs: seq<int>, ps: seq<Prop>, s: string, inherited: int, n: int)
    requires PropsMeaningful(strs, ps)
  {
    || (n == inherited && forall i :: 0 <= i < |ps| ==> !Named(strs, ps, i, s))
    || exists i :: && 0 <= i < |ps| && Named(strs, ps, i, s) && |ps[i].value| >= 4 && n == ps[i].value[3] % 256
                   && forall j :: i < j < |ps| ==> !Named(strs, ps, j, s)
  }

  ghost predicate CellsSay(strs: seq<int>, ps: seq<Prop>, inherited: Cells, c: Cells)
    requires PropsMeaningful(strs, ps)
  {
    && LastSays(strs, ps, "#address-cells", inherited.addr, c.addr)
    && LastSays(strs, ps, "#size-cells", inherited.size, c.size)
    && LastSays(strs, ps, "#interrupt-cells", inherited.intr, c.intr)
  }

  lemma {:induction false} SpellsAscii(key: seq<int>, s: string)
    ensures key == Ascii(s) <==> Spells(key, s)
  {
  }

  lemma {:induction false} LowByte(v: seq<int>)
    requires |v| >= 4
    ensures BigEndian(v[..4]) % 256 == v[3] % 256
  {
    assert v[..4][..3] == v[..3];
    assert v[..4][3] == v[3];
  }

  /** One property sets the count it is called after, and no other. */
  lemma {:induction false} OneCount(key: seq<int>, count: int, c: Cells)
    ensures SetCells(key, count, c).addr == if Spells(key, "#address-cells") then count % 256 else c.addr
    ensures SetCells(key, count, c).size == if Spells(key, "#size-cells") then count % 256 else c.size
    ensures SetCells(key, count, c).intr == if Spells(key, "#interrupt-cells") then count % 256 else c.intr
    ensures IsCellKey(key)
       <==> Spells(key, "#address-cells") || Spells(key, "#size-cells") || Spells(key, "#interrupt-cells")
  {
    hide Ascii, Spells;
    SpellsAscii(key, "#address-cells");
    SpellsAscii(key, "#size-cells");
    SpellsAscii(key, "#interrupt-cells");
    Ascii3();
  }

  lemma {:induction false} Ascii3()
    ensures |Ascii("#address-cells")| == 14 && |Ascii("#size-cells")| == 11 && |Ascii("#interrupt-cells")| == 16
  {
  }

  /** If the first property says `mid` over `inherited` and the rest say `n` over `mid`, all of them say `n`. */
  lemma {:induction false} LastSaysMore(strs: seq<int>, ps: seq<Prop>, s: string, inherited: int, mid: int, n: int)
    requires ps != [] && PropsMeaningful(strs, ps) && PropsMeaningful(strs, ps[1..])
    requires Named(strs, ps, 0, s) ==> |ps[0].value| >= 4
    requires mid == if Named(strs, ps, 0, s) then ps[0].value[3] % 256 else inherited
    requires LastSays(strs, ps[1..], s, mid, n)
    ensures LastSays(strs, ps, s, inherited, n)
  {
    hide Spells, CStr, PropsMeaningful;
    assert forall i :: 1 <= i < |ps| ==> ps[i] == ps[1..][i - 1];
    assert forall i :: 1 <= i < |ps| ==> Named(strs, ps, i, s) == Named(strs, ps[1..], i - 1, s);
    if forall i :: 0 <= i < |ps[1..]| ==> !Named(strs, ps[1..], i, s) {
      assert forall j :: 0 < j < |ps| ==> !Named(strs, ps, j, s);
    } else {
      var i :| && 0 <= i < |ps[1..]| && Named(strs, ps[1..], i, s) && |ps[1..][i].value| >= 4
               && n == ps[1..][i].value[3] % 256 && forall j :: i < j < |ps[1..]| ==> !Named(strs, ps[1..], j, s);
      assert Named(strs, ps, i + 1, s) && n == ps[i + 1].value[3] % 256;
      assert forall j :: i + 1 < j < |ps| ==> !Named(strs, ps, j, s);
    }
  }

  /** Keys and values of the properties, in order. */
  ghost predicate SameProps(strs: seq<int>, kept: seq<(seq<int>, seq<int>)>, ps: seq<Prop>)
    requires PropsMeaningful(strs, ps)
  {
    && |kept| == |ps|
    && forall i :: 0 <= i < |ps| ==> kept[i] == (CStr(strs, ps[i].nameoff).value, ps[i].value)
  }

  /** The properties of a node, applied in order: what they say is what the last of each name says. */
  lemma {:induction false} PropsSay(strs: seq<int>, node: Dtn, ps: seq<Prop>)
    requires PropsMeaningful(strs, ps)
    ensures var r := WithProps(strs, node, ps);
            && r.name == node.name && r.parent == node.parent
            && |r.props| == |node.props| + |ps| && r.props[..|node.props|] == node.props
            && SameProps(strs, r.props[|node.props|..], ps)
            && CellsSay(strs, ps, node.cells, r.cells)
    decreases |ps|
  {
    hide CStr, SetCells, BigEndian, Spells, IsCellKey;
    if ps != [] {
      var key := CStr(strs, ps[0].nameoff).value;
      var count := if IsCellKey(key) then BigEndian(ps[0].value[..4]) else 0;
      var node' := node.(cells := SetCells(key, count, node.cells), props := node.props + [(key, ps[0].value)]);
      PropsSay(strs, node', ps[1..]);
      var r := WithProps(strs, node, ps);
      assert r == WithProps(strs, node', ps[1..]);
      PropsKept(strs, node.props, (key, ps[0].value), r.props, ps);
      OneCount(key, count, node.cells);
      if IsCellKey(key) { LowByte(ps[0].value); }
      CellsSayMore(strs, ps, node.cells, node'.cells, r.cells);
    }
  }

  lemma {:induction false} PropsKept(strs: seq<int>, kept: seq<(seq<int>, seq<int>)>, p: (seq<int>, seq<int>),
                                     all: seq<(seq<int>, seq<int>)>, ps: seq<Prop>)
    requires ps != [] && PropsMeaningful(strs, ps) && PropsMeaningful(strs, ps[1..])
    requires p == (CStr(strs, ps[0].nameoff).value, ps[0].value)
    requires |all| >= |kept| + 1 && all[..|kept| + 1] == kept + [p] && SameProps(strs, all[|kept| + 1..], ps[1..])
    ensures |all| == |kept| + |ps| && all[..|kept|] == kept && SameProps(strs, all[|kept|..], ps)
  {
    hide CStr;
    assert all[|kept|] == all[..|kept| + 1][|kept|] == p;
    assert all[..|kept|] == all[..|kept| + 1][..|kept|] == kept;
    forall i | 0 <= i < |ps| ensures all[|kept|..][i] == (CStr(strs, ps[i].nameoff).value, ps[i].value) {
      if i > 0 {
        assert all[|kept| + 1..][i - 1] == (CStr(strs, ps[1..][i - 1].nameoff).value, ps[1..][i - 1].value);
      }
    }
  }

  lemma {:induction false} CellsSayMore(strs: seq<int>, ps: seq<Prop>, c: Cells, mid: Cells, r: Cells)
    requires ps != [] && PropsMeaningful(strs, ps) && PropsMeaningful(strs, ps[1..])
    requires (|| Named(strs, ps, 0, "#address-cells") || Named(strs, ps, 0, "#size-cells")
              || Named(strs, ps, 0, "#interrupt-cells")) ==> |ps[0].value| >= 4
    requires mid.addr == if Named(strs, ps, 0, "#address-cells") then ps[0].value[3] % 256 else c.addr
    requires mid.size == if Named(strs, ps, 0, "#size-cells") then ps[0].value[3] % 256 else c.size
    requires mid.intr == if Named(strs, ps, 0, "#interrupt-cells") then ps[0].value[3] % 256 else c.intr
    requires CellsSay(strs, ps[1..], mid, r)
    ensures CellsSay(strs, ps, c, r)
  {
    hide CStr, LastSays, PropsMeaningful, Spells;
    LastSaysMore(strs, ps, "#address-cells", c.addr, mid.addr, r.addr);
    LastSaysMore(strs, ps, "#size-cells", c.size, mid.size, r.size);
    LastSaysMore(strs, ps, "#interrupt-cells", c.intr, mid.intr, r.intr);
  }

  // ---------------------------------------------------------------- the whole tree

  /** Node `i` carries name and properties of its tree node, over the cell counts `inherited`. */
  ghost predicate Carries(strs: seq<int>, node: Dtn, t: Tree, inherited: Cells) {
    && node.name == t.name
    && PropsMeaningful(strs, t.props)
    && SameProps(strs, node.props, t.props)
    && CellsSay(strs, t.props, inherited, node.cells)
  }

  /** Node `i` of a list that starts at index `base` hangs under an earlier node of that list, as in the tree. */
  ghost predicate Hangs(strs: seq<int>, r: seq<Dtn>, ts: seq<Tree>, i: nat, base: nat)
    requires |r| == |ts| && i < |r|
  {
    exists p :: && 0 <= p < i && r[i].parent == Some(base + p) && KidOf(ts[i], ts[p].kids)
                && Carries(strs, r[i], ts[i], r[p].cells)
  }

  /** Node `i` is one of the trees at the top of `f`. */
  ghost predicate OnTop(strs: seq<int>, r: seq<Dtn>, ts: seq<Tree>, i: nat, f: Forest, parent: Option<nat>, c: Cells)
    requires |r| == |ts| && i < |r|
  {
    r[i].parent == parent && KidOf(ts[i], f) && Carries(strs, r[i], ts[i], c)
  }

  lemma {:induction false} RootCarries(strs: seq<int>, t: Tree, parent: Option<nat>, c: Cells)
    requires PropsMeaningful(strs, t.props)
    ensures var node := WithProps(strs, Dtn(t.name, parent, c, []), t.props);
            node.parent == parent && Carries(strs, node, t, c)
  {
    hide PropsMeaningful, WithProps, CellsSay, SameProps;
    PropsSay(strs, Dtn(t.name, parent, c, []), t.props);
    var node := WithProps(strs, Dtn(t.name, parent, c, []), t.props);
    assert node.props[0..] == node.props;
  }

  lemma {:induction false} TreeNodes(strs: seq<int>, t: Tree, parent: Option<nat>, c: Cells, base: nat)
    requires TreeMeaningful(strs, t)
    ensures var r, ts := Preorder(strs, t, parent, c, base), Flat(t);
            && |r| == |ts| && r[0].parent == parent && Carries(strs, r[0], t, c)
            && forall i :: 0 < i < |r| ==> Hangs(strs, r, ts, i, base)
    decreases t
  {
    hide PropsMeaningful, WithProps, Carries;
    var r, ts := Preorder(strs, t, parent, c, base), Flat(t);
    RootCarries(strs, t, parent, c);
    ForestNodes(strs, t.kids, Some(base), r[0].cells, base + 1);
    var kr, kts := PreorderForest(strs, t.kids, Some(base), r[0].cells, base + 1), FlatForest(t.kids);
    assert r == [r[0]] + kr && ts == [t] + kts;
    forall i | 0 < i < |r| ensures Hangs(strs, r, ts, i, base) {
      assert r[i] == kr[i - 1] && ts[i] == kts[i - 1];
      if OnTop(strs, kr, kts, i - 1, t.kids, Some(base), r[0].cells) {
        assert r[i].parent == Some(base + 0);
      } else {
        HangsShift(strs, [r[0]], kr, [], [t], kts, [], i - 1, base);
        assert [r[0]] + kr + [] == r && [t] + kts + [] == ts;
      }
    }
  }

  /** A node that hangs in a part of the list hangs in the whole list. */
  lemma {:induction false} HangsShift(strs: seq<int>, a: seq<Dtn>, r: seq<Dtn>, z: seq<Dtn>,
                                      ta: seq<Tree>, ts: seq<Tree>, tz: seq<Tree>, i: nat, base: nat)
    requires |a| == |ta| && |r| == |ts| && |z| == |tz| && i < |r| && Hangs(strs, r, ts, i, base + |a|)
    ensures Hangs(strs, a + r + z, ta + ts + tz, |a| + i, base)
  {
    hide Carries, KidOf;
    var p :| && 0 <= p < i && r[i].parent == Some(base + |a| + p) && KidOf(ts[i], ts[p].kids)
             && Carries(strs, r[i], ts[i], r[p].cells);
    var all, tall := a + r + z, ta + ts + tz;
    assert all[|a| + i] == r[i] && all[|a| + p] == r[p] && tall[|a| + i] == ts[i] && tall[|a| + p] == ts[p];
    assert base + |a| + p == base + (|a| + p);
  }

  lemma {:induction false} FlatFirst(t: Tree)
    ensures Flat(t)[0] == t
  {
  }

  lemma {:induction false} FirstOnTop(strs: seq<int>, r: seq<Dtn>, ts: seq<Tree>, f: Forest,
                                      parent: Option<nat>, c: Cells)
    requires |r| == |ts| > 0 && f.Cons? && ts[0] == f.head && r[0].parent == parent && Carries(strs, r[0], ts[0], c)
    ensures OnTop(strs, r, ts, 0, f, parent, c)
  {
  }

  lemma {:induction false} OnTopShift(strs: seq<int>, a: seq<Dtn>, z: seq<Dtn>, ta: seq<Tree>, tz: seq<Tree>, i: nat,
                                      f: Forest, parent: Option<nat>, c: Cells)
    requires |a| == |ta| && |z| == |tz| && i < |z| && f.Cons? && OnTop(strs, z, tz, i, f.tail, parent, c)
    ensures OnTop(strs, a + z, ta + tz, |a| + i, f, parent, c)
  {
    assert (a + z)[|a| + i] == z[i] && (ta + tz)[|a| + i] == tz[i];
  }

  lemma {:induction false} ForestNodes(strs: seq<int>, f: Forest, parent: Option<nat>, c: Cells, base: nat)
    requires ForestMeaningful(strs, f)
    ensures var r, ts := PreorderForest(strs, f, parent, c, base), FlatForest(f);
            && |r| == |ts|
            && forall i :: 0 <= i < |r| ==> OnTop(strs, r, ts, i, f, parent, c) || Hangs(strs, r, ts, i, base)
    decreases f
  {
    hide PropsMeaningful, Carries, Hangs, OnTop, Preorder, Flat, KidOf;
    if f.Cons? {
      var r, ts := PreorderForest(strs, f, parent, c, base), FlatForest(f);
      var a, ta := Preorder(strs, f.head, parent, c, base), Flat(f.head);
      var z, tz := PreorderForest(strs, f.tail, parent, c, base + |a|), FlatForest(f.tail);
      TreeNodes(strs, f.head, parent, c, base);
      FlatFirst(f.head);
      ForestNodes(strs, f.tail, parent, c, base + |a|);
      assert r == a + z && ts == ta + tz;
      forall i | 0 <= i < |r| ensures OnTop(strs, r, ts, i, f, parent, c) || Hangs(strs, r, ts, i, base) {
        if i == 0 {
          FirstOnTop(strs, r, ts, f, parent, c);
        } else if i < |a| {
          HangsShift(strs, [], a, z, [], ta, tz, i, base);
          assert [] + a + z == r && [] + ta + tz == ts;
        } else {
          assert r[i] == z[i - |a|] && ts[i] == tz[i - |a|];
          if Hangs(strs, z, tz, i - |a|, base + |a|) {
            HangsShift(strs, a, z, [], ta, tz, [], i - |a|, base);
            assert a + z + [] == r && ta + tz + [] == ts;
          } else {
            OnTopShift(strs, a, z, ta, tz, i - |a|, f, parent, c);
          }
        }
      }
    }
  }

  /**
   The nodes loaded from the flattened form of a tree of at most 15 levels are the nodes of that
   tree in preorder.  The first has no parent; every other one hangs under the node it is a
   subnode of.  Each has its name, its properties in order, and as each cell count the low byte
   of the first word of its own last property of that name, or its parent's count if it has none
   (0 at the root).
   */
  lemma {:induction false} LoadedNodes(strs: seq<int>, lead: nat, t: Tree)
    requires TreeOk(t) && TreeMeaningful(strs, t) && Height(t) <= 15
    ensures var l := Run(EncBlock(lead, t), strs, Start(), 0);
            && l.Loaded? && l.root == Some(0) && |l.nodes| == |Flat(t)|
            && l.nodes[0].parent == None && Carries(strs, l.nodes[0], t, Cells(0, 0, 0))
            && forall i :: 0 < i < |l.nodes| ==> Hangs(strs, l.nodes, Flat(t), i, 0)
  {
    hide Run, EncBlock, Preorder, Carries, Hangs;
    LoadRebuilds(strs, lead, t);
    TreeNodes(strs, t, None, Cells(0, 0, 0), 0);
  }
}
