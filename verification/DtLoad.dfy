/**
 `dt_load`: the stack machine that rebuilds the devicetree from its flattened form.

 A node is its index in the node list.  Of the fields a node gets from its properties
 the three cell counts are kept apart; every property is also kept, in order, with its
 key resolved in the strings block.
 */
module DtLoad {
  import opened Fdt

  const LEVELS: int := 16

  datatype Cells = Cells(addr: int, size: int, intr: int)

  datatype Dtn = Dtn(name: seq<int>, parent: Option<nat>, cells: Cells, props: seq<(seq<int>, seq<int>)>)

  datatype State = State(nodes: seq<Dtn>, stack: seq<Option<nat>>, depth: int)

  /** `Fault` stands for a failed assertion, a null node or a read outside the block. */
  datatype LoadResult = Loaded(nodes: seq<Dtn>, root: Option<nat>) | TooDeep | Fault

  function Ascii(s: string): (r: seq<int>)
    ensures |r| == |s|
  {
    seq(|s|, i requires 0 <= i < |s| => s[i] as int)
  }

  function SetCells(key: seq<int>, count: int, c: Cells): Cells {
    if key == Ascii("#address-cells") then c.(addr := count % 256)
    else if key == Ascii("#size-cells") then c.(size := count % 256)
    else if key == Ascii("#interrupt-cells") then c.(intr := count % 256)
    else c
  }

  predicate IsCellKey(key: seq<int>) {
    key == Ascii("#address-cells") || key == Ascii("#size-cells") || key == Ascii("#interrupt-cells")
  }

  /** `__fill_node` */
  function Fill(mem: seq<int>, strs: seq<int>, p: int, node: Dtn): Option<Dtn>
    requires InBlock(mem, p)
  {
    if !InBlock(mem, p + 8) || Word(mem, p + 4) < 0 || Word(mem, p + 8) < 0 then None
    else
      var len := Word(mem, p + 4);
      match CStr(strs, Word(mem, p + 8))
      case None => None
      case Some(key) =>
        if p + 12 + len > |mem| || (IsCellKey(key) && !InBlock(mem, p + 12)) then None
        else
          var count := if InBlock(mem, p + 12) then Word(mem, p + 12) else 0;
          Some(node.(cells := SetCells(key, count, node.cells),
                     props := node.props + [(key, mem[p + 12..p + 12 + len])]))
  }

  /** The node list, stack and depth after the token at `p`; `None` is a fault. */
  function Process(mem: seq<int>, strs: seq<int>, st: State, p: int): Option<State>
    requires InBlock(mem, p) && |st.stack| == LEVELS && 0 <= st.depth < LEVELS
  {
    var tok := Word(mem, p);
    var d := st.depth;
    if tok == NODE_BEGIN then
      match CStr(mem, p + 4)
      case None => None
      case Some(name) =>
        if st.stack[d] != None then None
        else if d == 0 then
          Some(st.(nodes := st.nodes + [Dtn(name, None, Cells(0, 0, 0), [])],
                   stack := st.stack[d := Some(|st.nodes|)]))
        else if st.stack[d - 1] == None || st.stack[d - 1].value >= |st.nodes| then None
        else
          var par := st.stack[d - 1].value;
          Some(st.(nodes := st.nodes + [Dtn(name, Some(par), st.nodes[par].cells, [])],
                   stack := st.stack[d := Some(|st.nodes|)]))
    else if d > 1 && IsNodeEnd(tok) then
      Some(st.(stack := st.stack[d - 1 := None]))
    else if tok == PROP then
      if d == 0 || st.stack[d - 1] == None || st.stack[d - 1].value >= |st.nodes| then None
      else
        var i := st.stack[d - 1].value;
        match Fill(mem, strs, p, st.nodes[i])
        case None => None
        case Some(node) => Some(st.(nodes := st.nodes[i := node]))
    else Some(st)
  }

  function Run(mem: seq<int>, strs: seq<int>, st: State, p: int): LoadResult
    requires 0 <= p && |st.stack| == LEVELS
    decreases |mem| - p
  {
    if !InBlock(mem, p) then Fault
    else if Word(mem, p) == END then Loaded(st.nodes, st.stack[0])
    else
      match NextToken(mem, p)
      case None => Fault
      case Some((q, delta)) =>
        if st.depth >= LEVELS then TooDeep
        else if st.depth < 0 then Fault
        else
          match Process(mem, strs, st, p)
          case None => Fault
          case Some(st') => if |st'.stack| != LEVELS then Fault else Run(mem, strs, st'.(depth := st.depth + delta), q)
  }

  function Start(): State { State([], seq(LEVELS, _ => None), 0) }

  /** `dt_load`, as written. */
  method DtLoadBlob(mem: seq<int>, strs: seq<int>) returns (r: LoadResult)
    ensures r == Run(mem, strs, Start(), 0)
  {
    var st := Start();
    var p := 0;
    if !InBlock(mem, p) { return Fault; }
    while Word(mem, p) != END
      invariant InBlock(mem, p) && |st.stack| == LEVELS
      invariant Run(mem, strs, Start(), 0) == Run(mem, strs, st, p)
      decreases |mem| - p
    {
      var next := FdtNextToken(mem, p);
      if next == None { return Fault; }
      if st.depth >= LEVELS { return TooDeep; }
      if st.depth < 0 { return Fault; }
      var done := Process(mem, strs, st, p);
      if done == None || |done.value.stack| != LEVELS { return Fault; }
      st := done.value.(depth := st.depth + next.value.1);
      p := next.value.0;
    }
    return Loaded(st.nodes, st.stack[0]);
  }

  // ---------------------------------------------------------------- the tree that was flattened

  /** Cell-count properties hold a 32-bit value, and every key is in the strings block. */
  predicate PropsMeaningful(strs: seq<int>, ps: seq<Prop>) {
    forall i :: 0 <= i < |ps| ==>
                  && 0 <= ps[i].nameoff && CStr(strs, ps[i].nameoff).Some?
                  && (IsCellKey(CStr(strs, ps[i].nameoff).value) ==> |ps[i].value| >= 4)
  }

  predicate TreeMeaningful(strs: seq<int>, t: Tree) {
    PropsMeaningful(strs, t.props) && ForestMeaningful(strs, t.kids)
  }

  predicate ForestMeaningful(strs: seq<int>, f: Forest) {
    match f
    case Nil => true
    case Cons(t, rest) => TreeMeaningful(strs, t) && ForestMeaningful(strs, rest)
  }

  /** A node with its own properties applied, in order, over the inherited cell counts. */
  function WithProps(strs: seq<int>, node: Dtn, ps: seq<Prop>): Dtn
    requires PropsMeaningful(strs, ps)
    decreases |ps|
  {
    if ps == [] then node
    else
      var key := CStr(strs, ps[0].nameoff).value;
      var count := if IsCellKey(key) then BigEndian(ps[0].value[..4]) else 0;
      var node' := node.(cells := SetCells(key, count, node.cells), props := node.props + [(key, ps[0].value)]);
      WithProps(strs, node', ps[1..])
  }

  /** The preorder list of a tree whose root gets index `base`. */
  function Preorder(strs: seq<int>, t: Tree, parent: Option<nat>, inherited: Cells, base: nat): (r: seq<Dtn>)
    requires TreeMeaningful(strs, t)
    ensures |r| > 0
    decreases t
  {
    var node := WithProps(strs, Dtn(t.name, parent, inherited, []), t.props);
    [node] + PreorderForest(strs, t.kids, Some(base), node.cells, base + 1)
  }

  function PreorderForest(strs: seq<int>, f: Forest, parent: Option<nat>, inherited: Cells, base: nat): seq<Dtn>
    requires ForestMeaningful(strs, f)
    decreases f
  {
    match f
    case Nil => []
    case Cons(t, rest) =>
      var first := Preorder(strs, t, parent, inherited, base);
      first + PreorderForest(strs, rest, parent, inherited, base + |first|)
  }

  function Max(a: nat, b: nat): nat { if a > b then a else b }

  function Height(t: Tree): nat { 1 + ForestHeight(t.kids) }

  function ForestHeight(f: Forest): nat {
    match f
    case Nil => 0
    case Cons(t, rest) => Max(Height(t), ForestHeight(rest))
  }

  // ---------------------------------------------------------------- loading rebuilds it

  /** One turn of the loop. */
  lemma {:induction false} RunUnfold(mem: seq<int>, strs: seq<int>, st: State, p: int, q: int, delta: int, st': State)
    requires |st.stack| == LEVELS && |st'.stack| == LEVELS && 0 <= st.depth < LEVELS
    requires InBlock(mem, p) && Word(mem, p) != END && NextToken(mem, p) == Some((q, delta))
    requires Process(mem, strs, st, p) == Some(st')
    ensures Run(mem, strs, st, p) == Run(mem, strs, st'.(depth := st.depth + delta), q)
  {
  }

  lemma {:induction false} FillProp(mem: seq<int>, strs: seq<int>, p: int, q: Prop, node: Dtn)
    requires Aligned(p) && PropOk(q) && Has(mem, p, EncProp(q)) && Solid(mem, p + |EncProp(q)|)
    requires PropsMeaningful(strs, [q])
    ensures InBlock(mem, p) && Fill(mem, strs, p, node) == Some(WithProps(strs, node, [q]))
  {
    hide EncProp, Aligned, NextToken, SetCells, IsCellKey, WithProps, CStr, Word;
    PropStep(mem, p, q);
    WithOneProp(strs, node, q);
    assert mem[p + 12..p + 12 + |q.value|] == q.value;
    if IsCellKey(CStr(strs, q.nameoff).value) {
      FirstWord(mem, p + 12, q.value);
    } else {
      OtherKey(CStr(strs, q.nameoff).value, if InBlock(mem, p + 12) then Word(mem, p + 12) else 0, 0, node.cells);
    }
  }

  /** A cell count whose word does not lie in the block is a fault. */
  lemma {:induction false} FillFaults(mem: seq<int>, strs: seq<int>, p: int, node: Dtn)
    requires InBlock(mem, p + 8) && InBlock(mem, p) && Word(mem, p + 8) >= 0 && CStr(strs, Word(mem, p + 8)).Some?
    requires IsCellKey(CStr(strs, Word(mem, p + 8)).value) && p + 16 > |mem|
    ensures Fill(mem, strs, p, node) == None
  {
  }

  lemma {:induction false} WithOneProp(strs: seq<int>, node: Dtn, q: Prop)
    requires PropsMeaningful(strs, [q])
    ensures 0 <= q.nameoff && CStr(strs, q.nameoff).Some?
    ensures var key := CStr(strs, q.nameoff).value;
            && (IsCellKey(key) ==> |q.value| >= 4)
            && WithProps(strs, node, [q])
            == node.(cells := SetCells(key, if IsCellKey(key) then BigEndian(q.value[..4]) else 0, node.cells),
                     props := node.props + [(key, q.value)])
  {
    hide SetCells, IsCellKey, CStr, BigEndian;
    assert [q][0] == q && [q][1..] == [];
  }

  lemma {:induction false} FirstWord(mem: seq<int>, p: int, value: seq<int>)
    requires Has(mem, p, value) && |value| >= 4
    ensures InBlock(mem, p) && Word(mem, p) == BigEndian(value[..4])
  {
    assert mem[p..p + 4] == value[..4];
  }

  lemma {:induction false} OtherKey(key: seq<int>, m: int, n: int, c: Cells)
    requires !IsCellKey(key)
    ensures SetCells(key, m, c) == SetCells(key, n, c)
  {
  }

  /** The stack of open nodes: nothing at the current depth or deeper, a parent just below it. */
  predicate Open(st: State) {
    && |st.stack| == LEVELS && 0 <= st.depth <= LEVELS
    && (forall k :: st.depth <= k < LEVELS ==> st.stack[k] == None)
    && (st.depth > 0 ==> st.stack[st.depth - 1].Some? && st.stack[st.depth - 1].value < |st.nodes|)
  }

  function ParentOf(st: State): Option<nat>
    requires Open(st)
  {
    if st.depth == 0 then None else st.stack[st.depth - 1]
  }

  function Inherited(st: State): Cells
    requires Open(st)
  {
    if st.depth == 0 then Cells(0, 0, 0) else st.nodes[st.stack[st.depth - 1].value].cells
  }

  /** The state once the properties of the innermost open node have been read. */
  function Filled(strs: seq<int>, st: State, ps: seq<Prop>): State
    requires Open(st) && 0 < st.depth && PropsMeaningful(strs, ps)
  {
    var i := st.stack[st.depth - 1].value;
    st.(nodes := st.nodes[i := WithProps(strs, st.nodes[i], ps)])
  }

  lemma {:induction false} FilledSplit(strs: seq<int>, st: State, ps: seq<Prop>)
    requires Open(st) && 0 < st.depth && PropsMeaningful(strs, ps)
    ensures Open(Filled(strs, st, ps)) && Filled(strs, st, ps).depth == st.depth
    ensures ps == [] ==> Filled(strs, st, ps) == st
    ensures ps != [] ==> && PropsMeaningful(strs, [ps[0]]) && PropsMeaningful(strs, ps[1..])
                         && Open(Filled(strs, st, [ps[0]])) && Filled(strs, st, [ps[0]]).depth == st.depth
                         && Filled(strs, st, ps) == Filled(strs, Filled(strs, st, [ps[0]]), ps[1..])
  {
    hide PropsMeaningful, WithProps;
    var i := st.stack[st.depth - 1].value;
    if ps == [] {
      WithNoProps(strs, st.nodes[i]);
      assert st.nodes[i := st.nodes[i]] == st.nodes;
    } else {
      MeaningfulSplit(strs, ps);
      WithPropsSplit(strs, st.nodes[i], ps);
      var node := WithProps(strs, st.nodes[i], [ps[0]]);
      assert st.nodes[i := node][i := WithProps(strs, node, ps[1..])] == st.nodes[i := WithProps(strs, node, ps[1..])];
    }
  }

  lemma {:induction false} LoadProps(mem: seq<int>, strs: seq<int>, st: State, p: int, ps: seq<Prop>)
    requires PropsAt(mem, p, ps) && PropsMeaningful(strs, ps)
    requires Open(st) && 0 < st.depth < LEVELS
    ensures Run(mem, strs, st, p) == Run(mem, strs, Filled(strs, st, ps), p + |EncProps(ps)|)
    decreases |ps|
  {
    hide EncProp, Has, Word, Aligned, NextToken, Run, CStr, PropsMeaningful, Open, Filled;
    FilledSplit(strs, st, ps);
    if ps != [] {
      PropsParts(mem, p, ps);
      LoadOneProp(mem, strs, st, p, ps[0]);
      LoadProps(mem, strs, Filled(strs, st, [ps[0]]), p + |EncProp(ps[0])|, ps[1..]);
    }
  }

  lemma {:induction false} LoadOneProp(mem: seq<int>, strs: seq<int>, st: State, p: int, q: Prop)
    requires Aligned(p) && PropOk(q) && Has(mem, p, EncProp(q)) && Solid(mem, p + |EncProp(q)|)
    requires PropsMeaningful(strs, [q]) && Open(st) && 0 < st.depth < LEVELS
    ensures Run(mem, strs, st, p) == Run(mem, strs, Filled(strs, st, [q]), p + |EncProp(q)|)
  {
    hide EncProp, Has, Word, Aligned, NextToken, Run, Fill, CStr, WithProps, PropsMeaningful;
    PropStep(mem, p, q);
    FillProp(mem, strs, p, q, st.nodes[st.stack[st.depth - 1].value]);
    RunUnfold(mem, strs, st, p, p + |EncProp(q)|, 0, Filled(strs, st, [q]));
  }

  lemma {:induction false} MeaningfulSplit(strs: seq<int>, ps: seq<Prop>)
    requires PropsMeaningful(strs, ps) && ps != []
    ensures PropsMeaningful(strs, [ps[0]]) && PropsMeaningful(strs, ps[1..])
  {
  }

  lemma {:induction false} WithNoProps(strs: seq<int>, node: Dtn)
    ensures WithProps(strs, node, []) == node
  {
  }

  lemma {:induction false} WithPropsSplit(strs: seq<int>, node: Dtn, ps: seq<Prop>)
    requires PropsMeaningful(strs, ps) && ps != [] && PropsMeaningful(strs, [ps[0]]) && PropsMeaningful(strs, ps[1..])
    ensures WithProps(strs, node, ps) == WithProps(strs, WithProps(strs, node, [ps[0]]), ps[1..])
  {
    assert [ps[0]][1..] == [];
  }

  lemma {:induction false} LoadBegin(mem: seq<int>, strs: seq<int>, st: State, p: int, t: Tree)
    requires TreeAt(mem, p, t) && Open(st) && st.depth < LEVELS
    ensures var n := |st.nodes|;
            var st1 := State(st.nodes + [Dtn(t.name, ParentOf(st), Inherited(st), [])],
                             st.stack[st.depth := Some(n)], st.depth + 1);
            Open(st1) && Run(mem, strs, st, p) == Run(mem, strs, st1, PropsLoc(p, t))
  {
    hide EncBegin, EncEnd, EncProps, EncForest, EncTree, Has, Word, CStr, NextToken, Aligned, Run;
    TreeParts(mem, p, t);
    var n := |st.nodes|;
    var st1 := State(st.nodes + [Dtn(t.name, ParentOf(st), Inherited(st), [])],
                     st.stack[st.depth := Some(n)], st.depth);
    RunUnfold(mem, strs, st, p, PropsLoc(p, t), 1, st1);
  }

  lemma {:induction false} LoadEnd(mem: seq<int>, strs: seq<int>, st: State, p: int, t: Tree)
    requires TreeAt(mem, p, t) && Open(st) && 0 < st.depth < LEVELS
    ensures var stack' := if st.depth > 1 then st.stack[st.depth - 1 := None] else st.stack;
            var st' := State(st.nodes, stack', st.depth - 1);
            Run(mem, strs, st, EndLoc(p, t)) == Run(mem, strs, st', p + |EncTree(t)|)
  {
    hide EncBegin, EncEnd, EncProps, EncForest, EncTree, Has, Word, CStr, NextToken, Aligned, Run;
    TreeParts(mem, p, t);
    var stack' := if st.depth > 1 then st.stack[st.depth - 1 := None] else st.stack;
    RunUnfold(mem, strs, st, EndLoc(p, t), p + |EncTree(t)|, -1, st.(stack := stack'));
  }

  /** The state after a whole subtree: its nodes appended in preorder, the stack as before. */
  function AfterTree(strs: seq<int>, st: State, t: Tree): State
    requires Open(st) && TreeMeaningful(strs, t) && st.depth < LEVELS
  {
    State(st.nodes + Preorder(strs, t, ParentOf(st), Inherited(st), |st.nodes|),
          if st.depth == 0 then st.stack[0 := Some(|st.nodes|)] else st.stack, st.depth)
  }

  /** A subtree that fits under the depth limit is rebuilt exactly. */
  lemma {:induction false} LoadTree(mem: seq<int>, strs: seq<int>, st: State, p: int, t: Tree)
    requires TreeAt(mem, p, t) && TreeMeaningful(strs, t) && Open(st)
    requires st.depth + Height(t) < LEVELS
    ensures Run(mem, strs, st, p) == Run(mem, strs, AfterTree(strs, st, t), p + |EncTree(t)|)
    decreases t, 1
  {
    hide EncBegin, EncEnd, EncProps, EncForest, EncTree, Has, Word, CStr, NextToken, Aligned, Run, WithProps;
    var n := |st.nodes|;
    var blank := Dtn(t.name, ParentOf(st), Inherited(st), []);
    var node := WithProps(strs, blank, t.props);
    var st1 := State(st.nodes + [blank], st.stack[st.depth := Some(n)], st.depth + 1);
    TreeParts(mem, p, t);
    LoadBegin(mem, strs, st, p, t);
    LoadProps(mem, strs, st1, PropsLoc(p, t), t.props);
    var st2 := st1.(nodes := st.nodes + [node]);
    assert st1.nodes[n := node] == st2.nodes;
    LoadForest(mem, strs, st2, KidsLoc(p, t), t.kids);
    var kids := PreorderForest(strs, t.kids, Some(n), node.cells, n + 1);
    var st3 := st2.(nodes := st2.nodes + kids);
    LoadEnd(mem, strs, st3, p, t);
    assert st3.nodes == st.nodes + ([node] + kids);
    if st.depth > 0 {
      assert st3.stack[st.depth := None] == st.stack;
    }
  }

  lemma {:induction false} LoadForest(mem: seq<int>, strs: seq<int>, st: State, p: int, f: Forest)
    requires ForestAt(mem, p, f) && ForestMeaningful(strs, f) && Open(st)
    requires 0 < st.depth && st.depth + ForestHeight(f) < LEVELS
    ensures Run(mem, strs, st, p)
         == Run(mem, strs,
                st.(nodes := st.nodes + PreorderForest(strs, f, ParentOf(st), Inherited(st), |st.nodes|)),
                p + |EncForest(f)|)
    decreases f
  {
    hide EncTree, Has, Word, Aligned, NextToken, Run, Preorder;
    if f.Nil? {
      assert st.nodes + [] == st.nodes;
    } else {
      ForestParts(mem, p, f);
      LoadTree(mem, strs, st, p, f.head);
      var st' := AfterTree(strs, st, f.head);
      var q := p + |EncTree(f.head)|;
      LoadForest(mem, strs, st', q, f.tail);
      var first := Preorder(strs, f.head, ParentOf(st), Inherited(st), |st.nodes|);
      assert (st.nodes + first) + PreorderForest(strs, f.tail, ParentOf(st), Inherited(st), |st.nodes| + |first|)
          == st.nodes + PreorderForest(strs, f, ParentOf(st), Inherited(st), |st.nodes|);
    }
  }

  // ---------------------------------------------------------------- trees that are too deep

  lemma {:induction false} RunTooDeep(mem: seq<int>, strs: seq<int>, st: State, p: int)
    requires |st.stack| == LEVELS && st.depth >= LEVELS
    requires InBlock(mem, p) && Word(mem, p) != END && NextToken(mem, p).Some?
    ensures Run(mem, strs, st, p) == TooDeep
  {
  }

  /** The first token inside a node is readable and is not the end of the block. */
  lemma {:induction false} InsideReadable(mem: seq<int>, p: int, t: Tree)
    requires TreeAt(mem, p, t)
    ensures var q := PropsLoc(p, t); InBlock(mem, q) && Word(mem, q) != END && NextToken(mem, q).Some?
  {
    hide EncBegin, EncEnd, EncProp, EncTree, Has, CStr, NextToken, Aligned;
    TreeParts(mem, p, t);
    if t.props != [] {
      PropsParts(mem, PropsLoc(p, t), t.props);
      PropStep(mem, PropsLoc(p, t), t.props[0]);
    } else if t.kids.Cons? {
      ForestParts(mem, KidsLoc(p, t), t.kids);
      TreeParts(mem, KidsLoc(p, t), t.kids.head);
    }
  }

  lemma {:induction false} TreeTooDeep(mem: seq<int>, strs: seq<int>, st: State, p: int, t: Tree)
    requires TreeAt(mem, p, t) && TreeMeaningful(strs, t) && Open(st)
    requires st.depth < LEVELS <= st.depth + Height(t)
    ensures Run(mem, strs, st, p) == TooDeep
    decreases t, 1
  {
    hide EncBegin, EncEnd, EncProps, EncForest, EncTree, Has, Word, CStr, NextToken, Aligned, Run, WithProps;
    var n := |st.nodes|;
    var blank := Dtn(t.name, ParentOf(st), Inherited(st), []);
    var st1 := State(st.nodes + [blank], st.stack[st.depth := Some(n)], st.depth + 1);
    TreeParts(mem, p, t);
    LoadBegin(mem, strs, st, p, t);
    if st1.depth == LEVELS {
      InsideReadable(mem, p, t);
      RunTooDeep(mem, strs, st1, PropsLoc(p, t));
    } else {
      LoadProps(mem, strs, st1, PropsLoc(p, t), t.props);
      var st2 := st1.(nodes := st1.nodes[n := WithProps(strs, blank, t.props)]);
      ForestTooDeep(mem, strs, st2, KidsLoc(p, t), t.kids);
    }
  }

  lemma {:induction false} ForestTooDeep(mem: seq<int>, strs: seq<int>, st: State, p: int, f: Forest)
    requires ForestAt(mem, p, f) && ForestMeaningful(strs, f) && Open(st)
    requires 0 < st.depth < LEVELS <= st.depth + ForestHeight(f)
    ensures Run(mem, strs, st, p) == TooDeep
    decreases f
  {
    hide EncTree, Has, Word, Aligned, NextToken, Run, Preorder;
    ForestParts(mem, p, f);
    if LEVELS <= st.depth + Height(f.head) {
      TreeTooDeep(mem, strs, st, p, f.head);
    } else {
      LoadTree(mem, strs, st, p, f.head);
      ForestTooDeep(mem, strs, AfterTree(strs, st, f.head), p + |EncTree(f.head)|, f.tail);
    }
  }

  lemma {:induction false} RunFaults(mem: seq<int>, strs: seq<int>, st: State, p: int)
    requires |st.stack| == LEVELS && 0 <= st.depth < LEVELS
    requires InBlock(mem, p) && Word(mem, p) != END && Process(mem, strs, st, p) == None
    ensures Run(mem, strs, st, p) == Fault
  {
  }

  /** A second root: the slot of the first one is taken. */
  lemma {:induction false} SecondRootFaults(mem: seq<int>, strs: seq<int>, st: State, p: int, t: Tree)
    requires TreeAt(mem, p, t) && |st.stack| == LEVELS && st.depth == 0 && st.stack[0] != None
    ensures Run(mem, strs, st, p) == Fault
  {
    hide EncBegin, EncEnd, EncProps, EncForest, EncTree, Has, Word, CStr, NextToken, Aligned, Run;
    TreeParts(mem, p, t);
    RunFaults(mem, strs, st, p);
  }

  // ---------------------------------------------------------------- the whole block

  lemma {:induction false} SkipLead(mem: seq<int>, strs: seq<int>, lead: nat)
    requires Has(mem, 0, Nops(lead)) && Solid(mem, 4 * lead)
    ensures Run(mem, strs, Start(), 0) == Run(mem, strs, Start(), 4 * lead)
  {
    if lead > 0 {
      HasSplit(mem, 0, U32(NOP), Nops(lead - 1));
      WordOf(mem, 0, NOP);
      PastThenSkip(mem, 0, 4, 0, lead - 1);
      RunUnfold(mem, strs, Start(), 0, 4 * lead, 0, Start());
    }
  }

  /**
   Loading the flattened form of any single-rooted well-formed tree, with NOPs anywhere
   between tokens, rebuilds that tree: the nodes in preorder, each with its parent, its
   properties and its cell counts (its own or else those of the nearest declaring
   ancestor).  It succeeds exactly when the tree has at most 15 levels, reports a deeper
   tree as too deep, and never faults.
   */
  lemma {:induction false} LoadRebuilds(strs: seq<int>, lead: nat, t: Tree)
    requires TreeOk(t) && TreeMeaningful(strs, t)
    ensures Run(EncBlock(lead, t), strs, Start(), 0)
         == if Height(t) <= 15 then Loaded(Preorder(strs, t, None, Cells(0, 0, 0), 0), Some(0)) else TooDeep
  {
    hide EncBlock, EncTree, Has, Word, NextToken, Run, Preorder, Aligned;
    var mem := EncBlock(lead, t);
    BlockParts(lead, t);
    TreeSolid(mem, 4 * lead, t);
    SkipLead(mem, strs, lead);
    if Height(t) <= 15 {
      LoadTree(mem, strs, Start(), 4 * lead, t);
      var st := AfterTree(strs, Start(), t);
      RunFinished(mem, strs, st, 4 * lead + |EncTree(t)|);
      assert st.nodes == Preorder(strs, t, None, Cells(0, 0, 0), 0);
    } else {
      TreeTooDeep(mem, strs, Start(), 4 * lead, t);
    }
  }

  lemma {:induction false} RunFinished(mem: seq<int>, strs: seq<int>, st: State, p: int)
    requires |st.stack| == LEVELS && InBlock(mem, p) && Word(mem, p) == END
    ensures Run(mem, strs, st, p) == Loaded(st.nodes, st.stack[0])
  {
  }
}
