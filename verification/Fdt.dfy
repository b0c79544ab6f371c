/**
 The flattened devicetree as bytes (section 5.4 of the Devicetree Specification) and the
 token walker of `dt.c` over it.

 Locations are offsets into the structure block.  The source does not check bounds; here
 a read outside the block yields `None`, and the theorems show that it never happens on
 a well-formed block.
 */
module Fdt {

  const NODE_BEGIN: int := 1
  const NODE_END: int := 2
  const PROP: int := 3
  const NOP: int := 4
  const END: int := 9
  const TWO32: int := 0x1_0000_0000

  datatype Option<+T> = None | Some(value: T)

  // ---------------------------------------------------------------- reading

  /** The value of big-endian bytes. */
  function BigEndian(s: seq<int>): int {
    if s == [] then 0 else BigEndian(s[..|s| - 1]) * 256 + s[|s| - 1]
  }

  predicate InBlock(mem: seq<int>, p: int) { 0 <= p && p + 4 <= |mem| }

  function Word(mem: seq<int>, p: int): int
    requires InBlock(mem, p)
  {
    BigEndian(mem[p..p + 4])
  }

  /** Rounding up to the size of a token. */
  function RoundUp4(x: int): (r: int)
    ensures x <= r < x + 4 || x < 0
    ensures r >= 0
  {
    if x <= 0 then 0 else 4 + RoundUp4(x - 4)
  }

  lemma {:induction false} RoundUp4IsMask(x: nat)
    ensures RoundUp4(x) == (x + 3) / 4 * 4
  {
    if x > 4 { RoundUp4IsMask(x - 4); }
  }

  /** A location on a token boundary. */
  predicate Aligned(p: int) {
    p == 0 || (p >= 4 && Aligned(p - 4))
  }

  lemma {:induction false} AlignedAdd(p: int, n: int)
    requires Aligned(p) && Aligned(n)
    ensures Aligned(p + n)
    decreases n
  {
    if n > 0 { AlignedAdd(p, n - 4); }
  }

  lemma {:induction false} RoundUpAdd(p: int, n: nat)
    requires Aligned(p)
    ensures RoundUp4(p + n) == p + RoundUp4(n)
    decreases p
  {
    if p > 0 { RoundUpAdd(p - 4, n); }
  }

  lemma {:induction false} RoundUpAligned(n: nat)
    ensures Aligned(RoundUp4(n))
  {
    if n > 4 { RoundUpAligned(n - 4); }
  }

  /** The NUL-terminated string at a location. */
  function CStr(mem: seq<int>, p: int): (r: Option<seq<int>>)
    requires 0 <= p
    ensures r.Some? ==> p + |r.value| < |mem|
    decreases |mem| - p
  {
    if p >= |mem| then None
    else if mem[p] == 0 then Some([])
    else
      match CStr(mem, p + 1)
      case None => None
      case Some(s) => Some([mem[p]] + s)
  }

  predicate IsNodeEnd(tok: int) { tok == NODE_END || tok == END }

  /** One token and its payload: where it ends, and how the depth changes. */
  function Past(mem: seq<int>, p: int): (r: Option<(int, int)>)
    requires InBlock(mem, p)
    ensures r.Some? ==> r.value.0 >= p + 4
  {
    var tok := Word(mem, p);
    if tok == NODE_BEGIN then
      match CStr(mem, p + 4)
      case None => None
      case Some(name) => Some((RoundUp4(p + |name| + 1) + 4, 1))
    else if IsNodeEnd(tok) then Some((p + 4, -1))
    else if tok == PROP then
      if p + 8 > |mem| || Word(mem, p + 4) < 0 then None
      else Some((RoundUp4(p + Word(mem, p + 4) + 8) + 4, 0))
    else Some((p + 4, 0))
  }

  function SkipNops(mem: seq<int>, p: int): (r: Option<int>)
    requires 0 <= p
    ensures r.Some? ==> p <= r.value && InBlock(mem, r.value) && Word(mem, r.value) != NOP
    decreases |mem| - p
  {
    if !InBlock(mem, p) then None
    else if Word(mem, p) == NOP then SkipNops(mem, p + 4)
    else Some(p)
  }

  /** `fdt_next_token` */
  function NextToken(mem: seq<int>, p: int): (r: Option<(int, int)>)
    requires InBlock(mem, p)
    ensures r.Some? ==> r.value.0 >= p + 4 && InBlock(mem, r.value.0)
  {
    match Past(mem, p)
    case None => None
    case Some((q, d)) =>
      match SkipNops(mem, q)
      case None => None
      case Some(next) => Some((next, d))
  }

  /** `fdt_next_token`, as written: one loop over the token and the NOPs behind it. */
  method FdtNextToken(mem: seq<int>, loc: int) returns (r: Option<(int, int)>)
    requires InBlock(mem, loc)
    ensures r == NextToken(mem, loc)
  {
    var p, d := loc, 0;
    var first := true;
    while first || Word(mem, p) == NOP
      invariant InBlock(mem, p) && loc <= p
      invariant first ==> p == loc && d == 0
      invariant !first ==> match Past(mem, loc)
                           case None => false
                           case Some((q, e)) => d == e && SkipNops(mem, q) == SkipNops(mem, p)
      decreases |mem| - p
    {
      var tok := Word(mem, p);
      if tok == NODE_BEGIN {
        d := d + 1;
        var name := CStr(mem, p + 4);
        if name == None { return None; }
        p := p + |name.value| + 1;
        p := RoundUp4(p);
      } else if IsNodeEnd(tok) {
        d := d - 1;
      } else if tok == PROP {
        if p + 8 > |mem| || Word(mem, p + 4) < 0 { return None; }
        p := p + Word(mem, p + 4) + 8;
        p := RoundUp4(p);
      }
      p := p + 4;
      first := false;
      if !InBlock(mem, p) { return None; }
    }
    return Some((p, d));
  }

  /** The loop of `fdt_next_sibling`, at a nesting depth. */
  function SiblingAt(mem: seq<int>, p: int, depth: int): (r: Option<int>)
    requires InBlock(mem, p)
    ensures r.Some? ==> p < r.value && InBlock(mem, r.value)
    decreases |mem| - p
  {
    match NextToken(mem, p)
    case None => None
    case Some((q, d)) => if depth + d > 0 then SiblingAt(mem, q, depth + d) else Some(q)
  }

  /** `fdt_next_sibling`: the next location, and whether it is a sibling at all. */
  method FdtNextSibling(mem: seq<int>, loc: int) returns (r: Option<int>, more: bool)
    requires InBlock(mem, loc)
    ensures r == SiblingAt(mem, loc, 0)
    ensures r.Some? ==> (more <==> !IsNodeEnd(Word(mem, r.value)))
  {
    var p, depth := loc, 0;
    var first := true;
    more := false;
    while first || depth > 0
      invariant InBlock(mem, p)
      invariant first ==> p == loc && depth == 0
      invariant first || depth > 0 ==> SiblingAt(mem, loc, 0) == SiblingAt(mem, p, depth)
      invariant !first && depth <= 0 ==> SiblingAt(mem, loc, 0) == Some(p)
      decreases |mem| - p
    {
      var next := FdtNextToken(mem, p);
      if next == None { return None, false; }
      depth := depth + next.value.1;
      p := next.value.0;
      first := false;
    }
    return Some(p), !IsNodeEnd(Word(mem, p));
  }

  /** `fdt_descend_into` */
  function Descend(mem: seq<int>, p: int): (r: Option<int>)
    requires InBlock(mem, p)
    ensures r.Some? ==> InBlock(mem, r.value)
  {
    match NextToken(mem, p)
    case None => None
    case Some((q, d)) => Some(if d != 1 then p else q)
  }

  // ---------------------------------------------------------------- writing

  datatype Prop = Prop(nameoff: int, value: seq<int>, nops: nat)
  datatype Tree = Tree(name: seq<int>, nops: nat, props: seq<Prop>, kids: Forest, endNops: nat)
  datatype Forest = Nil | Cons(head: Tree, tail: Forest)

  /** The `n` low bytes of a number, most significant first. */
  function Bytes(x: int, n: nat): (s: seq<int>)
    ensures |s| == n
    decreases n
  {
    if n == 0 then [] else Bytes(x / 256, n - 1) + [x % 256]
  }

  function U32(x: int): (s: seq<int>)
    ensures |s| == 4
  {
    Bytes(x, 4)
  }

  function Zeros(n: nat): (s: seq<int>)
    ensures |s| == n
  {
    seq(n, _ => 0)
  }

  /** Bytes padded to a multiple of four. */
  function Padded(s: seq<int>): (t: seq<int>)
    ensures |t| == RoundUp4(|s|) && Aligned(|t|)
  {
    RoundUpAligned(|s|);
    s + Zeros(RoundUp4(|s|) - |s|)
  }

  function Nops(k: nat): (s: seq<int>)
    ensures |s| == 4 * k && Aligned(|s|)
  {
    if k == 0 then [] else U32(NOP) + Nops(k - 1)
  }

  function EncBegin(name: seq<int>, nops: nat): (s: seq<int>)
    ensures Aligned(|s|) && |s| >= 4
  {
    AlignedAdd(4, |Padded(name + [0])|);
    AlignedAdd(4 + |Padded(name + [0])|, |Nops(nops)|);
    U32(NODE_BEGIN) + Padded(name + [0]) + Nops(nops)
  }

  function EncEnd(nops: nat): (s: seq<int>)
    ensures Aligned(|s|) && |s| >= 4
  {
    U32(NODE_END) + Nops(nops)
  }

  function EncProp(p: Prop): (s: seq<int>)
    ensures Aligned(|s|) && |s| >= 4
  {
    AlignedAdd(12, |Padded(p.value)|);
    AlignedAdd(12 + |Padded(p.value)|, |Nops(p.nops)|);
    U32(PROP) + U32(|p.value|) + U32(p.nameoff) + Padded(p.value) + Nops(p.nops)
  }

  function EncProps(ps: seq<Prop>): (s: seq<int>)
    ensures Aligned(|s|)
  {
    if ps == [] then []
    else
      AlignedAdd(|EncProp(ps[0])|, |EncProps(ps[1..])|);
      EncProp(ps[0]) + EncProps(ps[1..])
  }

  function EncTree(t: Tree): (s: seq<int>)
    ensures Aligned(|s|) && |s| >= 4
  {
    AlignedAdd(|EncForest(t.kids)|, |EncEnd(t.endNops)|);
    AlignedAdd(|EncProps(t.props)|, |EncForest(t.kids)| + |EncEnd(t.endNops)|);
    AlignedAdd(|EncBegin(t.name, t.nops)|, |EncProps(t.props)| + (|EncForest(t.kids)| + |EncEnd(t.endNops)|));
    EncBegin(t.name, t.nops) + (EncProps(t.props) + (EncForest(t.kids) + EncEnd(t.endNops)))
  }

  function EncForest(f: Forest): (s: seq<int>)
    ensures Aligned(|s|)
  {
    match f
    case Nil => []
    case Cons(t, rest) =>
      AlignedAdd(|EncTree(t)|, |EncForest(rest)|);
      EncTree(t) + EncForest(rest)
  }

  /** The structure block of a single-rooted tree. */
  function EncBlock(lead: nat, t: Tree): seq<int> {
    Nops(lead) + (EncTree(t) + U32(END))
  }

  lemma {:induction false} SmallWord(x: int)
    requires 0 <= x < 256 * 256
    ensures U32(x) == [0, 0, x / 256, x % 256]
  {
    assert Bytes(x / 256 / 256 / 256 / 256, 0) == [];
    assert Bytes(x / 256 / 256 / 256, 1) == [0];
    assert Bytes(x / 256 / 256, 2) == [0, 0];
    assert Bytes(x / 256, 3) == [0, 0, x / 256];
  }

  lemma {:induction false} TwoPadded(a: int, b: int)
    ensures Padded([a, b]) == [a, b, 0, 0]
  {
    assert RoundUp4(2) == 4;
    assert Zeros(2) == [0, 0];
  }

  lemma {:induction false} PartBytes()
    ensures Nops(1) == [0, 0, 0, 4]
    ensures EncBegin([97], 0) == [0, 0, 0, 1, 97, 0, 0, 0]
    ensures EncProp(Prop(258, [7, 8], 0)) == [0, 0, 0, 3, 0, 0, 0, 2, 0, 0, 1, 2, 7, 8, 0, 0]
    ensures EncEnd(1) == [0, 0, 0, 2, 0, 0, 0, 4]
  {
    hide Bytes, RoundUp4, Zeros, Aligned, U32, Padded;
    SmallWord(1);
    SmallWord(2);
    SmallWord(3);
    SmallWord(4);
    SmallWord(258);
    TwoPadded(97, 0);
    TwoPadded(7, 8);
    assert [97] + [0] == [97, 0];
    assert Nops(0) == [];
  }

  /** The bytes of a small block: a NOP, and a node "a" with one two-byte property and a NOP behind its end. */
  lemma {:induction false} BlockBytes()
    ensures EncBlock(1, Tree([97], 0, [Prop(258, [7, 8], 0)], Nil, 1))
         == [0, 0, 0, 4] + ([0, 0, 0, 1, 97, 0, 0, 0] + [0, 0, 0, 3, 0, 0, 0, 2, 0, 0, 1, 2, 7, 8, 0, 0]
                            + [0, 0, 0, 2, 0, 0, 0, 4] + [0, 0, 0, 9])
  {
    hide Bytes, Aligned, U32, EncBegin, EncEnd, EncProp, Nops;
    PartBytes();
    SmallWord(9);
    var p := Prop(258, [7, 8], 0);
    assert [p][0] == p && [p][1..] == [];
    assert EncProps([p]) == EncProp(p);
    assert EncForest(Nil) == [];
  }

  predicate NameOk(name: seq<int>) { forall i :: 0 <= i < |name| ==> 0 < name[i] < 256 }

  predicate PropOk(p: Prop) { 0 <= p.nameoff < TWO32 && |p.value| < TWO32 }

  predicate TreeOk(t: Tree) {
    NameOk(t.name) && (forall i :: 0 <= i < |t.props| ==> PropOk(t.props[i])) && ForestOk(t.kids)
  }

  predicate ForestOk(f: Forest) {
    match f
    case Nil => true
    case Cons(t, rest) => TreeOk(t) && ForestOk(rest)
  }

  // ---------------------------------------------------------------- walking an encoding

  /** The bytes at a location. */
  predicate Has(mem: seq<int>, p: int, s: seq<int>) {
    0 <= p && p + |s| <= |mem| && mem[p..p + |s|] == s
  }

  /** A token other than NOP stands here. */
  predicate Solid(mem: seq<int>, p: int) {
    InBlock(mem, p) && Word(mem, p) != NOP && Aligned(p)
  }

  lemma {:induction false} HasSplit(mem: seq<int>, p: int, a: seq<int>, b: seq<int>)
    ensures Has(mem, p, a + b) <==> Has(mem, p, a) && Has(mem, p + |a|, b)
  {
    if Has(mem, p, a + b) {
      assert mem[p..p + |a|] == mem[p..p + |a + b|][..|a|];
      assert mem[p + |a|..p + |a| + |b|] == mem[p..p + |a + b|][|a|..];
    }
    if Has(mem, p, a) && Has(mem, p + |a|, b) {
      assert mem[p..p + |a + b|] == mem[p..p + |a|] + mem[p + |a|..p + |a| + |b|];
    }
  }

  function Pow256(n: nat): int { if n == 0 then 1 else 256 * Pow256(n - 1) }

  lemma {:induction false} BigEndianBytes(x: int, n: nat)
    requires 0 <= x < Pow256(n)
    ensures BigEndian(Bytes(x, n)) == x
    decreases n
  {
    if n > 0 {
      assert Bytes(x, n)[..n - 1] == Bytes(x / 256, n - 1);
      BigEndianBytes(x / 256, n - 1);
    }
  }

  lemma {:induction false} WordOf(mem: seq<int>, p: int, x: int)
    requires Has(mem, p, U32(x)) && 0 <= x < TWO32
    ensures InBlock(mem, p) && Word(mem, p) == x
  {
    assert Pow256(4) == 256 * (256 * (256 * (256 * Pow256(0))));
    BigEndianBytes(x, 4);
  }

  lemma {:induction false} SkipsNops(mem: seq<int>, p: int, k: nat)
    requires Has(mem, p, Nops(k)) && Solid(mem, p + 4 * k)
    ensures SkipNops(mem, p) == Some(p + 4 * k)
    decreases k
  {
    if k > 0 {
      HasSplit(mem, p, U32(NOP), Nops(k - 1));
      WordOf(mem, p, NOP);
      SkipsNops(mem, p + 4, k - 1);
    }
  }

  lemma {:induction false} ReadsCStr(mem: seq<int>, p: int, s: seq<int>)
    requires NameOk(s) && Has(mem, p, s + [0])
    ensures CStr(mem, p) == Some(s)
    decreases |s|
  {
    if s == [] {
      assert mem[p..p + 1][0] == 0;
    } else {
      assert s + [0] == [s[0]] + (s[1..] + [0]);
      HasSplit(mem, p, [s[0]], s[1..] + [0]);
      assert mem[p..p + 1][0] == s[0];
      assert NameOk(s[1..]);
      assert [s[0]] + s[1..] == s;
      ReadsCStr(mem, p + 1, s[1..]);
    }
  }

  /** A token followed by its NOPs. */
  lemma {:induction false} PastThenSkip(mem: seq<int>, p: int, q: int, d: int, k: nat)
    requires InBlock(mem, p) && Past(mem, p) == Some((q, d)) && Has(mem, q, Nops(k)) && Solid(mem, q + 4 * k)
    ensures NextToken(mem, p) == Some((q + 4 * k, d))
  {
    SkipsNops(mem, q, k);
  }

  lemma {:induction false} BeginHead(mem: seq<int>, p: int, name: seq<int>, nops: nat)
    requires Has(mem, p, EncBegin(name, nops))
    ensures Has(mem, p, U32(NODE_BEGIN)) && Has(mem, p + 4, name + [0])
    ensures Has(mem, p + 4 + |Padded(name + [0])|, Nops(nops))
    ensures |EncBegin(name, nops)| == 4 + |Padded(name + [0])| + 4 * nops
  {
    var padded := Padded(name + [0]);
    HasSplit(mem, p, U32(NODE_BEGIN) + padded, Nops(nops));
    HasSplit(mem, p, U32(NODE_BEGIN), padded);
    HasSplit(mem, p + 4, name + [0], Zeros(RoundUp4(|name + [0]|) - |name + [0]|));
  }

  lemma {:induction false} PastBegin(mem: seq<int>, p: int, name: seq<int>)
    requires Aligned(p) && NameOk(name) && Has(mem, p, U32(NODE_BEGIN)) && Has(mem, p + 4, name + [0])
    ensures InBlock(mem, p) && Word(mem, p) == NODE_BEGIN && CStr(mem, p + 4) == Some(name)
    ensures Past(mem, p) == Some((p + 4 + RoundUp4(|name| + 1), 1))
  {
    WordOf(mem, p, NODE_BEGIN);
    ReadsCStr(mem, p + 4, name);
    RoundUpAdd(p, |name| + 1);
  }

  lemma {:induction false} BeginStep(mem: seq<int>, p: int, name: seq<int>, nops: nat)
    requires Aligned(p) && NameOk(name)
    requires Has(mem, p, EncBegin(name, nops)) && Solid(mem, p + |EncBegin(name, nops)|)
    ensures Solid(mem, p) && Word(mem, p) == NODE_BEGIN && CStr(mem, p + 4) == Some(name)
    ensures NextToken(mem, p) == Some((p + |EncBegin(name, nops)|, 1))
  {
    BeginHead(mem, p, name, nops);
    PastBegin(mem, p, name);
    PastThenSkip(mem, p, p + 4 + RoundUp4(|name| + 1), 1, nops);
  }

  lemma {:induction false} EndStep(mem: seq<int>, p: int, nops: nat)
    requires Aligned(p) && Has(mem, p, EncEnd(nops)) && Solid(mem, p + |EncEnd(nops)|)
    ensures Solid(mem, p) && Word(mem, p) == NODE_END
    ensures NextToken(mem, p) == Some((p + |EncEnd(nops)|, -1))
  {
    HasSplit(mem, p, U32(NODE_END), Nops(nops));
    WordOf(mem, p, NODE_END);
    PastThenSkip(mem, p, p + 4, -1, nops);
  }

  /** The fixed part of a property starts with the PROP token. */
  lemma {:induction false} PropHead(mem: seq<int>, p: int, q: Prop)
    requires Has(mem, p, EncProp(q))
    ensures Has(mem, p, U32(PROP)) && Has(mem, p + 4, U32(|q.value|)) && Has(mem, p + 8, U32(q.nameoff))
    ensures Has(mem, p + 12, Padded(q.value)) && Has(mem, p + 12 + |Padded(q.value)|, Nops(q.nops))
    ensures |EncProp(q)| == 12 + |Padded(q.value)| + 4 * q.nops
  {
    var padded := Padded(q.value);
    var hd := U32(PROP) + U32(|q.value|) + U32(q.nameoff);
    HasSplit(mem, p, hd + padded, Nops(q.nops));
    HasSplit(mem, p, hd, padded);
    HasSplit(mem, p, U32(PROP) + U32(|q.value|), U32(q.nameoff));
    HasSplit(mem, p, U32(PROP), U32(|q.value|));
  }

  lemma {:induction false} PastProp(mem: seq<int>, p: int, q: Prop)
    requires Aligned(p) && PropOk(q)
    requires Has(mem, p, U32(PROP)) && Has(mem, p + 4, U32(|q.value|)) && Has(mem, p + 8, U32(q.nameoff))
    ensures InBlock(mem, p) && Word(mem, p) == PROP && InBlock(mem, p + 8)
    ensures Word(mem, p + 4) == |q.value| && Word(mem, p + 8) == q.nameoff
    ensures Past(mem, p) == Some((p + 12 + RoundUp4(|q.value|), 0))
  {
    WordOf(mem, p, PROP);
    WordOf(mem, p + 4, |q.value|);
    WordOf(mem, p + 8, q.nameoff);
    RoundUpAdd(p, |q.value| + 8);
    RoundUpAdd(8, |q.value|);
  }

  lemma {:induction false} PropStep(mem: seq<int>, p: int, q: Prop)
    requires Aligned(p) && PropOk(q) && Has(mem, p, EncProp(q)) && Solid(mem, p + |EncProp(q)|)
    ensures Solid(mem, p) && Word(mem, p) == PROP
    ensures Has(mem, p + 12, q.value) && InBlock(mem, p + 8)
    ensures Word(mem, p + 4) == |q.value| && Word(mem, p + 8) == q.nameoff
    ensures NextToken(mem, p) == Some((p + |EncProp(q)|, 0))
  {
    PropHead(mem, p, q);
    HasSplit(mem, p + 12, q.value, Zeros(RoundUp4(|q.value|) - |q.value|));
    PastProp(mem, p, q);
    PastThenSkip(mem, p, p + 12 + RoundUp4(|q.value|), 0, q.nops);
  }

  /** Every part of an encoding starts with a token other than NOP. */
  lemma {:induction false} PropsSolid(mem: seq<int>, p: int, ps: seq<Prop>)
    requires Aligned(p) && Has(mem, p, EncProps(ps)) && Solid(mem, p + |EncProps(ps)|)
    ensures Solid(mem, p)
  {
    if ps != [] {
      HasSplit(mem, p, EncProp(ps[0]), EncProps(ps[1..]));
      PropHead(mem, p, ps[0]);
      WordOf(mem, p, PROP);
    }
  }

  lemma {:induction false} TreeSolid(mem: seq<int>, p: int, t: Tree)
    requires Aligned(p) && Has(mem, p, EncTree(t))
    ensures Solid(mem, p) && Word(mem, p) == NODE_BEGIN
  {
    HasSplit(mem, p, EncBegin(t.name, t.nops), EncProps(t.props) + (EncForest(t.kids) + EncEnd(t.endNops)));
    HasSplit(mem, p, U32(NODE_BEGIN) + Padded(t.name + [0]), Nops(t.nops));
    HasSplit(mem, p, U32(NODE_BEGIN), Padded(t.name + [0]));
    WordOf(mem, p, NODE_BEGIN);
  }

  lemma {:induction false} ForestSolid(mem: seq<int>, p: int, f: Forest)
    requires Aligned(p) && Has(mem, p, EncForest(f)) && Solid(mem, p + |EncForest(f)|)
    ensures Solid(mem, p)
  {
    if f.Cons? {
      HasSplit(mem, p, EncTree(f.head), EncForest(f.tail));
      TreeSolid(mem, p, f.head);
    }
  }

  /** Where the parts of a node start. */
  function PropsLoc(p: int, t: Tree): int { p + |EncBegin(t.name, t.nops)| }
  function KidsLoc(p: int, t: Tree): int { PropsLoc(p, t) + |EncProps(t.props)| }
  function EndLoc(p: int, t: Tree): int { KidsLoc(p, t) + |EncForest(t.kids)| }

  /** A node somewhere in a block, followed by another token. */
  predicate TreeAt(mem: seq<int>, p: int, t: Tree) {
    0 <= p && Aligned(p) && TreeOk(t) && Has(mem, p, EncTree(t)) && Solid(mem, p + |EncTree(t)|)
  }

  predicate ForestAt(mem: seq<int>, p: int, f: Forest) {
    0 <= p && Aligned(p) && ForestOk(f) && Has(mem, p, EncForest(f)) && Solid(mem, p + |EncForest(f)|)
  }

  predicate PropsAt(mem: seq<int>, p: int, ps: seq<Prop>) {
    && 0 <= p && Aligned(p) && (forall i :: 0 <= i < |ps| ==> PropOk(ps[i]))
    && Has(mem, p, EncProps(ps)) && Solid(mem, p + |EncProps(ps)|)
  }

  lemma {:induction false} TreeHas(mem: seq<int>, p: int, t: Tree)
    requires Aligned(p) && Has(mem, p, EncTree(t))
    ensures Has(mem, p, EncBegin(t.name, t.nops)) && Has(mem, PropsLoc(p, t), EncProps(t.props))
    ensures Has(mem, KidsLoc(p, t), EncForest(t.kids)) && Has(mem, EndLoc(p, t), EncEnd(t.endNops))
    ensures Aligned(PropsLoc(p, t)) && Aligned(KidsLoc(p, t)) && Aligned(EndLoc(p, t))
    ensures EndLoc(p, t) + |EncEnd(t.endNops)| == p + |EncTree(t)|
  {
    hide EncBegin, EncEnd, EncProps, EncForest, Has, Aligned;
    HasSplit(mem, p, EncBegin(t.name, t.nops), EncProps(t.props) + (EncForest(t.kids) + EncEnd(t.endNops)));
    HasSplit(mem, PropsLoc(p, t), EncProps(t.props), EncForest(t.kids) + EncEnd(t.endNops));
    HasSplit(mem, KidsLoc(p, t), EncForest(t.kids), EncEnd(t.endNops));
    AlignedAdd(p, |EncBegin(t.name, t.nops)|);
    AlignedAdd(PropsLoc(p, t), |EncProps(t.props)|);
    AlignedAdd(KidsLoc(p, t), |EncForest(t.kids)|);
  }

  /** A node read back: its first token, its properties, its subnodes and its last token. */
  lemma {:induction false} TreeParts(mem: seq<int>, p: int, t: Tree)
    requires TreeAt(mem, p, t)
    ensures Solid(mem, p) && Word(mem, p) == NODE_BEGIN && CStr(mem, p + 4) == Some(t.name)
    ensures NextToken(mem, p) == Some((PropsLoc(p, t), 1))
    ensures PropsAt(mem, PropsLoc(p, t), t.props)
    ensures ForestAt(mem, KidsLoc(p, t), t.kids)
    ensures Solid(mem, EndLoc(p, t)) && Word(mem, EndLoc(p, t)) == NODE_END
    ensures NextToken(mem, EndLoc(p, t)) == Some((p + |EncTree(t)|, -1))
  {
    hide EncBegin, EncEnd, EncProps, EncForest, EncTree, Has, Word, CStr, NextToken, Aligned;
    TreeHas(mem, p, t);
    EndStep(mem, EndLoc(p, t), t.endNops);
    ForestSolid(mem, KidsLoc(p, t), t.kids);
    PropsSolid(mem, PropsLoc(p, t), t.props);
    BeginStep(mem, p, t.name, t.nops);
  }

  lemma {:induction false} ForestParts(mem: seq<int>, p: int, f: Forest)
    requires ForestAt(mem, p, f) && f.Cons?
    ensures TreeAt(mem, p, f.head) && ForestAt(mem, p + |EncTree(f.head)|, f.tail)
  {
    hide EncTree, Has, Word, Aligned;
    HasSplit(mem, p, EncTree(f.head), EncForest(f.tail));
    AlignedAdd(p, |EncTree(f.head)|);
    ForestSolid(mem, p + |EncTree(f.head)|, f.tail);
  }

  lemma {:induction false} PropsParts(mem: seq<int>, p: int, ps: seq<Prop>)
    requires PropsAt(mem, p, ps) && ps != []
    ensures var n := |EncProp(ps[0])|;
            && Has(mem, p, EncProp(ps[0])) && Solid(mem, p + n) && PropsAt(mem, p + n, ps[1..])
  {
    hide EncProp, Has, Word, Aligned;
    HasSplit(mem, p, EncProp(ps[0]), EncProps(ps[1..]));
    AlignedAdd(p, |EncProp(ps[0])|);
    PropsSolid(mem, p + |EncProp(ps[0])|, ps[1..]);
  }

  /** A structure block holds its tree behind the leading NOPs, and the end token behind that. */
  lemma {:induction false} BlockParts(lead: nat, t: Tree)
    requires TreeOk(t)
    ensures var mem := EncBlock(lead, t);
            && Has(mem, 0, Nops(lead)) && TreeAt(mem, 4 * lead, t)
            && Word(mem, 4 * lead + |EncTree(t)|) == END
  {
    hide EncTree, Aligned;
    var mem := EncBlock(lead, t);
    var p := 4 * lead;
    assert mem[0..|mem|] == mem;
    HasSplit(mem, 0, Nops(lead), EncTree(t) + U32(END));
    HasSplit(mem, p, EncTree(t), U32(END));
    assert |Nops(lead)| == p;
    AlignedAdd(p, |EncTree(t)|);
    WordOf(mem, p + |EncTree(t)|, END);
  }
}
