/**
 The bitwise trie of kernel/ds/btrie.c, a sparse array keyed by base-2^order digits
 written without leading zeros.  A node is named by the digits on the way to it.
 */
module Btrie {
  import Arith

  datatype Option<T> = None | Some(value: T)

  /** `count` is the field `children_cnt`; a child exists when its longer path is in the map. */
  datatype Node<V> = Node(data: Option<V>, count: int)

  type Nodes<V> = map<seq<int>, Node<V>>

  // ---------------------------------------------------------------- digit paths

  function Digits(base: nat, key: nat): (p: seq<int>)
    requires base >= 2
    ensures |p| > 0
    decreases key
  {
    if key < base then [key]
    else
      Arith.QuotientSmaller(key, base);
      Digits(base, key / base) + [key % base]
  }

  function ValueOf(base: nat, p: seq<int>): int {
    if p == [] then 0 else ValueOf(base, p[..|p| - 1]) * base + p[|p| - 1]
  }

  predicate InBase(base: nat, p: seq<int>) { forall k :: 0 <= k < |p| ==> 0 <= p[k] < base }

  /** Reading the digits back gives the key, so no two keys share a path. */
  lemma {:induction false} DigitsRoundTrip(base: nat, key: nat)
    requires base >= 2
    ensures ValueOf(base, Digits(base, key)) == key && InBase(base, Digits(base, key))
    ensures key > 0 ==> Digits(base, key)[0] != 0
    decreases key
  {
    hide ValueOf;
    if key < base {
      ValueOfNext(base, [], key);
      assert [] + [key] == [key];
    } else {
      Arith.QuotientSmaller(key, base);
      DigitsRoundTrip(base, key / base);
      ValueOfNext(base, Digits(base, key / base), key % base);
      Arith.DivMod(key, base);
    }
  }

  lemma {:induction false} ValueOfNext(base: nat, p: seq<int>, d: int)
    ensures ValueOf(base, p + [d]) == ValueOf(base, p) * base + d && ValueOf(base, []) == 0
  {
    assert (p + [d])[..|p|] == p;
  }

  lemma {:induction false} DigitsInjective(base: nat, j: nat, k: nat)
    requires base >= 2 && Digits(base, j) == Digits(base, k)
    ensures j == k
  {
    DigitsRoundTrip(base, j);
    DigitsRoundTrip(base, k);
  }

  /** `key` shifted right by `n` digits. */
  function Shift(base: nat, key: nat, n: nat): nat
    requires base >= 2
  {
    if n == 0 then key else Shift(base, key / base, n - 1)
  }

  function Digit(base: nat, key: nat, n: nat): int
    requires base >= 2
  {
    Shift(base, key, n) % base
  }

  /** The position of the leading digit, which the traversal gets by counting leading zero bits. */
  function TopDigit(base: nat, key: nat): nat
    requires base >= 2
  {
    |Digits(base, key)| - 1
  }

  /** The digit the traversal masks out at distance `n` from the right. */
  lemma {:induction false} DigitAt(base: nat, key: nat, n: nat)
    requires base >= 2 && n <= TopDigit(base, key)
    ensures Digits(base, key)[TopDigit(base, key) - n] == Digit(base, key, n)
    decreases key
  {
    if key >= base && n > 0 {
      Arith.QuotientSmaller(key, base);
      DigitAt(base, key / base, n - 1);
    }
  }

  // ---------------------------------------------------------------- operations on nodes

  function Up(p: seq<int>): seq<int>
    requires p != []
  {
    p[..|p| - 1]
  }

  /** Create what is missing on the way down to `p`. */
  function Grow<V>(nodes: Nodes<V>, p: seq<int>): (r: Nodes<V>)
    requires [] in nodes
    ensures p in r && forall q :: q in nodes ==> q in r
    decreases |p|
  {
    if p in nodes then nodes
    else
      var above := Grow(nodes, Up(p));
      above[Up(p) := above[Up(p)].(count := above[Up(p)].count + 1)][p := Node(None, 0)]
  }

  function Put<V>(nodes: Nodes<V>, p: seq<int>, data: Option<V>): (r: Nodes<V>)
    requires [] in nodes
    ensures [] in r
  {
    var grown := Grow(nodes, p);
    grown[p := grown[p].(data := data)]
  }

  function DataAt<V>(nodes: Nodes<V>, p: seq<int>): Option<V> {
    if p in nodes then nodes[p].data else None
  }

  /** Clear the parent's slot for `p`: the node and everything below it are gone. */
  function Unlink<V>(nodes: Nodes<V>, p: seq<int>): Nodes<V>
    requires p != []
  {
    map q | q in nodes && !(p <= q) :: if q == Up(p) then nodes[q].(count := nodes[q].count - 1) else nodes[q]
  }

  /** Unlink `p`, then its ancestors while they have neither children nor data. */
  function Prune<V>(nodes: Nodes<V>, p: seq<int>): Nodes<V>
    decreases |p|
  {
    if p == [] then nodes
    else
      var cut := Unlink(nodes, p);
      if Up(p) in cut && cut[Up(p)].count == 0 && cut[Up(p)].data == None then Prune(cut, Up(p)) else cut
  }

  function Cut<V>(nodes: Nodes<V>, p: seq<int>): Nodes<V> {
    if p !in nodes then nodes
    else if nodes[p].count == 0 then nodes[p := nodes[p].(data := None)]
    else Prune(nodes, p)
  }

  // ---------------------------------------------------------------- the invariant

  ghost function Kids<V>(base: nat, nodes: Nodes<V>, p: seq<int>): set<int> {
    set i: int | 0 <= i < base && p + [i] in nodes
  }

  ghost predicate NodeOk<V>(base: nat, nodes: Nodes<V>, p: seq<int>)
    requires p in nodes
  {
    && InBase(base, p) && (p != [] ==> Up(p) in nodes)
    && nodes[p].count == |Kids(base, nodes, p)|
  }

  /** Paths are closed under taking parents, and every child count is exact. */
  ghost predicate Wf<V>(base: nat, nodes: Nodes<V>) {
    [] in nodes && forall p {:trigger NodeOk(base, nodes, p)} :: p in nodes ==> NodeOk(base, nodes, p)
  }

  lemma {:induction false} PrefixIn<V>(base: nat, nodes: Nodes<V>, p: seq<int>, q: seq<int>)
    requires Wf(base, nodes) && q in nodes && p <= q
    ensures p in nodes
    decreases |q|
  {
    if p != q {
      assert NodeOk(base, nodes, q);
      PrefixIn(base, nodes, p, Up(q));
    }
  }

  lemma {:induction false} GrowData<V>(nodes: Nodes<V>, p: seq<int>, q: seq<int>)
    requires [] in nodes
    ensures DataAt(Grow(nodes, p), q) == DataAt(nodes, q)
    decreases |p|
  {
    if p !in nodes {
      GrowData(nodes, Up(p), q);
      if p in Grow(nodes, Up(p)) {
        GrowNew(nodes, Up(p), p);
        assert false;
      }
    }
  }

  /** Growing towards `p` adds prefixes of `p` only. */
  lemma {:induction false} GrowNew<V>(nodes: Nodes<V>, p: seq<int>, q: seq<int>)
    requires [] in nodes && q in Grow(nodes, p) && q !in nodes
    ensures q <= p
    decreases |p|
  {
    if p !in nodes && q != p {
      GrowNew(nodes, Up(p), q);
    }
  }

  lemma {:induction false} GrowWf<V>(base: nat, nodes: Nodes<V>, p: seq<int>)
    requires Wf(base, nodes) && InBase(base, p)
    ensures Wf(base, Grow(nodes, p))
    decreases |p|
  {
    if p !in nodes {
      var up := Up(p);
      GrowWf(base, nodes, up);
      var above := Grow(nodes, up);
      if p in above {
        GrowNew(nodes, up, p);
        assert false;
      }
      AddChildWf(base, above, p);
    }
  }

  /** Hanging a new leaf under an existing node, and counting it there. */
  lemma {:induction false} AddChildWf<V>(base: nat, nodes: Nodes<V>, p: seq<int>)
    requires Wf(base, nodes) && p != [] && p !in nodes && Up(p) in nodes && InBase(base, p)
    ensures Wf(base, nodes[Up(p) := nodes[Up(p)].(count := nodes[Up(p)].count + 1)][p := Node(None, 0)])
  {
    hide NodeOk;
    var r := nodes[Up(p) := nodes[Up(p)].(count := nodes[Up(p)].count + 1)][p := Node(None, 0)];
    forall q | q in r ensures NodeOk(base, r, q) {
      if q == p {
        NewLeafOk(base, nodes, r, p);
      } else {
        assert NodeOk(base, nodes, q);
        NewSiblingOk(base, nodes, r, p, q);
      }
    }
  }

  lemma {:induction false} NewLeafOk<V>(base: nat, nodes: Nodes<V>, r: Nodes<V>, p: seq<int>)
    requires Wf(base, nodes) && p != [] && p !in nodes && Up(p) in nodes && InBase(base, p)
    requires p in r && r[p].count == 0 && forall q :: q in r <==> q in nodes || q == p
    ensures NodeOk(base, r, p)
  {
    NoneBelow(base, nodes, p);
    assert Kids(base, r, p) == {};
  }

  lemma {:induction false} NewSiblingOk<V>(base: nat, nodes: Nodes<V>, r: Nodes<V>, p: seq<int>, q: seq<int>)
    requires p != [] && p !in nodes && InBase(base, p) && q in nodes && NodeOk(base, nodes, q)
    requires forall q :: q in r <==> q in nodes || q == p
    requires r[q].count == if q == Up(p) then nodes[q].count + 1 else nodes[q].count
    ensures NodeOk(base, r, q)
  {
    if q == Up(p) {
      var last := p[|p| - 1];
      assert q + [last] == p;
      assert Kids(base, r, q) == Kids(base, nodes, q) + {last};
    } else {
      ChildOf(q, p);
      assert Kids(base, r, q) == Kids(base, nodes, q);
    }
  }

  lemma {:induction false} ChildOf(q: seq<int>, p: seq<int>)
    requires p != [] && q != Up(p)
    ensures forall i :: q + [i] != p
  {
  }

  lemma {:induction false} NoneBelow<V>(base: nat, nodes: Nodes<V>, p: seq<int>)
    requires Wf(base, nodes) && p !in nodes
    ensures forall i :: p + [i] !in nodes
  {
    forall i ensures p + [i] !in nodes {
      if p + [i] in nodes {
        PrefixIn(base, nodes, p, p + [i]);
        assert false;
      }
    }
  }

  /** Changing data alone does not disturb the shape. */
  lemma {:induction false} DataWf<V>(base: nat, nodes: Nodes<V>, p: seq<int>, data: Option<V>)
    requires Wf(base, nodes) && p in nodes
    ensures Wf(base, nodes[p := nodes[p].(data := data)])
  {
    var r := nodes[p := nodes[p].(data := data)];
    forall q | q in r ensures NodeOk(base, r, q) {
      assert NodeOk(base, nodes, q);
      assert Kids(base, r, q) == Kids(base, nodes, q);
    }
  }

  lemma {:induction false} PutExact<V>(base: nat, nodes: Nodes<V>, p: seq<int>, data: Option<V>)
    requires Wf(base, nodes) && InBase(base, p)
    ensures Wf(base, Put(nodes, p, data))
    ensures forall q :: DataAt(Put(nodes, p, data), q) == if q == p then data else DataAt(nodes, q)
  {
    GrowWf(base, nodes, p);
    DataWf(base, Grow(nodes, p), p, data);
    forall q ensures DataAt(Grow(nodes, p), q) == DataAt(nodes, q) {
      GrowData(nodes, p, q);
    }
  }

  lemma {:induction false} UnlinkWf<V>(base: nat, nodes: Nodes<V>, p: seq<int>)
    requires Wf(base, nodes) && p in nodes && p != []
    ensures Wf(base, Unlink(nodes, p)) && Up(p) in Unlink(nodes, p)
  {
    hide NodeOk;
    var r := Unlink(nodes, p);
    forall q | q in r ensures NodeOk(base, r, q) {
      assert NodeOk(base, nodes, q) && NodeOk(base, nodes, p);
      UnlinkNode(base, nodes, p, q);
    }
    assert NodeOk(base, nodes, p);
    UpStays(base, nodes, p);
  }

  lemma {:induction false} UpStays<V>(base: nat, nodes: Nodes<V>, p: seq<int>)
    requires p in nodes && p != [] && NodeOk(base, nodes, p)
    ensures Up(p) in Unlink(nodes, p) && ([] in nodes ==> [] in Unlink(nodes, p))
  {
  }

  /** What is left keeps its parent, and only the parent of `p` loses a child. */
  lemma {:induction false} UnlinkNode<V>(base: nat, nodes: Nodes<V>, p: seq<int>, q: seq<int>)
    requires p in nodes && p != [] && NodeOk(base, nodes, p) && q in Unlink(nodes, p) && NodeOk(base, nodes, q)
    ensures NodeOk(base, Unlink(nodes, p), q)
  {
    UnlinkKids(base, nodes, p, q);
    hide Kids, InBase;
    assert q != [] ==> !(p <= Up(q));
  }

  lemma {:induction false} UnlinkKids<V>(base: nat, nodes: Nodes<V>, p: seq<int>, q: seq<int>)
    requires p in nodes && p != [] && InBase(base, p) && !(p <= q)
    ensures |Kids(base, Unlink(nodes, p), q)| == |Kids(base, nodes, q)| - (if q == Up(p) then 1 else 0)
  {
    var r := Unlink(nodes, p);
    if q == Up(p) {
      var last := p[|p| - 1];
      assert q + [last] == p;
      forall i | i != last ensures !(p <= q + [i]) {
        assert (q + [i])[|q|] == i && p[|q|] == last;
      }
      assert Kids(base, r, q) == Kids(base, nodes, q) - {last};
      assert last in Kids(base, nodes, q);
    } else {
      forall i ensures !(p <= q + [i]) {
        ChildOf(q, p);
      }
      assert Kids(base, r, q) == Kids(base, nodes, q);
    }
  }

  /** A pruned ancestor has no data and no children, so pruning loses nothing outside the subtree of `p`. */
  lemma {:induction false} PruneExact<V>(base: nat, nodes: Nodes<V>, p: seq<int>)
    requires Wf(base, nodes) && p in nodes && p != []
    ensures Wf(base, Prune(nodes, p))
    ensures forall q :: DataAt(Prune(nodes, p), q) == if p <= q then None else DataAt(nodes, q)
    decreases |p|
  {
    var cut, up := Unlink(nodes, p), Up(p);
    UnlinkWf(base, nodes, p);
    if cut[up].count == 0 && cut[up].data == None && up != [] {
      PruneExact(base, cut, up);
      forall q ensures DataAt(Prune(nodes, p), q) == if p <= q then None else DataAt(nodes, q) {
        LeafAlone(base, cut, up, q);
        assert DataAt(cut, q) == if p <= q then None else DataAt(nodes, q);
      }
    }
  }

  /** The nodes on the way to `p`, from length `k` on, hold no data and lead nowhere else. */
  ghost predicate LonelyFrom<V>(nodes: Nodes<V>, p: seq<int>, k: nat) {
    forall m {:trigger p[..m]} :: k <= m < |p| ==>
      p[..m] in nodes && nodes[p[..m]].count == 1 && nodes[p[..m]].data == None
  }

  lemma {:induction false} LonelyUp<V>(nodes: Nodes<V>, p: seq<int>, k: nat)
    requires p != [] && k < |p|
    ensures LonelyFrom(nodes, p, k)
       <==> Up(p) in nodes && nodes[Up(p)].count == 1 && nodes[Up(p)].data == None && LonelyFrom(nodes, Up(p), k)
  {
    assert forall m :: 0 <= m < |Up(p)| ==> Up(p)[..m] == p[..m];
    assert Up(p) == p[..|p| - 1];
  }

  lemma {:induction false} LonelyCut<V>(nodes: Nodes<V>, p: seq<int>, k: nat)
    requires p != []
    ensures LonelyFrom(Unlink(nodes, p), Up(p), k) <==> LonelyFrom(nodes, Up(p), k)
  {
    var up := Up(p);
    forall m | 0 <= m < |up| ensures !(p <= up[..m]) && up[..m] != up {
      assert |up[..m]| == m;
    }
  }

  /**
   Which nodes an upward pruning removes: everything below `p`, and every node on the way to it
   from which all that is left leads to `p`; the root stays.
   */
  lemma {:induction false} PruneKeys<V>(base: nat, nodes: Nodes<V>, p: seq<int>, q: seq<int>)
    requires Wf(base, nodes) && p in nodes && p != []
    ensures q in Prune(nodes, p) <==> q in nodes && !(p <= q) && !(q != [] && q < p && LonelyFrom(nodes, p, |q|))
    decreases |p|
  {
    hide LonelyFrom, Kids;
    var cut, up := Unlink(nodes, p), Up(p);
    UnlinkWf(base, nodes, p);
    assert q < p ==> q <= up && (q != up ==> q < up);
    assert q <= up ==> |q| < |p|;
    if q < p {
      LonelyUp(nodes, p, |q|);
      LonelyCut(nodes, p, |q|);
      LonelyNone(nodes, up, |q|);
    }
    if cut[up].count == 0 && cut[up].data == None && up != [] {
      PruneKeys(base, cut, up, q);
      LeafAlone(base, cut, up, q);
    }
  }

  lemma {:induction false} LonelyNone<V>(nodes: Nodes<V>, p: seq<int>, k: nat)
    ensures k >= |p| ==> LonelyFrom(nodes, p, k)
  {
  }

  /** A removal takes nodes out of the trie if and only if the key's node has children; a childless one stays, empty. */
  lemma {:induction false} RemoveFreesIff<V>(base: nat, nodes: Nodes<V>, key: nat)
    requires base >= 2 && Wf(base, nodes)
    ensures var p := Digits(base, key);
            Remove(base, nodes, key).Keys != nodes.Keys <==> p in nodes && nodes[p].count > 0
  {
    hide LonelyFrom, Digits;
    var p := Digits(base, key);
    NotRoot(base, key);
    if p in nodes {
      assert NodeOk(base, nodes, p);
      if nodes[p].count != 0 {
        PruneKeys(base, nodes, p, p);
      }
    }
  }

  lemma {:induction false} NotRoot(base: nat, key: nat)
    requires base >= 2
    ensures Digits(base, key) != []
  {
  }

  lemma {:induction false} HasKid<V>(base: nat, nodes: Nodes<V>, p: seq<int>, i: int)
    requires Wf(base, nodes) && p in nodes && p + [i] in nodes
    ensures nodes[p].count > 0
  {
    assert NodeOk(base, nodes, p) && NodeOk(base, nodes, p + [i]);
    assert (p + [i])[|p|] == i;
    assert i in Kids(base, nodes, p);
  }

  lemma {:induction false} LeafAlone<V>(base: nat, nodes: Nodes<V>, p: seq<int>, q: seq<int>)
    requires Wf(base, nodes) && p in nodes && nodes[p].count == 0
    ensures p <= q && p != q ==> q !in nodes
  {
    if p <= q && p != q && q in nodes {
      PrefixIn(base, nodes, p + [q[|p|]], q);
      HasKid(base, nodes, p, q[|p|]);
      assert false;
    }
  }

  /**
   What removal does, exactly: on a node without children it clears that node; on an
   inner node every path through it is lost, and nothing else.  Child counts stay exact.
   */
  lemma {:induction false} CutExact<V>(base: nat, nodes: Nodes<V>, p: seq<int>)
    requires Wf(base, nodes) && p != []
    ensures Wf(base, Cut(nodes, p))
    ensures forall q :: DataAt(Cut(nodes, p), q) == if p <= q then None else DataAt(nodes, q)
  {
    if p !in nodes {
      forall q | p <= q ensures q !in nodes {
        if q in nodes {
          PrefixIn(base, nodes, p, q);
          assert false;
        }
      }
    } else if nodes[p].count == 0 {
      DataWf(base, nodes, p, None);
      forall q | p <= q && q != p ensures q !in nodes {
        LeafAlone(base, nodes, p, q);
      }
    } else {
      PruneExact(base, nodes, p);
    }
  }

  // ---------------------------------------------------------------- keys

  function Get<V>(base: nat, nodes: Nodes<V>, key: nat): Option<V>
    requires base >= 2
  {
    DataAt(nodes, Digits(base, key))
  }

  function Set<V>(base: nat, nodes: Nodes<V>, key: nat, data: Option<V>): Nodes<V>
    requires base >= 2 && [] in nodes
  {
    Put(nodes, Digits(base, key), data)
  }

  function Remove<V>(base: nat, nodes: Nodes<V>, key: nat): Nodes<V>
    requires base >= 2
  {
    Cut(nodes, Digits(base, key))
  }

  /** Setting a key changes the answer for that key only. */
  lemma {:induction false} SetExact<V>(base: nat, nodes: Nodes<V>, key: nat, data: Option<V>)
    requires base >= 2 && Wf(base, nodes)
    ensures Wf(base, Set(base, nodes, key, data))
    ensures forall k: nat :: Get(base, Set(base, nodes, key, data), k) == if k == key then data else Get(base, nodes, k)
  {
    hide Put, Wf, DataAt;
    DigitsRoundTrip(base, key);
    PutExact(base, nodes, Digits(base, key), data);
    forall k: nat ensures k != key ==> Digits(base, k) != Digits(base, key) {
      if Digits(base, k) == Digits(base, key) {
        DigitsInjective(base, k, key);
      }
    }
  }

  /** `key` is `k` followed by more digits, or `k` itself. */
  ghost predicate Extends(base: nat, k: nat, key: nat)
    requires base >= 2
  {
    k == key || (k > 0 && exists n: nat :: Shift(base, key, n) == k)
  }

  lemma {:induction false} ShiftPrefix(base: nat, key: nat, n: nat)
    requires base >= 2 && n <= TopDigit(base, key)
    ensures Digits(base, Shift(base, key, n)) == Digits(base, key)[..|Digits(base, key)| - n]
    decreases key
  {
    if n > 0 {
      Arith.QuotientSmaller(key, base);
      ShiftPrefix(base, key / base, n - 1);
    }
  }

  lemma {:induction false} ShiftOut(base: nat, key: nat, n: nat)
    requires base >= 2 && n > TopDigit(base, key)
    ensures Shift(base, key, n) == 0
    decreases key + n
  {
    if key < base {
      ShiftZero(base, n - 1);
    } else {
      Arith.QuotientSmaller(key, base);
      ShiftOut(base, key / base, n - 1);
    }
  }

  lemma {:induction false} ShiftZero(base: nat, n: nat)
    requires base >= 2
    ensures Shift(base, 0, n) == 0
  {
    if n > 0 {
      ShiftZero(base, n - 1);
    }
  }

  lemma {:induction false} ExtendsIsPrefix(base: nat, k: nat, key: nat)
    requires base >= 2
    ensures Extends(base, k, key) <==> Digits(base, k) <= Digits(base, key)
  {
    if Extends(base, k, key) && k != key {
      var n: nat :| Shift(base, key, n) == k;
      if n > TopDigit(base, key) {
        ShiftOut(base, key, n);
      } else {
        ShiftPrefix(base, key, n);
      }
    }
    if Digits(base, k) <= Digits(base, key) {
      var n := |Digits(base, key)| - |Digits(base, k)|;
      ShiftPrefix(base, key, n);
      DigitsInjective(base, Shift(base, key, n), k);
      if k == 0 {
        DigitsRoundTrip(base, key);
        assert Digits(base, key)[0] == Digits(base, k)[0] == 0;
      }
    }
  }

  /**
   Removing a key loses exactly the keys that extend it.  It clears that key alone when
   its node has no children.
   */
  lemma {:induction false} RemoveExact<V>(base: nat, nodes: Nodes<V>, key: nat)
    requires base >= 2 && Wf(base, nodes)
    ensures Wf(base, Remove(base, nodes, key))
    ensures forall k: nat :: Get(base, Remove(base, nodes, key), k)
                          == if Extends(base, key, k) then None else Get(base, nodes, k)
    ensures (Digits(base, key) in nodes ==> nodes[Digits(base, key)].count == 0) ==>
              forall k: nat :: k != key ==> Get(base, Remove(base, nodes, key), k) == Get(base, nodes, k)
  {
    hide Cut, Wf;
    var p := Digits(base, key);
    CutExact(base, nodes, p);
    forall k: nat ensures Extends(base, key, k) <==> p <= Digits(base, k) {
      ExtendsIsPrefix(base, key, k);
    }
    if p in nodes ==> nodes[p].count == 0 {
      forall k: nat | k != key && p <= Digits(base, k) ensures Get(base, nodes, k) == None {
        LeafKey(base, nodes, key, k);
      }
    }
  }

  /** Removal touches no other key exactly when nothing is stored at a longer key that starts with it. */
  lemma {:induction false} RemoveAloneIff<V>(base: nat, nodes: Nodes<V>, key: nat)
    requires base >= 2 && Wf(base, nodes)
    ensures (forall k: nat :: k != key ==> Get(base, Remove(base, nodes, key), k) == Get(base, nodes, k))
       <==> (forall k: nat :: k != key && Extends(base, key, k) ==> Get(base, nodes, k) == None)
  {
    hide Extends, Get, Remove, Wf;
    RemoveExact(base, nodes, key);
  }

  lemma {:induction false} LeafKey<V>(base: nat, nodes: Nodes<V>, key: nat, k: nat)
    requires base >= 2 && Wf(base, nodes) && k != key && Digits(base, key) <= Digits(base, k)
    requires Digits(base, key) in nodes ==> nodes[Digits(base, key)].count == 0
    ensures Digits(base, k) !in nodes
  {
    if Digits(base, k) == Digits(base, key) {
      DigitsInjective(base, k, key);
    } else if Digits(base, key) in nodes {
      LeafAlone(base, nodes, Digits(base, key), Digits(base, k));
    } else if Digits(base, k) in nodes {
      PrefixIn(base, nodes, Digits(base, key), Digits(base, k));
    }
  }

  // ---------------------------------------------------------------- every run

  datatype Op<V> = OpSet(key: nat, data: Option<V>) | OpRemove(key: nat)

  function Init<V>(): Nodes<V> { map[[] := Node(None, 0)] }

  ghost function Run<V>(base: nat, ops: seq<Op<V>>): (r: Nodes<V>)
    requires base >= 2
    ensures Wf(base, r)
  {
    if ops == [] then
      RootWf<V>(base);
      Init()
    else
      var before := Run(base, ops[..|ops| - 1]);
      match ops[|ops| - 1]
      case OpSet(key, data) =>
        SetExact(base, before, key, data);
        Set(base, before, key, data)
      case OpRemove(key) =>
        RemoveExact(base, before, key);
        Remove(base, before, key)
  }

  lemma {:induction false} RootWf<V>(base: nat)
    ensures Wf(base, Init<V>())
  {
    assert Kids(base, Init<V>(), []) == {};
  }

  /** What the history says a key holds: the last set of it, unless a removal reached it since. */
  ghost function Expected<V>(base: nat, ops: seq<Op<V>>, k: nat): Option<V>
    requires base >= 2
  {
    if ops == [] then None
    else
      match ops[|ops| - 1]
      case OpSet(key, data) => if key == k then data else Expected(base, ops[..|ops| - 1], k)
      case OpRemove(key) => if Extends(base, key, k) then None else Expected(base, ops[..|ops| - 1], k)
  }

  /** After any sequence of sets and removes, every key holds what the history says. */
  lemma {:induction false} RunRefines<V>(base: nat, ops: seq<Op<V>>, k: nat)
    requires base >= 2
    ensures Get(base, Run(base, ops), k) == Expected(base, ops, k)
  {
    hide Extends, Wf;
    if ops == [] {
      assert Digits(base, k) != [];
    } else {
      var before := ops[..|ops| - 1];
      RunRefines(base, before, k);
      match ops[|ops| - 1]
      case OpSet(key, data) => SetExact(base, Run(base, before), key, data);
      case OpRemove(key) => RemoveExact(base, Run(base, before), key);
    }
  }

  /** With 16 children per node, removing key 1 also forgets what was stored at key 16. */
  lemma {:induction false} RemoveTakesOthers<V>(x: V, y: V)
    ensures Get(16, Run(16, [OpSet(1, Some(x)), OpSet(16, Some(y))]), 16) == Some(y)
    ensures Get(16, Run(16, [OpSet(1, Some(x)), OpSet(16, Some(y)), OpRemove(1)]), 16) == None
  {
    var two := [OpSet(1, Some(x)), OpSet(16, Some(y))];
    var three := [OpSet(1, Some(x)), OpSet(16, Some(y)), OpRemove(1)];
    RunRefines(16, two, 16);
    RunRefines(16, three, 16);
    assert Shift(16, 16, 1) == 1;
  }

  // ---------------------------------------------------------------- the mutable trie

  /** The mask of the leading digit is computed in a signed 32-bit integer. */
  predicate MaskFits(base: nat, key: nat)
    requires base >= 2
  {
    Shift(base, 0x7fff_ffff, TopDigit(base, key)) >= base - 1
  }

  class Trie<V> {
    const base: nat
    var nodes: Nodes<V>

    ghost predicate Valid()
      reads this
    {
      base >= 2 && Wf(base, nodes)
    }

    constructor (base: nat)
      requires base >= 2
      ensures Valid() && this.base == base && nodes == Init()
    {
      this.base := base;
      nodes := map[[] := Node(None, 0)];
      new;
      RootWf<V>(base);
    }

    /** Hang a new node for digit `i` under `parent` and count it. */
    method Create(parent: seq<int>, i: int)
      requires [] in nodes && parent in nodes && parent + [i] !in nodes
      modifies this
      ensures nodes == Grow(old(nodes), parent + [i])
    {
      assert Up(parent + [i]) == parent;
      nodes := nodes[parent := nodes[parent].(count := nodes[parent].count + 1)];
      nodes := nodes[parent + [i] := Node(None, 0)];
    }

    /** Walk down from the leading digit, creating missing nodes when inserting. */
    method Traverse(key: nat, insert: bool) returns (found: Option<seq<int>>)
      requires Valid() && MaskFits(base, key)
      modifies this
      ensures !insert ==> nodes == old(nodes)
      ensures insert ==> nodes == Grow(old(nodes), Digits(base, key))
      ensures found == if Digits(base, key) in nodes then Some(Digits(base, key)) else None
    {
      assert Grow(nodes, []) == nodes;
      hide Digit, Digits, Grow, NodeOk, Shift;
      ghost var path, was := Digits(base, key), nodes;
      var tree: seq<int> := [];
      var lz := TopDigit(base, key);
      while lz >= 0
        invariant -1 <= lz <= |path| - 1 && tree == path[..|path| - 1 - lz]
        invariant [] in nodes && tree in nodes && (!insert ==> nodes == was)
        invariant insert ==> nodes == Grow(was, tree)
      {
        DigitAt(base, key, lz);
        var i := Digit(base, key, lz);
        assert path[..|path| - lz] == tree + [i];
        if tree + [i] !in nodes {
          if !insert {
            if path in nodes {
              PrefixIn(base, nodes, tree + [i], path);
            }
            return None;
          }
          GrowTwice(was, tree, i);
          Create(tree, i);
        } else if insert {
          GrowOn(base, was, tree, i);
        }
        tree := tree + [i];
        lz := lz - 1;
      }
      assert tree == path;
      return Some(tree);
    }

    method BtrieGet(key: nat) returns (r: Option<V>)
      requires Valid() && MaskFits(base, key)
      modifies this
      ensures nodes == old(nodes) && r == Get(base, nodes, key)
    {
      var found := Traverse(key, false);
      if found == None { return None; }
      return nodes[found.value].data;
    }

    method BtrieSet(key: nat, data: Option<V>)
      requires Valid() && MaskFits(base, key)
      modifies this
      ensures Valid() && nodes == Set(base, old(nodes), key, data)
    {
      SetExact(base, nodes, key, data);
      var found := Traverse(key, true);
      nodes := nodes[found.value := nodes[found.value].(data := data)];
    }

    /** Take the node out of its parent, and go on upwards while that leaves the parent useless. */
    method RemoveRecursive(node: seq<int>)
      requires base >= 2 && Wf(base, nodes) && node in nodes
      modifies this
      ensures nodes == Prune(old(nodes), node)
      decreases |node|
    {
      if node == [] { return; }
      UnlinkWf(base, nodes, node);
      var parent := node[..|node| - 1];
      nodes := Unlink(nodes, node);
      if nodes[parent].count == 0 && nodes[parent].data.None? {
        RemoveRecursive(parent);
      }
    }

    method BtrieRemove(key: nat) returns (r: Option<V>)
      requires Valid() && MaskFits(base, key)
      modifies this
      ensures Valid() && nodes == Remove(base, old(nodes), key)
      ensures r == Get(base, old(nodes), key)
    {
      RemoveExact(base, nodes, key);
      var found := Traverse(key, false);
      if found == None { return None; }
      r := nodes[found.value].data;
      if nodes[found.value].count == 0 {
        nodes := nodes[found.value := nodes[found.value].(data := None)];
      } else {
        RemoveRecursive(found.value);
      }
    }
  }

  lemma {:induction false} GrowTwice<V>(nodes: Nodes<V>, p: seq<int>, i: int)
    requires [] in nodes && p + [i] !in Grow(nodes, p)
    ensures Grow(Grow(nodes, p), p + [i]) == Grow(nodes, p + [i])
  {
    assert Up(p + [i]) == p;
  }

  lemma {:induction false} GrowOn<V>(base: nat, nodes: Nodes<V>, p: seq<int>, i: int)
    requires Wf(base, nodes) && p + [i] in Grow(nodes, p)
    ensures Grow(nodes, p + [i]) == Grow(nodes, p)
  {
    if p + [i] !in nodes {
      GrowNew(nodes, p, p + [i]);
      assert false;
    }
    PrefixIn(base, nodes, p, p + [i]);
  }
}
