/**
 The overwriting ring buffer of kernel/ds/rbuffer.c.  Positions are 64-bit unsigned numbers, so
 `ptr - len` wraps around at 2^64 before it is reduced by the capacity.
 */
module RingBuffer {
  import opened Arith

  /** Size of the number range positions are computed in. */
  const WORD := 0x1_0000_0000_0000_0000

  // ---------------------------------------------------------------- positions

  function Fold(m: nat, i: int): int { if i >= m then i - m else i }

  lemma {:induction false} FoldIsMod(m: nat, i: int)
    requires m > 0 && 0 <= i < 2 * m
    ensures i % m == Fold(m, i) && 0 <= Fold(m, i) < m
  {
    Remainder(i, m, if i >= m then 1 else 0, Fold(m, i));
  }

  /** `i % m` for a position at most one turn ahead. */
  function Mod(m: nat, i: int): (r: int)
    requires 0 <= i < 2 * m
    ensures r == Fold(m, i) && 0 <= r < m
  {
    FoldIsMod(m, i);
    i % m
  }

  /** `(a - b) % m` in 64-bit unsigned arithmetic. */
  function Minus(m: nat, a: int, b: int): int
    requires m > 0
  {
    (if a >= b then a - b else a - b + WORD) % m
  }

  /** `b` places before `a` on the ring. */
  function Back(m: nat, a: int, b: int): int { if a >= b then a - b else a - b + m }

  /** How many places past the right one a subtraction lands that wraps around. */
  function Skew(m: nat, a: int, b: int): int
    requires m > 0
  {
    if a >= b then 0 else WORD % m
  }

  function Landing(m: nat, a: int, b: int): int
    requires m > 0
  {
    Fold(m, Back(m, a, b) + Skew(m, a, b))
  }

  /** Where the subtraction lands, for every capacity. */
  lemma {:induction false} MinusLands(m: nat, a: int, b: int)
    requires m > 0 && 0 <= a < m && 0 <= b <= m && m < WORD
    ensures 0 <= Skew(m, a, b) < m && 0 <= Back(m, a, b) < m
    ensures Minus(m, a, b) == Landing(m, a, b) && 0 <= Minus(m, a, b) < m
  {
    if a >= b {
      Remainder(a - b, m, 0, a - b);
    } else {
      var w, q, x := WORD % m, WORD / m, a - b + m;
      assert WORD == q * m + w;
      if w + x < m {
        assert (q - 1) * m == q * m - m;
        Remainder(a - b + WORD, m, q - 1, w + x);
      } else {
        Remainder(a - b + WORD, m, q, w + x - m);
      }
    }
  }

  /** The subtraction lands on the right place exactly when it does not wrap or the capacity divides 2^64. */
  lemma {:induction false} MinusIsBackIff(m: nat, a: int, b: int)
    requires m > 0 && 0 <= a < m && 0 <= b <= m && m < WORD
    ensures 0 <= Minus(m, a, b) < m
    ensures Minus(m, a, b) == Back(m, a, b) <==> a >= b || WORD % m == 0
  {
    hide Minus;
    MinusLands(m, a, b);
  }

  /** With capacity 3, one place before position 0 comes out as position 0 instead of 2. */
  lemma {:induction false} ThreeGoesWrong()
    ensures Minus(3, 0, 1) == 0 && Back(3, 0, 1) == 2
  {
  }

  /** Every power of two up to 2^64 divides 2^64. */
  lemma {:induction false} PowersDivide(k: nat)
    requires k <= 64
    ensures Pow2(k) > 0 && WORD % Pow2(k) == 0
  {
    Pow2Positive(k);
    Pow2Splits(k, 64 - k);
    Pow2Is64();
    Remainder(WORD, Pow2(k), Pow2(64 - k), 0);
  }

  function Pow2(k: nat): nat { if k == 0 then 1 else 2 * Pow2(k - 1) }

  lemma {:induction false} Pow2Positive(k: nat)
    ensures Pow2(k) > 0
  {
    if k > 0 {
      Pow2Positive(k - 1);
    }
  }

  lemma {:induction false} Pow2Splits(j: nat, k: nat)
    ensures Pow2(j + k) == Pow2(k) * Pow2(j)
  {
    if j > 0 {
      Pow2Splits(j - 1, k);
      DoubleRight(Pow2(k), Pow2(j - 1));
    }
  }

  lemma {:induction false} Pow2Is64()
    ensures Pow2(64) == WORD
  {
    assert Pow2(4) == 16 by { assert Pow2(2) == 4; }
    hide Pow2;
    Pow2Splits(4, 4);
    Pow2Splits(8, 8);
    Pow2Splits(16, 16);
    Pow2Splits(32, 32);
  }

  // ---------------------------------------------------------------- the sequence it stands for

  predicate Shape(buf: seq<int>, ptr: int, len: int) { 0 < |buf| < WORD && 0 <= ptr < |buf| && 0 <= len <= |buf| }

  /** Oldest first. */
  function Contents(buf: seq<int>, ptr: int, len: int): (c: seq<int>)
    requires Shape(buf, ptr, len)
    ensures |c| == len
  {
    seq(len, i requires 0 <= i < len => buf[Fold(|buf|, Back(|buf|, ptr, len) + i)])
  }

  /** Append to a sequence of at most `m`, dropping the oldest when full. */
  function Push(c: seq<int>, m: nat, x: int): seq<int>
    requires m > 0
  {
    if |c| < m then c + [x] else c[1..] + [x]
  }

  function PushAll(c: seq<int>, m: nat, xs: seq<int>): seq<int>
    requires m > 0
    decreases |xs|
  {
    if xs == [] then c else PushAll(Push(c, m, xs[0]), m, xs[1..])
  }

  function Latest(c: seq<int>, m: nat): seq<int> { if |c| <= m then c else c[|c| - m..] }

  /** Pushing one by one keeps the latest `m` of all. */
  lemma {:induction false} PushAllIsLatest(c: seq<int>, m: nat, xs: seq<int>)
    requires m > 0 && |c| <= m
    ensures PushAll(c, m, xs) == Latest(c + xs, m)
    decreases |xs|
  {
    if xs == [] {
      assert c + xs == c;
    } else {
      hide Latest, Push;
      PushAllIsLatest(Push(c, m, xs[0]), m, xs[1..]);
      LatestStep(c, m, xs[0], xs[1..]);
      assert [xs[0]] + xs[1..] == xs;
    }
  }

  lemma {:induction false} LatestStep(c: seq<int>, m: nat, x: int, xs: seq<int>)
    requires m > 0 && |c| <= m
    ensures Latest(Push(c, m, x) + xs, m) == Latest(c + ([x] + xs), m)
  {
    var s := c + ([x] + xs);
    if |c| < m {
      assert c + [x] + xs == s;
    } else {
      assert c[1..] + [x] + xs == s[1..];
      assert s[1..][|s| - 1 - m..] == s[|s| - m..];
    }
  }

  /** Take the oldest `k` one at a time: what was taken and what is left. */
  function PopAll(c: seq<int>, k: nat): (seq<int>, seq<int>)
    requires k <= |c|
  {
    if k == 0 then ([], c)
    else
      var rest := PopAll(c[1..], k - 1);
      ([c[0]] + rest.0, rest.1)
  }

  lemma {:induction false} PopAllIsSplit(c: seq<int>, k: nat)
    requires k <= |c|
    ensures PopAll(c, k) == (c[..k], c[k..])
  {
    if k > 0 {
      PopAllIsSplit(c[1..], k - 1);
      assert c[..k] == [c[0]] + c[1..][..k - 1] && c[1..][k - 1..] == c[k..];
    } else {
      assert c[..0] == [];
    }
  }

  /** The buffer after writing `xs` from `ptr` on, around the end. */
  predicate Written(buf: seq<int>, buf': seq<int>, ptr: int, xs: seq<int>) {
    && |buf'| == |buf| && 0 <= ptr < |buf| && |xs| <= |buf|
    && (forall k :: 0 <= k < |xs| ==> buf'[Fold(|buf|, ptr + k)] == xs[k])
    && (forall j :: 0 <= j < |buf| && Back(|buf|, j, ptr) >= |xs| ==> buf'[j] == buf[j])
  }

  /** Writing a block at `ptr` appends it to the sequence, losing the oldest. */
  lemma {:induction false} WriteAppends(buf: seq<int>, buf': seq<int>, ptr: int, len: int, xs: seq<int>)
    requires Shape(buf, ptr, len) && Written(buf, buf', ptr, xs)
    ensures var m := |buf|;
            var len' := if len + |xs| < m then len + |xs| else m;
            && Shape(buf', Fold(m, ptr + |xs|), len')
            && Contents(buf', Fold(m, ptr + |xs|), len') == Latest(Contents(buf, ptr, len) + xs, m)
  {
    hide Contents, Fold, Back;
    var m, n := |buf|, |xs|;
    var len' := if len + n < m then len + n else m;
    FoldInside(m, ptr + n);
    var c, end := Contents(buf, ptr, len), Fold(m, ptr + n);
    var a, b := Contents(buf', end, len'), Latest(c + xs, m);
    forall i | 0 <= i < len' ensures a[i] == b[i] {
      ContentsAt(buf', end, len', i);
      Places(m, ptr, len, n, i);
      if i >= len' - n {
        assert b[i] == xs[i - (len' - n)];
      } else {
        ContentsAt(buf, ptr, len, len + n - len' + i);
        assert b[i] == c[len + n - len' + i];
      }
    }
  }

  /** So it is the same as pushing its bytes one by one. */
  lemma {:induction false} WritePushes(buf: seq<int>, buf': seq<int>, ptr: int, len: int, xs: seq<int>)
    requires Shape(buf, ptr, len) && Written(buf, buf', ptr, xs)
    ensures var m := |buf|;
            var len' := if len + |xs| < m then len + |xs| else m;
            && Shape(buf', Fold(m, ptr + |xs|), len')
            && Contents(buf', Fold(m, ptr + |xs|), len') == PushAll(Contents(buf, ptr, len), m, xs)
  {
    hide Contents, Fold, Latest, PushAll;
    WriteAppends(buf, buf', ptr, len, xs);
    PushAllIsLatest(Contents(buf, ptr, len), |buf|, xs);
  }

  lemma {:induction false} FoldInside(m: nat, i: int)
    requires 0 <= i < 2 * m
    ensures 0 <= Fold(m, i) < m
  {
  }

  lemma {:induction false} ContentsAt(buf: seq<int>, ptr: int, len: int, i: nat)
    requires Shape(buf, ptr, len) && i < len
    ensures 0 <= Fold(|buf|, Back(|buf|, ptr, len) + i) < |buf|
    ensures Contents(buf, ptr, len)[i] == buf[Fold(|buf|, Back(|buf|, ptr, len) + i)]
  {
  }

  /** Where the `i`-th byte lies after `n` bytes were written. */
  lemma {:induction false} Places(m: nat, ptr: int, len: int, n: nat, i: nat)
    requires 0 <= ptr < m && 0 <= len <= m && n <= m && i < m && i < len + n
    ensures var len' := if len + n < m then len + n else m;
            var j := Fold(m, Back(m, Fold(m, ptr + n), len') + i);
            && (i >= len' - n ==> j == Fold(m, ptr + (i - (len' - n))))
            && (i < len' - n ==> j == Fold(m, Back(m, ptr, len) + (len + n - len' + i)) && Back(m, j, ptr) >= n)
  {
  }

  class Ring {
    const buffer: array<int>
    var ptr: int
    var len: int

    ghost predicate Valid()
      reads this, buffer
    {
      Shape(buffer[..], ptr, len)
    }

    ghost function View(): seq<int>
      requires Valid()
      reads this, buffer
    {
      Contents(buffer[..], ptr, len)
    }

    constructor (buf: array<int>)
      requires 0 < buf.Length < WORD
      ensures buffer == buf && Valid() && View() == []
    {
      buffer, ptr, len := buf, 0, 0;
    }

    method Put(c: int) returns (room: bool)
      requires Valid()
      modifies this, buffer
      ensures Valid() && View() == Push(old(View()), buffer.Length, c)
      ensures room == (|View()| < buffer.Length)
    {
      ghost var was, at, m := buffer[..], ptr, buffer.Length;
      PushAllIsLatest(View(), m, [c]);
      assert PushAll(View(), m, [c]) == PushAll(Push(View(), m, c), m, []);
      hide Mod;
      buffer[ptr] := c;
      WriteAppends(was, buffer[..], at, len, [c]);
      ptr := Mod(buffer.Length, ptr + 1);
      len := if len + 1 < buffer.Length then len + 1 else buffer.Length;
      return len < buffer.Length;
    }

    /** Copy a block in from `ptr` on, going on at the front when it does not fit. */
    method CopyIn(xs: seq<int>, end: int)
      requires Valid() && 0 < |xs| <= buffer.Length && end == Fold(buffer.Length, ptr + |xs|)
      modifies buffer
      ensures Written(old(buffer[..]), buffer[..], ptr, xs)
    {
      if ptr >= end {
        var l := buffer.Length - ptr;
        Copy(buffer, ptr, xs[..l]);
        Copy(buffer, 0, xs[l..]);
      } else {
        Copy(buffer, ptr, xs);
      }
    }

    /** Only the first bytes are taken when the block is longer than the buffer. */
    method Puts(data: seq<int>) returns (n: int)
      requires Valid() && |data| < WORD
      modifies this, buffer
      ensures n == if |data| < buffer.Length then |data| else buffer.Length
      ensures Valid() && View() == PushAll(old(View()), buffer.Length, data[..n])
    {
      hide Written, Contents, Mod, Fold;
      n := if |data| < buffer.Length then |data| else buffer.Length;
      if |data| == 0 { return; }
      var xs, end := data[..n], Mod(buffer.Length, ptr + n);
      ghost var was := buffer[..];
      CopyIn(xs, end);
      WritePushes(was, buffer[..], ptr, len, xs);
      ptr := end;
      len := if len + n < buffer.Length then len + n else buffer.Length;
    }

    /** Take the oldest byte. */
    method Get() returns (ok: bool, c: int)
      requires Valid()
      modifies this
      ensures Valid() && ok == (old(len) > 0)
      ensures !ok ==> View() == old(View())
      ensures ok ==> 0 <= Landing(buffer.Length, old(ptr), old(len)) < buffer.Length
      ensures ok ==> c == buffer[Landing(buffer.Length, old(ptr), old(len))]
      ensures ok && (old(ptr) >= old(len) || WORD % buffer.Length == 0) ==> c == old(View())[0]
      ensures ok ==> View() == old(View())[1..]
    {
      hide Minus;
      if len == 0 { return false, 0; }
      MinusLands(buffer.Length, ptr, len);
      ghost var m, b := buffer.Length, Back(buffer.Length, ptr, len);
      c := buffer[Minus(buffer.Length, ptr, len)];
      assert Fold(m, b + 0) == b;
      Shorter(buffer[..], ptr, len, 1);
      len := len - 1;
      return true, c;
    }

    /** Copy `k` bytes from `start` on out, going on at the front when they end there. */
    method CopyOut(start: nat, k: nat) returns (out: seq<int>)
      requires start < buffer.Length && 0 < k <= buffer.Length
      ensures out == Slice(buffer[..], start, k)
    {
      hide Mod;
      var end := Mod(buffer.Length, start + k);
      if start >= end {
        out := buffer[start..] + buffer[..end];
      } else {
        out := buffer[start..end];
      }
    }

    /** Copy the oldest bytes out. */
    method Gets(n: nat, consume: bool) returns (out: seq<int>)
      requires Valid()
      modifies this
      ensures Valid() && |out| == if n < old(len) then n else old(len)
      ensures 0 <= Landing(buffer.Length, old(ptr), old(len)) < buffer.Length
      ensures out == Slice(buffer[..], Landing(buffer.Length, old(ptr), old(len)), |out|)
      ensures old(ptr) >= old(len) || WORD % buffer.Length == 0 ==> out == PopAll(old(View()), |out|).0
      ensures View() == if consume then PopAll(old(View()), |out|).1 else old(View())
    {
      var k := if n < len then n else len;
      MinusLands(buffer.Length, ptr, len);
      MinusIsBackIff(buffer.Length, ptr, len);
      hide Minus, PopAll, Contents, Landing, Back, Slice;
      PopAllIsSplit(View(), k);
      Shorter(buffer[..], ptr, len, k);
      if n == 0 || len == 0 {
        assert View()[0..] == View();
        EmptySlice(buffer[..], Landing(buffer.Length, ptr, len));
        return [];
      }
      SliceIsOldest(buffer[..], ptr, len, k);
      SliceSize(buffer[..], Minus(buffer.Length, ptr, len), k);
      out := CopyOut(Minus(buffer.Length, ptr, len), k);
      if consume {
        len := len - k;
      }
    }

    /** Take back the newest byte. */
    method Erase() returns (ok: bool)
      requires Valid()
      modifies this
      ensures Valid() && ok == (old(len) > 0)
      ensures !ok ==> View() == old(View())
      ensures ok ==> ptr == Landing(buffer.Length, old(ptr), 1) && len == old(len) - 1
      ensures ok && (old(ptr) >= 1 || WORD % buffer.Length == 0) ==> View() == old(View())[..old(len) - 1]
    {
      if len == 0 { return false; }
      hide Minus;
      MinusLands(buffer.Length, ptr, 1);
      WithoutNewest(buffer[..], ptr, len);
      ptr := Minus(buffer.Length, ptr, 1);
      len := len - 1;
      return true;
    }
  }

  method Copy(a: array<int>, at: nat, xs: seq<int>)
    requires at + |xs| <= a.Length
    modifies a
    ensures forall j :: 0 <= j < a.Length ==> a[j] == if at <= j < at + |xs| then xs[j - at] else old(a[j])
  {
    var i := 0;
    while i < |xs|
      invariant 0 <= i <= |xs|
      invariant forall j :: 0 <= j < a.Length ==> a[j] == if at <= j < at + i then xs[j - at] else old(a[j])
    {
      a[at + i] := xs[i];
      i := i + 1;
    }
  }

  /** Dropping the oldest bytes only shortens the length. */
  lemma {:induction false} Shorter(buf: seq<int>, ptr: int, len: int, k: nat)
    requires Shape(buf, ptr, len) && k <= len
    ensures Contents(buf, ptr, len - k) == Contents(buf, ptr, len)[k..]
  {
    forall i | 0 <= i < len - k ensures Contents(buf, ptr, len - k)[i] == Contents(buf, ptr, len)[k..][i] {
      ContentsAt(buf, ptr, len - k, i);
      ContentsAt(buf, ptr, len, k + i);
    }
  }

  /** Dropping the newest byte moves the end back by one. */
  lemma {:induction false} WithoutNewest(buf: seq<int>, ptr: int, len: int)
    requires Shape(buf, ptr, len) && len > 0
    ensures Contents(buf, Back(|buf|, ptr, 1), len - 1) == Contents(buf, ptr, len)[..len - 1]
  {
    var p := Back(|buf|, ptr, 1);
    var a, b := Contents(buf, p, len - 1), Contents(buf, ptr, len)[..len - 1];
    forall i | 0 <= i < len - 1 ensures a[i] == b[i] {
      ContentsAt(buf, p, len - 1, i);
      ContentsAt(buf, ptr, len, i);
    }
  }

  /** Reading `k` bytes from `start`, around the end, in one or two blocks. */
  function Slice(buf: seq<int>, start: nat, k: nat): seq<int>
    requires start < |buf| && k <= |buf|
  {
    if start + k >= |buf| then buf[start..] + buf[..start + k - |buf|] else buf[start..start + k]
  }

  lemma {:induction false} EmptySlice(buf: seq<int>, start: nat)
    requires start < |buf|
    ensures Slice(buf, start, 0) == []
  {
  }

  lemma {:induction false} SliceSize(buf: seq<int>, start: nat, k: nat)
    requires start < |buf| && k <= |buf|
    ensures |Slice(buf, start, k)| == k
  {
  }

  lemma {:induction false} SliceIsOldest(buf: seq<int>, ptr: int, len: int, k: nat)
    requires Shape(buf, ptr, len) && k <= len && len > 0
    ensures 0 <= Back(|buf|, ptr, len) < |buf| && Slice(buf, Back(|buf|, ptr, len), k) == Contents(buf, ptr, len)[..k]
  {
    var a, b := Slice(buf, Back(|buf|, ptr, len), k), Contents(buf, ptr, len);
    forall i | 0 <= i < k ensures a[i] == b[i] {
      ContentsAt(buf, ptr, len, i);
    }
  }
}
