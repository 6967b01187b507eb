/** Definitions shared by every component: bytes, sequences without repetition, counting. */
module Common {
  type byte = x: int | 0 <= x < 256
  type Bytes = seq<byte>

  datatype Option<+T> = None | Some(value: T)

  function CeilDiv(a: nat, b: nat): nat
    requires b > 0
  {
    (a + b - 1) / b
  }

  function Min(a: int, b: int): int {
    if a < b then a else b
  }

  function Max(a: int, b: int): int {
    if a < b then b else a
  }

  /** The concatenation of a sequence of sequences. */
  function Flatten<T>(ss: seq<seq<T>>): seq<T> {
    if ss == [] then [] else ss[0] + Flatten(ss[1..])
  }

  lemma {:induction false} FlattenAppend<T>(a: seq<seq<T>>, b: seq<seq<T>>)
    ensures Flatten(a + b) == Flatten(a) + Flatten(b)
  {
    if a == [] {
      assert a + b == b;
    } else {
      assert (a + b)[1..] == a[1..] + b;
      FlattenAppend(a[1..], b);
    }
  }

  lemma AppendAssoc<T>(a: seq<T>, b: seq<T>, c: seq<T>)
    ensures (a + b) + c == a + (b + c)
  {
  }

  /** `data` with the bytes from `off` replaced by `patch`. */
  function Splice<T>(data: seq<T>, off: nat, patch: seq<T>): (r: seq<T>)
    requires off + |patch| <= |data|
    ensures |r| == |data|
    ensures forall p :: 0 <= p < |data| ==>
                          r[p] == if off <= p < off + |patch| then patch[p - off] else data[p]
  {
    data[..off] + patch + data[off + |patch|..]
  }

  ghost predicate NoDup<T>(s: seq<T>) {
    forall i, j :: 0 <= i < j < |s| ==> s[i] != s[j]
  }

  lemma NoDupAppend<T>(s: seq<T>, x: T)
    requires NoDup(s) && x !in s
    ensures NoDup(s + [x])
  {
  }

  function Range(n: nat): (r: set<nat>)
    ensures |r| == n
    ensures forall i: nat :: i in r <==> i < n
  {
    if n == 0 then {} else Range(n - 1) + {n - 1}
  }

  function Members<T>(s: seq<T>): set<T> {
    set x | x in s
  }

  lemma {:induction false} NoDupCardinality<T>(s: seq<T>)
    requires NoDup(s)
    ensures |Members(s)| == |s|
  {
    if s == [] {
      assert Members(s) == {};
    } else {
      NoDupCardinality(s[1..]);
      assert Members(s) == Members(s[1..]) + {s[0]};
    }
  }

  /** A repetition-free sequence of numbers below `n` has at most `n` entries, and `n` of them are all of them. */
  lemma Pigeonhole(s: seq<nat>, n: nat)
    requires NoDup(s)
    requires forall x :: x in s ==> x < n
    ensures |s| <= n
    ensures |s| == n ==> forall i :: 0 <= i < n ==> i in s
    ensures forall i :: 0 <= i < n && i !in s ==> |s| < n
  {
    NoDupCardinality(s);
    var members := Members(s);
    SubsetSize(members, Range(n));
    forall i | 0 <= i < n && i !in s
      ensures |s| < n
    {
      assert i in Range(n) && i !in members;
      SubsetSize(members, Range(n) - {i});
    }
  }

  lemma {:induction false} SubsetSize<T>(a: set<T>, b: set<T>)
    requires a <= b
    ensures |a| <= |b|
  {
    if a != {} {
      var x :| x in a;
      SubsetSize(a - {x}, b - {x});
    }
  }

  /** The sum of `f` over a sequence. */
  function Sum<T>(s: seq<T>, f: T -> nat): nat {
    if s == [] then 0 else f(s[0]) + Sum(s[1..], f)
  }

  lemma {:induction false} SumUpdate<T>(s: seq<T>, i: nat, x: T, f: T -> nat)
    requires i < |s|
    ensures Sum(s[i := x], f) == Sum(s, f) - f(s[i]) + f(x)
    ensures Sum(s, f) >= f(s[i])
  {
    if i > 0 {
      assert s[i := x][1..] == s[1..][i - 1 := x];
      SumUpdate(s[1..], i - 1, x, f);
    } else {
      assert s[i := x][1..] == s[1..];
    }
  }

  lemma {:induction false} SumZero<T>(s: seq<T>, f: T -> nat)
    ensures Sum(s, f) == 0 <==> forall i :: 0 <= i < |s| ==> f(s[i]) == 0
  {
    if s != [] {
      SumZero(s[1..], f);
      assert forall i :: 0 < i < |s| ==> s[i] == s[1..][i - 1];
      assert forall i :: 0 <= i < |s| - 1 ==> s[1..][i] == s[i + 1];
    }
  }

  /** Piece `i` of `content`: `len` bytes, or what is left of them. */
  function Chunk<T>(content: seq<T>, len: nat, i: nat): seq<T>
    requires len > 0 && i * len <= |content|
  {
    content[i * len..Min((i + 1) * len, |content|)]
  }

  lemma DivisionBounds(p: nat, len: nat)
    requires len > 0
    ensures (p / len) * len <= p < (p / len + 1) * len
  {
  }

  lemma MulNext(k: int, n: int)
    ensures (k + 1) * n == k * n + n
  {
  }

  /** i * g, step by step. */
  function Offset(i: nat, g: nat): nat {
    if i == 0 then 0 else Offset(i - 1, g) + g
  }

  lemma {:induction false} OffsetIsProduct(i: nat, g: nat)
    ensures Offset(i, g) == i * g
  {
    if i > 0 {
      OffsetIsProduct(i - 1, g);
      MulNext(i - 1, g);
    }
  }

  lemma MulNotNegative(a: nat, b: nat)
    ensures a * b >= 0
  {
  }

  lemma MulAssoc(a: nat, g: nat, b: nat)
    ensures a * (g * b) == (a * g) * b
  {
  }

  lemma MulMonotone(a: nat, c: nat, b: nat)
    requires a <= c
    ensures a * b <= c * b
  {
  }

  lemma SameQuotient(p: nat, len: nat, i: nat)
    requires len > 0 && i * len <= p < (i + 1) * len
    ensures p / len == i
  {
    DivisionBounds(p, len);
    var q := p / len;
    assert q + 1 <= i ==> (q + 1) * len <= i * len;
    assert i + 1 <= q ==> (i + 1) * len <= q * len;
  }

  lemma CeilDivBounds(a: nat, b: nat)
    requires b > 0
    ensures a <= CeilDiv(a, b) * b < a + b
  {
    DivisionBounds(a + b - 1, b);
  }

  lemma CeilDivLeast(a: nat, b: nat, m: nat)
    requires b > 0 && a <= m * b
    ensures CeilDiv(a, b) <= m
  {
    CeilDivBounds(a, b);
    var q := CeilDiv(a, b);
    assert (m + 1) * b == m * b + b;
    assert m + 1 <= q ==> (m + 1) * b <= q * b;
  }

  /** Every piece begins inside the content, and every position belongs to a piece. */
  lemma PieceBegins(size: nat, len: nat, i: nat)
    requires len > 0 && i < CeilDiv(size, len)
    ensures i * len < size && (i + 1) * len == i * len + len
  {
    CeilDivBounds(size, len);
    var q := CeilDiv(size, len);
    assert (i + 1) * len <= q * len;
  }

  lemma PieceExists(size: nat, len: nat, p: nat)
    requires len > 0 && p < size
    ensures p / len < CeilDiv(size, len)
  {
    CeilDivBounds(size, len);
    DivisionBounds(p, len);
    var q, d := CeilDiv(size, len), p / len;
    assert q <= d ==> q * len <= d * len;
  }

  /** Go's `copy(dst[at:], src)` when there is room. */
  method CopyAt(dst: array<byte>, at: nat, src: Bytes)
    requires at + |src| <= dst.Length
    modifies dst
    ensures dst[..at + |src|] == old(dst[..at]) + src
    ensures dst[at + |src|..] == old(dst[at + |src|..])
  {
    forall i | 0 <= i < |src| {
      dst[at + i] := src[i];
    }
  }
}
