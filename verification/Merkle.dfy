/** The padded Merkle tree of internal/torrent/torrent.go and its piece layer. */
module Merkle {
  import opened Common

  function Pow2(k: nat): (r: nat)
    ensures r > 0
  {
    if k == 0 then 1 else 2 * Pow2(k - 1)
  }

  lemma {:induction false} Pow2Add(a: nat, b: nat)
    ensures Pow2(a + b) == Pow2(a) * Pow2(b)
  {
    if a > 0 {
      Pow2Add(a - 1, b);
      TwiceHalf(Pow2(b), Pow2(a - 1));
    }
  }

  lemma TwiceHalf(i: nat, half: nat)
    ensures i * (2 * half) == (2 * i) * half == 2 * (i * half)
    ensures (2 * i + 1) * half == i * (2 * half) + half
  {
  }

  lemma {:induction false} Pow2Monotone(a: nat, b: nat)
    requires a <= b
    ensures Pow2(a) <= Pow2(b)
  {
    if a < b {
      Pow2Monotone(a, b - 1);
    }
  }

  lemma Pow2Reflects(a: nat, b: nat)
    requires Pow2(a) < Pow2(b)
    ensures a < b
  {
    if b <= a {
      Pow2Monotone(b, a);
    }
  }

  // ---- isPowerOfTwo and nextPowerOfTwo ----

  /** Bitwise and. */
  function BitAnd(x: nat, y: nat): nat {
    if x == 0 || y == 0 then 0 else 2 * BitAnd(x / 2, y / 2) + (if x % 2 == 1 && y % 2 == 1 then 1 else 0)
  }

  predicate IsPowerOfTwo(n: nat) {
    n > 0 && BitAnd(n, n - 1) == 0
  }

  lemma {:induction false} BitAndSelf(n: nat)
    ensures BitAnd(n, n) == n
  {
    if n > 0 {
      BitAndSelf(n / 2);
    }
  }

  /** The exponent, when `n & (n-1)` says that there is one. */
  lemma {:induction false} PowerOfTwoExponent(n: nat) returns (k: nat)
    requires IsPowerOfTwo(n)
    ensures n == Pow2(k)
  {
    if n == 1 {
      k := 0;
    } else if n % 2 == 1 {
      BitAndSelf(n / 2);
      assert false;
    } else {
      assert (n - 1) / 2 == n / 2 - 1;
      var j := PowerOfTwoExponent(n / 2);
      k := j + 1;
    }
  }

  lemma {:induction false} Pow2IsPowerOfTwo(k: nat)
    ensures IsPowerOfTwo(Pow2(k))
  {
    if k > 0 {
      Pow2IsPowerOfTwo(k - 1);
      assert (Pow2(k) - 1) / 2 == Pow2(k - 1) - 1;
    }
  }

  /** The least power of two that is at least `n`. */
  method NextPowerOfTwo(n: nat) returns (p: nat)
    ensures IsPowerOfTwo(p) && p >= n
    ensures forall k: nat :: Pow2(k) >= n ==> p <= Pow2(k)
  {
    if IsPowerOfTwo(n) {
      return n;
    }
    ghost var e: nat := 0;
    p := 1;
    while p < n
      invariant p == Pow2(e) && (e > 0 ==> Pow2(e - 1) < n)
      decreases n - p
    {
      p, e := p * 2, e + 1;
    }
    Pow2IsPowerOfTwo(e);
    forall k: nat | Pow2(k) >= n
      ensures p <= Pow2(k)
    {
      if e > 0 {
        Pow2Reflects(e - 1, k);
      }
      Pow2Monotone(e, k);
    }
  }

  /** bits.TrailingZeros of a positive number. */
  function TrailingZeros(n: nat): nat
    requires n > 0
  {
    if n % 2 == 1 then 0 else 1 + TrailingZeros(n / 2)
  }

  lemma {:induction false} TrailingZerosOfPower(k: nat)
    ensures TrailingZeros(Pow2(k)) == k
  {
    if k > 0 {
      TrailingZerosOfPower(k - 1);
    }
  }

  // ---- Trees ----

  type Hasher = Bytes -> Bytes

  /** The root of a complete tree, by halving its leaves. */
  function Root(h: Hasher, leaves: seq<Bytes>): Bytes
    requires leaves != []
    decreases |leaves|
  {
    if |leaves| == 1 then leaves[0]
    else h(Root(h, leaves[..|leaves| / 2]) + Root(h, leaves[|leaves| / 2..]))
  }

  lemma RootOfTwo(h: Hasher, a: Bytes, b: Bytes)
    ensures Root(h, [a, b]) == h(a + b)
  {
    assert [a, b][..1] == [a] && [a, b][1..] == [b];
    assert Root(h, [a]) == a && Root(h, [b]) == b;
  }

  /** Left before right: the tree over four leaves. */
  lemma RootOfFour(h: Hasher, a: Bytes, b: Bytes, c: Bytes, d: Bytes)
    ensures Root(h, [a, b, c, d]) == h(h(a + b) + h(c + d))
  {
    assert [a, b, c, d][..2] == [a, b] && [a, b, c, d][2..] == [c, d];
    RootOfTwo(h, a, b);
    RootOfTwo(h, c, d);
  }

  /** The level above: neighbours hashed in pairs. */
  function Pairs(h: Hasher, level: seq<Bytes>): (r: seq<Bytes>)
    ensures |r| == |level| / 2
    decreases |level|
  {
    if |level| < 2 then [] else [h(level[0] + level[1])] + Pairs(h, level[2..])
  }

  lemma {:induction false} PairsAt(h: Hasher, level: seq<Bytes>, i: nat)
    requires 2 * i + 1 < |level|
    ensures Pairs(h, level)[i] == h(level[2 * i] + level[2 * i + 1])
    decreases i
  {
    if i > 0 {
      PairsAt(h, level[2..], i - 1);
    }
  }

  lemma {:induction false} PairsNext(h: Hasher, level: seq<Bytes>, i: nat)
    requires 2 * i + 1 < |level|
    ensures Pairs(h, level[..2 * i + 2]) == Pairs(h, level[..2 * i]) + [h(level[2 * i] + level[2 * i + 1])]
    decreases i
  {
    if i == 0 {
      assert level[..2][2..] == [];
    } else {
      assert level[..2 * i + 2][2..] == level[2..][..2 * (i - 1) + 2];
      assert level[..2 * i][2..] == level[2..][..2 * (i - 1)];
      PairsNext(h, level[2..], i - 1);
    }
  }

  /** Level `j` of the tree over `leaves`. */
  function Level(h: Hasher, leaves: seq<Bytes>, j: nat): seq<Bytes> {
    if j == 0 then leaves else Pairs(h, Level(h, leaves, j - 1))
  }

  function PadTo(leaves: seq<Bytes>, n: nat, pad: Bytes): (r: seq<Bytes>)
    requires |leaves| <= n
    ensures |r| == n
  {
    leaves + seq(n - |leaves|, _ => pad)
  }

  /** levels[0] is the 2^k padded leaves, each further level pairs up the one below, the last is the root alone. */
  ghost predicate IsTree(h: Hasher, leaves: seq<Bytes>, pad: Bytes, levels: seq<seq<Bytes>>, k: nat) {
    && |leaves| <= Pow2(k) && |levels| == k + 1
    && AreLevels(h, PadTo(leaves, Pow2(k), pad), levels)
  }

  method BuildMerkleTree(h: Hasher, leaves: seq<Bytes>) returns (levels: seq<seq<Bytes>>)
    ensures levels != [] && IsTree(h, leaves, h(seq(32, _ => 0)), levels, |levels| - 1)
    ensures |levels| > 1 ==> Pow2(|levels| - 2) < |leaves|
  {
    var zeroHash := h(seq(32, _ => 0));
    if |leaves| == 0 {
      levels := [[zeroHash]];
      assert PadTo(leaves, 1, zeroHash) == [zeroHash];
      return;
    }
    var target := NextPowerOfTwo(|leaves|);
    ghost var k := PowerOfTwoExponent(target);
    var padded := leaves;
    while |padded| < target
      invariant |leaves| <= |padded| <= target && padded == PadTo(leaves, |padded|, zeroHash)
    {
      padded := padded + [zeroHash];
    }
    levels := BuildLevels(h, padded, k);
  }

  ghost predicate AreLevels(h: Hasher, padded: seq<Bytes>, levels: seq<seq<Bytes>>) {
    forall j :: 0 <= j < |levels| ==> levels[j] == Level(h, padded, j)
  }

  lemma LevelsGrow(h: Hasher, padded: seq<Bytes>, levels: seq<seq<Bytes>>)
    requires levels != [] && AreLevels(h, padded, levels)
    ensures AreLevels(h, padded, levels + [Pairs(h, levels[|levels| - 1])])
  {
    var j := |levels|;
    assert levels[j - 1] == Level(h, padded, j - 1);
    assert Level(h, padded, j) == Pairs(h, Level(h, padded, j - 1));
  }

  /** buildMerkleTree's loop over the levels. */
  method BuildLevels(h: Hasher, padded: seq<Bytes>, ghost k: nat) returns (levels: seq<seq<Bytes>>)
    requires |padded| == Pow2(k)
    ensures |levels| == k + 1 && AreLevels(h, padded, levels)
  {
    levels := [padded];
    var current := padded;
    ghost var left := k;
    while |current| > 1
      invariant |levels| == k - left + 1 && 0 <= left <= k
      invariant current == levels[|levels| - 1] && |current| == Pow2(left)
      invariant AreLevels(h, padded, levels)
      decreases left
    {
      var next := PairUp(h, current);
      LevelsGrow(h, padded, levels);
      levels := levels + [next];
      current := next;
      left := left - 1;
    }
  }

  method PairUp(h: Hasher, current: seq<Bytes>) returns (next: seq<Bytes>)
    requires |current| % 2 == 0
    ensures next == Pairs(h, current)
  {
    next := [];
    var i := 0;
    while i < |current|
      invariant 0 <= i <= |current| && i % 2 == 0
      invariant next == Pairs(h, current[..i])
    {
      PairsNext(h, current, i / 2);
      next := next + [h(current[i] + current[i + 1])];
      i := i + 2;
    }
    assert current[..i] == current;
  }

  lemma {:induction false} LevelLength(h: Hasher, leaves: seq<Bytes>, j: nat, m: nat)
    requires |leaves| == m * Pow2(j)
    ensures |Level(h, leaves, j)| == m
  {
    if j > 0 {
      TwiceHalf(m, Pow2(j - 1));
      LevelLength(h, leaves, j - 1, 2 * m);
    }
  }

  /** The roots over consecutive groups of `g` leaves. */
  function Roots(h: Hasher, leaves: seq<Bytes>, g: nat): seq<Bytes>
    requires g > 0
    decreases |leaves|
  {
    if |leaves| < g then [] else [Root(h, leaves[..g])] + Roots(h, leaves[g..], g)
  }

  lemma RootSplits(h: Hasher, leaves: seq<Bytes>, half: nat)
    requires half > 0 && 2 * half <= |leaves|
    ensures Root(h, leaves[..2 * half]) == h(Root(h, leaves[..half]) + Root(h, leaves[half..][..half]))
  {
    var below := leaves[..2 * half];
    assert below[..half] == leaves[..half] && below[half..] == leaves[half..][..half];
  }

  lemma {:induction false} PairsOfRoots(h: Hasher, leaves: seq<Bytes>, half: nat)
    requires half > 0
    ensures Pairs(h, Roots(h, leaves, half)) == Roots(h, leaves, 2 * half)
    decreases |leaves|
  {
    if |leaves| >= 2 * half {
      var rest := leaves[2 * half..];
      assert leaves[half..][half..] == rest;
      var first, second := Root(h, leaves[..half]), Root(h, leaves[half..][..half]);
      assert Roots(h, leaves, half) == [first] + ([second] + Roots(h, rest, half));
      assert Roots(h, leaves, half)[2..] == Roots(h, rest, half);
      RootSplits(h, leaves, half);
      PairsOfRoots(h, rest, half);
    }
  }

  lemma {:induction false} SingleRoots(h: Hasher, leaves: seq<Bytes>)
    ensures Roots(h, leaves, 1) == leaves
  {
    if leaves != [] {
      SingleRoots(h, leaves[1..]);
    }
  }

  /** Level `j` holds the roots over groups of 2^j leaves. */
  lemma {:induction false} LevelIsRoots(h: Hasher, leaves: seq<Bytes>, j: nat)
    ensures Level(h, leaves, j) == Roots(h, leaves, Pow2(j))
  {
    if j == 0 {
      SingleRoots(h, leaves);
    } else {
      LevelIsRoots(h, leaves, j - 1);
      PairsOfRoots(h, leaves, Pow2(j - 1));
    }
  }

  lemma SliceOfRest<T>(s: seq<T>, g: nat, at: nat)
    requires g <= at && at + g <= |s|
    ensures s[g..][at - g..at] == s[at..at + g]
  {
  }

  lemma SecondEntry<T>(first: T, rest: seq<T>, i: nat)
    requires 0 < i <= |rest|
    ensures ([first] + rest)[i] == rest[i - 1]
  {
  }

  lemma {:induction false} RootsAt(h: Hasher, leaves: seq<Bytes>, g: nat, i: nat)
    requires g > 0 && Offset(i, g) + g <= |leaves|
    ensures i < |Roots(h, leaves, g)|
    ensures Roots(h, leaves, g)[i] == Root(h, leaves[Offset(i, g)..Offset(i, g) + g])
    decreases i
  {
    var at, first, rest := Offset(i, g), Root(h, leaves[..g]), Roots(h, leaves[g..], g);
    assert Roots(h, leaves, g) == [first] + rest;
    if i == 0 {
      assert leaves[at..at + g] == leaves[..g];
    } else {
      assert at == Offset(i - 1, g) + g;
      RootsAt(h, leaves[g..], g, i - 1);
      SliceOfRest(leaves, g, at);
      SecondEntry(first, rest, i);
    }
  }

  /** Entry `i` of level `j` is the root over the `g` = 2^j leaves below it, which begin at `at`. */
  lemma LevelHoldsRoots(h: Hasher, leaves: seq<Bytes>, j: nat, i: nat, g: nat, at: nat)
    requires g == Pow2(j) && at == i * g && at + g <= |leaves|
    ensures i < |Level(h, leaves, j)| && Level(h, leaves, j)[i] == Root(h, leaves[at..at + g])
  {
    LevelIsRoots(h, leaves, j);
    OffsetIsProduct(i, g);
    RootsAt(h, leaves, g, i);
  }

  lemma EntryInside(m: nat, g: nat, i: nat)
    requires i < m
    ensures i * g + g <= m * g
  {
    MulNext(i, g);
    assert (i + 1) * g <= m * g;
  }

  lemma {:induction false} LevelOfLevel(h: Hasher, leaves: seq<Bytes>, j: nat, n: nat, top: nat)
    requires top == j + n
    ensures Level(h, Level(h, leaves, j), n) == Level(h, leaves, top)
  {
    if n > 0 {
      LevelOfLevel(h, leaves, j, n - 1, top - 1);
    }
  }

  lemma TopIsRoot(h: Hasher, leaves: seq<Bytes>, k: nat)
    requires |leaves| == Pow2(k)
    ensures Level(h, leaves, k) == [Root(h, leaves)]
  {
    LevelLength(h, leaves, k, 1);
    LevelHoldsRoots(h, leaves, k, 0, Pow2(k), 0);
    assert leaves[0..Pow2(k)] == leaves;
  }

  /** Folding any level gives the root of the whole tree. */
  lemma LevelFoldsToRoot(h: Hasher, leaves: seq<Bytes>, k: nat, j: nat)
    requires |leaves| == Pow2(k) && j <= k
    ensures |Level(h, leaves, j)| == Pow2(k - j)
    ensures Root(h, Level(h, leaves, j)) == Root(h, leaves)
  {
    var n, level := k - j, Level(h, leaves, j);
    Pow2Add(n, j);
    LevelLength(h, leaves, j, Pow2(n));
    LevelOfLevel(h, leaves, j, n, k);
    TopIsRoot(h, leaves, k);
    TopIsRoot(h, level, n);
    SingletonsEqual(Root(h, level), Root(h, leaves));
  }

  lemma SingletonsEqual<T>(a: T, b: T)
    ensures [a] == [b] ==> a == b
  {
    assert [a][0] == a && [b][0] == b;
  }

  /** The root over `g` pad leaves. */
  function PadRoot(h: Hasher, pad: Bytes, g: nat): Bytes
    requires g > 0
  {
    Root(h, seq(g, _ => pad))
  }

  // ---- The piece layer ----

  const BLOCK_SIZE: nat := 16384

  function ExtractPieceLayer(tree: seq<seq<Bytes>>, pieceLen: nat, numPieces: nat): seq<Bytes>
    requires pieceLen >= BLOCK_SIZE
  {
    var level := TrailingZeros(pieceLen / BLOCK_SIZE);
    if level >= |tree| then []
    else
      var layer := tree[level];
      layer[..if numPieces > |layer| then |layer| else numPieces]
  }

  /** The leaves of piece `i`, when a piece has `g` blocks. */
  function PieceLeaves(leaves: seq<Bytes>, g: nat, i: nat): (r: seq<Bytes>)
    requires i * g <= |leaves|
    ensures |r| <= g
  {
    leaves[i * g..Min(i * g + g, |leaves|)]
  }

  lemma PieceSlice(leaves: seq<Bytes>, n: nat, pad: Bytes, g: nat, i: nat, at: nat)
    requires |leaves| <= n && at == i * g && at <= |leaves| && at + g <= n
    ensures PadTo(leaves, n, pad)[at..at + g] == PadTo(PieceLeaves(leaves, g, i), g, pad)
  {
  }

  lemma PadSlice(leaves: seq<Bytes>, n: nat, pad: Bytes, g: nat, at: nat)
    requires |leaves| <= at && at + g <= n
    ensures PadTo(leaves, n, pad)[at..at + g] == seq(g, _ => pad)
  {
  }

  /** Entry `i` of the level with one hash for each piece is the root of piece `i`'s own padded blocks. */
  lemma LayerEntry(h: Hasher, leaves: seq<Bytes>, pad: Bytes, j: nat, m: nat, i: nat, g: nat, at: nat)
    requires g == Pow2(j) && |leaves| <= m * g && i < m && at == i * g && at <= |leaves|
    ensures |Level(h, PadTo(leaves, m * g, pad), j)| == m
    ensures Level(h, PadTo(leaves, m * g, pad), j)[i] == Root(h, PadTo(PieceLeaves(leaves, g, i), g, pad))
  {
    var padded := PadTo(leaves, m * g, pad);
    EntryInside(m, g, i);
    LevelLength(h, padded, j, m);
    LevelHoldsRoots(h, padded, j, i, g, at);
    PieceSlice(leaves, m * g, pad, g, i, at);
  }

  /** Behind the last piece the level holds the root over pads only. */
  lemma LayerPadding(h: Hasher, leaves: seq<Bytes>, pad: Bytes, j: nat, m: nat, i: nat, g: nat, at: nat)
    requires g == Pow2(j) && |leaves| <= m * g && i < m && at == i * g && |leaves| <= at
    ensures |Level(h, PadTo(leaves, m * g, pad), j)| == m
    ensures Level(h, PadTo(leaves, m * g, pad), j)[i] == PadRoot(h, pad, g)
  {
    var padded := PadTo(leaves, m * g, pad);
    EntryInside(m, g, i);
    LevelLength(h, padded, j, m);
    LevelHoldsRoots(h, padded, j, i, g, at);
    PadSlice(leaves, m * g, pad, g, at);
  }

  /** With more than one piece, the tree has the level and the level has room for every piece. */
  lemma PieceCounts(n: nat, k: nat, j: nat)
    requires n <= Pow2(k) && CeilDiv(n, Pow2(j)) > 1
    ensures j < k && Pow2(k) == Pow2(k - j) * Pow2(j) && CeilDiv(n, Pow2(j)) <= Pow2(k - j)
  {
    PieceBegins(n, Pow2(j), 1);
    Pow2Reflects(j, k);
    Pow2Add(k - j, j);
    CeilDivLeast(n, Pow2(j), Pow2(k - j));
  }

  /** What the piece layer must be: for each piece, the Merkle root of that piece's padded blocks. */
  ghost predicate IsPieceLayer(h: Hasher, leaves: seq<Bytes>, pad: Bytes, g: nat, layer: seq<Bytes>)
    requires g > 0
  {
    && |layer| == CeilDiv(|leaves|, g)
    && forall i :: 0 <= i < |layer| ==> IsPieceRoot(h, leaves, pad, g, i, layer[i])
  }

  ghost predicate IsPieceRoot(h: Hasher, leaves: seq<Bytes>, pad: Bytes, g: nat, i: nat, root: Bytes)
    requires g > 0
  {
    i * g <= |leaves| && root == Root(h, PadTo(PieceLeaves(leaves, g, i), g, pad))
  }

  lemma LayerLevel(h: Hasher, leaves: seq<Bytes>, pad: Bytes, j: nat, m: nat, g: nat, level: seq<Bytes>, numPieces: nat)
    requires g == Pow2(j) && |leaves| <= m * g && numPieces == CeilDiv(|leaves|, g) <= m
    requires level == Level(h, PadTo(leaves, m * g, pad), j)
    ensures |level| == m && IsPieceLayer(h, leaves, pad, g, level[..numPieces])
  {
    LevelLength(h, PadTo(leaves, m * g, pad), j, m);
    forall i | 0 <= i < numPieces
      ensures IsPieceRoot(h, leaves, pad, g, i, level[i])
    {
      PieceBegins(|leaves|, g, i);
      LayerEntry(h, leaves, pad, j, m, i, g, i * g);
    }
  }

  lemma LayerTail(h: Hasher, leaves: seq<Bytes>, pad: Bytes, j: nat, m: nat, g: nat, level: seq<Bytes>, numPieces: nat)
    requires g == Pow2(j) && |leaves| <= m * g && numPieces == CeilDiv(|leaves|, g) <= m
    requires level == Level(h, PadTo(leaves, m * g, pad), j) && |level| == m
    ensures level == PadTo(level[..numPieces], m, PadRoot(h, pad, g))
  {
    CeilDivBounds(|leaves|, g);
    forall i | numPieces <= i < m
      ensures level[i] == PadRoot(h, pad, g)
    {
      MulMonotone(numPieces, i, g);
      LayerPadding(h, leaves, pad, j, m, i, g, i * g);
    }
  }

  lemma ExtractedLevel(tree: seq<seq<Bytes>>, j: nat, numPieces: nat)
    requires j < |tree| && numPieces <= |tree[j]|
    ensures ExtractPieceLayer(tree, BLOCK_SIZE * Pow2(j), numPieces) == tree[j][..numPieces]
  {
    TrailingZerosOfPower(j);
    assert BLOCK_SIZE * Pow2(j) / BLOCK_SIZE == Pow2(j);
  }

  /** The extracted layer is the piece layer and neither clamp applies. */
  lemma PieceLayerIsRight(h: Hasher, leaves: seq<Bytes>, pad: Bytes, tree: seq<seq<Bytes>>, k: nat, j: nat)
    requires IsTree(h, leaves, pad, tree, k) && CeilDiv(|leaves|, Pow2(j)) > 1
    ensures j < k && CeilDiv(|leaves|, Pow2(j)) <= |tree[j]| == Pow2(k - j)
    ensures IsPieceLayer(h, leaves, pad, Pow2(j), ExtractPieceLayer(tree, BLOCK_SIZE * Pow2(j), CeilDiv(|leaves|, Pow2(j))))
  {
    PieceCounts(|leaves|, k, j);
    LayerLevel(h, leaves, pad, j, Pow2(k - j), Pow2(j), tree[j], CeilDiv(|leaves|, Pow2(j)));
    ExtractedLevel(tree, j, CeilDiv(|leaves|, Pow2(j)));
  }

  /** Padding the extracted layer with all-pad subtree roots and folding it gives the pieces root. */
  lemma PieceLayerFoldsToRoot(h: Hasher, leaves: seq<Bytes>, pad: Bytes, tree: seq<seq<Bytes>>, k: nat, j: nat)
    requires IsTree(h, leaves, pad, tree, k) && CeilDiv(|leaves|, Pow2(j)) > 1
    ensures j < k
    ensures var layer := ExtractPieceLayer(tree, BLOCK_SIZE * Pow2(j), CeilDiv(|leaves|, Pow2(j)));
            |layer| <= Pow2(k - j) && tree[k] == [Root(h, PadTo(layer, Pow2(k - j), PadRoot(h, pad, Pow2(j))))]
  {
    var padded, numPieces := PadTo(leaves, Pow2(k), pad), CeilDiv(|leaves|, Pow2(j));
    PieceCounts(|leaves|, k, j);
    LayerLevel(h, leaves, pad, j, Pow2(k - j), Pow2(j), tree[j], numPieces);
    ExtractedLevel(tree, j, numPieces);
    LayerTail(h, leaves, pad, j, Pow2(k - j), Pow2(j), tree[j], numPieces);
    LevelFoldsToRoot(h, padded, k, j);
    TopIsRoot(h, padded, k);
    assert tree[k] == Level(h, padded, k);
  }

  /** The padded layer is no longer than it must be: half as many entries would not hold the pieces. */
  lemma LayerFitsTightly(n: nat, k: nat, j: nat)
    requires j < k && Pow2(k - 1) < n <= Pow2(k)
    ensures Pow2(k - j - 1) < CeilDiv(n, Pow2(j))
  {
    var pieces, half, g := CeilDiv(n, Pow2(j)), Pow2(k - j - 1), Pow2(j);
    Pow2Add(k - j - 1, j);
    CeilDivBounds(n, g);
    if pieces <= half {
      HalfTooSmall(pieces, half, g);
    }
  }

  lemma HalfTooSmall(pieces: nat, half: nat, g: nat)
    requires pieces <= half
    ensures pieces * g <= half * g
  {
  }

  // ---- Which pad leaf ----

  /** Somewhere in the trees over `a` and `b`, two different inputs at the same node have the same hash. */
  predicate Clash(h: Hasher, a: seq<Bytes>, b: seq<Bytes>)
    requires |a| == |b| > 0
    decreases |a|
  {
    |a| > 1 &&
    var half := |a| / 2;
    var x := Root(h, a[..half]) + Root(h, a[half..]);
    var y := Root(h, b[..half]) + Root(h, b[half..]);
    (x != y && h(x) == h(y)) || Clash(h, a[..half], b[..half]) || Clash(h, a[half..], b[half..])
  }

  ghost predicate AllSized(level: seq<Bytes>, n: nat) {
    forall i :: 0 <= i < |level| ==> |level[i]| == n
  }

  lemma RootSized(h: Hasher, leaves: seq<Bytes>, n: nat)
    requires leaves != [] && AllSized(leaves, n) && forall data: Bytes :: |h(data)| == n
    ensures |Root(h, leaves)| == n
  {
  }

  lemma SameHalves<T>(a: seq<T>, b: seq<T>, half: nat)
    requires |a| == |b| && half <= |a| && a[..half] == b[..half] && a[half..] == b[half..]
    ensures a == b
  {
    assert a == a[..half] + a[half..] && b == b[..half] + b[half..];
  }

  lemma SameParts<T>(a: seq<T>, b: seq<T>, x: seq<T>, y: seq<T>)
    requires |a| == |x| && a + b == x + y
    ensures a == x && b == y
  {
    assert a == (a + b)[..|a|] && x == (x + y)[..|x|];
    assert b == (a + b)[|a|..] && y == (x + y)[|x|..];
  }

  /** Without a clash, equal roots mean equal leaves. */
  lemma {:induction false} RootDetermines(h: Hasher, a: seq<Bytes>, b: seq<Bytes>, n: nat)
    requires |a| == |b| > 0 && AllSized(a, n) && AllSized(b, n) && forall data: Bytes :: |h(data)| == n
    requires !Clash(h, a, b) && Root(h, a) == Root(h, b)
    ensures a == b
    decreases |a|
  {
    if |a| == 1 {
      assert a == [a[0]] && b == [b[0]];
    } else {
      var half := |a| / 2;
      RootSized(h, a[..half], n);
      RootSized(h, b[..half], n);
      SameParts(Root(h, a[..half]), Root(h, a[half..]), Root(h, b[..half]), Root(h, b[half..]));
      RootDetermines(h, a[..half], b[..half], n);
      RootDetermines(h, a[half..], b[half..], n);
      SameHalves(a, b, half);
    }
  }

  /**
   * Trees padded with different leaves have the same root, if no two inputs clash, exactly when there
   * is nothing to pad. The code pads with the hash of 32 zero bytes; with 32 zero bytes themselves as
   * pad, only files whose block count is a power of two keep their root.
   */
  lemma PadLeafMatters(h: Hasher, leaves: seq<Bytes>, k: nat, pad: Bytes, other: Bytes, n: nat)
    requires |leaves| <= Pow2(k) && AllSized(leaves, n) && |pad| == |other| == n && pad != other
    requires forall data: Bytes :: |h(data)| == n
    requires !Clash(h, PadTo(leaves, Pow2(k), pad), PadTo(leaves, Pow2(k), other))
    ensures Root(h, PadTo(leaves, Pow2(k), pad)) == Root(h, PadTo(leaves, Pow2(k), other)) <==> |leaves| == Pow2(k)
  {
    var a, b := PadTo(leaves, Pow2(k), pad), PadTo(leaves, Pow2(k), other);
    if |leaves| == Pow2(k) {
      assert a == leaves && b == leaves;
    } else {
      assert a[|leaves|] == pad && b[|leaves|] == other;
      if Root(h, a) == Root(h, b) {
        RootDetermines(h, a, b, n);
      }
    }
  }
}
