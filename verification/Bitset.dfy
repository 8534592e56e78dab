/** The fixed-width bitset of the decision engine: bit i lives in word i / 64 under mask 1 << (i % 64).
    A bitset is an array of words that callers update in place; a nil bitset is a null array. What a bitset
    means is the ascending list of its members. */
module Bitset {

  // --- One word -----------------------------------------------------------------------------------

  /** Go's uint64. Its bitwise operators are defined below digit by digit. */
  type uint64 = x: int | 0 <= x < 0x1_0000_0000_0000_0000

  predicate Bit(x: nat, j: nat)
  {
    if j == 0 then x % 2 == 1 else Bit(x / 2, j - 1)
  }

  /** x & y */
  function And(x: nat, y: nat): (r: nat)
    ensures r <= x && r <= y
  {
    if x == 0 || y == 0 then 0
    else 2 * And(x / 2, y / 2) + (if x % 2 == 1 && y % 2 == 1 then 1 else 0)
  }

  /** x | y */
  function Or(x: nat, y: nat): (r: nat)
    decreases x + y
  {
    if x == 0 then y else if y == 0 then x
    else 2 * Or(x / 2, y / 2) + (if x % 2 == 1 || y % 2 == 1 then 1 else 0)
  }

  /** 1 << j */
  function Mask(j: nat): (m: nat)
    ensures m > 0
  {
    if j == 0 then 1 else 2 * Mask(j - 1)
  }

  lemma {:induction false} ZeroBits(k: nat)
    ensures !Bit(0, k)
  {
    if k > 0 {
      ZeroBits(k - 1);
    }
  }

  /** A word-wise AND is the intersection of the two words' bits. */
  lemma {:induction false} AndBits(x: nat, y: nat, k: nat)
    ensures Bit(And(x, y), k) <==> Bit(x, k) && Bit(y, k)
    decreases k
  {
    if x == 0 || y == 0 {
      ZeroBits(k);
    } else if k > 0 {
      AndBits(x / 2, y / 2, k - 1);
    }
  }

  /** A word-wise OR is the union of the two words' bits. */
  lemma {:induction false} OrBits(x: nat, y: nat, k: nat)
    ensures Bit(Or(x, y), k) <==> Bit(x, k) || Bit(y, k)
    decreases k
  {
    if x == 0 || y == 0 {
      ZeroBits(k);
    } else if k > 0 {
      OrBits(x / 2, y / 2, k - 1);
    }
  }

  /** 1 << j has bit j and no other. */
  lemma {:induction false} MaskBits(j: nat, k: nat)
    ensures Bit(Mask(j), k) <==> j == k
  {
    if j == 0 {
      if k > 0 {
        ZeroBits(k - 1);
      }
    } else if k > 0 {
      MaskBits(j - 1, k - 1);
    }
  }

  /** A word without bits is zero, so the source's `w & (1 << j) != 0` tests bit j. */
  lemma {:induction false} TestsMask(x: nat, j: nat)
    ensures And(x, Mask(j)) != 0 <==> Bit(x, j)
    decreases j
  {
    if x == 0 {
      ZeroBits(j);
    } else if j > 0 {
      TestsMask(x / 2, j - 1);
    }
  }

  lemma {:induction false} MaskGrows(j: nat, k: nat)
    requires j <= k
    ensures Mask(j) <= Mask(k)
  {
    if j < k {
      MaskGrows(j, k - 1);
    }
  }

  lemma MaskOfWordSize()
    ensures Mask(64) == 0x1_0000_0000_0000_0000
  {
    assert Mask(2) == 4;
    MaskSquare(2, 4);
    MaskSquare(4, 16);
    MaskSquare(8, 0x100);
    MaskSquare(16, 0x1_0000);
    MaskSquare(32, 0x1_0000_0000);
  }

  lemma MaskSquare(j: nat, m: nat)
    requires Mask(j) == m
    ensures Mask(2 * j) == m * m
  {
    MaskAdds(j, j);
  }

  lemma {:induction false} MaskAdds(j: nat, k: nat)
    ensures Mask(j + k) == Mask(j) * Mask(k)
  {
    if k > 0 {
      MaskAdds(j, k - 1);
    }
  }

  lemma {:induction false} BitsBelow(x: nat, n: nat, k: nat)
    requires x < Mask(n) && k >= n
    ensures !Bit(x, k)
    decreases k
  {
    if n == 0 {
      ZeroBits(k);
    } else {
      BitsBelow(x / 2, n - 1, k - 1);
    }
  }

  lemma {:induction false} OrFits(x: nat, y: nat, n: nat)
    requires x < Mask(n) && y < Mask(n)
    ensures Or(x, y) < Mask(n)
    decreases n
  {
    if x > 0 && y > 0 {
      OrFits(x / 2, y / 2, n - 1);
    }
  }

  /** `w |= 1 << uint(i&63)` stays within the word, sets bit j and no other. */
  lemma SetBit(x: uint64, j: nat)
    requires j < 64
    ensures Or(x, Mask(j)) < 0x1_0000_0000_0000_0000
    ensures forall k: nat {:trigger Bit(Or(x, Mask(j)), k)} :: Bit(Or(x, Mask(j)), k) <==> k == j || Bit(x, k)
  {
    MaskOfWordSize();
    MaskGrows(j, 63);
    OrFits(x, Mask(j), 64);
    forall k: nat
      ensures Bit(Or(x, Mask(j)), k) <==> k == j || Bit(x, k)
    {
      OrBits(x, Mask(j), k);
      MaskBits(j, k);
    }
  }

  /** bits.TrailingZeros64 of a non-zero word: the index of its lowest set bit. */
  function TrailingZeros(x: nat): (t: nat)
    requires x != 0
    ensures Bit(x, t)
  {
    if x % 2 == 1 then 0 else 1 + TrailingZeros(x / 2)
  }

  lemma {:induction false} BelowLowest(x: nat, j: nat)
    requires x != 0 && j < TrailingZeros(x)
    ensures !Bit(x, j)
    decreases j
  {
    if j > 0 {
      BelowLowest(x / 2, j - 1);
    }
  }

  lemma TrailingZerosInWord(x: uint64)
    requires x != 0
    ensures TrailingZeros(x) < 64
  {
    MaskOfWordSize();
    if TrailingZeros(x) >= 64 {
      BitsBelow(x, 64, TrailingZeros(x));
    }
  }

  /** `x &= x - 1` clears exactly the lowest set bit. */
  lemma {:induction false} ClearLowest(x: nat, k: nat)
    requires x != 0
    ensures Bit(And(x, x - 1), k) <==> Bit(x, k) && k != TrailingZeros(x)
    decreases k
  {
    AndBits(x, x - 1, k);
    if x % 2 == 1 {
      assert (x - 1) / 2 == x / 2;
    } else {
      assert (x - 1) / 2 == x / 2 - 1;
      if k > 0 {
        AndBits(x / 2, x / 2 - 1, k - 1);
        ClearLowest(x / 2, k - 1);
      }
    }
  }

  // --- A sequence of words ------------------------------------------------------------------------

  predicate IsSet(ws: seq<uint64>, i: nat)
    requires i < 64 * |ws|
  {
    Bit(ws[i / 64], i % 64)
  }

  lemma AtWord(ws: seq<uint64>, w: nat, j: nat)
    requires w < |ws| && j < 64
    ensures IsSet(ws, 64 * w + j) == Bit(ws[w], j)
  {
  }

  /** The members of the bitset below n, in ascending order. */
  function MembersBelow(ws: seq<uint64>, n: nat): (ms: seq<nat>)
    requires n <= 64 * |ws|
  {
    if n == 0 then []
    else MembersBelow(ws, n - 1) + (if IsSet(ws, n - 1) then [n - 1] else [])
  }

  function Members(ws: seq<uint64>): (ms: seq<nat>)
  {
    MembersBelow(ws, 64 * |ws|)
  }

  predicate Ascending(s: seq<nat>)
  {
    forall a, b | 0 <= a < b < |s| :: s[a] < s[b]
  }

  lemma {:induction false} MembersBelowExact(ws: seq<uint64>, n: nat)
    requires n <= 64 * |ws|
    ensures Ascending(MembersBelow(ws, n))
    ensures forall i: nat {:trigger i in MembersBelow(ws, n)} ::
              i in MembersBelow(ws, n) <==> i < n && IsSet(ws, i)
    ensures |MembersBelow(ws, n)| <= n
  {
    if n > 0 {
      MembersBelowExact(ws, n - 1);
      var front := MembersBelow(ws, n - 1);
      assert forall a | 0 <= a < |front| :: front[a] in front;
    }
  }

  /** Members lists each set index exactly once, ascending, and nothing else. */
  lemma MembersExact(ws: seq<uint64>)
    ensures Ascending(Members(ws))
    ensures forall i: nat {:trigger i in Members(ws)} ::
              i in Members(ws) <==> i < 64 * |ws| && IsSet(ws, i)
  {
    MembersBelowExact(ws, 64 * |ws|);
  }

  lemma {:induction false} SkipClear(ws: seq<uint64>, lo: nat, hi: nat)
    requires lo <= hi <= 64 * |ws|
    requires forall i: nat | lo <= i < hi :: !IsSet(ws, i)
    ensures MembersBelow(ws, hi) == MembersBelow(ws, lo)
    decreases hi
  {
    if lo < hi {
      SkipClear(ws, lo, hi - 1);
    }
  }

  /** bits.OnesCount64, by position. */
  function OnesCount(x: uint64, n: nat := 64): (c: nat)
    requires n <= 64
  {
    if n == 0 then 0 else OnesCount(x, n - 1) + (if Bit(x, n - 1) then 1 else 0)
  }

  lemma {:induction false} OnesOfWord(ws: seq<uint64>, w: nat, n: nat)
    requires w < |ws| && n <= 64
    ensures |MembersBelow(ws, 64 * w + n)| == |MembersBelow(ws, 64 * w)| + OnesCount(ws[w], n)
  {
    if n > 0 {
      OnesOfWord(ws, w, n - 1);
      AtWord(ws, w, n - 1);
    }
  }

  // --- The operations on arrays -------------------------------------------------------------------

  /** NewBitset: nil when no bit is asked for, otherwise ceil(n / 64) zero words. */
  method NewBitset(n: int) returns (b: array?<uint64>)
    ensures b == null <==> n <= 0
    ensures b != null ==> fresh(b) && b.Length == (n + 63) / 64 && forall w | 0 <= w < b.Length :: b[w] == 0
  {
    if n <= 0 {
      return null;
    }
    b := new uint64[(n + 63) / 64](_ => 0);
  }

  method Set(b: array<uint64>, i: nat)
    requires i < 64 * b.Length
    modifies b
    ensures forall k: nat | k < 64 * b.Length :: IsSet(b[..], k) <==> k == i || old(IsSet(b[..], k))
  {
    ghost var was := b[..];
    SetBit(b[i / 64], i % 64);
    b[i / 64] := Or(b[i / 64], Mask(i % 64));
    forall k: nat | k < 64 * b.Length
      ensures IsSet(b[..], k) <==> k == i || IsSet(was, k)
    {
      assert k / 64 == i / 64 && k % 64 == i % 64 ==> k == i;
    }
  }

  method Test(b: array<uint64>, i: nat) returns (on: bool)
    requires i < 64 * b.Length
    ensures on <==> i in Members(b[..])
  {
    MembersExact(b[..]);
    TestsMask(b[i / 64], i % 64);
    on := And(b[i / 64], Mask(i % 64)) != 0;
  }

  method Clear(b: array<uint64>)
    modifies b
    ensures Members(b[..]) == []
  {
    for i := 0 to b.Length
      invariant forall w | 0 <= w < i :: b[w] == 0
    {
      b[i] := 0;
    }
    forall i: nat | i < 64 * b.Length
      ensures !IsSet(b[..], i)
    {
      ZeroBits(i % 64);
    }
    SkipClear(b[..], 0, 64 * b.Length);
  }

  /** AndInto: the members of dst become the intersection of the members of a and b. dst may alias either. */
  method AndInto(a: array<uint64>, b: array<uint64>, dst: array<uint64>)
    requires a.Length == dst.Length && b.Length == dst.Length
    modifies dst
    ensures forall i: nat | i < 64 * dst.Length ::
              IsSet(dst[..], i) <==> old(IsSet(a[..], i)) && old(IsSet(b[..], i))
  {
    for i := 0 to dst.Length
      invariant forall w | i <= w < dst.Length :: a[w] == old(a[w]) && b[w] == old(b[w])
      invariant forall w | 0 <= w < i :: dst[w] == And(old(a[w]), old(b[w]))
    {
      dst[i] := And(a[i], b[i]);
    }
    forall i: nat | i < 64 * dst.Length
      ensures IsSet(dst[..], i) <==> old(IsSet(a[..], i)) && old(IsSet(b[..], i))
    {
      AndBits(old(a[i / 64]), old(b[i / 64]), i % 64);
    }
  }

  method PopCount(b: array<uint64>) returns (n: nat)
    ensures n == |Members(b[..])|
  {
    n := 0;
    for w := 0 to b.Length
      invariant n == |MembersBelow(b[..], 64 * w)|
    {
      OnesOfWord(b[..], w, 64);
      n := n + OnesCount(b[w]);
    }
  }

  /** ForEach over the first `words` words: the indices handed to the callback, in call order. */
  method ForEach(b: array<uint64>, words: nat) returns (visited: seq<nat>)
    requires words <= b.Length
    ensures visited == Members(b[..words])
  {
    ghost var ws := b[..words];
    visited := [];
    for w := 0 to words
      invariant visited == MembersBelow(ws, 64 * w)
    {
      var x: uint64 := b[w];
      ghost var p: nat := 0;
      while x != 0
        invariant p <= 64 && Remaining(x, ws[w], p)
        invariant visited == MembersBelow(ws, 64 * w + p)
        decreases x
      {
        var tz := TrailingZeros(x);
        NextMember(x, ws, w, p);
        RestRemains(x, ws[w], p);
        visited := visited + [64 * w + tz];
        x := And(x, x - 1);
        p := tz + 1;
      }
      Exhausted(ws, w, p);
    }
  }

  /** x still holds the bits of w from position p up. */
  ghost predicate Remaining(x: uint64, w: uint64, p: nat) {
    forall j: nat {:trigger Bit(x, j)} :: Bit(x, j) <==> p <= j && Bit(w, j)
  }

  /** One step of the walk: the next member is the lowest bit left ... */
  lemma NextMember(x: uint64, ws: seq<uint64>, w: nat, p: nat)
    requires x != 0 && w < |ws| && p <= 64 && Remaining(x, ws[w], p)
    ensures var tz := TrailingZeros(x);
            && p <= tz < 64
            && MembersBelow(ws, 64 * w + tz + 1) == MembersBelow(ws, 64 * w + p) + [64 * w + tz]
  {
    var tz := TrailingZeros(x);
    TrailingZerosInWord(x);
    assert p <= tz && Bit(ws[w], tz);
    forall j: nat | p <= j < tz
      ensures !Bit(ws[w], j)
    {
      BelowLowest(x, j);
    }
    SkipInWord(ws, w, p, tz);
    AtWord(ws, w, tz);
  }

  /** ... and the rest of the word remains. */
  lemma RestRemains(x: uint64, v: uint64, p: nat)
    requires x != 0 && Remaining(x, v, p)
    ensures Remaining(And(x, x - 1), v, TrailingZeros(x) + 1)
  {
    var tz, y := TrailingZeros(x), And(x, x - 1);
    assert Bit(x, tz) && p <= tz;
    forall j: nat
      ensures Bit(y, j) <==> tz + 1 <= j && Bit(v, j)
    {
      ClearLowest(x, j);
      assert Bit(x, j) <==> p <= j && Bit(v, j);
      if j < tz {
        BelowLowest(x, j);
      }
    }
    assert Remaining(y, v, tz + 1);
  }

  lemma Exhausted(ws: seq<uint64>, w: nat, p: nat)
    requires w < |ws| && p <= 64 && Remaining(0, ws[w], p)
    ensures MembersBelow(ws, 64 * w + 64) == MembersBelow(ws, 64 * w + p)
  {
    forall j: nat | p <= j < 64
      ensures !Bit(ws[w], j)
    {
      ZeroBits(j);
      assert !Bit(0, j);
    }
    SkipInWord(ws, w, p, 64);
  }

  lemma SkipInWord(ws: seq<uint64>, w: nat, lo: nat, hi: nat)
    requires w < |ws| && lo <= hi <= 64
    requires forall j: nat | lo <= j < hi :: !Bit(ws[w], j)
    ensures MembersBelow(ws, 64 * w + hi) == MembersBelow(ws, 64 * w + lo)
  {
    forall i: nat | 64 * w + lo <= i < 64 * w + hi
      ensures !IsSet(ws, i)
    {
      AtWord(ws, w, i - 64 * w);
    }
    SkipClear(ws, 64 * w + lo, 64 * w + hi);
  }
}
