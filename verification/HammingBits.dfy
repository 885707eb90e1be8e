/** gbase/bits.cc: counting and comparing the bits of byte sequences with a table, and the portable logarithms. */
module HammingBits {

  import opened Bitwise

  type byte = x: int | 0 <= x < 256

  // ----- the table

  /** Row r of the table num_bits, the entries from 16 * r to 16 * r + 15. */
  function Row(r: nat): (row: seq<nat>)
    requires r < 16
    ensures |row| == 16
  {
    if r == 0 then [0, 1, 1, 2, 1, 2, 2, 3, 1, 2, 2, 3, 2, 3, 3, 4]
    else if r == 1 || r == 2 || r == 4 || r == 8 then [1, 2, 2, 3, 2, 3, 3, 4, 2, 3, 3, 4, 3, 4, 4, 5]
    else if r == 3 || r == 5 || r == 6 || r == 9 || r == 10 || r == 12 then
      [2, 3, 3, 4, 3, 4, 4, 5, 3, 4, 4, 5, 4, 5, 5, 6]
    else if r == 15 then [4, 5, 5, 6, 5, 6, 6, 7, 5, 6, 6, 7, 6, 7, 7, 8]
    else [3, 4, 4, 5, 4, 5, 5, 6, 4, 5, 5, 6, 5, 6, 6, 7]
  }

  function NumBits(b: byte): nat { Row(b / 16)[b % 16] }

  /** The bits of a number below 16. */
  function Nibble(c: nat): nat
    requires c < 16
  {
    if c == 0 then 0
    else if c == 1 || c == 2 || c == 4 || c == 8 then 1
    else if c == 7 || c == 11 || c == 13 || c == 14 then 3
    else if c == 15 then 4
    else 2
  }

  lemma NibbleStep(h: nat, i: nat)
    requires h < 8 && i < 2
    ensures Nibble(2 * h + i) == i + Nibble(h)
  {
  }

  lemma {:induction false} NibbleIsOnes(c: nat)
    requires c < 16
    ensures Ones(c) == Nibble(c)
  {
    if c > 0 {
      NibbleIsOnes(c / 2);
      NibbleStep(c / 2, c % 2);
      hide Nibble;
    }
  }

  /** The first row, with every entry larger by w. */
  function Raised(w: nat): (row: seq<nat>)
    requires w < 5
    ensures |row| == 16
  {
    if w == 0 then [0, 1, 1, 2, 1, 2, 2, 3, 1, 2, 2, 3, 2, 3, 3, 4]
    else if w == 1 then [1, 2, 2, 3, 2, 3, 3, 4, 2, 3, 3, 4, 3, 4, 4, 5]
    else if w == 2 then [2, 3, 3, 4, 3, 4, 4, 5, 3, 4, 4, 5, 4, 5, 5, 6]
    else if w == 3 then [3, 4, 4, 5, 4, 5, 5, 6, 4, 5, 5, 6, 5, 6, 6, 7]
    else [4, 5, 5, 6, 5, 6, 6, 7, 5, 6, 6, 7, 6, 7, 7, 8]
  }

  lemma RowIsRaised(r: nat)
    requires r < 16
    ensures Nibble(r) < 5 && Row(r) == Raised(Nibble(r))
  {
  }

  lemma RaisedBy0(c: nat)
    requires c < 16
    ensures Raised(0)[c] == 0 + Nibble(c)
  {
  }

  lemma RaisedBy1(c: nat)
    requires c < 16
    ensures Raised(1)[c] == 1 + Nibble(c)
  {
  }

  lemma RaisedBy2(c: nat)
    requires c < 16
    ensures Raised(2)[c] == 2 + Nibble(c)
  {
  }

  lemma RaisedBy3(c: nat)
    requires c < 16
    ensures Raised(3)[c] == 3 + Nibble(c)
  {
  }

  lemma RaisedBy4(c: nat)
    requires c < 16
    ensures Raised(4)[c] == 4 + Nibble(c)
  {
  }

  lemma EntryIs(b: byte)
    ensures NumBits(b) == Nibble(b / 16) + Nibble(b % 16) <= 8
  {
    RowIsRaised(b / 16);
    EntryIsRight(Nibble(b / 16), b % 16);
    NibbleBound(b / 16);
    NibbleBound(b % 16);
    hide Row, Raised, Nibble;
  }

  /** Every entry of the table is right. */
  lemma TableIsRight(b: byte)
    ensures NumBits(b) == Ones(b) <= 8
  {
    hide *;
    EntryIs(b);
    OnesOfByte(b);
    NibbleIsOnes(b / 16);
    NibbleIsOnes(b % 16);
  }

  lemma NibbleBound(c: nat)
    requires c < 16
    ensures Nibble(c) <= 4
  {
  }

  lemma EntryIsRight(w: nat, c: nat)
    requires w < 5 && c < 16
    ensures |Raised(w)| == 16 && Raised(w)[c] == w + Nibble(c)
  {
    hide Raised;
    if w == 0 {
      RaisedBy0(c);
    } else if w == 1 {
      RaisedBy1(c);
    } else if w == 2 {
      RaisedBy2(c);
    } else if w == 3 {
      RaisedBy3(c);
    } else {
      RaisedBy4(c);
    }
  }

  // ----- counting

  function OnesIn(s: seq<byte>): nat {
    if s == [] then 0 else OnesIn(s[..|s| - 1]) + Ones(s[|s| - 1])
  }

  /** The Hamming distance: how many bits differ. */
  function Distance(s: seq<byte>, t: seq<byte>): nat
    requires |s| == |t|
  {
    if s == [] then 0 else Distance(s[..|s| - 1], t[..|t| - 1]) + Ones(Xor(s[|s| - 1], t[|t| - 1]))
  }

  /** A negative number of bytes counts as none. */
  function Length(numBytes: int): nat { if numBytes < 0 then 0 else numBytes }

  method Count(m: seq<byte>, numBytes: int) returns (nbits: nat)
    requires numBytes <= |m|
    ensures nbits == OnesIn(m[..Length(numBytes)])
  {
    nbits := 0;
    var i := 0;
    while i < numBytes
      invariant 0 <= i <= Length(numBytes)
      invariant nbits == OnesIn(m[..i])
    {
      TableIsRight(m[i]);
      assert m[..i + 1][..i] == m[..i];
      nbits := nbits + NumBits(m[i]);
      i := i + 1;
    }
  }

  lemma XorOfBytes(a: byte, b: byte)
    ensures Xor(a, b) < 256
  {
    Pow2At8();
    XorBound(8, a, b);
  }

  method Difference(m1: seq<byte>, m2: seq<byte>, numBytes: int) returns (nbits: nat)
    requires numBytes <= |m1| && numBytes <= |m2|
    ensures nbits == Distance(m1[..Length(numBytes)], m2[..Length(numBytes)])
  {
    nbits := 0;
    var i := 0;
    while i < numBytes
      invariant 0 <= i <= Length(numBytes)
      invariant nbits == Distance(m1[..i], m2[..i])
    {
      XorOfBytes(m1[i], m2[i]);
      TableIsRight(Xor(m1[i], m2[i]));
      assert m1[..i + 1][..i] == m1[..i] && m2[..i + 1][..i] == m2[..i];
      nbits := nbits + NumBits(Xor(m1[i], m2[i]));
      i := i + 1;
    }
  }

  lemma {:induction false} DistanceGrows(s: seq<byte>, t: seq<byte>, i: nat)
    requires |s| == |t| && i <= |s|
    ensures Distance(s[..i], t[..i]) <= Distance(s, t)
  {
    if i < |s| {
      var n := |s| - 1;
      DistanceGrows(s[..n], t[..n], i);
      assert s[..n][..i] == s[..i] && t[..n][..i] == t[..i];
    } else {
      assert s[..i] == s && t[..i] == t;
    }
  }

  /** Exact up to the cap; above it, only that it is above, by at most the bits of a byte. */
  method CappedDifference(m1: seq<byte>, m2: seq<byte>, numBytes: int, cap: int) returns (nbits: nat)
    requires numBytes <= |m1| && numBytes <= |m2|
    ensures var d := Distance(m1[..Length(numBytes)], m2[..Length(numBytes)]);
            nbits <= d && (nbits <= cap ==> nbits == d) && (nbits > cap <==> d > cap)
            && nbits <= (if cap < 0 then 0 else cap + 8)
  {
    nbits := 0;
    var i := 0;
    ghost var s, t := m1[..Length(numBytes)], m2[..Length(numBytes)];
    while i < numBytes && nbits <= cap
      invariant 0 <= i <= Length(numBytes)
      invariant nbits == Distance(s[..i], t[..i])
      invariant nbits <= (if cap < 0 then 0 else cap + 8)
    {
      XorOfBytes(m1[i], m2[i]);
      TableIsRight(Xor(m1[i], m2[i]));
      assert s[..i + 1][..i] == s[..i] && t[..i + 1][..i] == t[..i];
      nbits := nbits + NumBits(Xor(m1[i], m2[i]));
      i := i + 1;
    }
    DistanceGrows(s, t, i);
    if i == |s| {
      assert s[..i] == s && t[..i] == t;
    }
  }

  // ----- the distance is a metric

  lemma {:induction false} XorCommutes(x: nat, y: nat)
    ensures Xor(x, y) == Xor(y, x)
  {
    if x != 0 || y != 0 {
      XorCommutes(x / 2, y / 2);
    }
  }

  /** What separates x from z separates x from y or y from z. */
  lemma {:induction false} OnesTriangle(x: nat, y: nat, z: nat)
    ensures Ones(Xor(x, z)) <= Ones(Xor(x, y)) + Ones(Xor(y, z))
    decreases x + y + z
  {
    if x != 0 || y != 0 || z != 0 {
      OnesTriangle(x / 2, y / 2, z / 2);
      OnesOfXor(x, y);
      OnesOfXor(y, z);
      OnesOfXor(x, z);
    }
  }

  lemma OnesOfXor(x: nat, y: nat)
    ensures Ones(Xor(x, y)) == Bit(x % 2 != y % 2) + Ones(Xor(x / 2, y / 2))
  {
    hide Ones, Xor;
    XorStep(x / 2, x % 2, y / 2, y % 2);
    OnesStep(Xor(x / 2, y / 2), Bit(x % 2 != y % 2));
  }

  lemma {:induction false} OnesIsZero(x: nat)
    ensures Ones(x) == 0 <==> x == 0
  {
    if x > 0 {
      OnesIsZero(x / 2);
    }
  }

  /** Zero exactly for equal sequences, symmetric, and no detour is shorter. */
  lemma {:induction false} DistanceIsMetric(s: seq<byte>, t: seq<byte>, u: seq<byte>)
    requires |s| == |t| == |u|
    ensures Distance(s, t) == 0 <==> s == t
    ensures Distance(s, t) == Distance(t, s)
    ensures Distance(s, u) <= Distance(s, t) + Distance(t, u)
  {
    if s != [] {
      var n := |s| - 1;
      DistanceIsMetric(s[..n], t[..n], u[..n]);
      assert s == s[..n] + [s[n]] && t == t[..n] + [t[n]];
      XorIsZero(s[n], t[n]);
      OnesIsZero(Xor(s[n], t[n]));
      XorCommutes(s[n], t[n]);
      OnesTriangle(s[n], t[n], u[n]);
    }
  }
}
