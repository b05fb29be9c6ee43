/**
 * The Internet checksum (section 1 of RFC 1071): the one's-complement of the
 * one's-complement sum of the big-endian 16-bit words of a block, an odd last
 * octet being padded with a zero octet.
 */
module InternetChecksum {
  import opened Bytes

  // ------------------------------------------------------------ definitions

  /** One's-complement addition: the carry out is added back in. */
  function Add(a: word, b: word): word {
    if a + b < 0x1_0000 then a + b else a + b - 0xFFFF
  }

  function Complement(w: word): word { 0xFFFF - w }

  function OcSum(s: seq<byte>): word {
    if s == [] then 0
    else if |s| == 1 then Word(s[0], 0)
    else Add(Word(s[0], s[1]), OcSum(s[2..]))
  }

  function Checksum(s: seq<byte>): word { Complement(OcSum(s)) }

  ghost predicate IsChecksum(s: seq<byte>, c: word) {
    forall x {:trigger Open(x)} | Open(x) :: c == Checksum(s)
  }

  /** The checksum, kept closed. */
  ghost function ChecksumOf(s: seq<byte>): (c: word)
    ensures IsChecksum(s, c)
  {
    assert IsChecksum(s, Checksum(s));
    var c: word :| IsChecksum(s, c);
    c
  }

  lemma {:induction false} ChecksumIs(s: seq<byte>)
    ensures ChecksumOf(s) == Checksum(s)
  {
    assert Open(0);
  }

  /** A block carrying its checksum verifies when the sum is all ones. */
  predicate Verifies(s: seq<byte>) { OcSum(s) == 0xFFFF }

  /** The block with the 16-bit field at offset k cleared. */
  ghost function Cleared(s: seq<byte>, k: nat): seq<byte>
    requires k + 2 <= |s|
  {
    PutBe16(s, k, 0)
  }

  ghost predicate IsCanonical(s: seq<byte>, k: nat, c: word)
    requires k + 2 <= |s|
  {
    forall x {:trigger Open(x)} | Open(x) :: c == Checksum(Cleared(s, k))
  }

  /** The checksum that belongs in the field at offset k: that of the block with the field cleared. */
  ghost function Canonical(s: seq<byte>, k: nat): (c: word)
    requires k + 2 <= |s|
    ensures IsCanonical(s, k, c)
  {
    assert IsCanonical(s, k, Checksum(Cleared(s, k)));
    var c: word :| IsCanonical(s, k, c);
    c
  }

  lemma {:induction false} CanonicalIs(s: seq<byte>, k: nat)
    requires k + 2 <= |s|
    ensures Canonical(s, k) == Checksum(Cleared(s, k))
  {
    assert Open(0);
  }

  // -------------------------------------------- the sum as a residue class

  /** The plain integer sum of the words, without any carry handling. */
  function Total(s: seq<byte>): nat {
    if s == [] then 0
    else if |s| == 1 then Word(s[0], 0)
    else Word(s[0], s[1]) + Total(s[2..])
  }

  /** n with its carries folded back in until it fits 16 bits. */
  function Norm(n: nat): word {
    if n <= 0xFFFF then n else Norm(n - 0xFFFF)
  }

  /** Norm picks the representative of n modulo 0xFFFF that is 0 only for 0. */
  lemma {:induction false} NormUnique(n: nat, w: word, q: int)
    requires n == w + 0xFFFF * q
    requires w == 0 <==> n == 0
    ensures Norm(n) == w
    decreases n
  {
    if n > 0xFFFF { NormUnique(n - 0xFFFF, w, q - 1); }
  }

  lemma {:induction false} NormQuotient(n: nat) returns (q: nat)
    ensures n == Norm(n) + 0xFFFF * q
    ensures Norm(n) == 0 <==> n == 0
  {
    if n <= 0xFFFF {
      q := 0;
    } else {
      q := NormQuotient(n - 0xFFFF);
      q := q + 1;
    }
  }

  lemma {:induction false} NormAdd(a: nat, b: nat)
    ensures Add(Norm(a), Norm(b)) == Norm(a + b)
  {
    var p := NormQuotient(a);
    var q := NormQuotient(b);
    var carry := if Norm(a) + Norm(b) < 0x1_0000 then 0 else 1;
    NormUnique(a + b, Add(Norm(a), Norm(b)), p + q + carry);
  }

  /** The words that bring a sum to all ones: its complement, or all ones again. */
  lemma {:induction false} NormAllOnesIff(t: nat, w: word)
    ensures Norm(t + w) == 0xFFFF <==> w == Complement(Norm(t)) || (Norm(t) == 0xFFFF && w == 0xFFFF)
  {
    var q := NormQuotient(t);
    var p := NormQuotient(t + w);
    if w == Complement(Norm(t)) {
      NormUnique(t + w, 0xFFFF, q);
    } else if Norm(t) == 0xFFFF && w == 0xFFFF {
      NormUnique(t + w, 0xFFFF, q + 1);
    }
  }

  lemma {:induction false} NormInjectiveNearby(a: nat, b: nat)
    requires -0xFFFF < a - b < 0xFFFF
    ensures Norm(a) == Norm(b) <==> a == b
  {
    var p := NormQuotient(a);
    var q := NormQuotient(b);
  }

  /** End-around carry computes the sum modulo 0xFFFF, with 0 only for 0. */
  lemma {:induction false} OcSumIsNorm(s: seq<byte>)
    ensures OcSum(s) == Norm(Total(s))
  {
    if |s| >= 2 {
      OcSumIsNorm(s[2..]);
      NormUnique(Word(s[0], s[1]), Word(s[0], s[1]), 0);
      NormAdd(Word(s[0], s[1]), Total(s[2..]));
    } else if |s| == 1 {
      NormUnique(Word(s[0], 0), Word(s[0], 0), 0);
    }
  }

  /** Changing one octet moves the total by its weight, 256 at even offsets and 1 at odd ones. */
  lemma {:induction false} TotalUpdate(s: seq<byte>, i: nat, v: byte)
    requires i < |s|
    ensures i % 2 == 0 ==> Total(s[i := v]) == Total(s) + 0x100 * (v - s[i])
    ensures i % 2 == 1 ==> Total(s[i := v]) == Total(s) + (v - s[i])
  {
    if i >= 2 {
      assert s[i := v][2..] == s[2..][i - 2 := v];
      TotalUpdate(s[2..], i - 2, v);
    } else if |s| >= 2 {
      assert s[i := v][2..] == s[2..];
    }
  }

  lemma {:induction false} TotalPair(s: seq<byte>, k: nat, a: byte, b: byte)
    requires k + 2 <= |s| && k % 2 == 0
    ensures Total(s[k := a][k + 1 := b]) == Total(s) + Word(a, b) - Word(s[k], s[k + 1])
  {
    TotalUpdate(s, k, a);
    TotalUpdate(s[k := a], k + 1, b);
  }

  lemma {:induction false} TotalPutBe16(s: seq<byte>, k: nat, w: word)
    requires k + 2 <= |s| && k % 2 == 0
    ensures Total(PutBe16(s, k, w)) == Total(s) + w - Be16(s, k)
  {
    HiLo(w);
    StoredUnique(s, k, w, s[k := Hi(w)][k + 1 := Lo(w)]);
    TotalPair(s, k, Hi(w), Lo(w));
  }

  lemma {:induction false} TotalPositive(s: seq<byte>, i: nat)
    requires i < |s| && s[i] != 0
    ensures Total(s) > 0
  {
    if i >= 2 { TotalPositive(s[2..], i - 2); }
  }

  lemma {:induction false} TotalZero(s: seq<byte>)
    requires Total(s) == 0
    ensures forall i | 0 <= i < |s| :: s[i] == 0
  {
    forall i | 0 <= i < |s| ensures s[i] == 0 {
      if s[i] != 0 { TotalPositive(s, i); }
    }
  }

  // ------------------------------------------------------------- main laws

  /**
   * Which field values verify: the canonical one, and 0xFFFF as a second
   * spelling of a canonical 0.
   */
  lemma {:induction false} VerifiesIff(s: seq<byte>, k: nat)
    requires k + 2 <= |s| && k % 2 == 0
    ensures Verifies(s) <==>
              Be16(s, k) == Canonical(s, k) || (Canonical(s, k) == 0 && Be16(s, k) == 0xFFFF)
  {
    CanonicalIs(s, k);
    TotalPutBe16(s, k, 0);
    OcSumIsNorm(Cleared(s, k));
    OcSumIsNorm(s);
    NormAllOnesIff(Total(Cleared(s, k)), Be16(s, k));
  }

  lemma {:induction false} CanonicalIgnoresField(s: seq<byte>, r: seq<byte>, k: nat)
    requires k + 2 <= |s| == |r| && forall i | 0 <= i < |s| && i != k && i != k + 1 :: r[i] == s[i]
    ensures Canonical(r, k) == Canonical(s, k)
  {
    StoredUnique(r, k, 0, Cleared(s, k));
    CanonicalIs(s, k);
    CanonicalIs(r, k);
  }

  /** Storing the computed checksum always makes the block verify. */
  lemma {:induction false} StoredChecksumVerifies(s: seq<byte>, k: nat)
    requires k + 2 <= |s| && k % 2 == 0
    ensures Verifies(PutBe16(s, k, Canonical(s, k)))
  {
    var r := PutBe16(s, k, Canonical(s, k));
    CanonicalIgnoresField(s, r, k);
    VerifiesIff(r, k);
  }

  /** A block with a nonzero octet outside the field never has 0xFFFF as its canonical checksum. */
  lemma {:induction false} CanonicalNotAllOnes(s: seq<byte>, k: nat, i: nat)
    requires k + 2 <= |s| && i < |s| && i != k && i != k + 1 && s[i] != 0
    ensures Canonical(s, k) != 0xFFFF
  {
    CanonicalIs(s, k);
    TotalPositive(Cleared(s, k), i);
    OcSumIsNorm(Cleared(s, k));
    var _ := NormQuotient(Total(Cleared(s, k)));
  }

  // ------------------------------------- byte order (section 2(B) of RFC 1071)

  function Swap(w: word): word { Word(Lo(w), Hi(w)) }

  /** The same sum taken over little-endian words, as a little-endian host reads them. */
  function OcSumLe(s: seq<byte>): word {
    if s == [] then 0
    else if |s| == 1 then Word(0, s[0])
    else Add(Word(s[1], s[0]), OcSumLe(s[2..]))
  }

  lemma {:induction false} SwapIsTimes256(w: word) returns (q: int)
    ensures Swap(w) == 0x100 * w - 0xFFFF * q
    ensures Swap(w) == 0 <==> w == 0
  {
    q := Hi(w);
  }

  lemma {:induction false} AddQuotient(a: word, b: word) returns (q: int)
    ensures a + b == Add(a, b) + 0xFFFF * q
    ensures Add(a, b) == 0 <==> a == 0 && b == 0
  {
    q := if a + b < 0x1_0000 then 0 else 1;
  }

  lemma {:induction false} SameResidue(x: word, y: word, k: int)
    requires x - y == 0xFFFF * k
    requires x == 0 <==> y == 0
    ensures x == y
  {
  }

  lemma {:induction false} SwapAdd(a: word, b: word)
    ensures Add(Swap(a), Swap(b)) == Swap(Add(a, b))
  {
    var qa := SwapIsTimes256(a);
    var qb := SwapIsTimes256(b);
    var qs := SwapIsTimes256(Add(a, b));
    var p := AddQuotient(a, b);
    var r := AddQuotient(Swap(a), Swap(b));
    SameResidue(Add(Swap(a), Swap(b)), Swap(Add(a, b)), 0x100 * p - qa - qb + qs - r);
  }

  lemma {:induction false} SumSwaps(s: seq<byte>)
    ensures OcSumLe(s) == Swap(OcSum(s))
  {
    if |s| >= 2 {
      SumSwaps(s[2..]);
      WordParts(s[0], s[1]);
      SwapAdd(Word(s[0], s[1]), OcSum(s[2..]));
    } else if |s| == 1 {
      WordParts(s[0], 0);
    } else {
      WordParts(0, 0);
    }
  }

  lemma {:induction false} ComplementParts(w: word)
    ensures Hi(Complement(w)) == 0xFF - Hi(w) && Lo(Complement(w)) == 0xFF - Lo(w)
  {
    HiLo(w);
    WordParts(0xFF - Hi(w), 0xFF - Lo(w));
  }

  /**
   * A little-endian host that sums in its own order and stores the complement
   * in its own order writes the same two octets as a big-endian host.
   */
  lemma {:induction false} ByteOrderIndependence(s: seq<byte>)
    ensures Lo(Complement(OcSumLe(s))) == Hi(Checksum(s))
    ensures Hi(Complement(OcSumLe(s))) == Lo(Checksum(s))
  {
    SumSwaps(s);
    var w := OcSum(s);
    HiLo(w);
    WordParts(Lo(w), Hi(w));
    ComplementParts(w);
    ComplementParts(Swap(w));
  }
}
