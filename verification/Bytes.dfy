/** Octets and the 16-bit big-endian fields made of them. */
module Bytes {
  type byte = b: int | 0 <= b < 0x100
  type word = w: int | 0 <= w < 0x1_0000

  /**
   * Some definitions are kept closed: their bodies are guarded by Open(_), so that
   * a proof sees inside them only where it mentions Open.
   */
  ghost predicate Open(k: int) { true }

  /** The same for definitions that hold no arithmetic of their own. */
  ghost predicate Unfold(k: int) { true }

  function Zeros(n: nat): seq<byte> { seq(n, _ => 0) }

  function Word(hi: byte, lo: byte): word {
    var h: int := hi;
    0x100 * h + lo
  }

  /** h is the more significant octet of w. */
  predicate IsHi(w: word, h: byte) { Word(h, 0) <= w < Word(h, 0) + 0x100 }

  function Hi(w: word): (h: byte)
    ensures IsHi(w, h)
  {
    assert IsHi(w, w / 0x100);
    var h: byte :| IsHi(w, h);
    h
  }

  function Lo(w: word): byte { w - Word(Hi(w), 0) }

  lemma {:induction false} HiLo(w: word)
    ensures Word(Hi(w), Lo(w)) == w
  {
  }

  lemma {:induction false} WordParts(hi: byte, lo: byte)
    ensures Hi(Word(hi, lo)) == hi && Lo(Word(hi, lo)) == lo
  {
  }

  /** The big-endian 16-bit value stored at offset i. */
  function Be16(s: seq<byte>, i: nat): word
    requires i + 2 <= |s|
  {
    Word(s[i], s[i + 1])
  }

  ghost predicate IsBe(w: word, r: seq<byte>) {
    |r| == 2 && forall x {:trigger Open(x)} | Open(x) :: Word(r[0], r[1]) == w
  }

  /** The two octets of a word, the more significant first. */
  ghost function Be(w: word): (r: seq<byte>)
    ensures IsBe(w, r)
  {
    HiLo(w);
    assert IsBe(w, [Hi(w), Lo(w)]);
    var r :| IsBe(w, r);
    r
  }

  lemma {:induction false} BeIs(w: word)
    ensures Word(Be(w)[0], Be(w)[1]) == w
  {
    assert Open(0);
  }

  /** r is s with w stored big-endian at offset i. */
  ghost predicate Stored(s: seq<byte>, i: nat, w: word, r: seq<byte>)
    requires i + 2 <= |s|
  {
    && |r| == |s| && Be16(r, i) == w
    && (forall k | 0 <= k < |s| && k != i && k != i + 1 :: r[k] == s[k])
  }

  /** The one such r. */
  ghost function PutBe16(s: seq<byte>, i: nat, w: word): (r: seq<byte>)
    requires i + 2 <= |s|
    ensures Stored(s, i, w, r)
  {
    HiLo(w);
    assert Stored(s, i, w, s[i := Hi(w)][i + 1 := Lo(w)]);
    var r :| Stored(s, i, w, r);
    r
  }

  lemma {:induction false} StoredUnique(s: seq<byte>, i: nat, w: word, r: seq<byte>)
    requires i + 2 <= |s| && Stored(s, i, w, r)
    ensures r == PutBe16(s, i, w)
  {
    assert forall k | 0 <= k < |s| :: r[k] == PutBe16(s, i, w)[k];
  }

  /** Storing into a slice is slicing what was stored into. */
  lemma {:induction false} PutSlice(s: seq<byte>, lo: nat, hi: nat, i: nat, w: word)
    requires lo <= i && i + 2 <= hi <= |s|
    ensures PutBe16(s, i, w)[lo..hi] == PutBe16(s[lo..hi], i - lo, w)
  {
    var r := PutBe16(s, i, w)[lo..hi];
    assert r[i - lo] == PutBe16(s, i, w)[i] && r[i - lo + 1] == PutBe16(s, i, w)[i + 1];
    forall k | 0 <= k < hi - lo && k != i - lo && k != i - lo + 1 ensures r[k] == s[lo..hi][k] {
      assert r[k] == PutBe16(s, i, w)[lo + k];
    }
    StoredUnique(s[lo..hi], i - lo, w, r);
  }

  method PutBe16InPlace(buf: array<byte>, i: nat, w: word)
    requires i + 2 <= buf.Length
    modifies buf
    ensures buf[..] == PutBe16(old(buf[..]), i, w)
  {
    HiLo(w);
    buf[i], buf[i + 1] := Hi(w), Lo(w);
    StoredUnique(old(buf[..]), i, w, buf[..]);
  }
}
