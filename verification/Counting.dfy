/** Occurrences in sequences and octets in sequences of frames. */
module Counting {
  import opened Bytes
  import opened Ethernet

  lemma {:induction false} Assoc<T>(a: seq<T>, b: seq<T>, c: seq<T>)
    ensures (a + b) + c == a + (b + c)
  {
  }

  function Occ<T(==)>(s: seq<T>, x: T): nat {
    if s == [] then 0 else (if s[0] == x then 1 else 0) + Occ(s[1..], x)
  }

  lemma {:induction false} OccConcat<T>(a: seq<T>, b: seq<T>, x: T)
    ensures Occ(a + b, x) == Occ(a, x) + Occ(b, x)
  {
    if a == [] {
      assert a + b == b;
    } else {
      assert (a + b)[1..] == a[1..] + b;
      OccConcat(a[1..], b, x);
    }
  }

  lemma {:induction false} OccIsMultiplicity<T>(s: seq<T>, x: T)
    ensures multiset(s)[x] == Occ(s, x)
  {
    if s != [] {
      assert s == [s[0]] + s[1..];
      OccIsMultiplicity(s[1..], x);
    }
  }

  lemma {:induction false} Distinct<T>(s: seq<T>, a: nat, b: nat)
    requires a < b < |s| && multiset(s)[s[a]] <= 1
    ensures s[a] != s[b]
  {
    assert s == s[..b] + s[b..];
    assert s[a] in s[..b];
    assert s[b] in s[b..];
  }

  function Octets(s: seq<Frame>): nat {
    if s == [] then 0 else Octets(s[..|s| - 1]) + |s[|s| - 1]|
  }

  lemma {:induction false} OctetsConcat(a: seq<Frame>, b: seq<Frame>)
    ensures Octets(a + b) == Octets(a) + Octets(b)
  {
    if b == [] {
      assert a + b == a;
    } else {
      OctetsConcat(a, b[..|b| - 1]);
      assert (a + b)[..|a + b| - 1] == a + b[..|b| - 1];
    }
  }
}
