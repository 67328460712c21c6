/** Bytes, the big-endian length prefixes, and concatenation of chunk lists. */
module Bytes {
  type byte = b: int | 0 <= b < 256

  datatype Option<+T> = None | Some(value: T)

  function Min(a: nat, b: nat): nat {
    if a <= b then a else b
  }

  /** Rust's `n as u16`: keep the low sixteen bits. */
  function AsU16(n: nat): nat {
    n % 0x1_0000
  }

  /** Rust's `n as u32`: keep the low thirty-two bits. */
  function AsU32(n: nat): nat {
    n % 0x1_0000_0000
  }

  const WRAP := 0x1_0000_0000_0000_0000

  /** What an atomic 64-bit counter shows after it has been moved `n` up: its additions wrap. */
  function U64(n: nat): nat {
    n % WRAP
  }

  lemma U64Small(n: nat)
    requires n < WRAP
    ensures U64(n) == n
  {
  }

  /** Wrapped counters count on as the exact ones do. */
  lemma U64Up(exact: nat, n: nat)
    ensures U64(U64(exact) + n) == U64(exact + n)
    ensures U64(exact + U64(n)) == U64(exact + n)
    ensures U64(U64(exact) + U64(n)) == U64(exact + n)
  {
    assert exact + n == exact / WRAP * WRAP + (U64(exact) + n);
    assert exact + n == n / WRAP * WRAP + (exact + U64(n));
    assert exact + n == (exact / WRAP + n / WRAP) * WRAP + (U64(exact) + U64(n));
  }

  function U16ToBe(n: nat): (b: seq<byte>)
    requires n < 0x1_0000
    ensures |b| == 2
  {
    [n / 256, n % 256]
  }

  function U16FromBe(b: seq<byte>): (n: nat)
    requires |b| == 2
    ensures n < 0x1_0000
  {
    (b[0] as int) * 256 + b[1]
  }

  function U32ToBe(n: nat): (b: seq<byte>)
    requires n < 0x1_0000_0000
    ensures |b| == 4
  {
    U16ToBe(n / 0x1_0000) + U16ToBe(n % 0x1_0000)
  }

  function U32FromBe(b: seq<byte>): (n: nat)
    requires |b| == 4
    ensures n < 0x1_0000_0000
  {
    U16FromBe(b[..2]) * 0x1_0000 + U16FromBe(b[2..])
  }

  /** The number that bytes stand for, most significant byte first. */
  function BigEndian(b: seq<byte>): nat {
    if b == [] then 0 else BigEndian(b[..|b| - 1]) * 256 + b[|b| - 1]
  }

  /** Of two byte strings of one length, the one first smaller at some byte stands for the smaller number. */
  lemma {:induction false} BigEndianOrder(a: seq<byte>, b: seq<byte>)
    requires |a| == |b|
    ensures BigEndian(a) < BigEndian(b) <==> exists i :: 0 <= i < |a| && a[..i] == b[..i] && a[i] < b[i]
  {
    if a != [] {
      var n := |a| - 1;
      BigEndianOrder(a[..n], b[..n]);
      BigEndianInjective(a[..n], b[..n]);
      assert forall i :: 0 <= i < n ==> a[..n][..i] == a[..i] && b[..n][..i] == b[..i];
      if a[..n] == b[..n] {
        assert forall i :: 0 <= i < n ==> a[i] == a[..n][i] == b[i];
      }
    }
  }

  lemma {:induction false} BigEndianInjective(a: seq<byte>, b: seq<byte>)
    requires |a| == |b|
    ensures BigEndian(a) == BigEndian(b) <==> a == b
  {
    if a != [] {
      var n := |a| - 1;
      BigEndianInjective(a[..n], b[..n]);
      assert a == a[..n] + [a[n]] && b == b[..n] + [b[n]];
    }
  }

  /** The prefixes are big-endian, for writers and readers alike. */
  lemma U16IsBigEndian(n: nat, b: seq<byte>)
    ensures n < 0x1_0000 ==> BigEndian(U16ToBe(n)) == n
    ensures |b| == 2 ==> U16FromBe(b) == BigEndian(b)
  {
    if n < 0x1_0000 {
      var c := U16ToBe(n);
      assert c[..1][..0] == [] && BigEndian(c[..1]) == c[0];
    }
    if |b| == 2 {
      assert b[..1][..0] == [] && BigEndian(b[..1]) == b[0];
    }
  }

  lemma U32IsBigEndian(n: nat, b: seq<byte>)
    ensures n < 0x1_0000_0000 ==> BigEndian(U32ToBe(n)) == n
    ensures |b| == 4 ==> U32FromBe(b) == BigEndian(b)
  {
    if n < 0x1_0000_0000 {
      FourBytes(U32ToBe(n));
    }
    if |b| == 4 {
      FourBytes(b);
      assert b[..2][0] == b[0] && b[..2][1] == b[1] && b[2..][0] == b[2] && b[2..][1] == b[3];
    }
  }

  lemma FourBytes(b: seq<byte>)
    requires |b| == 4
    ensures BigEndian(b) == (((b[0] as int) * 256 + b[1]) * 256 + b[2]) * 256 + b[3]
  {
    var x, y, z := b[..3], b[..2], b[..1];
    assert x[..2] == y && y[..1] == z && z[..0] == [];
    assert BigEndian(z) == b[0] && BigEndian(y) == (b[0] as int) * 256 + b[1];
  }

  lemma U16FromBeInjective(b: seq<byte>)
    requires |b| == 2
    ensures U16ToBe(U16FromBe(b)) == b
  {
  }

  lemma U16RoundTrip(n: nat)
    requires n < 0x1_0000
    ensures U16FromBe(U16ToBe(n)) == n
  {
  }

  lemma U32RoundTrip(n: nat)
    requires n < 0x1_0000_0000
    ensures U32FromBe(U32ToBe(n)) == n
  {
    assert U32ToBe(n)[..2] == U16ToBe(n / 0x1_0000);
    assert U32ToBe(n)[2..] == U16ToBe(n % 0x1_0000);
  }

  lemma U32FromBeInjective(b: seq<byte>)
    requires |b| == 4
    ensures U32ToBe(U32FromBe(b)) == b
  {
    U16FromBeInjective(b[..2]);
    U16FromBeInjective(b[2..]);
    assert U32FromBe(b) / 0x1_0000 == U16FromBe(b[..2]) && U32FromBe(b) % 0x1_0000 == U16FromBe(b[2..]);
    assert b == b[..2] + b[2..];
  }

  lemma TakeNext<T>(s: seq<T>, n: nat)
    requires n < |s|
    ensures s[..n + 1] == s[..n] + [s[n]]
  {
  }

  lemma SliceJoin<T>(s: seq<T>, i: nat, j: nat, k: nat)
    requires i <= j <= k <= |s|
    ensures s[i..j] + s[j..k] == s[i..k]
  {
  }

  /** The bytes of a list of chunks, in order. */
  function Flatten<T>(chunks: seq<seq<T>>): seq<T> {
    if |chunks| == 0 then [] else chunks[0] + Flatten(chunks[1..])
  }

  lemma FlattenNothing<T>()
    ensures Flatten<T>([]) == []
  {
  }

  lemma {:induction false} FlattenAppend<T>(a: seq<seq<T>>, b: seq<seq<T>>)
    ensures Flatten(a + b) == Flatten(a) + Flatten(b)
  {
    if |a| == 0 {
      assert a + b == b;
    } else {
      assert (a + b)[1..] == a[1..] + b;
      FlattenAppend(a[1..], b);
    }
  }

  lemma FlattenSnoc<T>(a: seq<seq<T>>, x: seq<T>)
    ensures Flatten(a + [x]) == Flatten(a) + x
  {
    FlattenAppend(a, [x]);
    assert [x][1..] == [];
  }

  lemma FlattenPrefix<T>(a: seq<seq<T>>, b: seq<seq<T>>)
    requires a <= b
    ensures Flatten(a) <= Flatten(b)
  {
    assert b == a + b[|a|..];
    FlattenAppend(a, b[|a|..]);
  }
}
