/**
 * Password hashing as `bcryptjs`'s `hash`/`compare` pair. The password is
 * encoded as UTF-8, a NUL byte is appended, and the key schedule reads 72
 * bytes of that key, starting again from its first byte when it is
 * shorter. A digest keeps the cost factor, the salt and those 72 bytes, so
 * `compare` accepts exactly the passwords that give the same 72 bytes: two
 * passwords that agree on their first 72 UTF-8 bytes are interchangeable.
 * One-wayness and the digest's text are not part of this model.
 */
module Bcrypt {

  type Byte = b: int | 0 <= b < 256

  /** How many key bytes bcrypt's key schedule reads. */
  const KeyBytes: nat := 72

  /** The UTF-8 encoding of one Unicode scalar value. */
  function Utf8Char(c: char): (bs: seq<Byte>)
    ensures 1 <= |bs| <= 4
    ensures |bs| == 1 <==> bs[0] < 0x80
    ensures |bs| == 2 <==> 0xC0 <= bs[0] < 0xE0
    ensures |bs| == 3 <==> 0xE0 <= bs[0] < 0xF0
    ensures |bs| == 4 <==> 0xF0 <= bs[0]
    ensures bs[0] == 0 <==> c == '\0'
    ensures forall i :: 1 <= i < |bs| ==> 0x80 <= bs[i] < 0xC0
  {
    var n := c as int;
    if n < 0x80 then [n]
    else if n < 0x800 then [0xC0 + n / 64, 0x80 + n % 64]
    else if n < 0x1_0000 then [0xE0 + n / 4096, 0x80 + (n / 64) % 64, 0x80 + n % 64]
    else [0xF0 + n / 262144, 0x80 + (n / 4096) % 64, 0x80 + (n / 64) % 64, 0x80 + n % 64]
  }

  /** The code point an encoding stands for: the inverse of `Utf8Char`. */
  function CodePoint(bs: seq<Byte>): int
    requires 1 <= |bs| <= 4
  {
    var b: seq<int> := bs;
    if |b| == 1 then b[0]
    else if |b| == 2 then (b[0] - 0xC0) * 64 + (b[1] - 0x80)
    else if |b| == 3 then (b[0] - 0xE0) * 4096 + (b[1] - 0x80) * 64 + (b[2] - 0x80)
    else (b[0] - 0xF0) * 262144 + (b[1] - 0x80) * 4096 + (b[2] - 0x80) * 64 + (b[3] - 0x80)
  }

  lemma Utf8CharDecodes(c: char)
    ensures CodePoint(Utf8Char(c)) == c as int
  {
  }

  /** Different characters have different encodings. */
  lemma Utf8CharInjective(c: char, d: char)
    requires Utf8Char(c) == Utf8Char(d)
    ensures c == d
  {
    Utf8CharDecodes(c);
    Utf8CharDecodes(d);
  }

  /** The UTF-8 encoding of a string, as `bcryptjs` computes it before hashing. */
  function Utf8(s: string): (bs: seq<Byte>)
    ensures |s| <= |bs| <= 4 * |s|
    ensures (forall i :: 0 <= i < |s| ==> s[i] != '\0') ==> forall j :: 0 <= j < |bs| ==> bs[j] != 0
  {
    if s == [] then [] else Utf8Char(s[0]) + Utf8(s[1..])
  }

  lemma {:induction false} Utf8Concat(a: string, b: string)
    ensures Utf8(a + b) == Utf8(a) + Utf8(b)
  {
    if a == [] {
      assert a + b == b;
    } else {
      assert (a + b)[0] == a[0];
      assert (a + b)[1..] == a[1..] + b;
      Utf8Concat(a[1..], b);
    }
  }

  /** UTF-8 is a code: the bytes determine the string. */
  lemma {:induction false} Utf8Injective(s: string, t: string)
    requires Utf8(s) == Utf8(t)
    ensures s == t
  {
    if s != [] && t != [] {
      var e, f := Utf8Char(s[0]), Utf8Char(t[0]);
      assert Utf8(s) == e + Utf8(s[1..]);
      assert Utf8(t) == f + Utf8(t[1..]);
      assert e[0] == Utf8(s)[0] == f[0];
      assert |e| == |f|;
      assert e == Utf8(s)[..|e|] == f;
      Utf8CharInjective(s[0], t[0]);
      assert Utf8(s[1..]) == Utf8(s)[|e|..] == Utf8(t[1..]);
      Utf8Injective(s[1..], t[1..]);
      assert s == [s[0]] + s[1..];
      assert t == [t[0]] + t[1..];
    }
  }

  /** The first `n` bytes of `b` repeated without end. */
  function Cycle(b: seq<Byte>, n: nat): (r: seq<Byte>)
    requires b != []
    ensures |r| == n
    ensures forall i :: 0 <= i < n && i < |b| ==> r[i] == b[i]
    decreases n
  {
    if n <= |b| then b[..n] else b + Cycle(b, n - |b|)
  }

  /** The 72 key bytes the key schedule reads for `plain`: its UTF-8 bytes and a NUL, repeated. */
  function Key(plain: string): (k: seq<Byte>)
    ensures |k| == KeyBytes
  {
    Cycle(Utf8(plain) + [0], KeyBytes)
  }

  /** The value a bcrypt hash call returns: cost factor, salt and the key bytes it hashed. */
  datatype Digest = Digest(cost: nat, salt: string, key: seq<Byte>)

  /** `bcrypt.hash(plain, cost)`; the random salt is an input. */
  function Hash(plain: string, cost: nat, salt: string): (d: Digest)
    ensures d.cost == cost && d.salt == salt
  {
    Digest(cost, salt, Key(plain))
  }

  /** `bcrypt.compare(plain, digest)`: the password gives the key bytes the digest was computed from. */
  function Compare(plain: string, digest: Digest): bool {
    Key(plain) == digest.key
  }

  /** A password always matches its own hash, whatever the cost and salt. */
  lemma CompareOwnHash(plain: string, cost: nat, salt: string)
    ensures Compare(plain, Hash(plain, cost, salt))
  {
  }

  /** Within the key bytes, the key is the password's UTF-8 bytes followed by the NUL. */
  lemma KeyStart(plain: string, i: nat)
    requires i < KeyBytes && i <= |Utf8(plain)|
    ensures Key(plain)[i] == (Utf8(plain) + [0])[i]
  {
  }

  /**
   * Passwords of at most 72 UTF-8 bytes without a NUL character are told
   * apart: any other such password is rejected.
   */
  lemma CompareOtherRejected(plain: string, other: string, cost: nat, salt: string)
    requires other != plain
    requires |Utf8(plain)| <= KeyBytes && |Utf8(other)| <= KeyBytes
    requires forall i :: 0 <= i < |plain| ==> plain[i] != '\0'
    requires forall i :: 0 <= i < |other| ==> other[i] != '\0'
    ensures !Compare(other, Hash(plain, cost, salt))
  {
    var u, v := Utf8(plain), Utf8(other);
    if Key(other) == Key(plain) {
      if |u| < |v| {
        KeyStart(plain, |u|);
        KeyStart(other, |u|);
        assert false;
      } else if |v| < |u| {
        KeyStart(plain, |v|);
        KeyStart(other, |v|);
        assert false;
      } else {
        forall i | 0 <= i < |u|
          ensures u[i] == v[i]
        {
          KeyStart(plain, i);
          KeyStart(other, i);
        }
        assert u == v;
        Utf8Injective(plain, other);
        assert false;
      }
    }
  }

  /**
   * Only the first 72 UTF-8 bytes count: once a password reaches 72 bytes,
   * anything appended to it matches the same digest.
   */
  lemma CompareReadsFirstBytes(plain: string, rest: string, cost: nat, salt: string)
    requires |Utf8(plain)| >= KeyBytes
    ensures Compare(plain + rest, Hash(plain, cost, salt))
  {
    Utf8Concat(plain, rest);
    forall i | 0 <= i < KeyBytes
      ensures Key(plain + rest)[i] == Key(plain)[i]
    {
      KeyStart(plain + rest, i);
      KeyStart(plain, i);
    }
  }

  /** Seventy-two 'a's followed by 'X' and by 'Y' hash alike, so each matches the other's digest. */
  lemma LongPasswordsCollide(cost: nat, salt: string)
    ensures var p := seq(72, _ => 'a');
      && p + "X" != p + "Y"
      && Compare(p + "Y", Hash(p + "X", cost, salt))
  {
    var p := seq(72, _ => 'a');
    assert (p + "X")[72] != (p + "Y")[72];
    CompareReadsFirstBytes(p, "X", cost, salt);
    CompareReadsFirstBytes(p, "Y", cost, salt);
  }
}
