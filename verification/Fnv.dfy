/** The journal's checksum: 32-bit FNV-1a. */
module Fnv {
  import opened Bits

  type Byte = bv8

  const WORD: nat := 0x1_0000_0000

  function Scaled(a: nat): nat { a * 16777619 % WORD }

  function Round(h: nat, b: Byte): nat { Scaled(Xor(h, b as nat)) }

  function Checksum(s: seq<Byte>): nat {
    if s == [] then 2166136261 else Round(Checksum(s[..|s| - 1]), s[|s| - 1])
  }

  /** checksum32: the loop over a buffer. */
  method Checksum32(p: array<Byte>, n: nat) returns (h: nat)
    requires n <= p.Length
    ensures h == Checksum(p[..n])
  {
    h := 2166136261;
    for i := 0 to n
      invariant h == Checksum(p[..i])
    {
      assert p[..i + 1][..i] == p[..i];
      h := Xor(h, p[i] as nat);
      h := h * 16777619 % WORD;
    }
  }

  // ---------------------------------------------------------------- published values

  /** The lowest bits, and the rest. */
  lemma Halved(a: nat, b: nat, q: nat, u: nat, v: nat, r: nat, x: nat)
    requires a == 2 * q + u && u < 2 && b / 2 == r && b % 2 == v && Xor(q, r) == x
    ensures Xor(a, b) == 2 * x + if u == v then 0 else 1
  {
    XorHalves(a, b);
  }

  /** The offset basis and the byte of "a". */
  lemma XorOfA(h: nat, b: nat)
    requires h == 2166136261 && b == 0x61
    ensures Xor(h, b) == 0x811C_9DA4
  {
    var q0: nat, r0: nat := 0x811C9DC5, 0x61;
    var q1: nat, r1: nat := 0x408E4EE2, 0x30;
    var q2: nat, r2: nat := 0x20472771, 0x18;
    var q3: nat, r3: nat := 0x102393B8, 0xC;
    var q4: nat, r4: nat := 0x811C9DC, 0x6;
    var q5: nat, r5: nat := 0x408E4EE, 0x3;
    var q6: nat, r6: nat := 0x2047277, 0x1;
    var q7: nat, r7: nat := 0x102393B, 0;
    XorZero(q7);
    Halved(q6, r6, q7, 1, 1, r7, 0x102393B);
    Halved(q5, r5, q6, 0, 1, r6, 0x2047276);
    Halved(q4, r4, q5, 0, 0, r5, 0x408E4ED);
    Halved(q3, r3, q4, 0, 0, r4, 0x811C9DA);
    Halved(q2, r2, q3, 1, 0, r3, 0x102393B4);
    Halved(q1, r1, q2, 0, 0, r2, 0x20472769);
    Halved(q0, r0, q1, 1, 1, r1, 0x408E4ED2);
  }

  lemma ScaledOfA(x: nat)
    requires x == 0x811C_9DA4
    ensures Scaled(x) == 0xE40C_292C
  {
  }

  lemma OneByte(b: Byte, h: nat, n: nat)
    requires b as nat == n && h == Checksum([])
    ensures Checksum([b]) == Scaled(Xor(h, n))
  {
    assert [b][..0] == [];
  }

  /** The hashes published for the empty string and for "a". */
  lemma PublishedHashes()
    ensures Checksum([]) == 0x811C_9DC5 && Checksum([0x61]) == 0xE40C_292C
  {
    var h := Checksum([]);
    XorOfA(h, 0x61);
    ScaledOfA(Xor(h, 0x61));
    OneByte(0x61, h, 0x61);
  }

  // ---------------------------------------------------------------- what the checksum detects

  lemma Residue(a: nat, k: int)
    requires a < WORD
    ensures (a + k * WORD) % WORD == a
  {
  }

  /** The multiplier is odd and so has an inverse modulo the word size. */
  lemma ScalingInverts(a: nat)
    requires a < WORD
    ensures Scaled(a) * 899433627 % WORD == a
  {
    var q := (a * 16777619) / WORD;
    assert a * 16777619 == q * WORD + Scaled(a);
    assert Scaled(a) * 899433627 == a + (a * 3513497 - q * 899433627) * WORD;
    Residue(a, a * 3513497 - q * 899433627);
  }

  lemma SameByte(u: Byte, v: Byte)
    requires u as nat == v as nat
    ensures u == v
  {
  }

  lemma Width()
    ensures PowerOfTwo(32) == WORD
  {
    assert PowerOfTwo(8) == 256;
    assert PowerOfTwo(16) == 65536;
    assert PowerOfTwo(24) == 16777216;
  }

  /** A round with the same byte keeps different hashes apart, and different bytes lead to different hashes. */
  lemma RoundInjective(h: nat, h': nat, b: Byte, b': Byte)
    requires h < WORD && h' < WORD && (h == h' || b == b') && Round(h, b) == Round(h', b')
    ensures h == h' && b == b'
  {
    Width();
    XorBound(h, b as nat, 32);
    XorBound(h', b' as nat, 32);
    ScalingInverts(Xor(h, b as nat));
    ScalingInverts(Xor(h', b' as nat));
    XorInjective(h, b as nat, h', b' as nat);
    SameByte(b, b');
  }

  lemma ChecksumBound(s: seq<Byte>)
    ensures Checksum(s) < WORD
  {
  }

  /** A single changed byte always changes the checksum. */
  lemma {:induction false} OneByteShows(s: seq<Byte>, k: nat, v: Byte)
    requires k < |s| && s[k] != v
    ensures Checksum(s[k := v]) != Checksum(s)
  {
    var n, t := |s| - 1, s[k := v];
    ChecksumBound(s[..n]);
    ChecksumBound(t[..n]);
    if k == n {
      assert t[..n] == s[..n];
    } else {
      OneByteShows(s[..n], k, v);
      assert t[..n] == s[..n][k := v];
    }
    if Checksum(t) == Checksum(s) {
      RoundInjective(Checksum(t[..n]), Checksum(s[..n]), t[n], s[n]);
    }
  }
}
