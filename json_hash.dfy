/**
 * The member hash index. The hash starts from a fixed 32-bit seed and XORs
 * byte i of the name into byte (i mod 4) of the seed, where the bytes of the
 * 32-bit result are addressed in little-endian order.
 *
 * Bytes are integers in [0, 256) and exclusive or is defined bit by bit on
 * naturals, so that the lane arithmetic stays in linear integer reasoning.
 */
module JsonHash {
  import opened Wrappers
  import opened CType
  import opened JsonValue

  type byte = x: int | 0 <= x < 256

  const SEED: uint32 := 0xe3a1c280

  /** The seed's bytes as they lie in memory, lowest address first. */
  const SEED_BYTES: seq<byte> := [0x80, 0xc2, 0xa1, 0xe3]

  function Pow2(n: nat): (p: nat)
    ensures p >= 1
  {
    if n == 0 then 1 else 2 * Pow2(n - 1)
  }

  /** Bitwise exclusive or of two naturals, from the lowest bit up. */
  function Xor(a: nat, b: nat): nat
    decreases a + b
  {
    if a == 0 then b
    else if b == 0 then a
    else 2 * Xor(a / 2, b / 2) + (if a % 2 == b % 2 then 0 else 1)
  }

  /** The lowest bit of a ^ b and the rest, also when one side is zero. */
  lemma XorBits(a: nat, b: nat)
    ensures Xor(a, b) == 2 * Xor(a / 2, b / 2) + (if a % 2 == b % 2 then 0 else 1)
  {
    if a == 0 {
      assert Xor(a / 2, b / 2) == b / 2;
    } else if b == 0 {
      assert Xor(a / 2, b / 2) == a / 2;
    }
  }

  /** Exclusive or of two n-bit numbers has n bits. */
  lemma {:induction false} XorBound(a: nat, b: nat, n: nat)
    requires a < Pow2(n) && b < Pow2(n)
    ensures Xor(a, b) < Pow2(n)
    decreases n
  {
    if a != 0 && b != 0 {
      XorBound(a / 2, b / 2, n - 1);
    }
  }

  lemma {:induction false} XorSelf(a: nat)
    ensures Xor(a, a) == 0
    decreases a
  {
    if a != 0 {
      XorSelf(a / 2);
    }
  }

  lemma {:induction false} XorComm(a: nat, b: nat)
    ensures Xor(a, b) == Xor(b, a)
    decreases a + b
  {
    if a != 0 && b != 0 {
      XorComm(a / 2, b / 2);
    }
  }

  lemma {:induction false} XorAssoc(a: nat, b: nat, c: nat)
    ensures Xor(Xor(a, b), c) == Xor(a, Xor(b, c))
    decreases a + b + c
  {
    if a + b + c != 0 {
      var ab, bc := Xor(a, b), Xor(b, c);
      XorBits(a, b);
      XorBits(b, c);
      XorBits(ab, c);
      XorBits(a, bc);
      assert ab / 2 == Xor(a / 2, b / 2) && ab % 2 == (if a % 2 == b % 2 then 0 else 1);
      assert bc / 2 == Xor(b / 2, c / 2) && bc % 2 == (if b % 2 == c % 2 then 0 else 1);
      XorAssoc(a / 2, b / 2, c / 2);
    }
  }

  /** Exclusive or of two bytes. */
  function XorByte(a: byte, b: byte): byte
  {
    XorBound(a, b, 8);
    Xor(a, b)
  }

  /** XORing a byte in and then the XOR of it with another leaves just the other. */
  lemma XorCancel(x: byte, a: byte, b: byte)
    ensures XorByte(XorByte(x, a), XorByte(a, b)) == XorByte(x, b)
    ensures XorByte(XorByte(x, XorByte(a, b)), a) == XorByte(x, b)
  {
    XorAssoc(x, a, Xor(a, b));
    XorAssoc(a, a, b);
    XorSelf(a);
    XorAssoc(x, Xor(a, b), a);
    XorComm(Xor(a, b), a);
  }

  /** The byte a character stands for. */
  function Byte(c: char): byte { (c as int) % 256 }

  /** The bytes of a name. */
  function Bytes(name: string): (bs: seq<byte>)
    ensures |bs| == |name|
    ensures forall k :: 0 <= k < |name| ==> bs[k] == Byte(name[k])
  {
    seq(|name|, k requires 0 <= k < |name| => Byte(name[k]))
  }

  /** A 32-bit word assembled from its four bytes, lowest address first. */
  function LittleEndian(b: seq<byte>): uint32
    requires |b| == 4
  {
    b[0] as int + 0x100 * b[1] as int + 0x1_0000 * b[2] as int + 0x100_0000 * b[3] as int
  }

  /** The word with the byte at address k XORed with b. */
  function Mix(rp: seq<byte>, k: nat, b: byte): (r: seq<byte>)
    requires |rp| == 4 && k < 4
    ensures |r| == 4
  {
    rp[k := XorByte(rp[k], b)]
  }

  /**
   * The four bytes of the hash word as they lie in memory after the first n
   * bytes of bs have been XORed in: byte i goes into byte i mod 4.
   */
  function Lanes(bs: seq<byte>, n: nat): (rp: seq<byte>)
    requires n <= |bs|
    ensures |rp| == 4
  {
    if n == 0 then SEED_BYTES
    else Mix(Lanes(bs, n - 1), (n - 1) % 4, bs[n - 1])
  }

  /** The hash index of a name: the word whose bytes are the lanes after the whole name. */
  function HashOf(name: string): uint32
  {
    LittleEndian(Lanes(Bytes(name), |name|))
  }

  /**
   * The hash loop: the seed is viewed as four bytes in memory and byte i of
   * the name is XORed into byte i mod 4.
   */
  method HashIdx(name: string) returns (h: uint32)
    requires NulFree(name)
    ensures h == HashOf(name)
    ensures name == [] ==> h == SEED
  {
    var rp := SEED_BYTES;
    var i := 0;
    while CharAt(name, i) != '\0'
      invariant i <= |name|
      invariant rp == Lanes(Bytes(name), i)
      decreases |name| - i
    {
      rp := rp[i % 4 := XorByte(rp[i % 4], Byte(name[i]))];
      i := i + 1;
    }
    h := LittleEndian(rp);
  }

  /** The public hash entry point, a call-through to the hash loop. */
  method Hidx(str: string) returns (h: uint32)
    requires NulFree(str)
    ensures h == HashOf(str)
  {
    h := HashIdx(str);
  }

  /** Stores the hash of a member's name as its index; a missing node is left alone. */
  function ObjectIdx(m: Option<Member>): (r: Option<Member>)
    ensures r.None? <==> m.None?
    ensures r.Some? ==> r.value.name == m.value.name && r.value.val == m.value.val
                        && r.value.hidx == HashOf(r.value.name)
  {
    match m
    case None => None
    case Some(node) => Some(node.(hidx := HashOf(node.name)))
  }

  /** The byte of the name at index 0 lands in the lowest byte of the hash. */
  lemma HashOfSingle()
    ensures HashOf("a") == 0xe3a1c2e1
  {
    assert Xor(2, 1) == 3;
    assert Xor(4, 3) == 7;
    assert Xor(8, 6) == 14;
    assert Xor(16, 12) == 28;
    assert Xor(32, 24) == 56;
    assert Xor(64, 48) == 112;
    assert Xor(0x80, 0x61) == 0xe1;
    var bs := Bytes("a");
    assert bs == [0x61];
    assert Lanes(bs, 1) == Mix(SEED_BYTES, 0, 0x61);
  }

  /** XORing one byte into a lane and then the XOR of two bytes leaves just the second. */
  lemma MixCancel(r: seq<byte>, k: nat, a: byte, b: byte)
    requires |r| == 4 && k < 4
    ensures Mix(Mix(r, k, a), k, XorByte(a, b)) == Mix(r, k, b)
    ensures Mix(Mix(r, k, XorByte(a, b)), k, a) == Mix(r, k, b)
  {
    XorCancel(r[k], a, b);
  }

  /** Updates of two different lanes commute. */
  lemma MixCommute(r: seq<byte>, k: nat, j: nat, a: byte, c: byte)
    requires |r| == 4 && k < 4 && j < 4 && j != k
    ensures Mix(Mix(r, k, a), j, c) == Mix(Mix(r, j, c), k, a)
  {
  }

  /** The bytes bs with the bytes at i and i + 4 exchanged. */
  function Swap4(bs: seq<byte>, i: nat): (r: seq<byte>)
    requires i + 4 < |bs|
    ensures |r| == |bs|
  {
    bs[i := bs[i + 4]][i + 4 := bs[i]]
  }

  /**
   * The lanes after n bytes of the swapped bytes differ from the original's
   * only while exactly one of the two swapped positions has been read.
   */
  lemma {:induction false} SwapLanes(s: seq<byte>, i: nat, n: nat)
    requires i + 4 < |s| && n <= |s|
    ensures Lanes(Swap4(s, i), n) == if i < n <= i + 4 then Mix(Lanes(s, n), i % 4, XorByte(s[i], s[i + 4]))
                                     else Lanes(s, n)
  {
    if n > 0 {
      var m := n - 1;
      SwapLanes(s, i, m);
      if m == i {
        SwapFirst(s, i);
      } else if m == i + 4 {
        SwapSecond(s, i);
      } else if i < m < i + 4 {
        SwapBetween(s, i, m);
      } else {
        SwapOutside(s, i, m);
      }
    }
  }

  /** Reading the first swapped position leaves its lane off by the XOR of the two bytes. */
  lemma SwapFirst(s: seq<byte>, i: nat)
    requires i + 4 < |s| && Lanes(Swap4(s, i), i) == Lanes(s, i)
    ensures Lanes(Swap4(s, i), i + 1) == Mix(Lanes(s, i + 1), i % 4, XorByte(s[i], s[i + 4]))
  {
    var t := Swap4(s, i);
    assert t[i] == s[i + 4];
    assert Lanes(t, i + 1) == Mix(Lanes(s, i), i % 4, s[i + 4]);
    assert Lanes(s, i + 1) == Mix(Lanes(s, i), i % 4, s[i]);
    MixCancel(Lanes(s, i), i % 4, s[i], s[i + 4]);
  }

  /** Reading the second swapped position puts its lane right again. */
  lemma SwapSecond(s: seq<byte>, i: nat)
    requires i + 4 < |s|
    requires Lanes(Swap4(s, i), i + 4) == Mix(Lanes(s, i + 4), i % 4, XorByte(s[i], s[i + 4]))
    ensures Lanes(Swap4(s, i), i + 5) == Lanes(s, i + 5)
  {
    var t := Swap4(s, i);
    var k := (i + 4) % 4;
    assert k == i % 4;
    assert t[i + 4] == s[i];
    assert Lanes(t, i + 5) == Mix(Lanes(t, i + 4), k, s[i]);
    assert Lanes(s, i + 5) == Mix(Lanes(s, i + 4), k, s[i + 4]);
    MixCancel(Lanes(s, i + 4), k, s[i], s[i + 4]);
  }

  /** Between the two positions the bytes agree and go into other lanes. */
  lemma SwapBetween(s: seq<byte>, i: nat, m: nat)
    requires i < m < i + 4 && i + 4 < |s|
    requires Lanes(Swap4(s, i), m) == Mix(Lanes(s, m), i % 4, XorByte(s[i], s[i + 4]))
    ensures Lanes(Swap4(s, i), m + 1) == Mix(Lanes(s, m + 1), i % 4, XorByte(s[i], s[i + 4]))
  {
    var t := Swap4(s, i);
    assert t[m] == s[m];
    assert m % 4 != i % 4;
    MixCommute(Lanes(s, m), i % 4, m % 4, XorByte(s[i], s[i + 4]), s[m]);
  }

  /** Away from the two positions the bytes agree. */
  lemma SwapOutside(s: seq<byte>, i: nat, m: nat)
    requires (m < i || i + 4 < m) && i + 4 < |s| && m < |s|
    requires Lanes(Swap4(s, i), m) == Lanes(s, m)
    ensures Lanes(Swap4(s, i), m + 1) == Lanes(s, m + 1)
  {
    assert Swap4(s, i)[m] == s[m];
  }

  /** Swapping two characters four positions apart never changes the hash. */
  lemma HashSwap4(s: string, i: nat)
    requires i + 4 < |s|
    ensures HashOf(s[i := s[i + 4]][i + 4 := s[i]]) == HashOf(s)
  {
    var t := s[i := s[i + 4]][i + 4 := s[i]];
    var bs := Bytes(s);
    assert Bytes(t) == Swap4(bs, i);
    SwapLanes(bs, i, |s|);
  }
}
