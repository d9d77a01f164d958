/**
 Padding (section 6.3 of RFC 5652, block size 16) and cipher block chaining (section 6.2 of NIST SP
 800-38A) of the human verification cookie. The block cipher is any permutation of 16-byte blocks.
 */
module Padding {
  import opened Data

  const BLOCK_SIZE := 16

  // ---------------------------------------------------------------- padding

  function Repeat(b: byte, n: nat): (r: Bytes)
    ensures |r| == n
    ensures forall i :: 0 <= i < n ==> r[i] == b
  {
    if n == 0 then [] else Repeat(b, n - 1) + [b]
  }

  function PadLength(n: nat): (p: int)
    ensures 1 <= p <= BLOCK_SIZE && (n + p) % BLOCK_SIZE == 0
  {
    BLOCK_SIZE - n % BLOCK_SIZE
  }

  /** The input followed by p bytes of value p, where p makes the length a multiple of the block size. */
  function Padded(x: Bytes): Bytes
  {
    x + Repeat(PadLength(|x|) as byte, PadLength(|x|))
  }

  method Pad(x: Bytes) returns (out: Bytes)
    ensures out == Padded(x)
  {
    var padding := BLOCK_SIZE - |x| % BLOCK_SIZE;
    out := x;
    for i := 0 to padding
      invariant out == x + Repeat(padding as byte, i)
    {
      out := out + [padding as byte];
    }
  }

  /** The last byte says how much padding there is; all padding bytes must say the same. None stands for nil. */
  method Unpad(y: Bytes) returns (out: Option<Bytes>)
    ensures out.Some? <==> exists p :: 1 <= p <= BLOCK_SIZE && EndsIn(y, p)
    ensures out.Some? ==> EndsIn(y, |y| - |out.value|) && 1 <= |y| - |out.value| <= BLOCK_SIZE && out.value <= y
    ensures out == Unpadded(y)
  {
    if |y| == 0 {
      return None;
    }
    var padding := y[|y| - 1];
    if padding as int > |y| || padding > 16 {
      NoEnd(y);
      return None;
    } else if padding == 0 {
      NoEnd(y);
      return None;
    }
    var n := padding as int;
    var i := |y| - 1;
    while i > |y| - n - 1
      invariant |y| - n - 1 <= i <= |y| - 1
      invariant forall j :: i < j < |y| ==> y[j] == padding
    {
      if y[i] != padding {
        NoEnd(y);
        return None;
      }
      i := i - 1;
    }
    assert EndsIn(y, n);
    out := Some(y[..|y| - n]);
    EndUnique(y, n);
  }

  /** The last p bytes of y all have the value p. */
  predicate EndsIn(y: Bytes, p: int)
  {
    0 <= p <= |y| && p < 256 && forall j :: |y| - p <= j < |y| ==> y[j] == p as byte
  }

  function Unpadded(y: Bytes): Option<Bytes>
  {
    if y != [] && 1 <= y[|y| - 1] as int <= BLOCK_SIZE && EndsIn(y, y[|y| - 1] as int)
    then Some(y[..|y| - y[|y| - 1] as int]) else None
  }

  // What y ends in, if anything, is told by its last byte.
  lemma EndUnique(y: Bytes, p: int)
    requires EndsIn(y, p) && p >= 1
    ensures y[|y| - 1] as int == p
  {
    assert y[|y| - 1] == p as byte;
  }

  lemma NoEnd(y: Bytes)
    requires y != []
    requires var p := y[|y| - 1] as int; p == 0 || p > BLOCK_SIZE || !EndsIn(y, p)
    ensures !exists p :: 1 <= p <= BLOCK_SIZE && EndsIn(y, p)
  {
    forall p | 1 <= p <= BLOCK_SIZE ensures !EndsIn(y, p) {
      if EndsIn(y, p) {
        EndUnique(y, p);
      }
    }
  }

  lemma PaddedEnd(x: Bytes)
    ensures EndsIn(Padded(x), PadLength(|x|)) && Padded(x)[..|x|] == x
    ensures |Padded(x)| % BLOCK_SIZE == 0
  {
  }

  // Unpadding takes off exactly what padding put on.
  lemma UnpadPad(x: Bytes)
    ensures Unpadded(Padded(x)) == Some(x)
  {
    PaddedEnd(x);
    EndUnique(Padded(x), PadLength(|x|));
  }

  // On whole blocks unpadding succeeds with x exactly for the padding of x.
  lemma UnpadExact(y: Bytes, x: Bytes)
    requires |y| % BLOCK_SIZE == 0
    ensures Unpadded(y) == Some(x) <==> y == Padded(x)
  {
    UnpadPad(x);
    if Unpadded(y) == Some(x) {
      var p := y[|y| - 1] as int;
      assert |x| + p == |y|;
      assert PadLength(|x|) == p;
      assert y == Padded(x);
    }
  }

  // ---------------------------------------------------------------- cipher block chaining

  type Cipher = Bytes -> Bytes

  ghost predicate OnBlocks(F: Cipher)
  {
    forall b :: |b| == BLOCK_SIZE ==> |F(b)| == BLOCK_SIZE
  }

  ghost predicate InverseAt(E: Cipher, D: Cipher, b: Bytes)
  {
    |b| == BLOCK_SIZE ==> D(E(b)) == b && E(D(b)) == b
  }

  /** E permutes 16-byte blocks and D is its inverse. */
  ghost predicate Inverse(E: Cipher, D: Cipher)
  {
    OnBlocks(E) && OnBlocks(D) && forall b :: InverseAt(E, D, b)
  }

  /** Exclusive or of the lowest n bits. */
  function XorBits(a: nat, b: nat, n: nat): (x: nat)
  {
    if n == 0 then 0 else (if a % 2 == b % 2 then 0 else 1) + 2 * XorBits(a / 2, b / 2, n - 1)
  }

  function Pow2(n: nat): nat
  {
    if n == 0 then 1 else 2 * Pow2(n - 1)
  }

  lemma {:induction false} XorBitsTwice(a: nat, b: nat, n: nat)
    requires a < Pow2(n)
    ensures XorBits(a, b, n) < Pow2(n)
    ensures XorBits(XorBits(a, b, n), b, n) == a
  {
    if n > 0 {
      XorBitsTwice(a / 2, b / 2, n - 1);
      var x := XorBits(a, b, n);
      assert x / 2 == XorBits(a / 2, b / 2, n - 1);
    }
  }

  lemma ByteBits()
    ensures Pow2(8) == 256
  {
    assert Pow2(4) == 16;
  }

  function XorByte(a: byte, b: byte): byte
  {
    ByteBits();
    XorBitsTwice(a as nat, b as nat, 8);
    XorBits(a as nat, b as nat, 8) as byte
  }

  /** Bit k of a number. */
  function Bit(x: nat, k: nat): nat
  {
    if k == 0 then x % 2 else Bit(x / 2, k - 1)
  }

  lemma XorBitsParts(a: nat, b: nat, n: nat)
    requires n > 0
    ensures XorBits(a, b, n) % 2 == (if a % 2 == b % 2 then 0 else 1)
    ensures XorBits(a, b, n) / 2 == XorBits(a / 2, b / 2, n - 1)
  {
  }

  lemma {:induction false} XorBitsAt(a: nat, b: nat, n: nat, k: nat)
    requires k < n
    ensures Bit(XorBits(a, b, n), k) == if Bit(a, k) == Bit(b, k) then 0 else 1
  {
    XorBitsParts(a, b, n);
    if k > 0 {
      XorBitsAt(a / 2, b / 2, n - 1, k - 1);
    }
  }

  function Xor(a: Bytes, b: Bytes): (r: Bytes)
    requires |a| == |b|
    ensures |r| == |a|
  {
    seq(|a|, i requires 0 <= i < |a| => XorByte(a[i], b[i]))
  }

  // A bit of the exclusive or is set if and only if it is in exactly one of the two.
  lemma XorIs(a: Bytes, b: Bytes, i: nat, k: nat)
    requires |a| == |b| && i < |a| && k < 8
    ensures Bit(Xor(a, b)[i] as nat, k) == if Bit(a[i] as nat, k) == Bit(b[i] as nat, k) then 0 else 1
  {
    XorBitsAt(a[i] as nat, b[i] as nat, 8, k);
  }

  lemma XorTwice(a: Bytes, b: Bytes)
    requires |a| == |b|
    ensures Xor(Xor(a, b), b) == a
  {
    ByteBits();
    forall i | 0 <= i < |a| ensures XorByte(XorByte(a[i], b[i]), b[i]) == a[i] {
      XorBitsTwice(a[i] as nat, b[i] as nat, 8);
    }
  }

  /** Each block is combined with the previous cipher block, the first with the initialisation vector. */
  function Chain(E: Cipher, iv: Bytes, p: Bytes): Bytes
    requires |iv| == BLOCK_SIZE && |p| % BLOCK_SIZE == 0
    requires OnBlocks(E)
    decreases |p|
  {
    if p == [] then [] else
      var c := E(Xor(p[..BLOCK_SIZE], iv));
      c + Chain(E, c, p[BLOCK_SIZE..])
  }

  function Unchain(D: Cipher, iv: Bytes, c: Bytes): Bytes
    requires |iv| == BLOCK_SIZE && |c| % BLOCK_SIZE == 0
    requires OnBlocks(D)
    decreases |c|
  {
    if c == [] then [] else
      Xor(D(c[..BLOCK_SIZE]), iv) + Unchain(D, c[..BLOCK_SIZE], c[BLOCK_SIZE..])
  }

  /** The i-th block of whole blocks. */
  function BlockAt(x: Bytes, i: nat): (b: Bytes)
    requires BLOCK_SIZE * (i + 1) <= |x|
    ensures |b| == BLOCK_SIZE
  {
    x[BLOCK_SIZE * i..BLOCK_SIZE * (i + 1)]
  }

  lemma BlockOfRest(x: Bytes, i: nat)
    requires BLOCK_SIZE * (i + 2) <= |x|
    ensures BlockAt(x[BLOCK_SIZE..], i) == BlockAt(x, i + 1)
  {
  }

  // Every cipher block is the cipher of the exclusive or of its plain block and the cipher block before
  // it, the first one of its plain block and the initialisation vector.
  lemma {:induction false} ChainBlock(E: Cipher, iv: Bytes, p: Bytes, i: nat)
    requires OnBlocks(E) && |iv| == BLOCK_SIZE && |p| % BLOCK_SIZE == 0 && BLOCK_SIZE * (i + 1) <= |p|
    ensures |Chain(E, iv, p)| == |p|
    ensures var c := Chain(E, iv, p);
            BlockAt(c, i) == E(Xor(BlockAt(p, i), if i == 0 then iv else BlockAt(c, i - 1)))
    decreases i
  {
    var rest, c := p[BLOCK_SIZE..], Chain(E, iv, p);
    var c0 := E(Xor(p[..BLOCK_SIZE], iv));
    ChainLength(E, iv, p);
    assert c[..BLOCK_SIZE] == c0 && c[BLOCK_SIZE..] == Chain(E, c0, rest);
    assert BlockAt(c, 0) == c0 && BlockAt(p, 0) == p[..BLOCK_SIZE];
    if i > 0 {
      ChainBlock(E, c0, rest, i - 1);
      BlockOfRest(p, i - 1);
      BlockOfRest(c, i - 1);
      if i > 1 {
        BlockOfRest(c, i - 2);
      }
    }
  }

  lemma {:induction false} ChainLength(E: Cipher, iv: Bytes, p: Bytes)
    requires OnBlocks(E) && |iv| == BLOCK_SIZE && |p| % BLOCK_SIZE == 0
    ensures |Chain(E, iv, p)| == |p|
    decreases |p|
  {
    if p != [] {
      ChainLength(E, E(Xor(p[..BLOCK_SIZE], iv)), p[BLOCK_SIZE..]);
    }
  }

  lemma {:induction false} UnchainChain(E: Cipher, D: Cipher, iv: Bytes, p: Bytes)
    requires Inverse(E, D) && |iv| == BLOCK_SIZE && |p| % BLOCK_SIZE == 0
    ensures |Chain(E, iv, p)| == |p| && Unchain(D, iv, Chain(E, iv, p)) == p
    decreases |p|
  {
    if p != [] {
      var b := Xor(p[..BLOCK_SIZE], iv);
      var c := E(b);
      UnchainChain(E, D, c, p[BLOCK_SIZE..]);
      XorTwice(p[..BLOCK_SIZE], iv);
      var all := Chain(E, iv, p);
      assert all[..BLOCK_SIZE] == c && all[BLOCK_SIZE..] == Chain(E, c, p[BLOCK_SIZE..]);
      assert InverseAt(E, D, b);
      assert p == p[..BLOCK_SIZE] + p[BLOCK_SIZE..];
    }
  }

  lemma {:induction false} ChainUnchain(E: Cipher, D: Cipher, iv: Bytes, c: Bytes)
    requires Inverse(E, D) && |iv| == BLOCK_SIZE && |c| % BLOCK_SIZE == 0
    ensures |Unchain(D, iv, c)| == |c| && Chain(E, iv, Unchain(D, iv, c)) == c
    decreases |c|
  {
    if c != [] {
      var c0 := c[..BLOCK_SIZE];
      var p0 := Xor(D(c0), iv);
      ChainUnchain(E, D, c0, c[BLOCK_SIZE..]);
      XorTwice(D(c0), iv);
      var all := Unchain(D, iv, c);
      assert all[..BLOCK_SIZE] == p0 && all[BLOCK_SIZE..] == Unchain(D, c0, c[BLOCK_SIZE..]);
      assert InverseAt(E, D, c0);
      assert c == c0 + c[BLOCK_SIZE..];
    }
  }

  // ---------------------------------------------------------------- the cookie

  datatype Outcome<+T> = BadKey | Panics | Done(value: T)

  /** The key lengths the block cipher accepts. */
  predicate KeyOk(key: Bytes)
  {
    |key| == 16 || |key| == 24 || |key| == 32
  }

  method Encrypt(E: Bytes -> Cipher, iv: Bytes, plaintext: Bytes, key: Bytes) returns (out: Outcome<Bytes>)
    requires |iv| == BLOCK_SIZE && OnBlocks(E(key))
    ensures |Padded(plaintext)| % BLOCK_SIZE == 0
    ensures out == Encrypted(E(key), iv, plaintext, key)
    ensures if |key| in {16, 24, 32} then out == Done(iv + Chain(E(key), iv, Padded(plaintext))) else out == BadKey
  {
    PaddedEnd(plaintext);
    if !KeyOk(key) {
      return BadKey;
    }
    var padded := Pad(plaintext);
    var encrypted := Chain(E(key), iv, padded);
    out := Done(iv + encrypted);
  }

  function Encrypted(E: Cipher, iv: Bytes, m: Bytes, key: Bytes): Outcome<Bytes>
    requires |iv| == BLOCK_SIZE && OnBlocks(E)
  {
    PaddedEnd(m);
    if KeyOk(key) then Done(iv + Chain(E, iv, Padded(m))) else BadKey
  }

  /** Input shorter than a block, or not of whole blocks, makes the program panic. */
  method Decrypt(D: Bytes -> Cipher, data: Bytes, key: Bytes) returns (out: Outcome<Option<Bytes>>)
    requires OnBlocks(D(key))
    ensures out == Decrypted(D(key), data, key)
    ensures out == BadKey <==> |key| !in {16, 24, 32}
    ensures out == Panics <==> |key| in {16, 24, 32} && (|data| < BLOCK_SIZE || |data| % BLOCK_SIZE != 0)
  {
    if !KeyOk(key) {
      return BadKey;
    }
    if |data| < BLOCK_SIZE || |data| % BLOCK_SIZE != 0 {
      return Panics;
    }
    var iv := data[..BLOCK_SIZE];
    var encrypted := data[BLOCK_SIZE..];
    var padded := Unchain(D(key), iv, encrypted);
    var plaintext := Unpad(padded);
    out := Done(plaintext);
  }

  function Decrypted(D: Cipher, data: Bytes, key: Bytes): Outcome<Option<Bytes>>
    requires OnBlocks(D)
  {
    if !KeyOk(key) then BadKey
    else if |data| < BLOCK_SIZE || |data| % BLOCK_SIZE != 0 then Panics
    else Done(Unpadded(Unchain(D, data[..BLOCK_SIZE], data[BLOCK_SIZE..])))
  }

  // For every message and every initialisation vector, decrypting gives back what was encrypted.
  lemma DecryptEncrypt(E: Cipher, D: Cipher, iv: Bytes, m: Bytes, key: Bytes)
    requires Inverse(E, D) && |iv| == BLOCK_SIZE && KeyOk(key)
    ensures Encrypted(E, iv, m, key).Done?
    ensures Decrypted(D, Encrypted(E, iv, m, key).value, key) == Done(Some(m))
  {
    PaddedEnd(m);
    UnchainChain(E, D, iv, Padded(m));
    UnpadPad(m);
    DecryptedParts(D, iv, Chain(E, iv, Padded(m)), key);
  }

  lemma DecryptedParts(D: Cipher, iv: Bytes, c: Bytes, key: Bytes)
    requires OnBlocks(D) && |iv| == BLOCK_SIZE && |c| % BLOCK_SIZE == 0 && KeyOk(key)
    ensures Decrypted(D, iv + c, key) == Done(Unpadded(Unchain(D, iv, c)))
  {
    OneBlockMore(iv, c);
  }

  lemma OneBlockMore(iv: Bytes, c: Bytes)
    requires |iv| == BLOCK_SIZE && |c| % BLOCK_SIZE == 0
    ensures |iv + c| >= BLOCK_SIZE && |iv + c| % BLOCK_SIZE == 0
    ensures (iv + c)[..BLOCK_SIZE] == iv && (iv + c)[BLOCK_SIZE..] == c
  {
  }

  // And only what some encryption of m produced decrypts to m.
  lemma DecryptExact(E: Cipher, D: Cipher, data: Bytes, m: Bytes, key: Bytes)
    requires Inverse(E, D) && KeyOk(key) && |data| >= BLOCK_SIZE && |data| % BLOCK_SIZE == 0
    ensures Decrypted(D, data, key) == Done(Some(m)) <==> Done(data) == Encrypted(E, data[..BLOCK_SIZE], m, key)
  {
    var iv, c := data[..BLOCK_SIZE], data[BLOCK_SIZE..];
    DecryptEncrypt(E, D, iv, m, key);
    ChainUnchain(E, D, iv, c);
    UnpadExact(Unchain(D, iv, c), m);
    assert data == iv + c;
  }
}
