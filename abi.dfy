/**
 * Fixed-width big-endian integers as the Solidity ABI lays them out:
 * a `uint256` is one 32-byte word, most significant byte first, and an
 * address is a 20-byte integer that fills such a word with 12 leading zeros.
 */
module Abi {
  import opened Results

  type Byte = b: int | 0 <= b < 256
  type Bytes = seq<Byte>

  /** 256 to the power `n`: the number of distinct `n`-byte values. */
  function Pow256(n: nat): (p: nat)
    ensures p > 0
  {
    if n == 0 then 1 else 256 * Pow256(n - 1)
  }

  /** One EVM word: 32 bytes. Storage slots and storage values are words. */
  type Word = w: Bytes | |w| == 32 witness Zeros(32)

  /** 2^256: the number of distinct words. */
  const WORD_LIMIT: nat := 0x1_0000_0000_0000_0000_0000_0000_0000_0000_0000_0000_0000_0000_0000_0000_0000_0000

  /** 2^160: the number of distinct addresses. */
  const ADDRESS_LIMIT: nat := 0x1_0000_0000_0000_0000_0000_0000_0000_0000_0000_0000

  /** A 160-bit account or contract address, as an integer. */
  type Address = a: nat | a < ADDRESS_LIMIT

  function Zeros(n: nat): (z: Bytes)
    ensures |z| == n && forall k :: 0 <= k < n ==> z[k] == 0
  {
    seq(n, _ => 0)
  }

  /** The `n`-byte big-endian representation of `x`, keeping its `n` low-order bytes. */
  function ToBigEndian(x: nat, n: nat): (r: Bytes)
    ensures |r| == n
  {
    if n == 0 then [] else ToBigEndian(x / 256, n - 1) + [x % 256]
  }

  /** The integer that the big-endian byte string `s` denotes. */
  function FromBigEndian(s: Bytes): (v: nat)
    ensures v < Pow256(|s|)
  {
    if s == [] then 0
    else
      var high := FromBigEndian(s[..|s| - 1]);
      assert high * 256 + s[|s| - 1] <= (Pow256(|s| - 1) - 1) * 256 + 255;
      high * 256 + s[|s| - 1]
  }

  lemma {:induction false} Pow256Monotone(m: nat, n: nat)
    requires m <= n
    ensures Pow256(m) <= Pow256(n)
  {
    if m < n {
      Pow256Monotone(m, n - 1);
    }
  }

  /** Decoding undoes encoding for every value that fits in `n` bytes. */
  lemma {:induction false} FromToBigEndian(x: nat, n: nat)
    requires x < Pow256(n)
    ensures FromBigEndian(ToBigEndian(x, n)) == x
  {
    if n > 0 {
      assert x / 256 < Pow256(n - 1);
      FromToBigEndian(x / 256, n - 1);
      var s := ToBigEndian(x, n);
      assert s[..n - 1] == ToBigEndian(x / 256, n - 1);
    }
  }

  /** Encoding undoes decoding: every byte string is the representation of its value. */
  lemma {:induction false} ToFromBigEndian(s: Bytes)
    ensures ToBigEndian(FromBigEndian(s), |s|) == s
  {
    if s != [] {
      var init := s[..|s| - 1];
      var v := FromBigEndian(s);
      assert v == FromBigEndian(init) * 256 + s[|s| - 1];
      assert v / 256 == FromBigEndian(init) && v % 256 == s[|s| - 1];
      ToFromBigEndian(init);
      assert s == init + [s[|s| - 1]];
    }
  }

  lemma {:induction false} ToBigEndianZero(n: nat)
    ensures ToBigEndian(0, n) == Zeros(n)
  {
    if n > 0 {
      ToBigEndianZero(n - 1);
      assert Zeros(n) == Zeros(n - 1) + [0];
    }
  }

  /**
   * Widening a value that fits in `m` bytes to `n >= m` bytes only prepends zeros:
   * this is the left zero padding of the ABI.
   */
  lemma {:induction false} ToBigEndianPadding(x: nat, m: nat, n: nat)
    requires m <= n && x < Pow256(m)
    ensures ToBigEndian(x, n) == Zeros(n - m) + ToBigEndian(x, m)
  {
    if m == 0 {
      ToBigEndianZero(n);
    } else {
      assert x / 256 < Pow256(m - 1);
      ToBigEndianPadding(x / 256, m - 1, n - 1);
      assert (n - 1) - (m - 1) == n - m;
    }
  }

  lemma {:induction false} Pow256Add(a: nat, b: nat)
    ensures Pow256(a + b) == Pow256(a) * Pow256(b)
  {
    if b > 0 {
      Pow256Add(a, b - 1);
      assert Pow256(a + b) == 256 * (Pow256(a) * Pow256(b - 1));
    }
  }

  lemma Pow256Four()
    ensures Pow256(4) == 0x1_0000_0000
  {
    assert Pow256(2) == 0x1_0000;
  }

  lemma WordLimit()
    ensures Pow256(32) == WORD_LIMIT
  {
    Pow256Four();
    Pow256Add(4, 4);
    assert Pow256(8) == 0x1_0000_0000_0000_0000;
    Pow256Add(8, 8);
    assert Pow256(16) == 0x1_0000_0000_0000_0000_0000_0000_0000_0000;
    Pow256Add(16, 16);
  }

  lemma AddressLimit()
    ensures Pow256(20) == ADDRESS_LIMIT
  {
    Pow256Four();
    Pow256Add(4, 4);
    assert Pow256(8) == 0x1_0000_0000_0000_0000;
    Pow256Add(8, 8);
    assert Pow256(16) == 0x1_0000_0000_0000_0000_0000_0000_0000_0000;
    Pow256Add(16, 4);
  }

  datatype AbiError = ValueOutOfBounds

  /**
   * The ABI encoding of the `uint256` value `x`: one 32-byte word. Values
   * below zero or from 2^256 up are rejected, as the encoder throws on them.
   */
  function EncodeUint256(x: int): (r: Result<Word, AbiError>)
    ensures r.Ok? <==> 0 <= x < WORD_LIMIT
    ensures r.Ok? ==> DecodeUint256(r.value) == x
  {
    if 0 <= x < WORD_LIMIT then
      WordLimit();
      FromToBigEndian(x, 32);
      Ok(ToBigEndian(x, 32))
    else
      Err(ValueOutOfBounds)
  }

  /** The `uint256` value held in a word. */
  function DecodeUint256(w: Word): (v: nat)
    ensures v < WORD_LIMIT
  {
    WordLimit();
    FromBigEndian(w)
  }

  /** Every word is the encoding of exactly one `uint256`: decoding then encoding is the identity. */
  lemma EncodeDecodeUint256(w: Word)
    ensures EncodeUint256(DecodeUint256(w)) == Ok(w)
  {
    ToFromBigEndian(w);
  }

  /** A value that fits in `m` bytes is encoded as `32 - m` zero bytes followed by its `m` bytes. */
  lemma {:induction false} EncodeUint256Padding(x: nat, m: nat)
    requires m <= 32 && x < Pow256(m)
    ensures EncodeUint256(x) == Ok(Zeros(32 - m) + ToBigEndian(x, m))
  {
    Pow256Monotone(m, 32);
    WordLimit();
    ToBigEndianPadding(x, m, 32);
  }

  /** An address encoded as a `uint256` is its 20 big-endian bytes after 12 zero bytes. */
  lemma AddressWord(a: Address)
    ensures EncodeUint256(a) == Ok(Zeros(12) + ToBigEndian(a, 20))
  {
    AddressLimit();
    EncodeUint256Padding(a, 20);
  }
}
