/** Bytes and the fixed-width unsigned integer encoding that the eventfd(2)
    counter uses on the wire: eight bytes in the host's native byte order. */
module Bytes {

  newtype byte = x: int | 0 <= x < 256

  /** Byte order of the host the kernel runs on. */
  datatype Endian = Little | Big

  /** 256 to the power k: one more than the largest value k bytes can hold. */
  function Pow256(k: nat): (r: nat)
    ensures r >= 1
  {
    if k == 0 then 1 else 256 * Pow256(k - 1)
  }

  /** Width of an eventfd counter transfer, in bytes. */
  const U64_BYTES: nat := 8
  /** Largest unsigned 64-bit value. */
  const U64_MAX: nat := 0xffff_ffff_ffff_ffff

  lemma U64Range()
    ensures Pow256(U64_BYTES) == U64_MAX + 1
  {
  }

  /** The unsigned value of b read least significant byte first. */
  function LeValue(b: seq<byte>): (v: nat)
    ensures v < Pow256(|b|)
  {
    if b == [] then 0
    else
      var rest := LeValue(b[1..]);
      assert rest <= Pow256(|b| - 1) - 1;
      assert 256 * rest <= 256 * Pow256(|b| - 1) - 256;
      b[0] as nat + 256 * rest
  }

  /** The k low-order bytes of v, least significant byte first. */
  function LeBytes(v: nat, k: nat): (b: seq<byte>)
    ensures |b| == k
  {
    if k == 0 then [] else [(v % 256) as byte] + LeBytes(v / 256, k - 1)
  }

  lemma {:induction false} LeValueOfLeBytes(v: nat, k: nat)
    requires v < Pow256(k)
    ensures LeValue(LeBytes(v, k)) == v
  {
    if k > 0 {
      assert v / 256 < Pow256(k - 1);
      LeValueOfLeBytes(v / 256, k - 1);
      assert LeBytes(v, k)[1..] == LeBytes(v / 256, k - 1);
    }
  }

  lemma {:induction false} LeBytesOfLeValue(b: seq<byte>)
    ensures LeBytes(LeValue(b), |b|) == b
  {
    if b != [] {
      var rest := LeValue(b[1..]);
      var v := b[0] as nat + 256 * rest;
      assert v % 256 == b[0] as nat && v / 256 == rest;
      LeBytesOfLeValue(b[1..]);
      assert LeBytes(v, |b|) == [b[0]] + b[1..];
    }
  }

  function Reverse(s: seq<byte>): (r: seq<byte>)
    ensures |r| == |s|
  {
    if s == [] then [] else Reverse(s[1..]) + [s[0]]
  }

  lemma {:induction false} ReverseAt(s: seq<byte>, i: nat)
    requires i < |s|
    ensures Reverse(s)[i] == s[|s| - 1 - i]
  {
    if i < |s| - 1 {
      ReverseAt(s[1..], i);
    }
  }

  lemma ReverseReverse(s: seq<byte>)
    ensures Reverse(Reverse(s)) == s
  {
    forall i | 0 <= i < |s|
      ensures Reverse(Reverse(s))[i] == s[i]
    {
      ReverseAt(Reverse(s), i);
      ReverseAt(s, |s| - 1 - i);
    }
  }

  /** k zero bytes. */
  function Zeros(k: nat): (z: seq<byte>)
    ensures |z| == k && forall i :: 0 <= i < k ==> z[i] == 0
  {
    seq(k, _ => 0)
  }

  lemma {:induction false} LeValueOfZeros(k: nat)
    ensures LeValue(Zeros(k)) == 0
  {
    if k > 0 {
      assert Zeros(k)[1..] == Zeros(k - 1);
      LeValueOfZeros(k - 1);
    }
  }

  /** k zero bytes and then a one, least significant first, is 256^k. */
  lemma {:induction false} LeValueOfZerosThenOne(k: nat)
    ensures LeValue(Zeros(k) + [1]) == Pow256(k)
  {
    if k > 0 {
      assert (Zeros(k) + [1])[1..] == Zeros(k - 1) + [1];
      LeValueOfZerosThenOne(k - 1);
    }
  }

  lemma ReverseZerosThenOne(k: nat)
    ensures Reverse(Zeros(k) + [1]) == [1] + Zeros(k)
  {
    var s := Zeros(k) + [1];
    forall i | 0 <= i < k + 1
      ensures Reverse(s)[i] == ([1] + Zeros(k))[i]
    {
      ReverseAt(s, i);
    }
  }

  /** The unsigned value of b in byte order e. */
  function Value(e: Endian, b: seq<byte>): (v: nat)
    ensures v < Pow256(|b|)
  {
    match e
    case Little => LeValue(b)
    case Big => LeValue(Reverse(b))
  }

  /** v as k bytes in byte order e. */
  function Encode(e: Endian, v: nat, k: nat): (b: seq<byte>)
    ensures |b| == k
  {
    match e
    case Little => LeBytes(v, k)
    case Big => Reverse(LeBytes(v, k))
  }

  /** Encoding a value that fits, then decoding it, gives the value back. */
  lemma ValueOfEncode(e: Endian, v: nat, k: nat)
    requires v < Pow256(k)
    ensures Value(e, Encode(e, v, k)) == v
  {
    LeValueOfLeBytes(v, k);
    if e == Big {
      ReverseReverse(LeBytes(v, k));
    }
  }

  /** Decoding any byte string, then encoding its value at the same width,
      reproduces the string exactly. */
  lemma EncodeOfValue(e: Endian, b: seq<byte>)
    ensures Encode(e, Value(e, b), |b|) == b
  {
    match e
    case Little =>
      LeBytesOfLeValue(b);
    case Big =>
      LeBytesOfLeValue(Reverse(b));
      ReverseReverse(b);
  }
}
