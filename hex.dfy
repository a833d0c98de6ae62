/** `fmt.Sprintf("%x", b)` over a byte slice: two lower-case hexadecimal digits per byte. */
module Hex {

  const HexDigits: string := "0123456789abcdef"

  predicate IsLowerHex(c: char) { '0' <= c <= '9' || 'a' <= c <= 'f' }

  function Nibble(n: nat): (c: char)
    requires n < 16
    ensures IsLowerHex(c)
  {
    HexDigits[n]
  }

  function NibbleValue(c: char): (n: nat)
    requires IsLowerHex(c)
    ensures n < 16
  {
    if c <= '9' then c as int - '0' as int else c as int - 'a' as int + 10
  }

  lemma NibbleRoundTrip(n: nat)
    requires n < 16
    ensures NibbleValue(Nibble(n)) == n
  {
  }

  /** The `%x` rendering of `b`, high nibble first. */
  function Encode(b: seq<bv8>): (s: string)
    ensures |s| == 2 * |b|
    ensures forall k :: 0 <= k < |s| ==> IsLowerHex(s[k])
  {
    if b == [] then []
    else [Nibble(b[0] as int / 16), Nibble(b[0] as int % 16)] + Encode(b[1..])
  }

  /** The byte two hex digits spell, high nibble first. */
  function ByteOf(hi: char, lo: char): bv8
    requires IsLowerHex(hi) && IsLowerHex(lo)
  {
    (NibbleValue(hi) * 16 + NibbleValue(lo)) as bv8
  }

  /** Reads pairs of lower-case hex digits back into bytes. */
  function Decode(s: string): seq<bv8>
    requires |s| % 2 == 0
    requires forall k :: 0 <= k < |s| ==> IsLowerHex(s[k])
  {
    if s == [] then []
    else [ByteOf(s[0], s[1])] + Decode(s[2..])
  }

  /** One byte's two digits read back as that byte. */
  lemma ByteRoundTrip(x: bv8)
    ensures ByteOf(Nibble(x as int / 16), Nibble(x as int % 16)) == x
  {
    NibbleRoundTrip(x as int / 16);
    NibbleRoundTrip(x as int % 16);
    assert (x as int / 16) * 16 + x as int % 16 == x as int;
  }

  lemma {:induction false} DecodeEncode(b: seq<bv8>)
    ensures Decode(Encode(b)) == b
  {
    if b != [] {
      var s := Encode(b);
      var rest := Encode(b[1..]);
      assert s[2..] == rest;
      DecodeEncode(b[1..]);
      ByteRoundTrip(b[0]);
    }
  }

  /** Different byte strings render differently, so distinct random blocks give distinct tokens. */
  lemma EncodeInjective(a: seq<bv8>, b: seq<bv8>)
    requires Encode(a) == Encode(b)
    ensures a == b
  {
    DecodeEncode(a);
    DecodeEncode(b);
  }
}
