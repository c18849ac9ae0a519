/** Lower-case hexadecimal text of bytes, as Python's `hexdigest()` produces it. */
module HexText {
  import opened Common

  predicate IsHexDigit(c: char) {
    '0' <= c <= '9' || 'a' <= c <= 'f'
  }

  predicate IsHex(s: string) {
    forall i :: 0 <= i < |s| ==> IsHexDigit(s[i])
  }

  function HexDigit(n: nat): (c: char)
    requires n < 16
    ensures IsHexDigit(c)
  {
    if n < 10 then ('0' as int + n) as char else ('a' as int + n - 10) as char
  }

  function NibbleValue(c: char): (n: nat)
    ensures n < 16
  {
    if '0' <= c <= '9' then c as int - '0' as int
    else if 'a' <= c <= 'f' then c as int - 'a' as int + 10
    else 0
  }

  /** Two characters per byte, high nibble first. */
  function Hex(d: seq<byte>): (h: string)
    ensures |h| == 2 * |d|
    ensures IsHex(h)
  {
    if d == [] then "" else [HexDigit(d[0] / 16), HexDigit(d[0] % 16)] + Hex(d[1..])
  }

  /** Reads hexadecimal text back as bytes, two characters per byte. */
  function UnHex(h: string): seq<byte>
    decreases |h|
  {
    if |h| < 2 then [] else [16 * NibbleValue(h[0]) + NibbleValue(h[1])] + UnHex(h[2..])
  }

  /** Hexadecimal text reads back as the bytes it was made from. */
  lemma {:induction false} HexRoundTrip(d: seq<byte>)
    ensures UnHex(Hex(d)) == d
  {
    if d != [] {
      var h := Hex(d);
      assert h[2..] == Hex(d[1..]);
      HexRoundTrip(d[1..]);
      assert d == [d[0]] + d[1..];
    }
  }

  /** The first 2n characters of the text are the text of the first n bytes. */
  lemma {:induction false} HexPrefix(d: seq<byte>, n: nat)
    requires n <= |d|
    ensures Hex(d)[..2 * n] == Hex(d[..n])
  {
    if n > 0 {
      HexPrefix(d[1..], n - 1);
      assert d[..n][1..] == d[1..][..n - 1];
    }
  }
}
