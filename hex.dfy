/**
 * `arrToHex`: the tag code of a tag event rendered as upper-case hexadecimal,
 * two digits per byte.
 */
module HexCodec {
  import opened Js
  import opened Wrappers

  const HEX_DIGITS: string := "0123456789ABCDEF"

  function Digit(d: nat): char
    requires d < 16
  {
    HEX_DIGITS[d]
  }

  /** `n.toString(16).toUpperCase()` for a non-negative integer: no leading zeros. */
  function ToUpperHex(n: nat): (r: string)
    ensures 1 <= |r|
    ensures r[0] == '0' <==> n == 0
    ensures forall k :: 0 <= k < |r| ==> r[k] in HEX_DIGITS
    ensures n < 16 ==> |r| == 1
    ensures 16 <= n < 256 ==> |r| == 2
  {
    if n < 16 then [Digit(n)] else ToUpperHex(n / 16) + [Digit(n % 16)]
  }

  /** The text one byte adds: its hex digits, with a "0" in front when the byte is 15 or less. */
  function ByteHex(b: byte): (r: string)
    ensures |r| == 2
    ensures r[0] == '0' <==> b <= 15
  {
    if b <= 15 then "0" + ToUpperHex(b) else ToUpperHex(b)
  }

  /** Two upper-case hexadecimal digits per byte, high digit first, bytes in input order. */
  function Hex(data: seq<byte>): string
  {
    if data == [] then ""
    else
      var last := data[|data| - 1];
      Hex(data[..|data| - 1]) + [Digit(last / 16), Digit(last % 16)]
  }

  /** `arrToHex`, the loop that concatenates each byte's text onto `hexString`. */
  method ArrToHex(data: seq<byte>) returns (hexString: string)
    ensures hexString == Hex(data)
    ensures |hexString| == 2 * |data|
    ensures forall i :: 0 <= i < |data| ==>
      hexString[2 * i] == Digit(data[i] / 16) && hexString[2 * i + 1] == Digit(data[i] % 16)
  {
    hexString := "";
    for x := 0 to |data|
      invariant hexString == Hex(data[..x])
    {
      assert data[..x + 1][..x] == data[..x];
      ByteHexDigits(data[x]);
      var hexValue := ToUpperHex(data[x]);
      if data[x] <= 15 {
        hexString := hexString + ("0" + hexValue);
      } else {
        hexString := hexString + hexValue;
      }
    }
    assert data[..|data|] == data;
    HexDigits(data);
  }

  /** Every byte becomes exactly its high and its low digit. */
  lemma ByteHexDigits(b: byte)
    ensures ByteHex(b) == [Digit(b / 16), Digit(b % 16)]
  {
    if b > 15 {
      assert ToUpperHex(b / 16) == [Digit(b / 16)];
    }
  }

  /** The encoding distributes over concatenation. */
  lemma {:induction false} HexAppend(a: seq<byte>, b: seq<byte>)
    ensures Hex(a + b) == Hex(a) + Hex(b)
    decreases |b|
  {
    if b == [] {
      assert a + b == a;
    } else {
      var b', last := b[..|b| - 1], b[|b| - 1];
      var ab := a + b;
      assert ab[..|ab| - 1] == a + b' && ab[|ab| - 1] == last;
      calc {
        Hex(ab);
        Hex(a + b') + [Digit(last / 16), Digit(last % 16)];
        { HexAppend(a, b'); }
        Hex(a) + Hex(b') + [Digit(last / 16), Digit(last % 16)];
        Hex(a) + (Hex(b') + [Digit(last / 16), Digit(last % 16)]);
        Hex(a) + Hex(b);
      }
    }
  }

  /** The text for a one-byte sequence. */
  lemma HexSingle(b: byte)
    ensures Hex([b]) == [Digit(b / 16), Digit(b % 16)]
  {
    assert [b][..0] == [];
  }

  /** Consing a byte adds its two digits in front. */
  lemma HexCons(b: byte, rest: seq<byte>)
    ensures Hex([b] + rest) == [Digit(b / 16), Digit(b % 16)] + Hex(rest)
  {
    HexAppend([b], rest);
    HexSingle(b);
  }

  /** Length 2·n, and byte i sits at positions 2i and 2i+1, in input order. */
  lemma {:induction false} HexDigits(data: seq<byte>)
    ensures |Hex(data)| == 2 * |data|
    ensures forall i :: 0 <= i < |data| ==>
      Hex(data)[2 * i] == Digit(data[i] / 16) && Hex(data)[2 * i + 1] == Digit(data[i] % 16)
  {
    if data != [] {
      var init := data[..|data| - 1];
      HexDigits(init);
    }
  }

  /** Only upper-case hexadecimal digits appear. */
  lemma HexIsUpperCase(data: seq<byte>)
    ensures forall k :: 0 <= k < |Hex(data)| ==> Hex(data)[k] in HEX_DIGITS
  {
    HexDigits(data);
    forall k | 0 <= k < |Hex(data)|
      ensures Hex(data)[k] in HEX_DIGITS
    {
      var i := k / 2;
      assert k == 2 * i || k == 2 * i + 1;
      var d := if k == 2 * i then data[i] / 16 else data[i] % 16;
      assert Hex(data)[k] == Digit(d) == HEX_DIGITS[d];
    }
  }

  /** The value of an upper-case hexadecimal digit. */
  function DigitValue(c: char): (r: Option<nat>)
    ensures r.Some? ==> r.value < 16 && Digit(r.value) == c
  {
    if '0' <= c <= '9' then Some(c as int - '0' as int)
    else if 'A' <= c <= 'F' then Some(c as int - 'A' as int + 10)
    else None
  }

  /** Reads a string of digit pairs back into bytes; the inverse of `Hex`. */
  function Unhex(s: string): Option<seq<byte>>
    decreases |s|
  {
    if s == [] then Some([])
    else if |s| < 2 then None
    else match (DigitValue(s[0]), DigitValue(s[1]), Unhex(s[2..]))
      case (Some(hi), Some(lo), Some(rest)) => Some([16 * hi + lo] + rest)
      case _ => None
  }

  lemma DigitValueOfDigit(d: nat)
    requires d < 16
    ensures DigitValue(Digit(d)) == Some(d)
  {
  }

  /** Reading back one digit pair in front of a string. */
  lemma UnhexPair(hi: nat, lo: nat, t: string)
    requires hi < 16 && lo < 16
    ensures Unhex([Digit(hi), Digit(lo)] + t) ==
      if Unhex(t).Some? then Some([16 * hi + lo] + Unhex(t).value) else None
  {
    var s := [Digit(hi), Digit(lo)] + t;
    assert s[0] == Digit(hi) && s[1] == Digit(lo) && s[2..] == t;
    DigitValueOfDigit(hi);
    DigitValueOfDigit(lo);
  }

  /** Decoding the encoding gives the bytes back. */
  lemma {:induction false} UnhexHex(data: seq<byte>)
    ensures Unhex(Hex(data)) == Some(data)
    decreases |data|
  {
    if data != [] {
      var b, rest := data[0], data[1..];
      assert data == [b] + rest;
      HexCons(b, rest);
      UnhexHex(rest);
      UnhexPair(b / 16, b % 16, Hex(rest));
      assert 16 * (b / 16) + b % 16 == b;
    }
  }

  /** Different byte sequences never share a hex string. */
  lemma HexInjective(a: seq<byte>, b: seq<byte>)
    requires Hex(a) == Hex(b)
    ensures a == b
  {
    UnhexHex(a);
    UnhexHex(b);
  }

  /** The tag code of the tag_written test: 04 50 51 52 53 54 80. */
  lemma TagWrittenCode(tagCode: seq<byte>)
    requires tagCode == [0x04, 0x50, 0x51, 0x52, 0x53, 0x54, 0x80]
    ensures Hex(tagCode) == "04505152535480"
  {
    var expected := "04505152535480";
    HexDigits(tagCode);
    forall k | 0 <= k < 14
      ensures Hex(tagCode)[k] == expected[k]
    {
      var i := k / 2;
      assert k == 2 * i || k == 2 * i + 1;
      if i == 0 { assert tagCode[i] == 0x04; }
      else if i == 1 { assert tagCode[i] == 0x50; }
      else if i == 2 { assert tagCode[i] == 0x51; }
      else if i == 3 { assert tagCode[i] == 0x52; }
      else if i == 4 { assert tagCode[i] == 0x53; }
      else if i == 5 { assert tagCode[i] == 0x54; }
      else { assert tagCode[i] == 0x80; }
    }
  }

  /** The tag code of the tag_found, tag_locked and NDEF tests: 04 50 51 52 53 54 81. */
  lemma TagFoundCode(tagCode: seq<byte>)
    requires tagCode == [0x04, 0x50, 0x51, 0x52, 0x53, 0x54, 0x81]
    ensures Hex(tagCode) == "04505152535481"
  {
    var expected := "04505152535481";
    HexDigits(tagCode);
    forall k | 0 <= k < 14
      ensures Hex(tagCode)[k] == expected[k]
    {
      var i := k / 2;
      assert k == 2 * i || k == 2 * i + 1;
      if i == 0 { assert tagCode[i] == 0x04; }
      else if i == 1 { assert tagCode[i] == 0x50; }
      else if i == 2 { assert tagCode[i] == 0x51; }
      else if i == 3 { assert tagCode[i] == 0x52; }
      else if i == 4 { assert tagCode[i] == 0x53; }
      else if i == 5 { assert tagCode[i] == 0x54; }
      else { assert tagCode[i] == 0x81; }
    }
  }
}
