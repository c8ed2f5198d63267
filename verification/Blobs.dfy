/** The text forms of `[ubyte]` vectors: base64 (section 4 of RFC 4648) and hexadecimal. */
module Blobs {
  import opened Wrappers
  import opened Bytes

  // Hexadecimal.

  function HexDigit(d: nat): char
    requires d < 16
  {
    if d < 10 then '0' + d as char else 'a' + (d - 10) as char
  }

  /** `hex_nibble`: either case. */
  function HexNibble(c: char): (r: Option<nat>)
    ensures r.Some? ==> r.value < 16
  {
    if '0' <= c <= '9' then Some(c as nat - '0' as nat)
    else if 'a' <= c <= 'f' then Some(c as nat - 'a' as nat + 10)
    else if 'A' <= c <= 'F' then Some(c as nat - 'A' as nat + 10)
    else None
  }

  /** `encode_lower_hex`. */
  function EncodeHex(bs: seq<byte>): string {
    if bs == [] then "" else [HexDigit(bs[0] / 16), HexDigit(bs[0] % 16)] + EncodeHex(bs[1..])
  }

  /** `decode_hex_string`: fails on an odd length or a non-hex character. */
  function DecodeHex(s: string): Option<seq<byte>> {
    if s == [] then Some([])
    else if |s| == 1 then None
    else
      match (HexNibble(s[0]), HexNibble(s[1]), DecodeHex(s[2..]))
      case (Some(hi), Some(lo), Some(rest)) => Some([hi * 16 + lo] + rest)
      case _ => None
  }

  const HEX := "0123456789abcdef"

  /** Lower-case hex, two characters a byte, the high one first; decoding gives the bytes back. */
  lemma {:induction false} HexRoundTrip(bs: seq<byte>)
    ensures DecodeHex(EncodeHex(bs)) == Some(bs)
    ensures |EncodeHex(bs)| == 2 * |bs|
    ensures forall i :: 0 <= i < |bs| ==>
              EncodeHex(bs)[2 * i] == HEX[bs[i] / 16] && EncodeHex(bs)[2 * i + 1] == HEX[bs[i] % 16]
  {
    hide *;
    HexDecodes(bs);
    HexChars(bs);
  }

  lemma {:induction false} HexDecodes(bs: seq<byte>)
    ensures DecodeHex(EncodeHex(bs)) == Some(bs)
  {
    if bs != [] {
      var s := EncodeHex(bs);
      assert s[2..] == EncodeHex(bs[1..]);
      HexDecodes(bs[1..]);
      assert bs == [bs[0]] + bs[1..];
    }
  }

  lemma {:induction false} HexChars(bs: seq<byte>)
    ensures |EncodeHex(bs)| == 2 * |bs|
    ensures forall i :: 0 <= i < |bs| ==>
              EncodeHex(bs)[2 * i] == HEX[bs[i] / 16] && EncodeHex(bs)[2 * i + 1] == HEX[bs[i] % 16]
  {
    hide HexDigit;
    if bs != [] {
      var s := EncodeHex(bs);
      assert s[2..] == EncodeHex(bs[1..]);
      HexChars(bs[1..]);
      forall i | 0 <= i < |bs| ensures s[2 * i] == HEX[bs[i] / 16] && s[2 * i + 1] == HEX[bs[i] % 16] {
        HexTable(bs[i] / 16);
        HexTable(bs[i] % 16);
        if i > 0 {
          assert s[2 * i] == s[2..][2 * (i - 1)] && s[2 * i + 1] == s[2..][2 * (i - 1) + 1] && bs[i] == bs[1..][i - 1];
        }
      }
    }
  }

  lemma {:induction false} HexTable(d: nat)
    requires d < 16
    ensures HexDigit(d) == HEX[d] && HexNibble(HEX[d]) == Some(d)
  {
  }

  function LowerChar(c: char): char {
    if 'A' <= c <= 'Z' then c - 'A' + 'a' else c
  }

  function Lower(s: string): string {
    seq(|s|, i requires 0 <= i < |s| => LowerChar(s[i]))
  }

  /** A character is a hex digit exactly if its lower case is in the table. */
  lemma {:induction false} NibbleExactly(c: char, d: nat)
    requires d < 16
    ensures HexNibble(c) == Some(d) <==> LowerChar(c) == HEX[d]
  {
  }

  /** A text, in either case, is the hex of some bytes exactly if its lower case is what they are shown as. */
  lemma {:induction false} HexExactly(s: string, bs: seq<byte>)
    ensures DecodeHex(s) == Some(bs) <==> Lower(s) == EncodeHex(bs)
  {
    hide HexNibble, HexDigit, LowerChar;
    if |s| >= 2 && bs != [] {
      HexExactly(s[2..], bs[1..]);
      NibbleExactly(s[0], bs[0] / 16);
      NibbleExactly(s[1], bs[0] % 16);
      HexTable(bs[0] / 16);
      HexTable(bs[0] % 16);
      PairDecodes(s, bs);
      assert Lower(s) == [LowerChar(s[0]), LowerChar(s[1])] + Lower(s[2..]);
      assert EncodeHex(bs)[2..] == EncodeHex(bs[1..]) && Lower(s)[2..] == Lower(s[2..]);
    } else {
      HexRoundTrip(bs);
    }
  }

  lemma {:induction false} PairDecodes(s: string, bs: seq<byte>)
    requires |s| >= 2 && bs != []
    ensures DecodeHex(s) == Some(bs) <==>
            && HexNibble(s[0]) == Some(bs[0] / 16) && HexNibble(s[1]) == Some(bs[0] % 16)
            && DecodeHex(s[2..]) == Some(bs[1..])
  {
    hide HexNibble;
    assert bs == [bs[0]] + bs[1..];
    if DecodeHex(s) == Some(bs) {
      var hi, lo, rest := HexNibble(s[0]).value, HexNibble(s[1]).value, DecodeHex(s[2..]).value;
      assert ([hi * 16 + lo] + rest)[0] == bs[0] && ([hi * 16 + lo] + rest)[1..] == rest;
    }
  }

  // Base64.

  function Base64Char(d: nat): char
    requires d < 64
  {
    if d < 26 then 'A' + d as char
    else if d < 52 then 'a' + (d - 26) as char
    else if d < 62 then '0' + (d - 52) as char
    else if d == 62 then '+' else '/'
  }

  function Base64Digit(c: char): (r: Option<nat>)
    ensures r.Some? ==> r.value < 64
  {
    if 'A' <= c <= 'Z' then Some(c as nat - 'A' as nat)
    else if 'a' <= c <= 'z' then Some(c as nat - 'a' as nat + 26)
    else if '0' <= c <= '9' then Some(c as nat - '0' as nat + 52)
    else if c == '+' then Some(62)
    else if c == '/' then Some(63)
    else None
  }

  type sextet = d: nat | d < 64

  /** The bits of the bytes, six at a time; the last group is filled with zeros. */
  function Sextets(bs: seq<byte>): seq<sextet> {
    if bs == [] then []
    else if |bs| == 1 then [bs[0] / 4, bs[0] % 4 * 16]
    else if |bs| == 2 then [bs[0] / 4, bs[0] % 4 * 16 + bs[1] / 16, bs[1] % 16 * 4]
    else [bs[0] / 4, bs[0] % 4 * 16 + bs[1] / 16, bs[1] % 16 * 4 + bs[2] / 64, bs[2] % 64] + Sextets(bs[3..])
  }

  /** The bytes of a run of sextets; the bits a short last group drops must be zero. */
  function FromSextets(ds: seq<sextet>): Option<seq<byte>> {
    if ds == [] then Some([])
    else if |ds| == 1 then None
    else
      var a: nat, b: nat := ds[0], ds[1];
      if |ds| == 2 then
        if b % 16 == 0 then Some([a * 4 + b / 16]) else None
      else
        var c: nat := ds[2];
        if |ds| == 3 then
          if c % 4 == 0 then Some([a * 4 + b / 16, b % 16 * 16 + c / 4]) else None
        else
          var d: nat := ds[3];
          match FromSextets(ds[4..])
          case None => None
          case Some(rest) => Some([a * 4 + b / 16, b % 16 * 16 + c / 4, c % 4 * 64 + d] + rest)
  }

  function Chars(ds: seq<sextet>): (s: string)
    ensures |s| == |ds|
  {
    if ds == [] then "" else [Base64Char(ds[0])] + Chars(ds[1..])
  }

  function Digits(s: string): Option<seq<sextet>> {
    if s == [] then Some([])
    else
      match (Base64Digit(s[0]), Digits(s[1..]))
      case (Some(d), Some(rest)) => Some([d] + rest)
      case _ => None
  }

  function Padding(n: nat): string {
    if n % 3 == 1 then "==" else if n % 3 == 2 then "=" else ""
  }

  function EncodeBase64(bs: seq<byte>): string {
    Chars(Sextets(bs)) + Padding(|bs|)
  }

  /** How many `=` end the text (at most two). */
  function PadCount(s: string): (n: nat)
    ensures n <= |s|
  {
    if |s| > 0 && s[|s| - 1] == '=' then
      if |s| > 1 && s[|s| - 2] == '=' then 2 else 1
    else 0
  }

  /** The whole text is a multiple of four characters, padding included. */
  function DecodeBase64(s: string): Option<seq<byte>> {
    if |s| % 4 != 0 then None
    else
      match Digits(s[..|s| - PadCount(s)])
      case None => None
      case Some(ds) => FromSextets(ds)
  }

  /** Table 1 of RFC 4648. */
  const UPPER := "ABCDEFGHIJKLMNOPQRSTUVWXYZ"
  const LOWER := "abcdefghijklmnopqrstuvwxyz"
  const REST := "0123456789+/"

  lemma {:induction false} AlphabetTable(d: sextet)
    ensures d < 26 ==> Base64Char(d) == UPPER[d]
    ensures 26 <= d < 52 ==> Base64Char(d) == LOWER[d - 26]
    ensures 52 <= d ==> Base64Char(d) == REST[d - 52]
  {
  }

  /** No character but those of the alphabet is a digit. */
  lemma {:induction false} DigitExactly(c: char)
    ensures Base64Digit(c).Some? ==> Base64Char(Base64Digit(c).value) == c
  {
  }

  lemma {:induction false} CharsDigits(s: string)
    ensures Digits(s).Some? ==> Chars(Digits(s).value) == s
  {
    if s != [] {
      CharsDigits(s[1..]);
      DigitExactly(s[0]);
      if Digits(s).Some? {
        var ds := Digits(s).value;
        assert ds[0] == Base64Digit(s[0]).value && ds[1..] == Digits(s[1..]).value;
      }
    }
  }

  /** Four digits are three bytes, in one number of 24 bits. */
  lemma {:induction false} GroupValue(x: byte, y: byte, z: byte)
    ensures var ds := Sextets([x, y, z]);
            && |ds| == 4
            && var a: nat, b: nat, c: nat, d: nat := ds[0], ds[1], ds[2], ds[3];
               x as nat * 0x1_0000 + y as nat * 0x100 + z as nat == a * 0x4_0000 + b * 0x1000 + c * 0x40 + d
  {
    assert [x, y, z][3..] == [];
  }

  lemma {:induction false} GroupBits(a: sextet, b: sextet, c: sextet, d: sextet)
    ensures var (x, y, z) := (a * 4 + b / 16, b % 16 * 16 + c / 4, c % 4 * 64 + d);
            && x < 256 && y < 256 && z < 256
            && x / 4 == a && x % 4 * 16 + y / 16 == b && y % 16 * 4 + z / 64 == c && z % 64 == d
  {
  }

  lemma {:induction false} ShortGroups(a: sextet, b: sextet, c: sextet)
    ensures b % 16 == 0 ==> (a * 4 + b / 16) / 4 == a && (a * 4 + b / 16) % 4 * 16 == b
    ensures c % 4 == 0 ==> var (x, y) := (a * 4 + b / 16, b % 16 * 16 + c / 4);
      x / 4 == a && x % 4 * 16 + y / 16 == b && y % 16 * 4 == c
  {
  }

  /** Digits that are bytes are the digits of those bytes. */
  lemma {:induction false} SextetsOf(ds: seq<sextet>)
    ensures FromSextets(ds).Some? ==> Sextets(FromSextets(ds).value) == ds
  {
    hide *;
    if |ds| <= 3 {
      LastGroup(ds);
    } else if FromSextets(ds).Some? {
      FirstBytes(ds);
      SextetsOf(ds[4..]);
      GroupBits(ds[0], ds[1], ds[2], ds[3]);
      FirstSextets(FromSextets(ds).value);
      assert ds == [ds[0], ds[1], ds[2], ds[3]] + ds[4..];
    }
  }

  lemma {:induction false} LastGroup(ds: seq<sextet>)
    requires |ds| <= 3
    ensures FromSextets(ds).Some? ==> Sextets(FromSextets(ds).value) == ds
  {
    if |ds| == 2 {
      ShortGroups(ds[0], ds[1], 0);
      assert ds == [ds[0], ds[1]];
    } else if |ds| == 3 {
      ShortGroups(ds[0], ds[1], ds[2]);
      assert ds == [ds[0], ds[1], ds[2]];
    }
  }

  lemma {:induction false} FirstBytes(ds: seq<sextet>)
    requires |ds| > 3 && FromSextets(ds).Some?
    ensures FromSextets(ds[4..]).Some?
    ensures var (bs, a, b, c, d) := (FromSextets(ds).value, ds[0], ds[1], ds[2], ds[3]);
            && |bs| >= 3 && bs[3..] == FromSextets(ds[4..]).value
            && bs[0] == a as nat * 4 + b / 16 && bs[1] == b as nat % 16 * 16 + c / 4
            && bs[2] == c as nat % 4 * 64 + d
  {
  }

  lemma {:induction false} FirstSextets(bs: seq<byte>)
    requires |bs| >= 3
    ensures Sextets(bs) ==
            [bs[0] / 4, bs[0] % 4 * 16 + bs[1] / 16, bs[1] % 16 * 4 + bs[2] / 64, bs[2] % 64] + Sextets(bs[3..])
  {
  }

  lemma {:induction false} Base64DigitChar(d: sextet)
    ensures Base64Digit(Base64Char(d)) == Some(d) && Base64Char(d) != '='
  {
  }

  lemma {:induction false} DigitsChars(ds: seq<sextet>)
    ensures Digits(Chars(ds)) == Some(ds)
    ensures forall i :: 0 <= i < |ds| ==> Chars(ds)[i] != '='
  {
    if ds != [] {
      var s := Chars(ds);
      assert s[1..] == Chars(ds[1..]);
      Base64DigitChar(ds[0]);
      DigitsChars(ds[1..]);
      assert ds == [ds[0]] + ds[1..];
    }
  }

  lemma {:induction false} TripleBits(x: byte, y: byte, z: byte)
    ensures var (a, b, c, d) := (x / 4, x % 4 * 16 + y / 16, y % 16 * 4 + z / 64, z % 64);
            && a < 64 && b < 64 && c < 64 && d < 64
            && a * 4 + b / 16 == x && b % 16 * 16 + c / 4 == y && c % 4 * 64 + d == z
  {
  }

  lemma {:induction false} SextetsRoundTrip(bs: seq<byte>)
    ensures FromSextets(Sextets(bs)) == Some(bs)
  {
    hide *;
    if |bs| < 3 {
      LastBytes(bs);
    } else {
      TripleBits(bs[0], bs[1], bs[2]);
      FirstSextets(bs);
      SextetsRoundTrip(bs[3..]);
      var ds := Sextets(bs);
      assert ds[4..] == Sextets(bs[3..]);
      BytesOf(ds);
      FirstBytes(ds);
      assert bs == [bs[0], bs[1], bs[2]] + bs[3..];
      var back := FromSextets(ds).value;
      assert back == [back[0], back[1], back[2]] + back[3..];
    }
  }

  lemma {:induction false} LastBytes(bs: seq<byte>)
    requires |bs| < 3
    ensures FromSextets(Sextets(bs)) == Some(bs)
  {
    if |bs| == 1 {
      assert bs == [bs[0]];
    } else if |bs| == 2 {
      assert bs == [bs[0], bs[1]];
    }
  }

  lemma {:induction false} BytesOf(ds: seq<sextet>)
    requires |ds| > 3 && FromSextets(ds[4..]).Some?
    ensures FromSextets(ds).Some?
  {
  }

  lemma {:induction false} SextetCount(bs: seq<byte>)
    ensures |Sextets(bs)| == (|bs| * 8 + 5) / 6
  {
    if |bs| > 2 { SextetCount(bs[3..]); }
  }

  lemma {:induction false} Unpad(body: string, pad: string)
    requires pad in {"", "=", "=="} && (body == [] ==> pad == [])
    requires forall i :: 0 <= i < |body| ==> body[i] != '='
    ensures PadCount(body + pad) == |pad| && (body + pad)[..|body|] == body
  {
  }

  lemma {:induction false} PaddedLength(n: nat)
    ensures ((n * 8 + 5) / 6 + |Padding(n)|) % 4 == 0
    ensures n > 0 ==> (n * 8 + 5) / 6 > 0
  {
    var q, r := n / 3, n % 3;
    assert (n * 8 + 5) / 6 == 4 * q + (r * 8 + 5) / 6;
  }

  lemma {:induction false} Base64RoundTrip(bs: seq<byte>)
    ensures DecodeBase64(EncodeBase64(bs)) == Some(bs)
  {
    hide Sextets, FromSextets, Chars, Digits, PadCount;
    var body, pad := Chars(Sextets(bs)), Padding(|bs|);
    SextetsRoundTrip(bs);
    DigitsChars(Sextets(bs));
    SextetCount(bs);
    PaddedLength(|bs|);
    Unpad(body, pad);
  }

  lemma {:induction false} PadOf(n: nat, digits: nat, pad: nat)
    requires digits == (n * 8 + 5) / 6 && (digits + pad) % 4 == 0 && pad <= 2
    ensures pad == |Padding(n)|
  {
    var q, r := n / 3, n % 3;
    assert digits == 4 * q + (r * 8 + 5) / 6;
    PadOfRest(q, r, pad);
  }

  lemma {:induction false} PadOfRest(q: nat, r: nat, pad: nat)
    requires r < 3 && (4 * q + (r * 8 + 5) / 6 + pad) % 4 == 0 && pad <= 2
    ensures pad == if r == 1 then 2 else if r == 2 then 1 else 0
  {
  }

  lemma {:induction false} PadText(s: string)
    ensures var n := PadCount(s);
      n <= 2 && s[|s| - n..] == if n == 2 then "==" else if n == 1 then "=" else ""
  {
  }

  /** A text is the base64 of some bytes exactly if it is what they are shown as: nothing else is accepted. */
  lemma {:induction false} Base64Exactly(s: string, bs: seq<byte>)
    ensures DecodeBase64(s) == Some(bs) <==> s == EncodeBase64(bs)
  {
    hide Sextets, FromSextets, Chars, Digits, PadCount, Padding;
    Base64RoundTrip(bs);
    if DecodeBase64(s) == Some(bs) {
      var n := PadCount(s);
      var body := s[..|s| - n];
      var ds := Digits(body).value;
      CharsDigits(body);
      SextetsOf(ds);
      SextetCount(bs);
      PadText(s);
      PadOf(|bs|, |ds|, n);
      PaddingText(|bs|);
      assert s == body + s[|s| - n..];
    }
  }

  lemma {:induction false} PaddingText(n: nat)
    ensures Padding(n) == if |Padding(n)| == 2 then "==" else if |Padding(n)| == 1 then "=" else ""
  {
  }

  /** The text of a `[ubyte]` vector, in the form its `(hex)` attribute selects. */
  function BlobText(bs: seq<byte>, hex: bool): string {
    if hex then EncodeHex(bs) else EncodeBase64(bs)
  }

  function ParseBlob(s: string, hex: bool): Option<seq<byte>> {
    if hex then DecodeHex(s) else DecodeBase64(s)
  }

  lemma {:induction false} BlobRoundTrip(bs: seq<byte>, hex: bool)
    ensures ParseBlob(BlobText(bs, hex), hex) == Some(bs)
  {
    HexRoundTrip(bs);
    Base64RoundTrip(bs);
  }
}
