// Unpadded base64url (RFC 4648 section 5) as the storage adapter uses it: a strict
// decoder that still skips line breaks, followed by a check that re-encoding
// reproduces the text.
module Base64 {
  import opened Base

  function Digit(n: nat): char
    requires n < 64
  {
    if n < 26 then ('A' as int + n) as char
    else if n < 52 then ('a' as int + (n - 26)) as char
    else if n < 62 then ('0' as int + (n - 52)) as char
    else if n == 62 then '-'
    else '_'
  }

  function DigitValue(c: char): (n: Option<nat>)
    ensures n.Some? ==> n.value < 64
  {
    if 'A' <= c <= 'Z' then Some(c as int - 'A' as int)
    else if 'a' <= c <= 'z' then Some(26 + (c as int - 'a' as int))
    else if '0' <= c <= '9' then Some(52 + (c as int - '0' as int))
    else if c == '-' then Some(62)
    else if c == '_' then Some(63)
    else None
  }

  predicate IsLineBreak(c: char) { c == '\n' || c == '\r' }

  type sextet = n: int | 0 <= n < 64

  /** Regroups octets into six-bit digits, the last one padded with zero bits. */
  function Sextets(data: seq<byte>): (digits: seq<sextet>)
    ensures |data| <= |digits|
  {
    if |data| == 0 then []
    else if |data| == 1 then [data[0] / 4, data[0] % 4 * 16]
    else if |data| == 2 then [data[0] / 4, data[0] % 4 * 16 + data[1] / 16, data[1] % 16 * 4]
    else
      [data[0] / 4, data[0] % 4 * 16 + data[1] / 16, data[1] % 16 * 4 + data[2] / 64, data[2] % 64]
      + Sextets(data[3..])
  }

  function High(a: int, b: int): int { a * 4 + b / 16 }
  function Middle(b: int, c: int): int { b % 16 * 16 + c / 4 }
  function Low(c: int, d: int): int { c % 4 * 64 + d }

  /** Regroups six-bit digits into octets, refusing stray bits in the last digit. */
  function Octets(digits: seq<sextet>): Option<seq<byte>> {
    if |digits| == 0 then Some([])
    else if |digits| == 1 then None
    else if |digits| == 2 then
      if digits[1] % 16 == 0 then Some([High(digits[0], digits[1])]) else None
    else if |digits| == 3 then
      if digits[2] % 4 == 0 then
        Some([High(digits[0], digits[1]), Middle(digits[1], digits[2])])
      else None
    else
      match Octets(digits[4..])
      case None => None
      case Some(rest) =>
        Some([High(digits[0], digits[1]), Middle(digits[1], digits[2]), Low(digits[2], digits[3])] + rest)
  }

  function Encode(data: seq<byte>): (text: string)
    ensures |data| <= |text|
  {
    var digits := Sextets(data);
    seq(|digits|, i requires 0 <= i < |digits| => Digit(digits[i]))
  }

  function DigitValues(text: string): seq<sextet>
    requires forall c :: c in text ==> DigitValue(c).Some?
  {
    seq(|text|, i requires 0 <= i < |text| => DigitValue(text[i]).value)
  }

  /** Decodes a text without line breaks. */
  function DecodeDigits(text: string): Option<seq<byte>> {
    if exists c :: c in text && DigitValue(c).None? then None
    else Octets(DigitValues(text))
  }

  function WithoutLineBreaks(text: string): string {
    if text == "" then ""
    else (if IsLineBreak(text[0]) then "" else text[..1]) + WithoutLineBreaks(text[1..])
  }

  /** The library decoder in strict mode. */
  function Decode(text: string): Option<seq<byte>> {
    DecodeDigits(WithoutLineBreaks(text))
  }

  /** What the adapter accepts: text that decodes and re-encodes to itself. */
  function Accept(text: string): Option<seq<byte>> {
    match Decode(text)
    case None => None
    case Some(data) => if Encode(data) == text then Some(data) else None
  }

  lemma {:induction false} SextetsLength(data: seq<byte>)
    ensures 3 * |Sextets(data)| >= 4 * |data|
  {
    if |data| >= 3 { SextetsLength(data[3..]); }
  }

  lemma EncodeLength(data: seq<byte>)
    ensures 3 * |Encode(data)| >= 4 * |data|
  {
    SextetsLength(data);
  }

  lemma DigitInverse(n: nat)
    requires n < 64
    ensures DigitValue(Digit(n)) == Some(n)
  {}

  lemma DigitValueInverse(c: char)
    requires DigitValue(c).Some?
    ensures Digit(DigitValue(c).value) == c
  {}

  lemma Parts(hi: nat, lo: nat)
    ensures lo < 4 ==> (4 * hi + lo) / 4 == hi && (4 * hi + lo) % 4 == lo
    ensures lo < 16 ==> (16 * hi + lo) / 16 == hi && (16 * hi + lo) % 16 == lo
    ensures lo < 64 ==> (64 * hi + lo) / 64 == hi && (64 * hi + lo) % 64 == lo
  {}

  lemma JoinSplit(x: byte, y: byte, z: byte)
    ensures High(x / 4, x % 4 * 16 + y / 16) == x
    ensures Middle(x % 4 * 16 + y / 16, y % 16 * 4 + z / 64) == y
    ensures Low(y % 16 * 4 + z / 64, z % 64) == z
  {
    Parts(x % 4, y / 16);
    Parts(y % 16, z / 64);
  }

  lemma SplitJoin(a: sextet, b: sextet, c: sextet, d: sextet)
    ensures High(a, b) / 4 == a
    ensures High(a, b) % 4 * 16 + Middle(b, c) / 16 == b
    ensures Middle(b, c) % 16 * 4 + Low(c, d) / 64 == c
    ensures Low(c, d) % 64 == d
  {
    Parts(a, b / 16);
    Parts(b % 16, c / 4);
    Parts(c % 4, d);
  }

  lemma ShortGroups(a: sextet, b: sextet, c: sextet)
    ensures Octets([]) == Some([])
    ensures b % 16 == 0 ==> Octets([a, b]) == Some([High(a, b)])
    ensures c % 4 == 0 ==> Octets([a, b, c]) == Some([High(a, b), Middle(b, c)])
  {
    hide High, Middle, Low;
    var two, three := [a, b], [a, b, c];
    assert two[1] == b && three[2] == c;
  }

  lemma OctetsOfOne(x: byte)
    ensures Octets([x / 4, x % 4 * 16]) == Some([x])
  {
    hide Octets, Middle, Low;
    Parts(x % 4, 0);
    ShortGroups(x / 4, x % 4 * 16, 0);
  }

  lemma OctetsOfTwo(x: byte, y: byte)
    ensures Octets([x / 4, x % 4 * 16 + y / 16, y % 16 * 4]) == Some([x, y])
  {
    hide Octets, Low;
    Parts(x % 4, y / 16);
    Parts(y % 16, 0);
    ShortGroups(x / 4, x % 4 * 16 + y / 16, y % 16 * 4);
  }

  lemma OctetsOfGroup(x: byte, y: byte, z: byte, digits: seq<sextet>)
    requires |digits| >= 4 && digits[0] == x / 4 && digits[1] == x % 4 * 16 + y / 16
    requires digits[2] == y % 16 * 4 + z / 64 && digits[3] == z % 64
    requires Octets(digits[4..]).Some?
    ensures Octets(digits) == Some([x, y, z] + Octets(digits[4..]).value)
  {
    JoinSplit(x, y, z);
  }

  lemma {:induction false} OctetsOfSextets(data: seq<byte>)
    ensures Octets(Sextets(data)) == Some(data)
  {
    hide Octets;
    if |data| == 0 {
      ShortGroups(0, 0, 0);
    } else if |data| == 1 {
      OctetsOfOne(data[0]);
      assert data == [data[0]];
    } else if |data| == 2 {
      OctetsOfTwo(data[0], data[1]);
      assert data == [data[0], data[1]];
    } else {
      var digits := Sextets(data);
      assert digits[4..] == Sextets(data[3..]);
      OctetsOfSextets(data[3..]);
      OctetsOfGroup(data[0], data[1], data[2], digits);
      assert [data[0], data[1], data[2]] + data[3..] == data;
    }
  }

  lemma SextetsOfShort(a: sextet, b: sextet, c: sextet)
    ensures b % 16 == 0 ==> Sextets([High(a, b)]) == [a, b]
    ensures c % 4 == 0 ==> Sextets([High(a, b), Middle(b, c)]) == [a, b, c]
  {
    Parts(a, b / 16);
    Parts(b % 16, c / 4);
  }

  lemma {:induction false} SextetsOfOctets(digits: seq<sextet>)
    requires Octets(digits).Some?
    ensures Sextets(Octets(digits).value) == digits
  {
    hide High, Middle, Low;
    if |digits| == 2 {
      SextetsOfShort(digits[0], digits[1], 0);
    } else if |digits| == 3 {
      SextetsOfShort(digits[0], digits[1], digits[2]);
    } else if |digits| >= 4 {
      SplitJoin(digits[0], digits[1], digits[2], digits[3]);
      SextetsOfOctets(digits[4..]);
      var data := Octets(digits).value;
      assert data[3..] == Octets(digits[4..]).value;
      assert digits == [digits[0], digits[1], digits[2], digits[3]] + digits[4..];
    }
  }

  lemma DecodeDigitsOfEncode(data: seq<byte>)
    ensures forall c :: c in Encode(data) ==> DigitValue(c).Some?
    ensures DecodeDigits(Encode(data)) == Some(data)
  {
    var digits, text := Sextets(data), Encode(data);
    forall i | 0 <= i < |text| ensures DigitValue(text[i]) == Some(digits[i]) { DigitInverse(digits[i]); }
    assert DigitValues(text) == digits;
    OctetsOfSextets(data);
  }

  lemma EncodeOfDecodeDigits(text: string)
    requires DecodeDigits(text).Some?
    ensures Encode(DecodeDigits(text).value) == text
  {
    var digits := DigitValues(text);
    SextetsOfOctets(digits);
    forall i | 0 <= i < |text| ensures Digit(digits[i]) == text[i] { DigitValueInverse(text[i]); }
  }

  lemma {:induction false} NoLineBreaksUnchanged(text: string)
    ensures WithoutLineBreaks(text) == text <==> forall c :: c in text ==> !IsLineBreak(c)
    ensures |WithoutLineBreaks(text)| <= |text|
  {
    if text != "" {
      NoLineBreaksUnchanged(text[1..]);
      assert text == text[..1] + text[1..];
      if IsLineBreak(text[0]) {
        assert |WithoutLineBreaks(text)| < |text|;
      } else {
        assert WithoutLineBreaks(text)[1..] == WithoutLineBreaks(text[1..]);
      }
    }
  }

  /** The accepted texts are exactly the encodings, each of one octet string only. */
  lemma AcceptExactlyEncodings(text: string, data: seq<byte>)
    ensures Accept(text) == Some(data) <==> text == Encode(data)
  {
    if text == Encode(data) {
      DecodeDigitsOfEncode(data);
      NoLineBreaksUnchanged(text);
    }
  }

  /** The re-encoding check refuses a decodable text exactly when it has a line break. */
  lemma RecheckRefusesLineBreaks(text: string)
    requires Decode(text).Some?
    ensures Accept(text).None? <==> exists c :: c in text && IsLineBreak(c)
  {
    NoLineBreaksUnchanged(text);
    EncodeOfDecodeDigits(WithoutLineBreaks(text));
  }

  lemma SixOctets()
    ensures Sextets([0x01, 0x96, 0xb3, 0xd3, 0xdf, 0xbf]) == [0, 25, 26, 51, 52, 61, 62, 63]
  {
    var data: seq<byte> := [0x01, 0x96, 0xb3, 0xd3, 0xdf, 0xbf];
    assert data[3..] == [0xd3, 0xdf, 0xbf] && data[3..][3..] == [];
    assert Sextets(data[3..]) == [52, 61, 62, 63];
  }

  /** The ends of every range of digits, in order. */
  lemma DigitsInOrder()
    ensures Encode([0x01, 0x96, 0xb3, 0xd3, 0xdf, 0xbf]) == "AZaz09-_"
  {
    hide Sextets;
    SixOctets();
  }

  /** One and two octets at the end. */
  lemma ShortForms()
    ensures Encode([0x66]) == "Zg" && Encode([0x66, 0x6f]) == "Zm8" && Encode([]) == ""
  {}
}
