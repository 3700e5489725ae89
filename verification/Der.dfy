// The DER form of an ECDSA signature: a SEQUENCE of two INTEGERs, as X.690 writes them.
module Der {
  import opened Base

  const INTEGER_TAG := 0x02
  const SEQUENCE_TAG := 0x30

  /** The octets of a number without leading zeros. */
  function Stripped(b: seq<byte>): (m: seq<byte>)
    ensures |m| <= |b|
    ensures m == [] || m[0] != 0
  {
    if b != [] && b[0] == 0 then Stripped(b[1..]) else b
  }

  /** The content of an INTEGER: minimal, with a zero in front where the number would read as negative. */
  function IntegerContent(b: seq<byte>): (c: seq<byte>)
    ensures 1 <= |c| <= |b| + 1
    ensures c[0] < 0x80 && (|c| > 1 && c[0] == 0 ==> c[1] >= 0x80)
  {
    var m := Stripped(b);
    if m == [] then [0] else if m[0] >= 0x80 then [0] + m else m
  }

  function MinimalBE(n: nat): seq<byte> {
    if n == 0 then [] else MinimalBE(n / 256) + [n % 256]
  }

  lemma {:induction false} MinimalLength(n: nat, width: nat)
    requires n < Pow256(width)
    ensures |MinimalBE(n)| <= width
  {
    if n != 0 { MinimalLength(n / 256, width - 1); }
  }

  lemma {:induction false} ReadMinimal(n: nat)
    ensures ReadBE(MinimalBE(n)) == n
  {
    if n != 0 {
      ReadMinimal(n / 256);
      assert MinimalBE(n)[..|MinimalBE(n)| - 1] == MinimalBE(n / 256);
    }
  }

  /** A length in its shortest form. */
  function Length(n: nat): (l: seq<byte>)
    requires n < 0x1_0000_0000
    ensures 1 <= |l| <= 5
  {
    SmallPowers();
    MinimalLength(n, 4);
    if n < 0x80 then [n] else [0x80 + |MinimalBE(n)|] + MinimalBE(n)
  }

  function Element(tag: byte, content: seq<byte>): seq<byte>
    requires |content| < 0x1_0000_0000
  {
    [tag] + (Length(|content|) + content)
  }

  function Integer(b: seq<byte>): (e: seq<byte>)
    requires |b| < 0x1_0000
    ensures |e| <= |b| + 7
  {
    Element(INTEGER_TAG, IntegerContent(b))
  }

  function EcdsaSignature(r: seq<byte>, s: seq<byte>): (e: seq<byte>)
    requires |r| < 0x1_0000 && |s| < 0x1_0000
    ensures e != []
  {
    Element(SEQUENCE_TAG, Integer(r) + Integer(s))
  }

  /** One octet below 128; above, the number of length octets with the high bit set, then the length. */
  lemma LengthExactly(n: nat)
    requires n < 0x1_0000
    ensures Length(n) == if n < 128 then [n] else if n < 256 then [0x81, n] else [0x82, n / 256, n % 256]
  {
    assert n < 256 && n > 0 ==> MinimalBE(n) == [n] by { assert MinimalBE(0) == []; }
    if n >= 256 {
      assert MinimalBE(0) == [];
      assert MinimalBE(n / 256) == [n / 256];
      assert MinimalBE(n) == [n / 256, n % 256];
    }
  }

  // ----- Reading back -----

  /** The content length that an element announces, and how many octets announce it. */
  function TakeLength(s: seq<byte>): Option<(nat, nat)> {
    if s == [] then None
    else if s[0] < 0x80 then Some((s[0], 1))
    else if |s| < 1 + (s[0] - 0x80) then None
    else Some((ReadBE(s[1..1 + (s[0] - 0x80)]), 1 + (s[0] - 0x80)))
  }

  /** The content of a leading element with the given tag, and what follows it. */
  function TakeElement(s: seq<byte>, tag: byte): Option<(seq<byte>, seq<byte>)> {
    if s == [] || s[0] != tag then None
    else
      match TakeLength(s[1..])
      case None => None
      case Some((n, width)) =>
        var tail := s[1..];
        if width > |tail| || n > |tail| - width then None
        else Some((tail[width..width + n], tail[width + n..]))
  }

  lemma LengthReadsBack(n: nat, rest: seq<byte>)
    requires n < 0x1_0000_0000
    ensures TakeLength(Length(n) + rest) == Some((n, |Length(n)|))
  {
    SmallPowers();
    MinimalLength(n, 4);
    ReadMinimal(n);
    var l := MinimalBE(n);
    if n >= 0x80 {
      assert (Length(n) + rest)[1..1 + |l|] == l;
    }
  }

  lemma ElementReadsBack(tag: byte, content: seq<byte>, rest: seq<byte>)
    requires |content| < 0x1_0000_0000
    ensures TakeElement(Element(tag, content) + rest, tag) == Some((content, rest))
  {
    hide Length, TakeLength;
    var s, l := Element(tag, content) + rest, Length(|content|);
    assert s[1..] == l + (content + rest);
    LengthReadsBack(|content|, content + rest);
    assert (l + (content + rest))[|l|..|l| + |content|] == content;
    assert (l + (content + rest))[|l| + |content|..] == rest;
  }

  lemma {:induction false} LeadingZero(b: seq<byte>)
    requires b != [] && b[0] == 0
    ensures ReadBE(b[1..]) == ReadBE(b)
  {
    if |b| > 1 {
      LeadingZero(b[..|b| - 1]);
      assert b[1..][..|b| - 2] == b[..|b| - 1][1..];
    }
  }

  lemma {:induction false} StrippedKeepsNumber(b: seq<byte>)
    ensures ReadBE(Stripped(b)) == ReadBE(b)
  {
    if b != [] && b[0] == 0 {
      StrippedKeepsNumber(b[1..]);
      LeadingZero(b);
    }
  }

  lemma ContentKeepsNumber(b: seq<byte>)
    ensures ReadBE(IntegerContent(b)) == ReadBE(b)
  {
    StrippedKeepsNumber(b);
    var m := Stripped(b);
    if m == [] {
      LeadingZero([0]);
    } else if m[0] >= 0x80 {
      assert ([0] + m)[1..] == m;
      LeadingZero([0] + m);
    }
  }

  /** A signature in DER is one sequence of two minimal integers with the values of the framed octets. */
  lemma SignatureReadsBack(r: seq<byte>, s: seq<byte>)
    requires |r| < 0x1_0000 && |s| < 0x1_0000
    ensures TakeElement(EcdsaSignature(r, s), 0x30) == Some((Integer(r) + Integer(s), []))
    ensures TakeElement(Integer(r) + Integer(s), 0x02) == Some((IntegerContent(r), Integer(s)))
    ensures TakeElement(Integer(s), 0x02) == Some((IntegerContent(s), []))
    ensures ReadBE(IntegerContent(r)) == ReadBE(r) && ReadBE(IntegerContent(s)) == ReadBE(s)
  {
    hide Element, TakeElement, IntegerContent;
    assert EcdsaSignature(r, s) + [] == EcdsaSignature(r, s) && Integer(s) + [] == Integer(s);
    ElementReadsBack(SEQUENCE_TAG, Integer(r) + Integer(s), []);
    ElementReadsBack(INTEGER_TAG, IntegerContent(r), Integer(s));
    ElementReadsBack(INTEGER_TAG, IntegerContent(s), []);
    ContentKeepsNumber(r);
    ContentKeepsNumber(s);
  }
}
