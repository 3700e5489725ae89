// TPM structures used by TPM attestation: TPMT_PUBLIC (TPM 2.0 Library Part 2 section 12.2.4), TPMS_ATTEST
// (section 10.12.8) and the signature framing. Each parser is proved to accept exactly what its printer produces.
module Tpm {
  import opened Base
  import opened Rsa
  import Der

  const GENERATED_VALUE := 0xff544347
  const ATTEST_CERTIFY := 0x8017
  const ALG_RSA := 0x0001
  const ALG_SHA256 := 0x000b
  const ALG_SHA384 := 0x000c
  const ALG_SHA512 := 0x000d
  const ALG_NULL := 0x0010
  const ALG_RSASSA := 0x0014
  const ALG_RSAPSS := 0x0016
  const ALG_ECDSA := 0x0018
  const ALG_ECC := 0x0023
  const DEFAULT_EXPONENT := 65537
  const CLOCK_LENGTH := 17

  datatype TpmError = InvalidPublicArea | InvalidCertInfo | InvalidSignature | UnsupportedKey | UnsupportedAlgorithm

  // ----- Reading from the front of an octet string -----

  datatype Taken<T> = Taken(value: T, rest: seq<byte>)

  /** A big-endian integer of the given width, and what follows it. */
  function TakeUint(s: seq<byte>, width: nat): Option<Taken<nat>> {
    if |s| < width then None else Some(Taken(ReadBE(s[..width]), s[width..]))
  }

  /** A 16-bit length with that many octets, and what follows them. */
  function TakeSized(s: seq<byte>): Option<Taken<seq<byte>>> {
    match TakeUint(s, 2)
    case None => None
    case Some(t) => if t.value > |t.rest| then None else Some(Taken(t.rest[..t.value], t.rest[t.value..]))
  }

  function TakeOctets(s: seq<byte>, count: nat): Option<Taken<seq<byte>>> {
    if count > |s| then None else Some(Taken(s[..count], s[count..]))
  }

  function PrintSized(b: seq<byte>): seq<byte> { PrintBE(|b|, 2) + b }

  lemma TakeUintExactly(s: seq<byte>, width: nat, v: nat, rest: seq<byte>)
    ensures TakeUint(s, width) == Some(Taken(v, rest)) <==> v < Pow256(width) && s == PrintBE(v, width) + rest
  {
    hide ReadBE, Pow256;
    if TakeUint(s, width) == Some(Taken(v, rest)) {
      PrintReadBE(s[..width]);
      assert s == s[..width] + s[width..];
    }
    if v < Pow256(width) && s == PrintBE(v, width) + rest {
      ReadPrintBE(v, width);
      assert s[..width] == PrintBE(v, width) && s[width..] == rest;
    }
  }

  lemma TakeSizedExactly(s: seq<byte>, b: seq<byte>, rest: seq<byte>)
    ensures TakeSized(s) == Some(Taken(b, rest)) <==> |b| < 0x1_0000 && s == PrintSized(b) + rest
  {
    hide TakeUint, PrintBE;
    SmallPowers();
    if TakeSized(s) == Some(Taken(b, rest)) {
      var t := TakeUint(s, 2).value;
      TakeUintExactly(s, 2, t.value, t.rest);
      assert t.rest == b + rest;
      assert PrintBE(|b|, 2) + (b + rest) == PrintSized(b) + rest;
    }
    if |b| < 0x1_0000 && s == PrintSized(b) + rest {
      assert s == PrintBE(|b|, 2) + (b + rest);
      TakeUintExactly(s, 2, |b|, b + rest);
      assert (b + rest)[..|b|] == b && (b + rest)[|b|..] == rest;
    }
  }

  lemma TakeOctetsExactly(s: seq<byte>, count: nat, b: seq<byte>, rest: seq<byte>)
    ensures TakeOctets(s, count) == Some(Taken(b, rest)) <==> |b| == count && s == b + rest
  {
    if count <= |s| { assert s == s[..count] + s[count..]; }
    if |b| == count && s == b + rest { assert s[..count] == b && s[count..] == rest; }
  }

  /** The position-keeping reader that the parsers share. */
  class TpmReader {
    const data: seq<byte>
    var pos: nat

    ghost predicate Valid()
      reads this
    {
      pos <= |data|
    }

    ghost function Rest(): seq<byte>
      requires Valid()
      reads this
    {
      data[pos..]
    }

    constructor (data: seq<byte>)
      ensures Valid() && Rest() == data && this.data == data
    {
      this.data, pos := data, 0;
    }

    function Remaining(): (n: nat)
      requires Valid()
      reads this
      ensures n == |Rest()|
      ensures n == 0 <==> Rest() == []
    {
      |data| - pos
    }

    /** uint16, uint32 and uint64: an integer of `width` octets; the position moves only on success. */
    method Uint(width: nat) returns (r: Option<nat>)
      requires Valid()
      modifies this
      ensures Valid() && r.Some? == TakeUint(old(Rest()), width).Some?
      ensures r.Some? ==> TakeUint(old(Rest()), width) == Some(Taken(r.value, Rest()))
      ensures r.None? ==> pos == old(pos)
    {
      if Remaining() < width {
        return None;
      }
      assert data[pos..pos + width] == Rest()[..width];
      r := Some(ReadBE(data[pos..pos + width]));
      pos := pos + width;
    }

    method SizedBytes() returns (r: Option<seq<byte>>)
      requires Valid()
      modifies this
      ensures Valid() && r.Some? == TakeSized(old(Rest())).Some?
      ensures r.Some? ==> TakeSized(old(Rest())) == Some(Taken(r.value, Rest()))
    {
      var size := Uint(2);
      if size.None? || size.value > Remaining() {
        return None;
      }
      assert data[pos..pos + size.value] == Rest()[..size.value];
      r := Some(data[pos..pos + size.value]);
      pos := pos + size.value;
    }

    method Skip(count: int) returns (ok: bool)
      requires Valid()
      modifies this
      ensures Valid() && (ok <==> 0 <= count && TakeOctets(old(Rest()), count).Some?)
      ensures ok ==> TakeOctets(old(Rest()), count).value.rest == Rest()
      ensures !ok ==> pos == old(pos)
    {
      if count < 0 || count > Remaining() {
        return false;
      }
      pos := pos + count;
      return true;
    }
  }

  // ----- TPMT_PUBLIC -----

  datatype Scheme = NoScheme | Scheme(algorithm: nat, hash: nat)

  datatype KeyFields =
    | EccFields(scheme: Scheme, curve: nat, x: seq<byte>, y: seq<byte>)
    | RsaFields(scheme: Scheme, keyBits: nat, exponent: nat, modulus: seq<byte>)

  /** Every field that a public area carries. */
  datatype Area = Area(nameAlg: nat, attributes: nat, policy: seq<byte>, key: KeyFields)

  predicate ValidHash(a: nat) { a == ALG_SHA256 || a == ALG_SHA384 || a == ALG_SHA512 }

  predicate SchemeAllowed(s: Scheme, allowed: set<nat>) {
    s.Scheme? ==> s.algorithm in allowed && s.algorithm != ALG_NULL && s.algorithm < 0x1_0000 && ValidHash(s.hash)
  }

  function PrintScheme(s: Scheme): seq<byte> {
    match s
    case NoScheme => PrintBE(ALG_NULL, 2)
    case Scheme(a, h) => PrintBE(a, 2) + PrintBE(h, 2)
  }

  function TakeScheme(s: seq<byte>, allowed: set<nat>): Option<Taken<Scheme>> {
    match TakeUint(s, 2)
    case None => None
    case Some(a) =>
      if a.value == ALG_NULL then Some(Taken(NoScheme, a.rest))
      else if a.value !in allowed then None
      else
        match TakeUint(a.rest, 2)
        case None => None
        case Some(h) => if !ValidHash(h.value) then None else Some(Taken(Scheme(a.value, h.value), h.rest))
  }

  lemma TakeSchemeExactly(s: seq<byte>, allowed: set<nat>, scheme: Scheme, rest: seq<byte>)
    ensures TakeScheme(s, allowed) == Some(Taken(scheme, rest)) <==>
              SchemeAllowed(scheme, allowed) && s == PrintScheme(scheme) + rest
  {
    hide TakeUint, PrintBE;
    SmallPowers();
    if TakeScheme(s, allowed) == Some(Taken(scheme, rest)) {
      var a := TakeUint(s, 2).value;
      TakeUintExactly(s, 2, a.value, a.rest);
      if scheme.Scheme? {
        TakeUintExactly(a.rest, 2, scheme.hash, rest);
        assert PrintBE(a.value, 2) + (PrintBE(scheme.hash, 2) + rest) == PrintScheme(scheme) + rest;
      }
    }
    if SchemeAllowed(scheme, allowed) && s == PrintScheme(scheme) + rest {
      match scheme
      case NoScheme => TakeUintExactly(s, 2, ALG_NULL, rest);
      case Scheme(a, h) =>
        assert s == PrintBE(a, 2) + (PrintBE(h, 2) + rest);
        TakeUintExactly(s, 2, a, PrintBE(h, 2) + rest);
        TakeUintExactly(PrintBE(h, 2) + rest, 2, h, rest);
    }
  }

  /** Curve name and coordinate length by TPM curve identifier. */
  function CurveLength(curve: nat): Option<nat> {
    if curve == 0x0003 then Some(32) else if curve == 0x0004 then Some(48) else if curve == 0x0005 then Some(66)
        else None
  }

  function EffectiveExponent(e: nat): nat { if e == 0 then DEFAULT_EXPONENT else e }

  ghost predicate KeyInRange(k: KeyFields) {
    match k
    case EccFields(scheme, curve, x, y) =>
      SchemeAllowed(scheme, {ALG_ECDSA}) && CurveLength(curve) == Some(|x|) && |y| == |x|
    case RsaFields(scheme, keyBits, exponent, modulus) =>
      && SchemeAllowed(scheme, {ALG_RSASSA, ALG_RSAPSS})
      && exponent < 0x1_0000_0000 && keyBits == |modulus| * 8
      && ValidMaterial(Material(modulus, EffectiveExponent(exponent)))
      && OddPrime(EffectiveExponent(exponent))
  }

  function PrintKey(k: KeyFields): seq<byte> {
    match k
    case EccFields(scheme, curve, x, y) =>
      PrintBE(ALG_NULL, 2) + (PrintScheme(scheme)
          + (PrintBE(curve, 2) + (PrintBE(ALG_NULL, 2) + (PrintSized(x) + PrintSized(y)))))
    case RsaFields(scheme, keyBits, exponent, modulus) =>
      PrintBE(ALG_NULL, 2) + (PrintScheme(scheme)
          + (PrintBE(keyBits, 2) + (PrintBE(exponent, 4) + PrintSized(modulus))))
  }

  function KeyType(k: KeyFields): nat { if k.EccFields? then ALG_ECC else ALG_RSA }

  predicate AreaInRange(a: Area) {
    a.nameAlg < 0x1_0000 && a.attributes < 0x1_0000_0000 && |a.policy| < 0x1_0000
  }

  function PrintArea(a: Area): seq<byte> {
    PrintBE(KeyType(a.key), 2) + (PrintBE(a.nameAlg, 2)
        + (PrintBE(a.attributes, 4) + (PrintSized(a.policy) + PrintKey(a.key))))
  }

  /** The key part up to the end of its octets, before the checks on the values. */
  function TakeEcc(s: seq<byte>): Option<Taken<KeyFields>> {
    match TakeUint(s, 2)
    case None => None
    case Some(sym) => if sym.value != ALG_NULL then None else
    match TakeScheme(sym.rest, {ALG_ECDSA})
    case None => None
    case Some(scheme) =>
    match TakeUint(scheme.rest, 2)
    case None => None
    case Some(curve) =>
    match TakeScheme(curve.rest, {})
    case None => None
    case Some(kdf) =>
    match TakeSized(kdf.rest)
    case None => None
    case Some(x) =>
    match TakeSized(x.rest)
    case None => None
    case Some(y) => Some(Taken(EccFields(scheme.value, curve.value, x.value, y.value), y.rest))
  }

  function TakeRsa(s: seq<byte>): Option<Taken<KeyFields>> {
    match TakeUint(s, 2)
    case None => None
    case Some(sym) => if sym.value != ALG_NULL then None else
    match TakeScheme(sym.rest, {ALG_RSASSA, ALG_RSAPSS})
    case None => None
    case Some(scheme) =>
    match TakeUint(scheme.rest, 2)
    case None => None
    case Some(keyBits) =>
    match TakeUint(keyBits.rest, 4)
    case None => None
    case Some(exponent) =>
    match TakeSized(exponent.rest)
    case None => None
    case Some(modulus) =>
      Some(Taken(RsaFields(scheme.value, keyBits.value, exponent.value, modulus.value), modulus.rest))
  }

  /** The fields of a public area that the parser accepts. */
  ghost function AreaOf(raw: seq<byte>): Option<Area> {
    match TakeUint(raw, 2)
    case None => None
    case Some(kind) =>
    match TakeUint(kind.rest, 2)
    case None => None
    case Some(nameAlg) =>
    match TakeUint(nameAlg.rest, 4)
    case None => None
    case Some(attributes) =>
    match TakeSized(attributes.rest)
    case None => None
    case Some(policy) =>
      var key := if kind.value == ALG_ECC then TakeEcc(policy.rest)
          else if kind.value == ALG_RSA then TakeRsa(policy.rest) else None;
      if key.None? || !KeyInRange(key.value.value) || key.value.rest != [] then None
      else Some(Area(nameAlg.value, attributes.value, policy.value, key.value.value))
  }

  /** The widths of the integers a key part carries. */
  predicate KeyWidths(k: KeyFields) {
    match k
    case EccFields(scheme, curve, x, y) =>
      SchemeAllowed(scheme, {ALG_ECDSA}) && curve < 0x1_0000 && |x| < 0x1_0000 && |y| < 0x1_0000
    case RsaFields(scheme, keyBits, exponent, modulus) =>
      SchemeAllowed(scheme, {ALG_RSASSA, ALG_RSAPSS}) && keyBits < 0x1_0000 && exponent < 0x1_0000_0000
          && |modulus| < 0x1_0000
  }

  lemma TakeEccReads(s: seq<byte>, k: KeyFields, rest: seq<byte>)
    requires TakeEcc(s) == Some(Taken(k, rest))
    ensures k.EccFields? && KeyWidths(k) && s == PrintKey(k) + rest
  {
    hide TakeUint, TakeScheme, TakeSized, PrintBE, PrintScheme, PrintSized, SchemeAllowed;
    SmallPowers();
    var sym := TakeUint(s, 2).value;
    var scheme := TakeScheme(sym.rest, {ALG_ECDSA}).value;
    var curve := TakeUint(scheme.rest, 2).value;
    var kdf := TakeScheme(curve.rest, {}).value;
    var x := TakeSized(kdf.rest).value;
    var y := TakeSized(x.rest).value;
    TakeUintExactly(s, 2, sym.value, sym.rest);
    TakeSchemeExactly(sym.rest, {ALG_ECDSA}, scheme.value, scheme.rest);
    TakeUintExactly(scheme.rest, 2, curve.value, curve.rest);
    TakeSchemeExactly(curve.rest, {}, kdf.value, kdf.rest);
    NoSchemeAllowed(kdf.value);
    TakeSizedExactly(kdf.rest, x.value, x.rest);
    TakeSizedExactly(x.rest, y.value, y.rest);
    EccGroups(PrintBE(ALG_NULL, 2), PrintScheme(k.scheme), PrintBE(k.curve, 2), PrintSized(k.x), PrintSized(k.y), rest);
  }

  lemma NoSchemeAllowed(s: Scheme)
    ensures SchemeAllowed(s, {}) <==> s.NoScheme?
    ensures PrintScheme(NoScheme) == PrintBE(ALG_NULL, 2)
  {}

  lemma EccGroups(sym: seq<byte>, scheme: seq<byte>, curve: seq<byte>, x: seq<byte>, y: seq<byte>, rest: seq<byte>)
    ensures (sym + (scheme + (curve + (sym + (x + y))))) + rest == sym + (scheme + (curve + (sym + (x + (y + rest)))))
  {}

  lemma TakeEccAccepts(s: seq<byte>, k: KeyFields, rest: seq<byte>)
    requires k.EccFields? && KeyWidths(k) && s == PrintKey(k) + rest
    ensures TakeEcc(s) == Some(Taken(k, rest))
  {
    hide TakeUint, TakeScheme, TakeSized, PrintBE, PrintScheme, PrintSized, SchemeAllowed;
    SmallPowers();
    var sym, scheme, curve, x, y := PrintBE(ALG_NULL, 2), PrintScheme(k.scheme), PrintBE(k.curve, 2), PrintSized(k.x),
        PrintSized(k.y);
    EccGroups(sym, scheme, curve, x, y, rest);
    TakeUintExactly(s, 2, ALG_NULL, scheme + (curve + (sym + (x + (y + rest)))));
    TakeSchemeExactly(scheme + (curve + (sym + (x + (y + rest)))), {ALG_ECDSA}, k.scheme,
        curve + (sym + (x + (y + rest))));
    TakeUintExactly(curve + (sym + (x + (y + rest))), 2, k.curve, sym + (x + (y + rest)));
    NoSchemeAllowed(NoScheme);
    TakeSchemeExactly(sym + (x + (y + rest)), {}, NoScheme, x + (y + rest));
    TakeSizedExactly(x + (y + rest), k.x, y + rest);
    TakeSizedExactly(y + rest, k.y, rest);
  }

  lemma RsaGroups(sym: seq<byte>, scheme: seq<byte>, keyBits: seq<byte>, exponent: seq<byte>, modulus: seq<byte>,
      rest: seq<byte>)
    ensures (sym + (scheme + (keyBits + (exponent + modulus)))) + rest == sym
              + (scheme + (keyBits + (exponent + (modulus + rest))))
  {}

  lemma TakeRsaReads(s: seq<byte>, k: KeyFields, rest: seq<byte>)
    requires TakeRsa(s) == Some(Taken(k, rest))
    ensures k.RsaFields? && KeyWidths(k) && s == PrintKey(k) + rest
  {
    hide TakeUint, TakeScheme, TakeSized, PrintBE, PrintScheme, PrintSized, SchemeAllowed;
    SmallPowers();
    var sym := TakeUint(s, 2).value;
    var scheme := TakeScheme(sym.rest, {ALG_RSASSA, ALG_RSAPSS}).value;
    var keyBits := TakeUint(scheme.rest, 2).value;
    var exponent := TakeUint(keyBits.rest, 4).value;
    var modulus := TakeSized(exponent.rest).value;
    TakeUintExactly(s, 2, sym.value, sym.rest);
    TakeSchemeExactly(sym.rest, {ALG_RSASSA, ALG_RSAPSS}, scheme.value, scheme.rest);
    TakeUintExactly(scheme.rest, 2, keyBits.value, keyBits.rest);
    TakeUintExactly(keyBits.rest, 4, exponent.value, exponent.rest);
    TakeSizedExactly(exponent.rest, modulus.value, modulus.rest);
    RsaGroups(PrintBE(ALG_NULL, 2), PrintScheme(k.scheme), PrintBE(k.keyBits, 2), PrintBE(k.exponent, 4),
        PrintSized(k.modulus), rest);
  }

  lemma TakeRsaAccepts(s: seq<byte>, k: KeyFields, rest: seq<byte>)
    requires k.RsaFields? && KeyWidths(k) && s == PrintKey(k) + rest
    ensures TakeRsa(s) == Some(Taken(k, rest))
  {
    hide TakeUint, TakeScheme, TakeSized, PrintBE, PrintScheme, PrintSized, SchemeAllowed;
    SmallPowers();
    var sym, scheme, keyBits, exponent, modulus :=
      PrintBE(ALG_NULL, 2), PrintScheme(k.scheme), PrintBE(k.keyBits, 2), PrintBE(k.exponent, 4), PrintSized(k.modulus);
    RsaGroups(sym, scheme, keyBits, exponent, modulus, rest);
    TakeUintExactly(s, 2, ALG_NULL, scheme + (keyBits + (exponent + (modulus + rest))));
    TakeSchemeExactly(scheme + (keyBits + (exponent + (modulus + rest))), {ALG_RSASSA, ALG_RSAPSS}, k.scheme,
        keyBits + (exponent + (modulus + rest)));
    TakeUintExactly(keyBits + (exponent + (modulus + rest)), 2, k.keyBits, exponent + (modulus + rest));
    TakeUintExactly(exponent + (modulus + rest), 4, k.exponent, modulus + rest);
    TakeSizedExactly(modulus + rest, k.modulus, rest);
  }

  /** The value checks imply the field widths, so only the checks bound a printable key. */
  lemma InRangeHasWidths(k: KeyFields)
    requires KeyInRange(k)
    ensures KeyWidths(k)
  {
    hide OddPrime, BitLength;
  }

  lemma NoTail(s: seq<byte>)
    ensures s + [] == s
  {}

  lemma AreaReads(raw: seq<byte>, a: Area)
    requires AreaOf(raw) == Some(a)
    ensures AreaInRange(a) && KeyInRange(a.key) && raw == PrintArea(a)
  {
    hide TakeUint, TakeSized, TakeEcc, TakeRsa, PrintBE, PrintSized, PrintKey, KeyInRange;
    SmallPowers();
    var kind := TakeUint(raw, 2).value;
    var nameAlg := TakeUint(kind.rest, 2).value;
    var attributes := TakeUint(nameAlg.rest, 4).value;
    var policy := TakeSized(attributes.rest).value;
    TakeUintExactly(raw, 2, kind.value, kind.rest);
    TakeUintExactly(kind.rest, 2, nameAlg.value, nameAlg.rest);
    TakeUintExactly(nameAlg.rest, 4, attributes.value, attributes.rest);
    TakeSizedExactly(attributes.rest, policy.value, policy.rest);
    if kind.value == ALG_ECC { TakeEccReads(policy.rest, a.key, []); } else { TakeRsaReads(policy.rest, a.key, []); }
    NoTail(PrintKey(a.key));
  }

  lemma AreaAccepts(raw: seq<byte>, a: Area)
    requires AreaInRange(a) && KeyInRange(a.key) && raw == PrintArea(a)
    ensures AreaOf(raw) == Some(a)
  {
    hide TakeUint, TakeSized, TakeEcc, TakeRsa, PrintBE, PrintSized, PrintKey, KeyInRange, KeyWidths;
    SmallPowers();
    var key := PrintKey(a.key);
    TakeUintExactly(raw, 2, KeyType(a.key),
        PrintBE(a.nameAlg, 2) + (PrintBE(a.attributes, 4) + (PrintSized(a.policy) + key)));
    TakeUintExactly(PrintBE(a.nameAlg, 2) + (PrintBE(a.attributes, 4) + (PrintSized(a.policy) + key)), 2, a.nameAlg,
                    PrintBE(a.attributes, 4) + (PrintSized(a.policy) + key));
    TakeUintExactly(PrintBE(a.attributes, 4) + (PrintSized(a.policy) + key), 4, a.attributes,
        PrintSized(a.policy) + key);
    TakeSizedExactly(PrintSized(a.policy) + key, a.policy, key);
    NoTail(key);
    InRangeHasWidths(a.key);
    if a.key.EccFields? { TakeEccAccepts(key, a.key, []); } else { TakeRsaAccepts(key, a.key, []); }
  }

  /** Public areas are accepted exactly as printed from in-range fields, and determine those fields. */
  lemma AreaExactly(raw: seq<byte>, a: Area)
    ensures AreaOf(raw) == Some(a) <==> AreaInRange(a) && KeyInRange(a.key) && raw == PrintArea(a)
  {
    hide AreaOf, KeyInRange, PrintArea, AreaInRange;
    if AreaOf(raw) == Some(a) { AreaReads(raw, a); }
    if AreaInRange(a) && KeyInRange(a.key) && raw == PrintArea(a) { AreaAccepts(raw, a); }
  }

  // ----- The public area parser -----

  datatype PublicKeyArea = EccArea(curve: nat, x: seq<byte>, y: seq<byte>) | RsaArea(modulus: seq<byte>, exponent: nat)

  /** What the parser keeps of the fields. */
  datatype PublicArea = PublicArea(raw: seq<byte>, keyType: nat, nameAlg: nat, key: PublicKeyArea)

  function KeptKey(k: KeyFields): PublicKeyArea {
    match k
    case EccFields(_, curve, x, y) => EccArea(curve, x, y)
    case RsaFields(_, _, exponent, modulus) => RsaArea(modulus, EffectiveExponent(exponent))
  }

  method ParseSymmetricDefinition(reader: TpmReader) returns (r: Option<TpmError>)
    requires reader.Valid()
    modifies reader
    ensures reader.Valid()
    ensures r.None? <==>
              TakeUint(old(reader.Rest()), 2).Some? && TakeUint(old(reader.Rest()), 2).value.value == ALG_NULL
    ensures r.None? ==> TakeUint(old(reader.Rest()), 2).value.rest == reader.Rest()
    ensures r.Some? ==> r.value == if |old(reader.Rest())| < 2 then InvalidPublicArea else UnsupportedKey
  {
    var algorithm := reader.Uint(2);
    if algorithm.None? {
      return Some(InvalidPublicArea);
    }
    return if algorithm.value != ALG_NULL then Some(UnsupportedKey) else None;
  }

  method ParseScheme(reader: TpmReader, allowed: set<nat>) returns (r: Option<TpmError>)
    requires reader.Valid()
    modifies reader
    ensures reader.Valid() && (r.None? <==> TakeScheme(old(reader.Rest()), allowed).Some?)
    ensures r.None? ==> TakeScheme(old(reader.Rest()), allowed).value.rest == reader.Rest()
    ensures r.Some? ==>
              var algorithm := TakeUint(old(reader.Rest()), 2);
              r.value == if algorithm.None? then InvalidPublicArea
                         else if algorithm.value.value !in allowed then UnsupportedKey
                         else if TakeUint(algorithm.value.rest, 2).None? then InvalidPublicArea
                         else UnsupportedAlgorithm
  {
    hide TpmReader.Rest, TakeUint;
    var scheme := reader.Uint(2);
    if scheme.None? {
      return Some(InvalidPublicArea);
    }
    if scheme.value == ALG_NULL {
      return None;
    }
    if scheme.value !in allowed {
      return Some(UnsupportedKey);
    }
    var hash := reader.Uint(2);
    if hash.None? {
      return Some(InvalidPublicArea);
    }
    return if ValidHash(hash.value) then None else Some(UnsupportedAlgorithm);
  }

  method ParseEccPublicArea(reader: TpmReader) returns (r: Result<PublicKeyArea, TpmError>)
    requires reader.Valid()
    modifies reader
    ensures reader.Valid()
    ensures r.Ok? <==> TakeEcc(old(reader.Rest())).Some? && KeyInRange(TakeEcc(old(reader.Rest())).value.value)
    ensures r.Ok? ==> var t := TakeEcc(old(reader.Rest())).value; r.value == KeptKey(t.value) && reader.Rest() == t.rest
    ensures r.Err? && TakeEcc(old(reader.Rest())).Some? ==> r.error == UnsupportedKey
  {
    ghost var start := reader.Rest();
    EccRules(start);
    hide TpmReader.Rest, TakeUint, TakeScheme, TakeSized, KeyInRange;
    var fault := ParseSymmetricDefinition(reader);
    if fault.Some? {
      return Err(fault.value);
    }
    fault := ParseScheme(reader, {ALG_ECDSA});
    if fault.Some? {
      return Err(fault.value);
    }
    var curve := reader.Uint(2);
    if curve.None? {
      return Err(InvalidPublicArea);
    }
    fault := ParseScheme(reader, {});
    if fault.Some? {
      return Err(fault.value);
    }
    var x := reader.SizedBytes();
    if x.None? {
      return Err(InvalidPublicArea);
    }
    var y := reader.SizedBytes();
    if y.None? {
      return Err(InvalidPublicArea);
    }
    var length := CurveLength(curve.value);
    if length.None? || |x.value| != length.value || |y.value| != length.value {
      return Err(UnsupportedKey);
    }
    return Ok(EccArea(curve.value, x.value, y.value));
  }

  /** For an ECC key part that was read, only the curve and the coordinate lengths remain to be checked. */
  lemma EccRules(s: seq<byte>)
    ensures TakeEcc(s).Some? ==>
              var k := TakeEcc(s).value.value;
              k.EccFields? && (KeyInRange(k) <==> CurveLength(k.curve) == Some(|k.x|) && |k.y| == |k.x|)
  {
    hide TakeUint, TakeScheme, TakeSized, SchemeAllowed, PrintKey;
    if TakeEcc(s).Some? { TakeEccReads(s, TakeEcc(s).value.value, TakeEcc(s).value.rest); }
  }

  lemma RsaRules(s: seq<byte>)
    ensures TakeRsa(s).Some? ==>
              var k := TakeRsa(s).value.value;
              k.RsaFields? && k.exponent < 0x1_0000_0000
              && (KeyInRange(k) <==>
                    (&& k.keyBits == |k.modulus| * 8
                     && ValidMaterial(Material(k.modulus, EffectiveExponent(k.exponent)))
                     && OddPrime(EffectiveExponent(k.exponent))))
  {
    hide TakeUint, TakeScheme, TakeSized, SchemeAllowed, PrintKey, ValidMaterial, OddPrime;
    if TakeRsa(s).Some? { TakeRsaReads(s, TakeRsa(s).value.value, TakeRsa(s).value.rest); }
  }

  /** The checks on an RSA key part once it has been read; a zero exponent field stands for 65537. */
  method CheckRsaKey(keyBits: nat, field: nat, modulus: seq<byte>) returns (r: Result<PublicKeyArea, TpmError>)
    requires field < 0x1_0000_0000
    ensures r.Ok? <==> && keyBits == |modulus| * 8
                       && ValidMaterial(Material(modulus, EffectiveExponent(field)))
                       && OddPrime(EffectiveExponent(field))
    ensures r.Ok? ==> r.value == RsaArea(modulus, EffectiveExponent(field))
    ensures r.Err? ==> r.error == UnsupportedKey
  {
    hide ValidMaterial, OddPrime;
    var exponent := field;
    if exponent == 0 {
      exponent := DEFAULT_EXPONENT;
    }
    var prime := ValidExponent(exponent as uint32);
    if !ValidMaterial(Material(modulus, exponent)) || keyBits % 8 != 0 || keyBits != |modulus| * 8 || !prime {
      return Err(UnsupportedKey);
    }
    return Ok(RsaArea(modulus, exponent));
  }

  method ParseRsaPublicArea(reader: TpmReader) returns (r: Result<PublicKeyArea, TpmError>)
    requires reader.Valid()
    modifies reader
    ensures reader.Valid()
    ensures r.Ok? <==> TakeRsa(old(reader.Rest())).Some? && KeyInRange(TakeRsa(old(reader.Rest())).value.value)
    ensures r.Ok? ==> var t := TakeRsa(old(reader.Rest())).value; r.value == KeptKey(t.value) && reader.Rest() == t.rest
    ensures r.Err? && TakeRsa(old(reader.Rest())).Some? ==> r.error == UnsupportedKey
  {
    ghost var start := reader.Rest();
    RsaRules(start);
    hide TpmReader.Rest, TakeUint, TakeScheme, TakeSized, KeyInRange, ValidMaterial, OddPrime;
    var fault := ParseSymmetricDefinition(reader);
    if fault.Some? {
      return Err(fault.value);
    }
    fault := ParseScheme(reader, {ALG_RSASSA, ALG_RSAPSS});
    if fault.Some? {
      return Err(fault.value);
    }
    var keyBits := reader.Uint(2);
    if keyBits.None? {
      return Err(InvalidPublicArea);
    }
    var field := reader.Uint(4);
    if field.None? {
      return Err(InvalidPublicArea);
    }
    var modulus := reader.SizedBytes();
    if modulus.None? {
      return Err(InvalidPublicArea);
    }
    assert TakeRsa(start).value.value.exponent == field.value;
    r := CheckRsaKey(keyBits.value, field.value, modulus.value);
  }

  /** Accepts exactly the printed public areas, having consumed every octet, and keeps their key. */
  method ParsePublicArea(raw: seq<byte>) returns (r: Result<PublicArea, TpmError>)
    ensures r.Ok? <==> AreaOf(raw).Some?
    ensures r.Ok? ==> var a := AreaOf(raw).value; r.value == PublicArea(raw, KeyType(a.key), a.nameAlg, KeptKey(a.key))
  {
    hide TpmReader.Rest, TakeUint, TakeSized, TakeEcc, TakeRsa, KeyInRange;
    var reader := new TpmReader(raw);
    var keyType := reader.Uint(2);
    if keyType.None? {
      return Err(InvalidPublicArea);
    }
    var nameAlg := reader.Uint(2);
    if nameAlg.None? {
      return Err(InvalidPublicArea);
    }
    var attributes := reader.Uint(4);
    if attributes.None? {
      return Err(InvalidPublicArea);
    }
    var policy := reader.SizedBytes();
    if policy.None? {
      return Err(InvalidPublicArea);
    }
    ghost var rest := reader.Rest();
    KeyKinds(rest);
    var key;
    if keyType.value == ALG_ECC {
      key := ParseEccPublicArea(reader);
    } else if keyType.value == ALG_RSA {
      key := ParseRsaPublicArea(reader);
    } else {
      return Err(UnsupportedKey);
    }
    if key.Err? {
      return Err(key.error);
    }
    if reader.Remaining() != 0 {
      return Err(InvalidPublicArea);
    }
    return Ok(PublicArea(raw, keyType.value, nameAlg.value, key.value));
  }

  lemma KeyKinds(s: seq<byte>)
    ensures TakeEcc(s).Some? ==> TakeEcc(s).value.value.EccFields?
    ensures TakeRsa(s).Some? ==> TakeRsa(s).value.value.RsaFields?
  {
    hide TakeUint, TakeScheme, TakeSized;
  }

  // ----- TPMS_ATTEST -----

  datatype CertFields = CertFields(
    signer: seq<byte>, extraData: seq<byte>, clock: seq<byte>, firmware: nat, name: seq<byte>, qualifiedName: seq<byte>)

  predicate CertInRange(c: CertFields) {
    && |c.signer| < 0x1_0000 && |c.extraData| < 0x1_0000 && |c.clock| == CLOCK_LENGTH
    && c.firmware < 0x1_0000_0000_0000_0000 && |c.name| < 0x1_0000 && |c.qualifiedName| < 0x1_0000
  }

  function PrintCert(c: CertFields): seq<byte> {
    PrintBE(GENERATED_VALUE, 4) + (PrintBE(ATTEST_CERTIFY, 2) + (PrintSized(c.signer) + (PrintSized(c.extraData)
    + (c.clock + (PrintBE(c.firmware, 8) + (PrintSized(c.name) + PrintSized(c.qualifiedName)))))))
  }

  function CertOf(raw: seq<byte>): Option<CertFields> {
    match TakeUint(raw, 4)
    case None => None
    case Some(magic) => if magic.value != GENERATED_VALUE then None else
    match TakeUint(magic.rest, 2)
    case None => None
    case Some(kind) => if kind.value != ATTEST_CERTIFY then None else
    match TakeSized(kind.rest)
    case None => None
    case Some(signer) =>
    match TakeSized(signer.rest)
    case None => None
    case Some(extra) =>
    match TakeOctets(extra.rest, CLOCK_LENGTH)
    case None => None
    case Some(clock) =>
    match TakeUint(clock.rest, 8)
    case None => None
    case Some(firmware) =>
    match TakeSized(firmware.rest)
    case None => None
    case Some(name) =>
    match TakeSized(name.rest)
    case None => None
    case Some(qualified) =>
      if qualified.rest != [] then None
      else Some(CertFields(signer.value, extra.value, clock.value, firmware.value, name.value, qualified.value))
  }

  lemma CertReads(raw: seq<byte>, c: CertFields)
    requires CertOf(raw) == Some(c)
    ensures CertInRange(c) && raw == PrintCert(c)
  {
    hide TakeUint, TakeSized, TakeOctets, PrintBE, PrintSized;
    SmallPowers();
    var magic := TakeUint(raw, 4).value;
    var kind := TakeUint(magic.rest, 2).value;
    var signer := TakeSized(kind.rest).value;
    var extra := TakeSized(signer.rest).value;
    var clock := TakeOctets(extra.rest, CLOCK_LENGTH).value;
    var firmware := TakeUint(clock.rest, 8).value;
    var name := TakeSized(firmware.rest).value;
    TakeUintExactly(raw, 4, magic.value, magic.rest);
    TakeUintExactly(magic.rest, 2, kind.value, kind.rest);
    TakeSizedExactly(kind.rest, signer.value, signer.rest);
    TakeSizedExactly(signer.rest, extra.value, extra.rest);
    TakeOctetsExactly(extra.rest, CLOCK_LENGTH, clock.value, clock.rest);
    TakeUintExactly(clock.rest, 8, firmware.value, firmware.rest);
    TakeSizedExactly(firmware.rest, name.value, name.rest);
    TakeSizedExactly(name.rest, c.qualifiedName, []);
    NoTail(PrintSized(c.qualifiedName));
  }

  lemma CertAccepts(raw: seq<byte>, c: CertFields)
    requires CertInRange(c) && raw == PrintCert(c)
    ensures CertOf(raw) == Some(c)
  {
    hide TakeUint, TakeSized, TakeOctets, PrintBE, PrintSized;
    SmallPowers();
    var s7 := PrintSized(c.qualifiedName);
    var s6 := PrintSized(c.name) + s7;
    var s5 := PrintBE(c.firmware, 8) + s6;
    var s4 := c.clock + s5;
    var s3 := PrintSized(c.extraData) + s4;
    var s2 := PrintSized(c.signer) + s3;
    var s1 := PrintBE(ATTEST_CERTIFY, 2) + s2;
    NoTail(s7);
    TakeUintExactly(raw, 4, GENERATED_VALUE, s1);
    TakeUintExactly(s1, 2, ATTEST_CERTIFY, s2);
    TakeSizedExactly(s2, c.signer, s3);
    TakeSizedExactly(s3, c.extraData, s4);
    TakeOctetsExactly(s4, CLOCK_LENGTH, c.clock, s5);
    TakeUintExactly(s5, 8, c.firmware, s6);
    TakeSizedExactly(s6, c.name, s7);
    TakeSizedExactly(s7, c.qualifiedName, []);
  }

  /** Certify structures are accepted exactly as printed from in-range fields, and determine those fields. */
  lemma CertExactly(raw: seq<byte>, c: CertFields)
    ensures CertOf(raw) == Some(c) <==> CertInRange(c) && raw == PrintCert(c)
  {
    hide CertOf, CertInRange, PrintCert;
    if CertOf(raw) == Some(c) { CertReads(raw, c); }
    if CertInRange(c) && raw == PrintCert(c) { CertAccepts(raw, c); }
  }

  datatype CertifyInfo = CertifyInfo(extraData: seq<byte>, name: seq<byte>)

  method ParseCertInfo(raw: seq<byte>) returns (r: Result<CertifyInfo, TpmError>)
    ensures r.Ok? <==> CertOf(raw).Some?
    ensures r.Ok? ==> r.value == CertifyInfo(CertOf(raw).value.extraData, CertOf(raw).value.name)
    ensures r.Err? ==> r.error == InvalidCertInfo
  {
    hide TpmReader.Rest, TakeUint, TakeSized, TakeOctets;
    var reader := new TpmReader(raw);
    var magic := reader.Uint(4);
    if magic.None? || magic.value != GENERATED_VALUE {
      return Err(InvalidCertInfo);
    }
    var kind := reader.Uint(2);
    if kind.None? || kind.value != ATTEST_CERTIFY {
      return Err(InvalidCertInfo);
    }
    var signer := reader.SizedBytes();
    if signer.None? {
      return Err(InvalidCertInfo);
    }
    var extraData := reader.SizedBytes();
    if extraData.None? {
      return Err(InvalidCertInfo);
    }
    var skipped := reader.Skip(CLOCK_LENGTH);
    if !skipped {
      return Err(InvalidCertInfo);
    }
    var firmware := reader.Uint(8);
    if firmware.None? {
      return Err(InvalidCertInfo);
    }
    var name := reader.SizedBytes();
    if name.None? {
      return Err(InvalidCertInfo);
    }
    var qualifiedName := reader.SizedBytes();
    if qualifiedName.None? || reader.Remaining() != 0 {
      return Err(InvalidCertInfo);
    }
    return Ok(CertifyInfo(extraData.value, name.value));
  }

  // ----- Signature framing -----

  /** Signature and hash identifiers that a COSE algorithm requires. */
  datatype AlgorithmSpec = AlgorithmSpec(signature: nat, hash: nat)

  datatype Signature = EcdsaSignature(r: seq<byte>, s: seq<byte>) | RsaSignature(octets: seq<byte>)

  predicate SignatureFits(spec: AlgorithmSpec, g: Signature) {
    && spec.signature < 0x1_0000 && spec.hash < 0x1_0000
    && match g
       case EcdsaSignature(r, s) => spec.signature == ALG_ECDSA && 0 < |r| < 0x1_0000 && 0 < |s| < 0x1_0000
       case RsaSignature(b) => (spec.signature == ALG_RSASSA || spec.signature == ALG_RSAPSS) && 0 < |b| < 0x1_0000
  }

  function PrintSignature(spec: AlgorithmSpec, g: Signature): seq<byte> {
    PrintBE(spec.signature, 2) + (PrintBE(spec.hash, 2)
    + match g
      case EcdsaSignature(r, s) => PrintSized(r) + PrintSized(s)
      case RsaSignature(b) => PrintSized(b))
  }

  /** The two integers or the octet string of a framed signature. */
  function TakeSignature(s: seq<byte>, algorithm: nat): Option<Taken<Signature>> {
    if algorithm == ALG_ECDSA then
      match TakeSized(s)
      case None => None
      case Some(r) =>
        match TakeSized(r.rest)
        case None => None
        case Some(t) => if |r.value| == 0 || |t.value| == 0 then None
            else Some(Taken(EcdsaSignature(r.value, t.value), t.rest))
    else if algorithm == ALG_RSASSA || algorithm == ALG_RSAPSS then
      match TakeSized(s)
      case None => None
      case Some(b) => if |b.value| == 0 then None else Some(Taken(RsaSignature(b.value), b.rest))
    else None
  }

  function SignatureOf(raw: seq<byte>, spec: AlgorithmSpec): Option<Signature> {
    match TakeUint(raw, 2)
    case None => None
    case Some(algorithm) => if algorithm.value != spec.signature then None else
    match TakeUint(algorithm.rest, 2)
    case None => None
    case Some(hash) => if hash.value != spec.hash then None else
    match TakeSignature(hash.rest, spec.signature)
    case None => None
    case Some(g) => if g.rest != [] then None else Some(g.value)
  }

  lemma SignatureReads(raw: seq<byte>, spec: AlgorithmSpec, g: Signature)
    requires SignatureOf(raw, spec) == Some(g)
    ensures SignatureFits(spec, g) && raw == PrintSignature(spec, g)
  {
    hide TakeUint, TakeSized, PrintBE, PrintSized;
    SmallPowers();
    var algorithm := TakeUint(raw, 2).value;
    var hash := TakeUint(algorithm.rest, 2).value;
    TakeUintExactly(raw, 2, algorithm.value, algorithm.rest);
    TakeUintExactly(algorithm.rest, 2, hash.value, hash.rest);
    match g
    case EcdsaSignature(r, s) =>
      var rest := TakeSized(hash.rest).value.rest;
      TakeSizedExactly(hash.rest, r, rest);
      TakeSizedExactly(rest, s, []);
      NoTail(PrintSized(s));
    case RsaSignature(b) =>
      TakeSizedExactly(hash.rest, b, []);
      NoTail(PrintSized(b));
  }

  lemma SignatureAccepts(raw: seq<byte>, spec: AlgorithmSpec, g: Signature)
    requires SignatureFits(spec, g) && raw == PrintSignature(spec, g)
    ensures SignatureOf(raw, spec) == Some(g)
  {
    hide TakeUint, TakeSized, PrintBE, PrintSized;
    SmallPowers();
    match g
    case EcdsaSignature(r, s) =>
      NoTail(PrintSized(s));
      TakeUintExactly(raw, 2, spec.signature, PrintBE(spec.hash, 2) + (PrintSized(r) + PrintSized(s)));
      TakeUintExactly(PrintBE(spec.hash, 2) + (PrintSized(r) + PrintSized(s)), 2, spec.hash,
          PrintSized(r) + PrintSized(s));
      TakeSizedExactly(PrintSized(r) + PrintSized(s), r, PrintSized(s));
      TakeSizedExactly(PrintSized(s), s, []);
    case RsaSignature(b) =>
      NoTail(PrintSized(b));
      TakeUintExactly(raw, 2, spec.signature, PrintBE(spec.hash, 2) + PrintSized(b));
      TakeUintExactly(PrintBE(spec.hash, 2) + PrintSized(b), 2, spec.hash, PrintSized(b));
      TakeSizedExactly(PrintSized(b), b, []);
  }

  /** A framed signature is accepted exactly as printed under the required algorithms, with nonempty parts. */
  lemma SignatureExactly(raw: seq<byte>, spec: AlgorithmSpec, g: Signature)
    ensures SignatureOf(raw, spec) == Some(g) <==> SignatureFits(spec, g) && raw == PrintSignature(spec, g)
  {
    hide SignatureOf, SignatureFits, PrintSignature;
    if SignatureOf(raw, spec) == Some(g) { SignatureReads(raw, spec, g); }
    if SignatureFits(spec, g) && raw == PrintSignature(spec, g) { SignatureAccepts(raw, spec, g); }
  }

  /** The signature handed to verification: DER for ECDSA, the octets themselves for RSA. */
  function SignatureOctets(g: Signature): (octets: seq<byte>)
    requires g.EcdsaSignature? ==> |g.r| < 0x1_0000 && |g.s| < 0x1_0000
    ensures g.EcdsaSignature? ==> octets != []
  {
    match g
    case EcdsaSignature(r, s) => Der.EcdsaSignature(r, s)
    case RsaSignature(b) => b
  }

  lemma TakenSignatureFits(s: seq<byte>, algorithm: nat)
    ensures TakeSignature(s, algorithm).Some? && TakeSignature(s, algorithm).value.value.EcdsaSignature? ==>
              var g := TakeSignature(s, algorithm).value.value; |g.r| < 0x1_0000 && |g.s| < 0x1_0000
  {
    hide TakeSized, PrintSized;
    if TakeSized(s).Some? {
      var r := TakeSized(s).value;
      TakeSizedExactly(s, r.value, r.rest);
      if TakeSized(r.rest).Some? {
        TakeSizedExactly(r.rest, TakeSized(r.rest).value.value, TakeSized(r.rest).value.rest);
      }
    }
  }

  /** Two nonempty sized integers, returned in DER. */
  method ParseEcdsaSignature(reader: TpmReader) returns (r: Option<seq<byte>>)
    requires reader.Valid()
    modifies reader
    ensures reader.Valid() && r.Some? == TakeSignature(old(reader.Rest()), ALG_ECDSA).Some?
    ensures r.Some? ==> var t := TakeSignature(old(reader.Rest()), ALG_ECDSA).value;
                        && t.value.EcdsaSignature? && |t.value.r| < 0x1_0000 && |t.value.s| < 0x1_0000
                        && r.value == SignatureOctets(t.value) && t.rest == reader.Rest()
  {
    TakenSignatureFits(reader.Rest(), ALG_ECDSA);
    hide TpmReader.Rest, TakeUint, TakeSized;
    var first := reader.SizedBytes();
    if first.None? {
      return None;
    }
    var second := reader.SizedBytes();
    if second.None? || |first.value| == 0 || |second.value| == 0 {
      return None;
    }
    return Some(Der.EcdsaSignature(first.value, second.value));
  }

  method ParseRsaSignature(reader: TpmReader, algorithm: nat) returns (r: Option<seq<byte>>)
    requires reader.Valid() && (algorithm == ALG_RSASSA || algorithm == ALG_RSAPSS)
    modifies reader
    ensures reader.Valid() && r.Some? == TakeSignature(old(reader.Rest()), algorithm).Some?
    ensures r.Some? ==>
              TakeSignature(old(reader.Rest()), algorithm) == Some(Taken(RsaSignature(r.value), reader.Rest()))
  {
    hide TpmReader.Rest, TakeUint, TakeSized;
    var octets := reader.SizedBytes();
    if octets.None? || |octets.value| == 0 {
      return None;
    }
    return octets;
  }

  lemma OtherAlgorithm(s: seq<byte>, algorithm: nat)
    requires algorithm != ALG_ECDSA && algorithm != ALG_RSASSA && algorithm != ALG_RSAPSS
    ensures TakeSignature(s, algorithm).None?
  {}

  lemma ParsedSignatureFits(raw: seq<byte>, spec: AlgorithmSpec)
    ensures SignatureOf(raw, spec).Some? ==> SignatureFits(spec, SignatureOf(raw, spec).value)
  {
    hide SignatureOf, SignatureFits, PrintSignature;
    if SignatureOf(raw, spec).Some? { SignatureReads(raw, spec, SignatureOf(raw, spec).value); }
  }

  /** Accepts exactly the framed signatures under the required algorithms, and returns what verification takes. */
  method ParseTpmSignature(raw: seq<byte>, spec: AlgorithmSpec) returns (r: Option<seq<byte>>)
    ensures r.Some? <==> SignatureOf(raw, spec).Some?
    ensures r.Some? ==> SignatureFits(spec, SignatureOf(raw, spec).value)
    ensures r.Some? ==> r.value == SignatureOctets(SignatureOf(raw, spec).value)
  {
    ParsedSignatureFits(raw, spec);
    hide TpmReader.Rest, TakeUint, TakeSignature, SignatureOctets;
    var reader := new TpmReader(raw);
    var algorithm := reader.Uint(2);
    if algorithm.None? || algorithm.value != spec.signature {
      return None;
    }
    var hash := reader.Uint(2);
    if hash.None? || hash.value != spec.hash {
      return None;
    }
    if algorithm.value == ALG_ECDSA {
      r := ParseEcdsaSignature(reader);
    } else if algorithm.value == ALG_RSASSA || algorithm.value == ALG_RSAPSS {
      r := ParseRsaSignature(reader, algorithm.value);
      if r.Some? { RsaOctets(r.value); }
    } else {
      OtherAlgorithm(reader.Rest(), algorithm.value);
      return None;
    }
    if r.Some? && reader.Remaining() != 0 {
      return None;
    }
  }

  lemma RsaOctets(b: seq<byte>)
    ensures SignatureOctets(RsaSignature(b)) == b
  {}
}
