// The TPM structures octet by octet: literal tags, lengths and limits of what the printers produce and the parsers
// accept.
module TpmFacts {
  import opened Base
  import opened Rsa
  import opened Tpm

  /** Octets after their length. */
  function Framed(b: seq<byte>): seq<byte>
    requires |b| < 0x1_0000
  {
    [|b| / 0x100, |b| % 0x100] + b
  }

  function SchemeOctets(s: Scheme): seq<byte>
    requires s.Scheme? ==> s.algorithm < 0x1_0000 && s.hash < 0x1_0000
  {
    match s
    case NoScheme => [0x00, 0x10]
    case Scheme(algorithm, hash) => Word(algorithm) + Word(hash)
  }

  // ----- Public areas -----

  /** A scheme names SHA-256, SHA-384 or SHA-512, and one of the allowed algorithms. */
  predicate SchemeOf(s: Scheme, algorithms: set<nat>) {
    s == NoScheme || (s.algorithm in algorithms && s.hash in {0x000b, 0x000c, 0x000d})
  }

  /** ECC keys are on the curves with coordinates of 32, 48 and 66 octets; RSA keys have a modulus of the stated size
      and an odd prime exponent, 65537 where the field is 0. */
  lemma KeyExactly(k: KeyFields)
    ensures k.EccFields? ==>
              (KeyInRange(k) <==>
                 SchemeOf(k.scheme, {0x0018}) && (k.curve, |k.x|, |k.y|) in {(3, 32, 32), (4, 48, 48), (5, 66, 66)})
    ensures k.RsaFields? ==>
              var e := if k.exponent == 0 then 65537 else k.exponent;
              (KeyInRange(k) <==>
                 && SchemeOf(k.scheme, {0x0014, 0x0016}) && k.exponent < 0x1_0000_0000
                 && k.keyBits == 8 * |k.modulus| && ValidMaterial(Material(k.modulus, e)) && OddPrime(e))
  {
    hide ValidMaterial, OddPrime;
  }

  /** What the parser keeps of a key. */
  lemma KeptExactly(k: KeyFields)
    ensures k.EccFields? ==> KeptKey(k) == EccArea(k.curve, k.x, k.y)
    ensures k.RsaFields? ==> KeptKey(k) == RsaArea(k.modulus, if k.exponent == 0 then 65537 else k.exponent)
  {}

  lemma SchemePrinted(s: Scheme, algorithms: set<nat>)
    requires SchemeOf(s, algorithms) && forall a :: a in algorithms ==> a < 0x1_0000
    ensures PrintScheme(s) == SchemeOctets(s)
  {
    match s
    case NoScheme => WordIsPrinted(0x0010);
    case Scheme(algorithm, hash) => WordIsPrinted(algorithm); WordIsPrinted(hash);
  }

  lemma EccAreaLayout(a: Area)
    requires AreaInRange(a) && a.key.EccFields? && KeyInRange(a.key)
    ensures a.nameAlg < 0x1_0000 && a.attributes < 0x1_0000_0000 && |a.policy| < 0x1_0000
    ensures a.key.curve < 0x1_0000 && |a.key.x| < 0x1_0000 && |a.key.y| < 0x1_0000 && SchemeOf(a.key.scheme, {0x0018})
    ensures PrintArea(a) ==
              [0x00, 0x23] + (Word(a.nameAlg) + (LongWord(a.attributes) + (Framed(a.policy)
              + ([0x00, 0x10] + (SchemeOctets(a.key.scheme) + (Word(a.key.curve) + ([0x00, 0x10]
              + (Framed(a.key.x) + Framed(a.key.y)))))))))
  {
    hide PrintBE, KeyInRange, PrintScheme;
    KeyExactly(a.key);
    SchemePrinted(a.key.scheme, {0x0018});
    WordIsPrinted(0x0023);
    WordIsPrinted(0x0010);
    WordIsPrinted(a.nameAlg);
    LongWordIsPrinted(a.attributes);
    WordIsPrinted(|a.policy|);
    WordIsPrinted(a.key.curve);
    WordIsPrinted(|a.key.x|);
    WordIsPrinted(|a.key.y|);
  }

  lemma RsaAreaLayout(a: Area)
    requires AreaInRange(a) && a.key.RsaFields? && KeyInRange(a.key)
    ensures a.nameAlg < 0x1_0000 && a.attributes < 0x1_0000_0000 && |a.policy| < 0x1_0000
    ensures a.key.keyBits < 0x1_0000 && a.key.exponent < 0x1_0000_0000 && |a.key.modulus| < 0x1_0000
              && SchemeOf(a.key.scheme, {0x0014, 0x0016})
    ensures PrintArea(a) ==
              [0x00, 0x01] + (Word(a.nameAlg) + (LongWord(a.attributes) + (Framed(a.policy)
              + ([0x00, 0x10] + (SchemeOctets(a.key.scheme) + (Word(a.key.keyBits) + (LongWord(a.key.exponent)
              + Framed(a.key.modulus))))))))
  {
    hide PrintBE, KeyInRange, PrintScheme, ValidMaterial, OddPrime, SchemeAllowed;
    InRangeHasWidths(a.key);
    KeyExactly(a.key);
    SchemePrinted(a.key.scheme, {0x0014, 0x0016});
    WordIsPrinted(0x0001);
    WordIsPrinted(0x0010);
    WordIsPrinted(a.nameAlg);
    LongWordIsPrinted(a.attributes);
    WordIsPrinted(|a.policy|);
    WordIsPrinted(a.key.keyBits);
    LongWordIsPrinted(a.key.exponent);
    WordIsPrinted(|a.key.modulus|);
  }

  // ----- Certify structures and signatures -----

  lemma CertLayout(c: CertFields)
    ensures CertInRange(c) <==>
              && |c.signer| < 0x1_0000 && |c.extraData| < 0x1_0000 && |c.name| < 0x1_0000
              && |c.qualifiedName| < 0x1_0000 && |c.clock| == 17 && c.firmware < 0x1_0000_0000_0000_0000
    ensures CertInRange(c) ==>
              PrintCert(c) ==
                [0xff, 0x54, 0x43, 0x47] + ([0x80, 0x17] + (Framed(c.signer) + (Framed(c.extraData)
                + (c.clock + (PrintBE(c.firmware, 8) + (Framed(c.name) + Framed(c.qualifiedName)))))))
  {
    hide PrintBE;
    LongWordIsPrinted(0xff544347);
    WordIsPrinted(0x8017);
    if CertInRange(c) {
      WordIsPrinted(|c.signer|);
      WordIsPrinted(|c.extraData|);
      WordIsPrinted(|c.name|);
      WordIsPrinted(|c.qualifiedName|);
    }
  }

  lemma SignatureLayout(spec: AlgorithmSpec, g: Signature)
    ensures SignatureFits(spec, g) <==>
              && spec.signature < 0x1_0000 && spec.hash < 0x1_0000
              && match g
                 case EcdsaSignature(r, s) => spec.signature == 0x0018 && 1 <= |r| <= 65535 && 1 <= |s| <= 65535
                 case RsaSignature(b) => spec.signature in {0x0014, 0x0016} && 1 <= |b| <= 65535
    ensures SignatureFits(spec, g) ==>
              PrintSignature(spec, g) ==
                Word(spec.signature) + Word(spec.hash)
                + match g
                  case EcdsaSignature(r, s) => Framed(r) + Framed(s)
                  case RsaSignature(b) => Framed(b)
  {
    hide PrintBE;
    if SignatureFits(spec, g) {
      WordIsPrinted(spec.signature);
      WordIsPrinted(spec.hash);
      match g
      case EcdsaSignature(r, s) => WordIsPrinted(|r|); WordIsPrinted(|s|);
      case RsaSignature(b) => WordIsPrinted(|b|);
    }
  }
}
