// The authenticator data layout of WebAuthn Level 3 section 6.1: a parser, its
// printer, and the split of a registration's tail into key and extensions.
module AuthenticatorData {
  import opened Base

  const HASH_LENGTH := 32
  const MIN_LENGTH := 37
  const AAGUID_LENGTH := 16
  const MAX_ID_LENGTH := 1023
  const MAX_KEY_LENGTH := 65536

  datatype DataError =
    | Malformed
    | RpIdHashMismatch
    | UserPresenceRequired
    | UserVerificationRequired
    | InvalidBackupState
    | NoAttestedData
    | NoExtensionDecoder

  // ----- Flags -----

  predicate UserPresent(flags: byte) { flags % 2 == 1 }

  predicate UserVerified(flags: byte) { flags / 0x04 % 2 == 1 }

  predicate BackupEligible(flags: byte) { flags / 0x08 % 2 == 1 }

  predicate BackedUp(flags: byte) { flags / 0x10 % 2 == 1 }

  predicate HasAttested(flags: byte) { flags / 0x40 % 2 == 1 }

  predicate HasExtensions(flags: byte) { flags / 0x80 % 2 == 1 }

  /** Some bit of the mask 0x22 is set. */
  predicate Reserved(flags: byte) { flags / 0x02 % 2 == 1 || flags / 0x20 % 2 == 1 }

  // ----- Parsing -----

  datatype Attested = Attested(aaguid: seq<byte>, id: seq<byte>, keyAndExtensions: seq<byte>)

  datatype Parsed = Parsed(
    rpIdHash: seq<byte>, flags: byte, signCount: nat,
    attested: Option<Attested>, extensionData: seq<byte>)

  function ParseAttested(data: seq<byte>): (r: Result<Attested, DataError>) {
    if |data| < AAGUID_LENGTH + 2 then Err(Malformed)
    else
      var idLength := ReadBE(data[AAGUID_LENGTH..AAGUID_LENGTH + 2]);
      var idEnd := AAGUID_LENGTH + 2 + idLength;
      if idLength == 0 || |data| < idEnd || |data| == idEnd then Err(Malformed)
      else if idLength > MAX_ID_LENGTH then Err(Malformed)
      else Ok(Attested(data[..AAGUID_LENGTH], data[AAGUID_LENGTH + 2..idEnd], data[idEnd..]))
  }

  function Parse(raw: seq<byte>): (r: Result<Parsed, DataError>) {
    if |raw| < MIN_LENGTH then Err(Malformed)
    else
      var hash, flags := raw[..HASH_LENGTH], raw[HASH_LENGTH];
      var signCount := ReadBE(raw[HASH_LENGTH + 1..MIN_LENGTH]);
      var tail := raw[MIN_LENGTH..];
      if Reserved(flags) then Err(Malformed)
      else if !HasAttested(flags) then
        if HasExtensions(flags) != (tail != []) then Err(Malformed)
        else Ok(Parsed(hash, flags, signCount, None, tail))
      else
        match ParseAttested(tail)
        case Err(e) => Err(e)
        case Ok(attested) => Ok(Parsed(hash, flags, signCount, Some(attested), []))
  }

  // ----- Printing -----

  function PrintAttested(a: Attested): seq<byte> {
    a.aaguid + PrintBE(|a.id|, 2) + a.id + a.keyAndExtensions
  }

  function PrintHeader(p: Parsed): seq<byte> {
    p.rpIdHash + [p.flags] + PrintBE(p.signCount, 4)
  }

  function PrintTail(p: Parsed): seq<byte> {
    if p.attested.Some? then PrintAttested(p.attested.value) else p.extensionData
  }

  predicate AttestedInRange(a: Attested) {
    && |a.aaguid| == AAGUID_LENGTH
    && 1 <= |a.id| <= MAX_ID_LENGTH
    && a.keyAndExtensions != []
  }

  predicate InRange(p: Parsed) {
    && |p.rpIdHash| == HASH_LENGTH
    && !Reserved(p.flags)
    && p.signCount < 0x1_0000_0000
    && p.attested.Some? == HasAttested(p.flags)
    && (p.attested.Some? ==> AttestedInRange(p.attested.value) && p.extensionData == [])
    && (p.attested.None? ==> HasExtensions(p.flags) == (p.extensionData != []))
  }

  lemma AttestedReads(data: seq<byte>, a: Attested)
    requires ParseAttested(data) == Ok(a)
    ensures AttestedInRange(a) && data == PrintAttested(a)
  {
    hide ReadBE, PrintBE;
    var size, end := data[AAGUID_LENGTH..AAGUID_LENGTH + 2], AAGUID_LENGTH + 2 + |a.id|;
    PrintReadBE(size);
    assert data == data[..AAGUID_LENGTH] + size + data[AAGUID_LENGTH + 2..end] + data[end..];
  }

  lemma AttestedAccepts(data: seq<byte>, a: Attested)
    requires AttestedInRange(a) && data == PrintAttested(a)
    ensures ParseAttested(data) == Ok(a)
  {
    hide ReadBE, PrintBE;
    SmallPowers();
    ReadPrintBE(|a.id|, 2);
    var size, end := PrintBE(|a.id|, 2), AAGUID_LENGTH + 2 + |a.id|;
    assert |size| == 2 && data == a.aaguid + (size + (a.id + a.keyAndExtensions));
    assert data[..AAGUID_LENGTH] == a.aaguid && data[AAGUID_LENGTH..AAGUID_LENGTH + 2] == size;
    assert data[AAGUID_LENGTH + 2..end] == a.id && data[end..] == a.keyAndExtensions;
  }

  /** ParseAttested undoes PrintAttested and accepts nothing that PrintAttested does not produce. */
  lemma ParseAttestedExactlyPrinted(data: seq<byte>, a: Attested)
    ensures ParseAttested(data) == Ok(a) <==> AttestedInRange(a) && data == PrintAttested(a)
  {
    hide ParseAttested, AttestedInRange, PrintAttested;
    if ParseAttested(data) == Ok(a) { AttestedReads(data, a); }
    if AttestedInRange(a) && data == PrintAttested(a) { AttestedAccepts(data, a); }
  }

  lemma ParsedIsPrinted(raw: seq<byte>, p: Parsed)
    requires Parse(raw) == Ok(p)
    ensures InRange(p) && raw == PrintHeader(p) + PrintTail(p)
  {
    hide ParseAttested, ReadBE, PrintBE;
    SmallPowers();
    PrintReadBE(raw[HASH_LENGTH + 1..MIN_LENGTH]);
    if p.attested.Some? {
      ParseAttestedExactlyPrinted(raw[MIN_LENGTH..], p.attested.value);
    }
    assert raw == raw[..MIN_LENGTH] + raw[MIN_LENGTH..];
    assert raw[..MIN_LENGTH] == raw[..HASH_LENGTH] + [raw[HASH_LENGTH]] + raw[HASH_LENGTH + 1..MIN_LENGTH];
  }

  lemma PrintedIsParsed(raw: seq<byte>, p: Parsed)
    requires InRange(p) && raw == PrintHeader(p) + PrintTail(p)
    ensures Parse(raw) == Ok(p)
  {
    hide ParseAttested, PrintAttested, ReadBE, PrintBE;
    SmallPowers();
    ReadPrintBE(p.signCount, 4);
    assert raw[..HASH_LENGTH] == p.rpIdHash && raw[HASH_LENGTH] == p.flags;
    assert raw[HASH_LENGTH + 1..MIN_LENGTH] == PrintBE(p.signCount, 4);
    assert raw[MIN_LENGTH..] == PrintTail(p);
    if p.attested.Some? {
      ParseAttestedExactlyPrinted(raw[MIN_LENGTH..], p.attested.value);
    }
  }

  /** Parse accepts exactly the octet strings printed from in-range fields, and returns those fields. */
  lemma ParseExactlyPrinted(raw: seq<byte>, p: Parsed)
    ensures Parse(raw) == Ok(p) <==> InRange(p) && raw == PrintHeader(p) + PrintTail(p)
  {
    hide Parse, InRange, PrintHeader, PrintTail;
    if Parse(raw) == Ok(p) {
      ParsedIsPrinted(raw, p);
    }
    if InRange(p) && raw == PrintHeader(p) + PrintTail(p) {
      PrintedIsParsed(raw, p);
    }
  }

  // ----- Registration -----

  /** A decoded COSE key: its algorithm and the octets it was read from. */
  datatype PublicKey = PublicKey(algorithm: int, raw: seq<byte>)

  predicate ValidKey(key: PublicKey) {
    && key.algorithm != 0
    && 0 < |key.raw| <= MAX_KEY_LENGTH
    && -0x8000_0000 <= key.algorithm <= 0x7fff_ffff
  }

  /** What a registration ceremony demands of its authenticator data. */
  datatype Demands = Demands(rpIdHash: seq<byte>, conditional: bool, verificationRequired: bool)

  function VerifyRegistrationData(demands: Demands, raw: seq<byte>): (r: Result<Parsed, DataError>) {
    match Parse(raw)
    case Err(e) => Err(e)
    case Ok(p) =>
      if p.rpIdHash != demands.rpIdHash then Err(RpIdHashMismatch)
      else if !demands.conditional && !UserPresent(p.flags) then Err(UserPresenceRequired)
      else if demands.verificationRequired && !UserVerified(p.flags) then Err(UserVerificationRequired)
      else if BackedUp(p.flags) && !BackupEligible(p.flags) then Err(InvalidBackupState)
      else if !HasAttested(p.flags) then Err(NoAttestedData)
      else Ok(p)
  }

  /** The decoders are supplied by the application; the extension decoder may be missing. */
  datatype Decoders = Decoders(
    key: seq<byte> -> Option<PublicKey>,
    hasExtensionDecoder: bool,
    readable: seq<byte> -> bool)

  datatype KeyAndExtensions = KeyAndExtensions(key: PublicKey, extensions: seq<byte>)

  function DecodeKeyAndExtensions(decoders: Decoders, flags: byte, data: seq<byte>)
    : (r: Result<KeyAndExtensions, DataError>)
  {
    match decoders.key(data)
    case None => Err(Malformed)
    case Some(key) =>
      if !ValidKey(key) then Err(Malformed)
      else if |key.raw| == 0 || |key.raw| > |data| || key.raw != data[..|key.raw|] then Err(Malformed)
      else
        var extensions := data[|key.raw|..];
        if !HasExtensions(flags) then
          if |extensions| != 0 then Err(Malformed) else Ok(KeyAndExtensions(key, []))
        else if |extensions| == 0 then Err(Malformed)
        else if !decoders.hasExtensionDecoder then Err(NoExtensionDecoder)
        else if !decoders.readable(extensions) then Err(Malformed)
        else Ok(KeyAndExtensions(key, extensions))
  }

  /** The seven fields that a registration's authenticator data carries. */
  datatype Registered = Registered(
    rpIdHash: seq<byte>, flags: byte, signCount: nat, aaguid: seq<byte>,
    id: seq<byte>, key: PublicKey, extensions: seq<byte>)

  function ReadRegistration(demands: Demands, decoders: Decoders, raw: seq<byte>)
    : (r: Result<Registered, DataError>)
  {
    match VerifyRegistrationData(demands, raw)
    case Err(e) => Err(e)
    case Ok(p) =>
      if p.attested.None? then Err(NoAttestedData)
      else
        var a := p.attested.value;
        match DecodeKeyAndExtensions(decoders, p.flags, a.keyAndExtensions)
        case Err(e) => Err(e)
        case Ok(k) => Ok(Registered(p.rpIdHash, p.flags, p.signCount, a.aaguid, a.id, k.key, k.extensions))
  }

  function PrintRegistration(f: Registered): seq<byte> {
    f.rpIdHash + [f.flags] + PrintBE(f.signCount, 4)
    + (f.aaguid + PrintBE(|f.id|, 2) + f.id + (f.key.raw + f.extensions))
  }

  /** The fields have their fixed or bounded lengths, and extensions are present exactly under their flag. */
  predicate FieldsInRange(f: Registered) {
    && |f.rpIdHash| == HASH_LENGTH
    && !Reserved(f.flags)
    && HasAttested(f.flags)
    && f.signCount < 0x1_0000_0000
    && |f.aaguid| == AAGUID_LENGTH
    && 1 <= |f.id| <= MAX_ID_LENGTH
    && ValidKey(f.key)
    && (f.extensions != [] <==> HasExtensions(f.flags))
  }

  predicate MeetsDemands(demands: Demands, f: Registered) {
    && f.rpIdHash == demands.rpIdHash
    && (demands.conditional || UserPresent(f.flags))
    && (demands.verificationRequired ==> UserVerified(f.flags))
    && (BackedUp(f.flags) ==> BackupEligible(f.flags))
  }

  predicate Decodes(decoders: Decoders, f: Registered) {
    && decoders.key(f.key.raw + f.extensions) == Some(f.key)
    && (f.extensions != [] ==> decoders.hasExtensionDecoder && decoders.readable(f.extensions))
  }

  function ParsedOf(f: Registered): Parsed {
    Parsed(f.rpIdHash, f.flags, f.signCount, Some(Attested(f.aaguid, f.id, f.key.raw + f.extensions)), [])
  }

  lemma KeySplitExactly(decoders: Decoders, f: Registered, data: seq<byte>)
    ensures (&& DecodeKeyAndExtensions(decoders, f.flags, data) == Ok(KeyAndExtensions(f.key, f.extensions)))
            <==>
            (&& data == f.key.raw + f.extensions
             && ValidKey(f.key)
             && (f.extensions != [] <==> HasExtensions(f.flags))
             && Decodes(decoders, f))
  {
    hide HasExtensions;
    if DecodeKeyAndExtensions(decoders, f.flags, data) == Ok(KeyAndExtensions(f.key, f.extensions)) {
      assert data == data[..|f.key.raw|] + data[|f.key.raw|..];
    }
    if data == f.key.raw + f.extensions {
      assert data[..|f.key.raw|] == f.key.raw && data[|f.key.raw|..] == f.extensions;
    }
  }

  lemma RegistrationPrintsAsParsed(f: Registered)
    ensures PrintRegistration(f) == PrintHeader(ParsedOf(f)) + PrintTail(ParsedOf(f))
    ensures f.key.raw != [] && (f.extensions != [] <==> HasExtensions(f.flags)) && ValidKey(f.key)
            ==> (InRange(ParsedOf(f)) <==> FieldsInRange(f))
  {
    hide PrintBE, Reserved, HasAttested, HasExtensions;
  }

  /** A registration is read as `f` exactly when its octets are the fields of `f` in order, the fields are in range
      and acceptable, and the key decoder finds that key at the front of the tail. So the fields are determined by the
      octets. */
  lemma ReadRegistrationExactly(demands: Demands, decoders: Decoders, raw: seq<byte>, f: Registered)
    ensures ReadRegistration(demands, decoders, raw) == Ok(f)
            <==>
            (FieldsInRange(f) && raw == PrintRegistration(f) && MeetsDemands(demands, f) && Decodes(decoders, f))
  {
    hide PrintRegistration, PrintHeader, PrintTail, Parse, DecodeKeyAndExtensions;
    RegistrationPrintsAsParsed(f);
    ParseExactlyPrinted(raw, ParsedOf(f));
    if ReadRegistration(demands, decoders, raw) == Ok(f) {
      var p := Parse(raw).value;
      ParseExactlyPrinted(raw, p);
      KeySplitExactly(decoders, f, p.attested.value.keyAndExtensions);
      assert p == ParsedOf(f);
    } else if FieldsInRange(f) && raw == PrintRegistration(f) && MeetsDemands(demands, f) && Decodes(decoders, f) {
      KeySplitExactly(decoders, f, f.key.raw + f.extensions);
      assert false;
    }
  }

  // ----- Raw views -----

  /** A bit of the flags octet. */
  predicate Bit(flags: byte, mask: nat)
    requires mask > 0
  {
    flags / mask % 2 == 1
  }

  /** The parsed fields, or placeholders where the octets do not parse. */
  function ParsedOr(data: seq<byte>): Parsed {
    match Parse(data)
    case Ok(p) => p
    case Err(_) => Parsed([], 0, 0, None, [])
  }
}
