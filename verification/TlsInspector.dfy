/** The proxy's ClientHello inspector and the buffer that feeds it. */
module TlsInspector {
  import opened Basics
  import opened ClientHello

  datatype TlsError =
    | NotTls | MalformedClientHello | ClientHelloTooLarge | MissingSni | SniMismatch
    | EncryptedClientHelloForbidden | InvalidLimit | InvalidHostname

  datatype Outcome = Incomplete | Complete(bytesConsumed: nat) | Failed(error: TlsError)

  // ---- What the inspector decides, byte string by byte string --------------

  function ParseServerName(body: bytes, norm: Normalize): Result<bytes, TlsError> {
    if |body| < 5 then Err(MalformedClientHello)
    else if ReadU16(body, 0) != |body| - 2 then Err(MalformedClientHello)
    else if body[2] != 0 then Err(MalformedClientHello)
    else
      var length := ReadU16(body[3..], 0);
      if length < 1 || length != |body| - 5 || length > 253 then Err(MalformedClientHello)
      else if exists c :: c in body[5..] && (c < 0x21 || c > 0x7e) then Err(MalformedClientHello)
      else if body[|body| - 1] == 46 then Err(MalformedClientHello)
      else match norm(body[5..])
        case Some(name) => Ok(name)
        case None => Err(MalformedClientHello)
  }

  /** Reads the rest of the extension block; `sni` is the name seen so far. */
  function ScanExtensions(rest: bytes, sni: Option<bytes>, norm: Normalize): Result<Option<bytes>, TlsError> {
    if rest == [] then Ok(sni)
    else if |rest| < 4 then Err(MalformedClientHello)
    else
      var kind := ReadU16(rest, 0);
      var length := ReadU16(rest[2..], 0);
      if |rest| < 4 + length then Err(MalformedClientHello)
      else if kind == ENCRYPTED_CLIENT_HELLO then Err(EncryptedClientHelloForbidden)
      else if kind == SERVER_NAME then
        if sni.Some? then Err(MalformedClientHello)
        else match ParseServerName(rest[4..4 + length], norm)
          case Ok(name) => ScanExtensions(rest[4 + length..], Some(name), norm)
          case Err(e) => Err(e)
      else ScanExtensions(rest[4 + length..], sni, norm)
  }

  function ValidateExtensions(block: bytes, expected: bytes, norm: Normalize): Option<TlsError> {
    match ScanExtensions(block, None, norm)
    case Err(e) => Some(e)
    case Ok(None) => Some(MissingSni)
    case Ok(Some(name)) => if name == expected then None else Some(SniMismatch)
  }

  /** Each `After...` checks one field at the front and returns what follows it;
      every failure here is the same malformed-hello error. */
  function AfterRandom(b: bytes): Option<bytes> {
    if |b| < 34 || ReadU16(b, 0) < 0x0301 || ReadU16(b, 0) > 0x0303 then None else Some(b[34..])
  }

  function AfterSessionId(b: bytes): Option<bytes> {
    if |b| < 1 || b[0] > 32 || |b| < 1 + b[0] as int then None else Some(b[1 + b[0] as int..])
  }

  function AfterCipherSuites(b: bytes): Option<bytes> {
    if |b| < 2 || ReadU16(b, 0) < 2 || ReadU16(b, 0) % 2 != 0 || |b| < 2 + ReadU16(b, 0) then None
    else Some(b[2 + ReadU16(b, 0)..])
  }

  function AfterCompression(b: bytes): Option<bytes> {
    if |b| < 1 || b[0] < 1 || |b| < 1 + b[0] as int then None else Some(b[1 + b[0] as int..])
  }

  function AfterExtensionsLength(b: bytes): Option<bytes> {
    if |b| < 2 || ReadU16(b, 0) != |b| - 2 then None else Some(b[2..])
  }

  /** The extension block of a hello whose fields pass the checks. */
  function BlockAfterSuites(methods: bytes): Option<bytes> {
    match AfterCompression(methods)
    case None => None
    case Some(lengths) => AfterExtensionsLength(lengths)
  }

  function ExtensionBlock(hello: bytes): Option<bytes> {
    match AfterRandom(hello)
    case None => None
    case Some(session) =>
      match AfterSessionId(session)
      case None => None
      case Some(suites) =>
        match AfterCipherSuites(suites)
        case None => None
        case Some(methods) => BlockAfterSuites(methods)
  }

  function ValidateAfterSuites(methods: bytes, expected: bytes, norm: Normalize): Option<TlsError> {
    match BlockAfterSuites(methods)
    case None => Some(MalformedClientHello)
    case Some(block) => ValidateExtensions(block, expected, norm)
  }

  function Validate(hello: bytes, expected: bytes, norm: Normalize): Option<TlsError> {
    match ExtensionBlock(hello)
    case None => Some(MalformedClientHello)
    case Some(block) => ValidateExtensions(block, expected, norm)
  }

  datatype Decision = More | Accept | Reject(error: TlsError)

  /** What the handshake bytes gathered so far allow. */
  function Decide(handshake: bytes, expected: bytes, maxBytes: int, norm: Normalize): Decision {
    if |handshake| < 4 then More
    else if handshake[0] != CLIENT_HELLO then Reject(NotTls)
    else
      var framed := ReadU24(handshake[1..], 0) + 4;
      if framed > maxBytes then Reject(ClientHelloTooLarge)
      else if |handshake| < framed then More
      else if |handshake| != framed then Reject(MalformedClientHello)
      else match Validate(handshake[4..], expected, norm)
        case None => Accept
        case Some(e) => Reject(e)
  }

  datatype Header = Short | Bad(error: TlsError) | Payload(length: nat)

  /** The checks on the record that starts `rest`, of which `consumed` bytes precede it. */
  function ReadHeader(rest: bytes, consumed: nat, maxBytes: int): (h: Header)
    ensures h.Payload? ==> 1 <= h.length && 5 + h.length <= |rest|
  {
    if |rest| < 5 then Short
    else if rest[0] != HANDSHAKE_RECORD then Bad(NotTls)
    else if ReadU16(rest[1..], 0) < 0x0301 || ReadU16(rest[1..], 0) > 0x0304 then Bad(NotTls)
    else
      var length := ReadU16(rest[3..], 0);
      if length == 0 || length > MAX_RECORD_PAYLOAD then Bad(MalformedClientHello)
      else if consumed + 5 + length > maxBytes then Bad(ClientHelloTooLarge)
      else if |rest| < 5 + length then Short
      else Payload(length)
  }

  /** What to do with the handshake bytes gathered so far. */
  type Judge = bytes -> Decision

  /** The record loop from `consumed` on: `rest` is unread, `handshake` gathered. */
  function Scan(rest: bytes, consumed: nat, handshake: bytes, maxBytes: int, judge: Judge): Outcome
    decreases |rest|
  {
    match ReadHeader(rest, consumed, maxBytes)
    case Short => Incomplete
    case Bad(e) => Failed(e)
    case Payload(length) =>
      var gathered := handshake + rest[5..5 + length];
      match judge(gathered)
      case More => Scan(rest[5 + length..], consumed + 5 + length, gathered, maxBytes, judge)
      case Accept => Complete(consumed + 5 + length)
      case Reject(e) => Failed(e)
  }

  function Judging(expected: bytes, maxBytes: int, norm: Normalize): Judge {
    handshake => Decide(handshake, expected, maxBytes, norm)
  }

  function Inspect(input: bytes, hostname: bytes, maxBytes: int, norm: Normalize): Outcome {
    if maxBytes < 256 then Failed(InvalidLimit)
    else if |input| > maxBytes then Failed(ClientHelloTooLarge)
    else match norm(hostname)
      case None => Failed(InvalidHostname)
      case Some(expected) => Scan(input, 0, [], maxBytes, Judging(expected, maxBytes, norm))
  }

  // ---- The loops -----------------------------------------------------------

  predicate HasBytes(buffer: bytes, offset: int, length: int) {
    !(length < 0 || offset < 0 || offset + length > |buffer|)
  }

  method ValidateClientHello(hello: bytes, expected: bytes, norm: Normalize) returns (error: Option<TlsError>)
    ensures error == Validate(hello, expected, norm)
  {
    var offset := 0;
    if !HasBytes(hello, offset, 34) { return Some(MalformedClientHello); }
    var legacyVersion := ReadU16(hello, offset);
    if legacyVersion < 0x0301 || legacyVersion > 0x0303 { return Some(MalformedClientHello); }
    offset := offset + 34;
    ghost var session := hello[offset..];
    assert AfterRandom(hello) == Some(session);

    if !HasBytes(hello, offset, 1) { assert AfterSessionId(session) == None; return Some(MalformedClientHello); }
    var sessionIdLength := hello[offset] as int;
    if sessionIdLength > 32 { assert AfterSessionId(session) == None; return Some(MalformedClientHello); }
    offset := offset + 1;
    if !HasBytes(hello, offset, sessionIdLength) { assert AfterSessionId(session) == None; return Some(MalformedClientHello); }
    offset := offset + sessionIdLength;
    ghost var suites := hello[offset..];
    assert suites == session[1 + sessionIdLength..];
    assert AfterSessionId(session) == Some(suites);

    if !HasBytes(hello, offset, 2) { assert AfterCipherSuites(suites) == None; return Some(MalformedClientHello); }
    assert suites[0..2] == hello[offset..offset + 2];
    var cipherSuitesLength := ReadU16(hello, offset);
    offset := offset + 2;
    if cipherSuitesLength < 2 || cipherSuitesLength % 2 != 0 {
      assert AfterCipherSuites(suites) == None;
      return Some(MalformedClientHello);
    }
    if !HasBytes(hello, offset, cipherSuitesLength) { assert AfterCipherSuites(suites) == None; return Some(MalformedClientHello); }
    offset := offset + cipherSuitesLength;
    ghost var methods := hello[offset..];
    assert methods == suites[2 + cipherSuitesLength..];
    assert AfterCipherSuites(suites) == Some(methods);

    error := ValidateTail(hello, offset, expected, norm);
  }

  /** The validator from the compression methods on. */
  method ValidateTail(hello: bytes, start: nat, expected: bytes, norm: Normalize) returns (error: Option<TlsError>)
    requires start <= |hello|
    ensures error == ValidateAfterSuites(hello[start..], expected, norm)
  {
    var offset := start;
    ghost var methods := hello[offset..];
    if !HasBytes(hello, offset, 1) { assert AfterCompression(methods) == None; return Some(MalformedClientHello); }
    var compressionLength := hello[offset] as int;
    offset := offset + 1;
    if compressionLength < 1 { assert AfterCompression(methods) == None; return Some(MalformedClientHello); }
    if !HasBytes(hello, offset, compressionLength) { assert AfterCompression(methods) == None; return Some(MalformedClientHello); }
    offset := offset + compressionLength;
    ghost var lengths := hello[offset..];
    assert lengths == methods[1 + compressionLength..];
    assert AfterCompression(methods) == Some(lengths);

    if !HasBytes(hello, offset, 2) { assert AfterExtensionsLength(lengths) == None; return Some(MalformedClientHello); }
    assert lengths[0..2] == hello[offset..offset + 2];
    var extensionsLength := ReadU16(hello, offset);
    offset := offset + 2;
    if extensionsLength != |hello| - offset { assert AfterExtensionsLength(lengths) == None; return Some(MalformedClientHello); }
    assert hello[offset..] == lengths[2..];
    assert AfterExtensionsLength(lengths) == Some(hello[offset..]);
    error := ReadExtensions(hello, offset, expected, norm);
  }

  /** The extension loop of the validator, with its two final checks. */
  method ReadExtensions(hello: bytes, start: nat, expected: bytes, norm: Normalize) returns (error: Option<TlsError>)
    requires start <= |hello|
    ensures error == ValidateExtensions(hello[start..], expected, norm)
  {
    var offset := start;
    var sni: Option<bytes> := None;
    while offset < |hello|
      invariant start <= offset <= |hello|
      invariant ScanExtensions(hello[start..], None, norm) == ScanExtensions(hello[offset..], sni, norm)
    {
      ghost var rest := hello[offset..];
      if !HasBytes(hello, offset, 4) { return Some(MalformedClientHello); }
      assert rest[..2] == hello[offset..offset + 2] && rest[2..][..2] == hello[offset + 2..offset + 4];
      var kind := ReadU16(hello, offset);
      var length := ReadU16(hello, offset + 2);
      offset := offset + 4;
      if !HasBytes(hello, offset, length) { return Some(MalformedClientHello); }
      var body := hello[offset..offset + length];
      offset := offset + length;
      assert body == rest[4..4 + length] && hello[offset..] == rest[4 + length..];
      if kind == ENCRYPTED_CLIENT_HELLO { return Some(EncryptedClientHelloForbidden); }
      if kind == SERVER_NAME {
        if sni.Some? { return Some(MalformedClientHello); }
        match ParseServerName(body, norm)
        case Ok(name) => sni := Some(name);
        case Err(e) => return Some(e);
      }
    }
    assert hello[offset..] == [];
    if sni.None? { return Some(MissingSni); }
    error := if sni.value != expected then Some(SniMismatch) else None;
  }

  /** `judge` decides as the inspector does. `Gathered` is true of everything; it
      marks the byte strings for which the fact is wanted. */
  ghost predicate Judges(judge: Judge, expected: bytes, maxBytes: int, norm: Normalize) {
    forall h {:trigger Gathered(h)} :: Gathered(h) ==> judge(h) == Decide(h, expected, maxBytes, norm)
  }

  ghost predicate Gathered(handshake: bytes) { |handshake| >= 0 }

  /** The body of the record loop once a payload has been gathered. */
  method JudgeHandshake(handshake: bytes, expected: bytes, maxBytes: int, norm: Normalize, ghost judge: Judge)
    returns (decision: Decision)
    requires Judges(judge, expected, maxBytes, norm)
    ensures decision == judge(handshake)
  {
    assert Gathered(handshake);
    if |handshake| < 4 { return More; }
    if handshake[0] != CLIENT_HELLO { return Reject(NotTls); }
    var framedLength := ReadU24(handshake[1..], 0) + 4;
    if framedLength > maxBytes { return Reject(ClientHelloTooLarge); }
    if |handshake| < framedLength { return More; }
    if |handshake| != framedLength { return Reject(MalformedClientHello); }
    var invalid := ValidateClientHello(handshake[4..], expected, norm);
    decision := if invalid.Some? then Reject(invalid.value) else Accept;
  }

  /** The head of the record loop: the next payload's end, or why the loop stops. */
  method NextRecord(input: bytes, recordOffset: nat, maxBytes: int) returns (header: Header)
    requires recordOffset <= |input|
    ensures header == ReadHeader(input[recordOffset..], recordOffset, maxBytes)
  {
    if |input| - recordOffset < 5 { return Short; }
    if input[recordOffset] != HANDSHAKE_RECORD { return Bad(NotTls); }
    ghost var rest := input[recordOffset..];
    assert rest[1..][..2] == input[recordOffset + 1..recordOffset + 3];
    var recordVersion := ReadU16(input, recordOffset + 1);
    if recordVersion < 0x0301 || recordVersion > 0x0304 { return Bad(NotTls); }
    assert rest[3..][..2] == input[recordOffset + 3..recordOffset + 5];
    var recordLength := ReadU16(input, recordOffset + 3);
    if recordLength == 0 || recordLength > MAX_RECORD_PAYLOAD { return Bad(MalformedClientHello); }
    var recordEnd := recordOffset + 5 + recordLength;
    if recordEnd > maxBytes { return Bad(ClientHelloTooLarge); }
    if |input| < recordEnd { return Short; }
    header := Payload(recordLength);
  }

  method InspectTlsClientHello(input: bytes, hostname: bytes, maxBytes: int, norm: Normalize) returns (outcome: Outcome)
    ensures outcome == Inspect(input, hostname, maxBytes, norm)
  {
    if maxBytes < 256 { return Failed(InvalidLimit); }
    if |input| > maxBytes { return Failed(ClientHelloTooLarge); }
    var normalized := norm(hostname);
    if normalized.None? { return Failed(InvalidHostname); }
    outcome := ReadAllRecords(input, normalized.value, maxBytes, norm);
  }

  method ReadAllRecords(input: bytes, expected: bytes, maxBytes: int, norm: Normalize) returns (outcome: Outcome)
    ensures outcome == Scan(input, 0, [], maxBytes, Judging(expected, maxBytes, norm))
  {
    var recordOffset: nat := 0;
    var handshake: bytes := [];
    ghost var judge := Judging(expected, maxBytes, norm);
    ghost var verdict := Scan(input, 0, [], maxBytes, judge);
    assert input[0..] == input;
    while true
      invariant recordOffset <= |input|
      invariant verdict == Scan(input[recordOffset..], recordOffset, handshake, maxBytes, judge)
      decreases |input| - recordOffset
    {
      var settled: Option<Outcome>;
      settled, recordOffset, handshake := ReadOneRecord(input, recordOffset, handshake, expected, maxBytes, norm, judge);
      if settled.Some? { return settled.value; }
    }
  }

  /** One iteration of the record loop: it settles the verdict or moves past one
      record, leaving the verdict to the rest. */
  method ReadOneRecord(input: bytes, at: nat, handshake: bytes, expected: bytes, maxBytes: int, norm: Normalize,
                       ghost judge: Judge)
    returns (settled: Option<Outcome>, end: nat, gathered: bytes)
    requires at <= |input| && Judges(judge, expected, maxBytes, norm)
    ensures var verdict := Scan(input[at..], at, handshake, maxBytes, judge);
      match settled
      case Some(outcome) => verdict == outcome
      case None => at < end <= |input| && verdict == Scan(input[end..], end, gathered, maxBytes, judge)
  {
    var header := NextRecord(input, at, maxBytes);
    if header.Payload? {
      end := at + 5 + header.length;
      gathered := handshake + input[at + 5..end];
      var decision := JudgeHandshake(gathered, expected, maxBytes, norm, judge);
      settled := Settled(header, end, decision);
      ScanNextRecord(input, at, handshake, maxBytes, judge, decision);
    } else {
      end, gathered, settled := at, handshake, Settled(header, at, More);
      ScanNextRecord(input, at, handshake, maxBytes, judge, More);
    }
  }

  /** Whether the loop is over after a record header and, for a payload that ends at
      `end`, the decision on the bytes gathered so far. */
  function Settled(header: Header, end: nat, decision: Decision): Option<Outcome> {
    match header
    case Short => Some(Incomplete)
    case Bad(error) => Some(Failed(error))
    case Payload(_) =>
      match decision
      case More => None
      case Accept => Some(Complete(end))
      case Reject(error) => Some(Failed(error))
  }

  /** One record of the scan. */
  lemma ScanNextRecord(input: bytes, at: nat, handshake: bytes, maxBytes: int, judge: Judge, decision: Decision)
    requires at <= |input|
    requires var header := ReadHeader(input[at..], at, maxBytes);
      header.Payload? ==> decision == judge(handshake + input[at + 5..at + 5 + header.length])
    ensures var header := ReadHeader(input[at..], at, maxBytes);
      var end := if header.Payload? then at + 5 + header.length else at;
      var gathered := if header.Payload? then handshake + input[at + 5..end] else handshake;
      Scan(input[at..], at, handshake, maxBytes, judge) ==
        match Settled(header, end, decision)
        case Some(outcome) => outcome
        case None => Scan(input[end..], end, gathered, maxBytes, judge)
  {
    var header := ReadHeader(input[at..], at, maxBytes);
    if header.Payload? {
      SliceOfSuffix(input, at, 5, 5 + header.length);
    }
  }
}
