/** Every verdict of the inspector other than acceptance: which input is refused with
    which error, read off the extensions, fields, message and records it is made of, and
    which input the proxy goes on waiting for. */
module TlsVerdicts {
  import opened Basics
  import opened ClientHello
  import opened TlsInspector
  import opened TlsTheorems

  // ---- What is wrong with a list of extensions -----------------------------

  predicate Hides(e: Extension) { e.kind == ENCRYPTED_CLIENT_HELLO }

  /** The extension is a server_name whose one name normalises to `normal`. */
  ghost predicate Names(e: Extension, normal: bytes, norm: Normalize) {
    e.kind == SERVER_NAME && exists name :: GoodName(name) && e.body == WriteServerName(name) && norm(name) == Some(normal)
  }

  ghost predicate NamesSomething(e: Extension, norm: Normalize) { exists normal :: Names(e, normal, norm) }

  predicate AnotherBefore(es: seq<Extension>, i: nat)
    requires i <= |es|
  {
    exists j :: 0 <= j < i && es[j].kind == SERVER_NAME
  }

  /** A server_name that is ill-formed, or a second one; `named` if one came before `es`. */
  ghost predicate BadName(es: seq<Extension>, i: nat, named: bool, norm: Normalize)
    requires i < |es|
  {
    es[i].kind == SERVER_NAME && (named || AnotherBefore(es, i) || !NamesSomething(es[i], norm))
  }

  /** The first `n` extensions hide nothing and hold no bad name. */
  ghost predicate Clean(es: seq<Extension>, n: nat, named: bool, norm: Normalize)
    requires n <= |es|
  {
    forall i :: 0 <= i < n ==> !Hides(es[i]) && !BadName(es, i, named, norm)
  }

  /** The first extension that is not clean hides the hello. */
  ghost predicate HidesFirst(es: seq<Extension>, named: bool, norm: Normalize) {
    exists i :: 0 <= i < |es| && Hides(es[i]) && Clean(es, i, named, norm)
  }

  /** The first extension that is not clean is a bad name. */
  ghost predicate BadNameFirst(es: seq<Extension>, named: bool, norm: Normalize) {
    exists i :: 0 <= i < |es| && BadName(es, i, named, norm) && Clean(es, i, named, norm)
  }

  ghost predicate NamedAs(es: seq<Extension>, normal: bytes, norm: Normalize) {
    exists i :: 0 <= i < |es| && Names(es[i], normal, norm)
  }

  /** Why a block is refused that consists of the extensions `es` and then, unless it is
      `whole`, of bytes that are no extension. */
  ghost predicate Refused(es: seq<Extension>, whole: bool, expected: bytes, norm: Normalize, e: TlsError) {
    match e
    case EncryptedClientHelloForbidden => HidesFirst(es, false, norm)
    case MalformedClientHello => BadNameFirst(es, false, norm) || (Clean(es, |es|, false, norm) && !whole)
    case MissingSni => Clean(es, |es|, false, norm) && whole && forall x :: x in es ==> x.kind != SERVER_NAME
    case SniMismatch => Clean(es, |es|, false, norm) && whole && exists other :: other != expected && NamedAs(es, other, norm)
    case _ => false
  }

  /** A byte string that does not begin with a whole extension. */
  predicate StartsNoExtension(left: bytes) { |left| < 4 || |left| < 4 + ReadU16(left[2..], 0) }

  // ---- The scan of an extension block --------------------------------------

  /** What scanning the block must say when `sni` is the name seen before it. */
  ghost predicate Says(es: seq<Extension>, whole: bool, sni: Option<bytes>, norm: Normalize, r: Result<Option<bytes>, TlsError>) {
    || (r == Err(EncryptedClientHelloForbidden) && HidesFirst(es, sni.Some?, norm))
    || (r == Err(MalformedClientHello) && BadNameFirst(es, sni.Some?, norm))
    || (Clean(es, |es|, sni.Some?, norm) &&
          if whole then r.Ok? && Found(es, sni, r.value, norm) else r == Err(MalformedClientHello))
  }

  /** `found` is the name in `es`, or else the name seen before. */
  ghost predicate Found(es: seq<Extension>, sni: Option<bytes>, found: Option<bytes>, norm: Normalize) {
    || (found.Some? && NamedAs(es, found.value, norm))
    || (found == sni && forall x :: x in es ==> x.kind != SERVER_NAME)
  }

  lemma ServerNameRead(e: Extension, norm: Normalize)
    requires e.kind == SERVER_NAME
    ensures match ParseServerName(e.body, norm)
      case Ok(normal) => Names(e, normal, norm)
      case Err(error) => error == MalformedClientHello && !NamesSomething(e, norm)
  {
    if ParseServerName(e.body, norm).Ok? {
      ServerNameUnderstood(e.body, norm);
    } else if normal :| Names(e, normal, norm) {
      var name :| GoodName(name) && e.body == WriteServerName(name) && norm(name) == Some(normal);
      ServerNameAccepted(name, norm, normal);
    }
  }

  lemma BadNameShifts(es: seq<Extension>, i: nat, named: bool, norm: Normalize)
    requires 1 <= i < |es|
    ensures BadName(es, i, named, norm) <==> BadName(es[1..], i - 1, named || es[0].kind == SERVER_NAME, norm)
  {
    if AnotherBefore(es, i) && es[0].kind != SERVER_NAME {
      var j :| 0 <= j < i && es[j].kind == SERVER_NAME;
      assert es[1..][j - 1].kind == SERVER_NAME;
    }
    if j :| 0 <= j < i - 1 && es[1..][j].kind == SERVER_NAME {
      assert es[j + 1].kind == SERVER_NAME;
    }
  }

  lemma CleanShifts(es: seq<Extension>, n: nat, named: bool, norm: Normalize)
    requires 1 <= n <= |es| && !Hides(es[0]) && !BadName(es, 0, named, norm)
    ensures Clean(es, n, named, norm) <==> Clean(es[1..], n - 1, named || es[0].kind == SERVER_NAME, norm)
  {
    forall i | 1 <= i < n ensures BadName(es, i, named, norm) <==> BadName(es[1..], i - 1, named || es[0].kind == SERVER_NAME, norm) {
      BadNameShifts(es, i, named, norm);
    }
    if Clean(es, n, named, norm) {
      forall i | 0 <= i < n - 1 ensures !Hides(es[1..][i]) && !BadName(es[1..], i, named || es[0].kind == SERVER_NAME, norm) {
        assert !Hides(es[i + 1]) && !BadName(es, i + 1, named, norm);
      }
    }
    if Clean(es[1..], n - 1, named || es[0].kind == SERVER_NAME, norm) {
      forall i | 1 <= i < n ensures !Hides(es[i]) && !BadName(es, i, named, norm) {
        assert !Hides(es[1..][i - 1]) && !BadName(es[1..], i - 1, named || es[0].kind == SERVER_NAME, norm);
      }
    }
  }

  /** The verdict on the rest of a list, after a clean extension, is the verdict on the list. */
  lemma SaysShifts(es: seq<Extension>, whole: bool, sni: Option<bytes>, next: Option<bytes>, norm: Normalize,
                   r: Result<Option<bytes>, TlsError>)
    requires es != [] && !Hides(es[0]) && !BadName(es, 0, sni.Some?, norm)
    requires if es[0].kind == SERVER_NAME then next.Some? && Names(es[0], next.value, norm) else next == sni
    requires Says(es[1..], whole, next, norm, r)
    ensures Says(es, whole, sni, norm, r)
  {
    var rest := es[1..];
    assert next.Some? == (sni.Some? || es[0].kind == SERVER_NAME);
    if r == Err(EncryptedClientHelloForbidden) && HidesFirst(rest, next.Some?, norm) {
      var i :| 0 <= i < |rest| && Hides(rest[i]) && Clean(rest, i, next.Some?, norm);
      CleanShifts(es, i + 1, sni.Some?, norm);
      assert Hides(es[i + 1]);
    } else if r == Err(MalformedClientHello) && BadNameFirst(rest, next.Some?, norm) {
      var i :| 0 <= i < |rest| && BadName(rest, i, next.Some?, norm) && Clean(rest, i, next.Some?, norm);
      CleanShifts(es, i + 1, sni.Some?, norm);
      BadNameShifts(es, i + 1, sni.Some?, norm);
      assert BadName(es, i + 1, sni.Some?, norm);
    } else {
      CleanShifts(es, |es|, sni.Some?, norm);
      if whole { FoundShifts(es, sni, next, r.value, norm); }
    }
  }

  lemma FoundShifts(es: seq<Extension>, sni: Option<bytes>, next: Option<bytes>, found: Option<bytes>, norm: Normalize)
    requires es != [] && Found(es[1..], next, found, norm)
    requires if es[0].kind == SERVER_NAME then next.Some? && Names(es[0], next.value, norm) else next == sni
    ensures Found(es, sni, found, norm)
  {
    if found.Some? && NamedAs(es[1..], found.value, norm) {
      var i :| 0 <= i < |es[1..]| && Names(es[1..][i], found.value, norm);
      assert Names(es[i + 1], found.value, norm);
    } else if es[0].kind == SERVER_NAME {
      assert Names(es[0], found.value, norm);
    } else {
      assert forall x :: x in es ==> x == es[0] || x in es[1..];
    }
  }

  lemma {:induction false} BlockScanned(es: seq<Extension>, left: bytes, sni: Option<bytes>, norm: Normalize)
    requires GoodExtensions(es) && StartsNoExtension(left)
    ensures Says(es, left == [], sni, norm, ScanExtensions(WriteExtensions(es) + left, sni, norm))
    decreases |es|
  {
    if es == [] {
      assert WriteExtensions(es) + left == left;
    } else {
      FirstScanned(es, left, sni, norm);
    }
  }

  /** The step of the scan over the first extension. */
  lemma FirstScanned(es: seq<Extension>, left: bytes, sni: Option<bytes>, norm: Normalize)
    requires es != [] && GoodExtensions(es) && StartsNoExtension(left)
    ensures Says(es, left == [], sni, norm, ScanExtensions(WriteExtensions(es) + left, sni, norm))
    decreases |es|, 0
  {
    var e, back := es[0], WriteExtensions(es[1..]) + left;
    assert WriteExtensions(es) + left == WriteExtension(e) + back;
    OneExtension(e, back);
    if Hides(e) {
      assert Clean(es, 0, sni.Some?, norm);
    } else if e.kind == SERVER_NAME {
      ServerNameRead(e, norm);
      if BadName(es, 0, sni.Some?, norm) {
        assert Clean(es, 0, sni.Some?, norm);
      } else {
        var next := Some(ParseServerName(e.body, norm).value);
        BlockScanned(es[1..], left, next, norm);
        SaysShifts(es, left == [], sni, next, norm, ScanExtensions(back, next, norm));
      }
    } else {
      BlockScanned(es[1..], left, sni, norm);
      SaysShifts(es, left == [], sni, sni, norm, ScanExtensions(back, sni, norm));
    }
  }

  lemma OneNormalForm(e: Extension, a: bytes, b: bytes, norm: Normalize)
    requires Names(e, a, norm) && Names(e, b, norm)
    ensures a == b
  {
    var name :| GoodName(name) && e.body == WriteServerName(name) && norm(name) == Some(a);
    ServerNameAccepted(name, norm, a);
    var other :| GoodName(other) && e.body == WriteServerName(other) && norm(other) == Some(b);
    ServerNameAccepted(other, norm, b);
  }

  lemma OneNameInACleanList(es: seq<Extension>, a: bytes, b: bytes, norm: Normalize)
    requires Clean(es, |es|, false, norm) && NamedAs(es, a, norm) && NamedAs(es, b, norm)
    ensures a == b
  {
    var i :| 0 <= i < |es| && Names(es[i], a, norm);
    var j :| 0 <= j < |es| && Names(es[j], b, norm);
    assert !BadName(es, i, false, norm) && !BadName(es, j, false, norm);
    assert !AnotherBefore(es, i) && !AnotherBefore(es, j);
    OneNormalForm(es[i], a, b, norm);
  }

  /** The first thing wrong is one thing. */
  lemma OneThingFirst(es: seq<Extension>, norm: Normalize)
    ensures HidesFirst(es, false, norm) ==> !BadNameFirst(es, false, norm)
    ensures HidesFirst(es, false, norm) || BadNameFirst(es, false, norm) ==> !Clean(es, |es|, false, norm)
  {
    forall i, j | 0 <= i < |es| && Hides(es[i]) && Clean(es, i, false, norm) && 0 <= j < |es| && BadName(es, j, false, norm)
      ensures !Clean(es, j, false, norm)
    {
      assert i < j;
    }
  }

  lemma FoundMeans(es: seq<Extension>, found: Option<bytes>, expected: bytes, norm: Normalize)
    requires Clean(es, |es|, false, norm) && Found(es, None, found, norm)
    ensures found.None? <==> forall x :: x in es ==> x.kind != SERVER_NAME
    ensures found.Some? && found.value != expected <==> exists other :: other != expected && NamedAs(es, other, norm)
  {
    if found.Some? {
      var i :| 0 <= i < |es| && Names(es[i], found.value, norm);
      assert es[i] in es;
    }
    if other :| other != expected && NamedAs(es, other, norm) {
      var i :| 0 <= i < |es| && Names(es[i], other, norm);
      assert es[i] in es;
      OneNameInACleanList(es, found.value, other, norm);
    }
  }

  /** A block is refused with an error exactly when its extensions say so. */
  lemma BlockRefusedExactly(es: seq<Extension>, left: bytes, expected: bytes, norm: Normalize, e: TlsError)
    requires GoodExtensions(es) && StartsNoExtension(left)
    ensures ValidateExtensions(WriteExtensions(es) + left, expected, norm) == Some(e) <==> Refused(es, left == [], expected, norm, e)
  {
    BlockScanned(es, left, None, norm);
    SaysMeansRefused(es, left == [], expected, norm, e, ScanExtensions(WriteExtensions(es) + left, None, norm));
  }

  /** The two final checks, on what the scan has found. */
  function Checked(scanned: Result<Option<bytes>, TlsError>, expected: bytes): Option<TlsError> {
    match scanned
    case Err(e) => Some(e)
    case Ok(None) => Some(MissingSni)
    case Ok(Some(name)) => if name == expected then None else Some(SniMismatch)
  }

  lemma SaysMeansRefused(es: seq<Extension>, whole: bool, expected: bytes, norm: Normalize, e: TlsError,
                         r: Result<Option<bytes>, TlsError>)
    requires Says(es, whole, None, norm, r)
    ensures Checked(r, expected) == Some(e) <==> Refused(es, whole, expected, norm, e)
  {
    OneThingFirst(es, norm);
    if r.Ok? { FoundMeans(es, r.value, expected, norm); }
  }

  // ---- Bodies and messages -------------------------------------------------

  /** The fields of a hello, in front of some block, make up the bytes. */
  ghost predicate HasFields(b: bytes, block: bytes) {
    |block| < 0x1_0000 && exists h :: GoodFields(h) && b == WriteFields(h, block)
  }

  /** Why the body of a hello is refused. */
  ghost predicate BodyRefused(b: bytes, expected: bytes, norm: Normalize, e: TlsError) {
    || (e == MalformedClientHello && forall block :: !HasFields(b, block))
    || exists es, left :: GoodExtensions(es) && StartsNoExtension(left)
         && HasFields(b, WriteExtensions(es) + left) && Refused(es, left == [], expected, norm, e)
  }

  lemma FieldsFound(b: bytes, block: bytes)
    ensures HasFields(b, block) <==> ExtensionBlock(b) == Some(block)
  {
    if HasFields(b, block) {
      var h :| GoodFields(h) && b == WriteFields(h, block);
      WrittenBlock(h, block);
    }
    if ExtensionBlock(b) == Some(block) {
      ReadFieldsWritten(b);
      assert b == WriteFields(ReadHello(b), block);
    }
  }

  lemma {:induction false} ParsedSplits(block: bytes) returns (left: bytes)
    ensures GoodExtensions(Parsed(block)) && StartsNoExtension(left) && block == WriteExtensions(Parsed(block)) + left
    decreases |block|
  {
    if StartsNoExtension(block) {
      left := block;
    } else {
      var length := ReadU16(block[2..], 0);
      var e, rest := Extension(ReadU16(block, 0), block[4..4 + length]), block[4 + length..];
      ParsedFirst(block);
      left := ParsedSplits(rest);
      WrittenFirst(e, Parsed(rest));
      Regroup(WriteExtension(e), WriteExtensions(Parsed(rest)), left);
    }
  }

  lemma BodyRefusedExactly(b: bytes, expected: bytes, norm: Normalize, e: TlsError)
    ensures Validate(b, expected, norm) == Some(e) <==> BodyRefused(b, expected, norm, e)
  {
    if ExtensionBlock(b).Some? {
      var block := ExtensionBlock(b).value;
      if Validate(b, expected, norm) == Some(e) { ErrorHasACause(b, block, expected, norm, e); }
      if BodyRefused(b, expected, norm, e) { CauseMakesTheError(b, block, expected, norm, e); }
    } else {
      forall block ensures !HasFields(b, block) { FieldsFound(b, block); }
    }
  }

  lemma ErrorHasACause(b: bytes, block: bytes, expected: bytes, norm: Normalize, e: TlsError)
    requires ExtensionBlock(b) == Some(block) && ValidateExtensions(block, expected, norm) == Some(e)
    ensures BodyRefused(b, expected, norm, e)
  {
    var es := Parsed(block);
    var left := ParsedSplits(block);
    BlockRefusedExactly(es, left, expected, norm, e);
    FieldsFound(b, block);
  }

  lemma CauseMakesTheError(b: bytes, block: bytes, expected: bytes, norm: Normalize, e: TlsError)
    requires ExtensionBlock(b) == Some(block) && BodyRefused(b, expected, norm, e)
    ensures ValidateExtensions(block, expected, norm) == Some(e)
  {
    FieldsFound(b, block);
    var es, left :| GoodExtensions(es) && StartsNoExtension(left)
      && HasFields(b, WriteExtensions(es) + left) && Refused(es, left == [], expected, norm, e);
    FieldsFound(b, WriteExtensions(es) + left);
    BlockRefusedExactly(es, left, expected, norm, e);
  }

  /** The length the header of a handshake message announces for the whole message. */
  function Announced(message: bytes): nat
    requires |message| >= 4
  {
    4 + ReadU24(message[1..], 0)
  }

  /** The message may still become a whole hello within the limit, and is not one yet. */
  predicate Waits(message: bytes, maxBytes: int) {
    |message| < 4 || (message[0] == CLIENT_HELLO && |message| < Announced(message) <= maxBytes)
  }

  /** Why a message is refused once its header is there. */
  ghost predicate MessageRefused(message: bytes, expected: bytes, maxBytes: int, norm: Normalize, e: TlsError) {
    |message| >= 4 &&
    if message[0] != CLIENT_HELLO then e == NotTls
    else if Announced(message) > maxBytes then e == ClientHelloTooLarge
    else || (|message| > Announced(message) && e == MalformedClientHello)
         || (|message| == Announced(message) && BodyRefused(message[4..], expected, norm, e))
  }

  lemma DecidedExactly(message: bytes, expected: bytes, maxBytes: int, norm: Normalize, e: TlsError)
    ensures Decide(message, expected, maxBytes, norm) == Reject(e) <==> MessageRefused(message, expected, maxBytes, norm, e)
  {
    if |message| >= 4 { BodyRefusedExactly(message[4..], expected, norm, e); }
  }

  lemma AwaitedExactly(expected: bytes, maxBytes: int, norm: Normalize)
    ensures forall message :: Judging(expected, maxBytes, norm)(message).More? <==> Waits(message, maxBytes)
  {
  }

  // ---- Records -------------------------------------------------------------

  /** Fewer bytes than a record header, or the beginning of a good record that ends within
      the limit when `consumed` bytes precede it. */
  ghost predicate AwaitsRecord(part: bytes, consumed: nat, maxBytes: int) {
    |part| < 5 || exists r :: GoodRecord(r) && part < WriteRecord(r) && consumed + |WriteRecord(r)| <= maxBytes
  }

  /** What is wrong with the header in front of `part`. */
  predicate BadHeader(part: bytes, consumed: nat, maxBytes: int, e: TlsError) {
    |part| >= 5 &&
    if part[0] != HANDSHAKE_RECORD || !(0x0301 <= ReadU16(part[1..], 0) <= 0x0304) then e == NotTls
    else if !(1 <= ReadU16(part[3..], 0) <= MAX_RECORD_PAYLOAD) then e == MalformedClientHello
    else consumed + 5 + ReadU16(part[3..], 0) > maxBytes && e == ClientHelloTooLarge
  }

  /** The input is these good records and then `part`, and their message is awaited still. */
  ghost predicate Reaches(input: bytes, rs: seq<Record>, part: bytes, maxBytes: int) {
    GoodRecords(rs) && input == WriteRecords(rs) + part && Waits(Payloads(rs), maxBytes)
  }

  lemma HeaderJudged(part: bytes, consumed: nat, maxBytes: int, e: TlsError)
    ensures ReadHeader(part, consumed, maxBytes).Short? <==> AwaitsRecord(part, consumed, maxBytes)
    ensures ReadHeader(part, consumed, maxBytes) == Bad(e) <==> BadHeader(part, consumed, maxBytes, e)
  {
    if |part| >= 5 {
      if ReadHeader(part, consumed, maxBytes).Short? { ShortStartsRecord(part, consumed, maxBytes); }
      if r :| GoodRecord(r) && part < WriteRecord(r) && consumed + |WriteRecord(r)| <= maxBytes {
        StartedRecordIsShort(part, r, consumed, maxBytes);
      }
    }
  }

  lemma StartedRecordIsShort(part: bytes, r: Record, consumed: nat, maxBytes: int)
    requires |part| >= 5 && GoodRecord(r) && part < WriteRecord(r) && consumed + |WriteRecord(r)| <= maxBytes
    ensures ReadHeader(part, consumed, maxBytes).Short?
  {
    assert WriteRecord(r) + [] == WriteRecord(r);
    OneRecord(r, [], consumed, maxBytes);
    assert part[1..][..2] == WriteRecord(r)[1..][..2] && part[3..][..2] == WriteRecord(r)[3..][..2];
  }

  lemma ShortStartsRecord(part: bytes, consumed: nat, maxBytes: int)
    requires |part| >= 5 && ReadHeader(part, consumed, maxBytes).Short?
    ensures AwaitsRecord(part, consumed, maxBytes)
  {
    var length := ReadU16(part[3..], 0);
    var missing := seq(5 + length - |part|, i => 0 as byte);
    var r := Record(ReadU16(part[1..], 0), part[5..] + missing);
    HeaderSplits(part);
    RegroupLast([HANDSHAKE_RECORD], U16(r.version), U16(length), part[5..], missing);
    assert WriteRecord(r) == part + missing;
  }

  lemma HeaderSplits(part: bytes)
    requires |part| >= 5
    ensures part == [part[0]] + (U16(ReadU16(part[1..], 0)) + (U16(ReadU16(part[3..], 0)) + part[5..]))
  {
    WriteReadU16(part[1..]);
    WriteReadU16(part[3..]);
    assert part[1..][2..] == part[3..] && part[3..][2..] == part[5..] && part == [part[0]] + part[1..];
  }

  lemma RegroupLast(a: bytes, b: bytes, c: bytes, d: bytes, e: bytes)
    ensures a + (b + (c + (d + e))) == a + (b + (c + d)) + e
  {
    Regroup(c, d, e);
    Regroup(b, c + d, e);
    Regroup(a, b + (c + d), e);
  }

  lemma PrefixWaits(part: bytes, message: bytes, maxBytes: int)
    requires part <= message && Waits(message, maxBytes)
    ensures Waits(part, maxBytes)
  {
    if |part| >= 4 { assert part[1..][..3] == message[1..][..3]; }
  }

  /** Records of a message that is awaited still are passed over. */
  lemma {:induction false} AwaitedRecordsPass(input: bytes, rs: seq<Record>, part: bytes, consumed: nat, gathered: bytes,
                                              end: nat, whole: bytes, maxBytes: int, judge: Judge)
    requires GoodRecords(rs) && input == WriteRecords(rs) + part && whole == gathered + Payloads(rs)
    requires forall p :: p <= whole ==> judge(p).More?
    requires end == consumed + |WriteRecords(rs)| && (rs == [] || end <= maxBytes)
    ensures From(input, consumed, gathered, maxBytes, judge) == From(part, end, whole, maxBytes, judge)
    decreases |rs|
  {
    if rs == [] {
      assert input == part && whole == gathered;
    } else {
      var r, rest := rs[0], rs[1..];
      var back, now, next := WriteRecords(rest) + part, gathered + r.payload, consumed + 5 + |r.payload|;
      MessageAfterRecord(rs, part, gathered, whole);
      VerdictAfterRecord(input, r, back, consumed, gathered, maxBytes, judge, next, now);
      AwaitedRecordsPass(back, rest, part, next, now, end, whole, maxBytes, judge);
    }
  }

  /** The scan cannot go on from here: no whole record, or one that settles the verdict. */
  ghost predicate Stops(part: bytes, consumed: nat, gathered: bytes, maxBytes: int, judge: Judge) {
    var header := ReadHeader(part, consumed, maxBytes);
    header.Payload? ==> !judge(gathered + part[5..5 + header.length]).More?
  }

  /** Every scan passes over some records and stops. */
  lemma {:induction false} ScanPasses(rest: bytes, consumed: nat, gathered: bytes, maxBytes: int, judge: Judge)
    returns (rs: seq<Record>, part: bytes, end: nat, message: bytes)
    requires judge(gathered).More?
    ensures GoodRecords(rs) && rest == WriteRecords(rs) + part && judge(message).More?
    ensures end == consumed + |WriteRecords(rs)| && message == gathered + Payloads(rs)
    ensures Stops(part, end, message, maxBytes, judge)
    ensures From(rest, consumed, gathered, maxBytes, judge) == From(part, end, message, maxBytes, judge)
    decreases |rest|
  {
    if Stops(rest, consumed, gathered, maxBytes, judge) {
      rs, part, end, message := [], rest, consumed, gathered;
      assert WriteRecords(rs) + part == rest && gathered + Payloads(rs) == gathered;
    } else {
      var r, back := FirstPassed(rest, consumed, gathered, maxBytes, judge);
      var more;
      more, part, end, message := ScanPasses(back, consumed + 5 + |r.payload|, gathered + r.payload, maxBytes, judge);
      rs := [r] + more;
      JoinPassed(rest, r, more, part, gathered);
    }
  }

  lemma JoinPassed(rest: bytes, r: Record, rs: seq<Record>, part: bytes, gathered: bytes)
    requires GoodRecord(r) && GoodRecords(rs) && rest == WriteRecord(r) + (WriteRecords(rs) + part)
    ensures GoodRecords([r] + rs) && rest == WriteRecords([r] + rs) + part
    ensures |WriteRecords([r] + rs)| == 5 + |r.payload| + |WriteRecords(rs)|
    ensures gathered + Payloads([r] + rs) == gathered + r.payload + Payloads(rs)
  {
    OneMoreRecord(r, rs);
    Regroup(WriteRecord(r), WriteRecords(rs), part);
    Regroup(gathered, r.payload, Payloads(rs));
  }

  lemma FirstPassed(rest: bytes, consumed: nat, gathered: bytes, maxBytes: int, judge: Judge) returns (r: Record, back: bytes)
    requires !Stops(rest, consumed, gathered, maxBytes, judge)
    ensures GoodRecord(r) && rest == WriteRecord(r) + back && judge(gathered + r.payload).More? && |back| < |rest|
    ensures From(rest, consumed, gathered, maxBytes, judge)
         == From(back, consumed + 5 + |r.payload|, gathered + r.payload, maxBytes, judge)
  {
    HeaderStartsRecord(rest, consumed, maxBytes);
    var length := ReadHeader(rest, consumed, maxBytes).length;
    r, back := Record(ReadU16(rest[1..], 0), rest[5..5 + length]), rest[5 + length..];
    assert rest == rest[..5 + length] + back;
    VerdictAfterRecord(rest, r, back, consumed, gathered, maxBytes, judge, consumed + 5 + length, gathered + r.payload);
  }

  /** The record that is next settles the verdict. */
  ghost predicate NextRefused(message: bytes, part: bytes, expected: bytes, maxBytes: int, norm: Normalize, e: TlsError) {
    exists r, back :: GoodRecord(r) && part == WriteRecord(r) + back && MessageRefused(message + r.payload, expected, maxBytes, norm, e)
  }

  lemma LastStep(part: bytes, consumed: nat, message: bytes, maxBytes: int, judge: Judge)
    requires Stops(part, consumed, message, maxBytes, judge)
    ensures var header := ReadHeader(part, consumed, maxBytes);
      From(part, consumed, message, maxBytes, judge) ==
        match header
        case Short => Incomplete
        case Bad(e) => Failed(e)
        case Payload(n) => OutcomeOf(judge(message + part[5..5 + n]), consumed + 5 + n)
  {
  }

  lemma NextRefusedExactly(part: bytes, consumed: nat, message: bytes, expected: bytes, maxBytes: int, norm: Normalize, e: TlsError)
    requires consumed + |part| <= maxBytes
    ensures NextRefused(message, part, expected, maxBytes, norm, e) <==>
      var header := ReadHeader(part, consumed, maxBytes);
      header.Payload? && Decide(message + part[5..5 + header.length], expected, maxBytes, norm) == Reject(e)
  {
    var header := ReadHeader(part, consumed, maxBytes);
    if header.Payload? {
      HeaderStartsRecord(part, consumed, maxBytes);
      var r := Record(ReadU16(part[1..], 0), part[5..5 + header.length]);
      assert part == WriteRecord(r) + part[5 + header.length..];
      DecidedExactly(message + r.payload, expected, maxBytes, norm, e);
    }
    if r, back :| GoodRecord(r) && part == WriteRecord(r) + back && MessageRefused(message + r.payload, expected, maxBytes, norm, e) {
      OneRecord(r, back, consumed, maxBytes);
      DecidedExactly(message + r.payload, expected, maxBytes, norm, e);
    }
  }

  /** The scan ends here with the error. */
  ghost predicate RefusedHere(part: bytes, consumed: nat, message: bytes, expected: bytes, maxBytes: int, norm: Normalize, e: TlsError) {
    BadHeader(part, consumed, maxBytes, e) || NextRefused(message, part, expected, maxBytes, norm, e)
  }

  lemma RefusedHereExactly(part: bytes, consumed: nat, message: bytes, expected: bytes, maxBytes: int, norm: Normalize, e: TlsError)
    requires consumed + |part| <= maxBytes
    ensures var judge := Judging(expected, maxBytes, norm);
      RefusedHere(part, consumed, message, expected, maxBytes, norm, e) <==>
        Stops(part, consumed, message, maxBytes, judge) && From(part, consumed, message, maxBytes, judge) == Failed(e)
  {
    HeaderJudged(part, consumed, maxBytes, e);
    NextRefusedExactly(part, consumed, message, expected, maxBytes, norm, e);
    if Stops(part, consumed, message, maxBytes, Judging(expected, maxBytes, norm)) {
      LastStep(part, consumed, message, maxBytes, Judging(expected, maxBytes, norm));
    }
  }

  lemma StoppingPoint(input: bytes, expected: bytes, maxBytes: int, norm: Normalize) returns (rs: seq<Record>, part: bytes)
    ensures Reaches(input, rs, part, maxBytes)
    ensures Stops(part, |WriteRecords(rs)|, Payloads(rs), maxBytes, Judging(expected, maxBytes, norm))
  {
    var judge := Judging(expected, maxBytes, norm);
    AwaitedExactly(expected, maxBytes, norm);
    rs, part := ScanStops(input, maxBytes, judge);
  }

  lemma ScanStops(input: bytes, maxBytes: int, judge: Judge) returns (rs: seq<Record>, part: bytes)
    requires judge([]).More?
    ensures GoodRecords(rs) && input == WriteRecords(rs) + part && judge(Payloads(rs)).More?
    ensures Stops(part, |WriteRecords(rs)|, Payloads(rs), maxBytes, judge)
  {
    var end, message;
    rs, part, end, message := ScanPasses(input, 0, [], maxBytes, judge);
    assert [] + Payloads(rs) == Payloads(rs);
  }

  lemma VerdictIsReached(input: bytes, rs: seq<Record>, part: bytes, expected: bytes, maxBytes: int, norm: Normalize)
    requires Reaches(input, rs, part, maxBytes) && |input| <= maxBytes
    ensures var judge := Judging(expected, maxBytes, norm);
      From(input, 0, [], maxBytes, judge) == From(part, |WriteRecords(rs)|, Payloads(rs), maxBytes, judge)
  {
    AwaitedExactly(expected, maxBytes, norm);
    forall p | p <= Payloads(rs) ensures Waits(p, maxBytes) { PrefixWaits(p, Payloads(rs), maxBytes); }
    assert [] + Payloads(rs) == Payloads(rs);
    AwaitedRecordsPass(input, rs, part, 0, [], |WriteRecords(rs)|, Payloads(rs), maxBytes, Judging(expected, maxBytes, norm));
  }

  // ---- The verdicts ----------------------------------------------------------

  ghost predicate Inspectable(input: bytes, hostname: bytes, maxBytes: int, norm: Normalize) {
    maxBytes >= 256 && |input| <= maxBytes && norm(hostname).Some?
  }

  /** "Incomplete" means exactly that good records came whose message is not whole yet,
      and then less than another record. */
  lemma IncompleteExactly(input: bytes, hostname: bytes, maxBytes: int, norm: Normalize)
    requires Inspectable(input, hostname, maxBytes, norm)
    ensures Inspect(input, hostname, maxBytes, norm).Incomplete? <==>
      exists rs, part :: Reaches(input, rs, part, maxBytes) && AwaitsRecord(part, |WriteRecords(rs)|, maxBytes)
  {
    var expected := norm(hostname).value;
    var judge := Judging(expected, maxBytes, norm);
    assert From(input, 0, [], maxBytes, judge) == Inspect(input, hostname, maxBytes, norm);
    if Inspect(input, hostname, maxBytes, norm).Incomplete? {
      var rs, part := StoppingPoint(input, expected, maxBytes, norm);
      VerdictIsReached(input, rs, part, expected, maxBytes, norm);
      LastStep(part, |WriteRecords(rs)|, Payloads(rs), maxBytes, judge);
      HeaderJudged(part, |WriteRecords(rs)|, maxBytes, NotTls);
    }
    if rs, part :| Reaches(input, rs, part, maxBytes) && AwaitsRecord(part, |WriteRecords(rs)|, maxBytes) {
      VerdictIsReached(input, rs, part, expected, maxBytes, norm);
      HeaderJudged(part, |WriteRecords(rs)|, maxBytes, NotTls);
    }
  }

  /** An error means exactly that good records came whose message is not whole yet, and
      then a bad header, or a record with which the message is refused for this reason. */
  lemma FailedExactly(input: bytes, hostname: bytes, maxBytes: int, norm: Normalize, e: TlsError)
    requires Inspectable(input, hostname, maxBytes, norm)
    ensures Inspect(input, hostname, maxBytes, norm) == Failed(e) <==>
      exists rs, part :: Reaches(input, rs, part, maxBytes)
        && RefusedHere(part, |WriteRecords(rs)|, Payloads(rs), norm(hostname).value, maxBytes, norm, e)
  {
    var expected := norm(hostname).value;
    assert From(input, 0, [], maxBytes, Judging(expected, maxBytes, norm)) == Inspect(input, hostname, maxBytes, norm);
    if Inspect(input, hostname, maxBytes, norm) == Failed(e) {
      FailureIsReached(input, expected, maxBytes, norm, e);
    }
    if rs, part :| Reaches(input, rs, part, maxBytes) && RefusedHere(part, |WriteRecords(rs)|, Payloads(rs), expected, maxBytes, norm, e) {
      VerdictIsReached(input, rs, part, expected, maxBytes, norm);
      RefusedHereExactly(part, |WriteRecords(rs)|, Payloads(rs), expected, maxBytes, norm, e);
    }
  }

  lemma FailureIsReached(input: bytes, expected: bytes, maxBytes: int, norm: Normalize, e: TlsError)
    requires |input| <= maxBytes && From(input, 0, [], maxBytes, Judging(expected, maxBytes, norm)) == Failed(e)
    ensures exists rs, part ::
      Reaches(input, rs, part, maxBytes) && RefusedHere(part, |WriteRecords(rs)|, Payloads(rs), expected, maxBytes, norm, e)
  {
    var rs, part := StoppingPoint(input, expected, maxBytes, norm);
    VerdictIsReached(input, rs, part, expected, maxBytes, norm);
    RefusedHereExactly(part, |WriteRecords(rs)|, Payloads(rs), expected, maxBytes, norm, e);
  }

  /** Input that is not looked at: a limit below 256, more than the limit, no host name. */
  lemma RefusedUnseen(input: bytes, hostname: bytes, maxBytes: int, norm: Normalize)
    ensures Inspect(input, hostname, maxBytes, norm) == Failed(InvalidLimit) <==> maxBytes < 256
    ensures maxBytes >= 256 && |input| > maxBytes ==> Inspect(input, hostname, maxBytes, norm) == Failed(ClientHelloTooLarge)
    ensures Inspect(input, hostname, maxBytes, norm) == Failed(InvalidHostname) <==>
      maxBytes >= 256 && |input| <= maxBytes && norm(hostname).None?
  {
    if Inspectable(input, hostname, maxBytes, norm) {
      if Inspect(input, hostname, maxBytes, norm) == Failed(InvalidLimit) { FailedExactly(input, hostname, maxBytes, norm, InvalidLimit); }
      if Inspect(input, hostname, maxBytes, norm) == Failed(InvalidHostname) { FailedExactly(input, hostname, maxBytes, norm, InvalidHostname); }
    }
  }

  /** Every well-formed hello, under any split into records and before any tail within the
      limit, is answered: accepted when it names the expected host once and hides nothing,
      and otherwise refused for the first thing its extensions get wrong. */
  lemma EveryHelloIsAnswered(input: bytes, hostname: bytes, maxBytes: int, norm: Normalize, rs: seq<Record>, h: Hello)
    requires Inspectable(input, hostname, maxBytes, norm) && rs != [] && GoodRecords(rs) && WriteRecords(rs) <= input
    requires GoodHello(h) && Payloads(rs) == WriteHandshake(h)
    ensures var verdict := Inspect(input, hostname, maxBytes, norm); var expected := norm(hostname).value;
      && (verdict == Complete(|WriteRecords(rs)|) <==> Acceptable(h, expected, norm))
      && (verdict.Failed? <==> !Acceptable(h, expected, norm))
      && (verdict.Failed? ==> Refused(h.extensions, true, expected, norm, verdict.error))
      && (forall e :: Refused(h.extensions, true, expected, norm, e) ==> verdict == Failed(e))
  {
    var expected := norm(hostname).value;
    var judge := Judging(expected, maxBytes, norm);
    var whole := WriteHandshake(h);
    PayloadsAreShorter(rs);
    PartsAreAwaited(h, expected, maxBytes, norm, judge);
    MessageIsJudged(input, rs, whole, maxBytes, judge);
    assert From(input, 0, [], maxBytes, judge) == Inspect(input, hostname, maxBytes, norm);
    HelloDecided(h, expected, maxBytes, norm);
  }

  lemma HelloDecided(h: Hello, expected: bytes, maxBytes: int, norm: Normalize)
    requires GoodHello(h) && |WriteHandshake(h)| <= maxBytes
    ensures var decision := Decide(WriteHandshake(h), expected, maxBytes, norm);
      && !decision.More? && (decision.Accept? <==> Acceptable(h, expected, norm))
      && forall e :: decision == Reject(e) <==> Refused(h.extensions, true, expected, norm, e)
  {
    WrittenHelloValid(h, expected, norm);
    WrittenBlock(h, WriteExtensions(h.extensions));
    forall e ensures ValidateExtensions(WriteExtensions(h.extensions), expected, norm) == Some(e) <==> Refused(h.extensions, true, expected, norm, e) {
      assert WriteExtensions(h.extensions) + [] == WriteExtensions(h.extensions);
      BlockRefusedExactly(h.extensions, [], expected, norm, e);
    }
  }
}
