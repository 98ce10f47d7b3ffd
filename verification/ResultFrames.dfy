/**
 The frames a helper sends back: one setup result before the command runs and one
 execution result after it. Both end a failure with a 16-bit kind and a 32-bit
 errno in which the smallest integer stands for "none".
 */
module ResultFrames {
  import opened Wrappers
  import opened Wire

  const SETUP_MAGIC: Bytes := [67, 70, 83, 69, 84, 85, 80, 1]           // CFSETUP\x01
  const SETUP_READY: Byte := 0
  const SETUP_FAILURE: Byte := 1
  const STATUS_MAGIC: Bytes := [67, 70, 83, 84, 65, 84, 85, 83, 2]      // CFSTATUS\x02
  const STATUS_COMMAND: Byte := 0
  const STATUS_FAILURE: Byte := 1
  const NO_ERRNO := I32_MIN

  type I32 = n: int | IsI32(n)

  // ----- failure kinds -----

  datatype SetupKind =
    | NetworkMode | GatewayBridge | EnvironmentFrame | ParentDeathSignal | Dumpability
    | CoreDumpLimit | NoNewPrivileges | SeccompBuild | ProcessHardening | CommandStart
    | TraceSupervision | KeyringIsolation | LocalIpcFrame

  function SetupCode(kind: SetupKind): (r: nat)
    ensures r < 0x1_0000
    ensures SetupKindOf(r) == Some(kind)
  {
    match kind
    case NetworkMode => 1
    case GatewayBridge => 2
    case EnvironmentFrame => 3
    case ParentDeathSignal => 4
    case Dumpability => 5
    case CoreDumpLimit => 6
    case NoNewPrivileges => 7
    case SeccompBuild => 8
    case ProcessHardening => 9
    case CommandStart => 10
    case TraceSupervision => 11
    case KeyringIsolation => 12
    case LocalIpcFrame => 13
  }

  function SetupKindOf(code: nat): (r: Option<SetupKind>) {
    match code
    case 1 => Some(NetworkMode)
    case 2 => Some(GatewayBridge)
    case 3 => Some(EnvironmentFrame)
    case 4 => Some(ParentDeathSignal)
    case 5 => Some(Dumpability)
    case 6 => Some(CoreDumpLimit)
    case 7 => Some(NoNewPrivileges)
    case 8 => Some(SeccompBuild)
    case 9 => Some(ProcessHardening)
    case 10 => Some(SetupKind.CommandStart)
    case 11 => Some(SetupKind.TraceSupervision)
    case 12 => Some(KeyringIsolation)
    case 13 => Some(LocalIpcFrame)
    case _ => None
  }

  datatype RuntimeKind = CommandStart | TraceSupervision | CommandWait

  function RuntimeCode(kind: RuntimeKind): (r: nat)
    ensures r < 0x1_0000
    ensures RuntimeKindOf(r) == Some(kind)
  {
    match kind
    case CommandStart => 1
    case TraceSupervision => 2
    case CommandWait => 3
  }

  function RuntimeKindOf(code: nat): (r: Option<RuntimeKind>) {
    match code
    case 1 => Some(RuntimeKind.CommandStart)
    case 2 => Some(RuntimeKind.TraceSupervision)
    case 3 => Some(CommandWait)
    case _ => None
  }

  // ----- the tail of a failure, for either table of kinds -----

  /** A table of kinds and the codes that carry them. */
  ghost predicate Table<K(!new)>(code: K -> nat, kindOf: nat -> Option<K>) {
    && (forall k :: code(k) < 0x1_0000 && kindOf(code(k)) == Some(k))
    && (forall c :: kindOf(c).Some? ==> code(kindOf(c).value) == c)
  }

  lemma TablesAreTables()
    ensures Table(SetupCode, SetupKindOf) && Table(RuntimeCode, RuntimeKindOf)
  {
  }

  datatype TailError = ShortTail | UnknownCode(code: nat)

  function EncodeErrno(errno: Option<I32>): (r: Bytes)
    ensures |r| == 4
  {
    BigEndianI32(if errno.Some? then errno.value else NO_ERRNO)
  }

  function EncodeTail(code: nat, errno: Option<I32>): (r: Bytes) {
    BigEndian(code, 2) + EncodeErrno(errno)
  }

  function DecodeErrno(bytes: Bytes): (r: Option<I32>)
    requires |bytes| == 4
    ensures r != Some(NO_ERRNO)
  {
    var raw := FromBigEndianI32(bytes);
    if raw != NO_ERRNO then Some(raw) else None
  }

  /** An unknown code is refused before the errno is read. */
  function DecodeTail<K>(stream: Bytes, kindOf: nat -> Option<K>): (r: Result<(K, Option<I32>, Bytes), TailError>) {
    var code := Take(stream, 2);
    if code.None? then Failure(ShortTail)
    else
      var kind := kindOf(FromBigEndian(code.value.0));
      if kind.None? then Failure(UnknownCode(FromBigEndian(code.value.0)))
      else
        var errno := Take(code.value.1, 4);
        if errno.None? then Failure(ShortTail)
        else Success((kind.value, DecodeErrno(errno.value.0), errno.value.1))
  }

  /** What survives the trip: the sentinel reads back as no errno at all. */
  function Carried(errno: Option<I32>): (r: Option<I32>)
    ensures r == errno <==> errno != Some(NO_ERRNO)
  {
    if errno == Some(NO_ERRNO) then None else errno
  }

  lemma ErrnoRoundTrip(errno: Option<I32>)
    ensures DecodeErrno(EncodeErrno(errno)) == Carried(errno)
  {
    BigEndianI32RoundTrip(if errno.Some? then errno.value else NO_ERRNO, [0, 0, 0, 0]);
  }

  lemma ErrnoRewrites(bytes: Bytes)
    requires |bytes| == 4
    ensures EncodeErrno(DecodeErrno(bytes)) == bytes
  {
    BigEndianI32RoundTrip(0, bytes);
  }

  lemma TailRoundTrip<K(!new)>(kind: K, code: K -> nat, kindOf: nat -> Option<K>, errno: Option<I32>, rest: Bytes)
    requires Table(code, kindOf)
    ensures DecodeTail(EncodeTail(code(kind), errno) + rest, kindOf) == Success((kind, Carried(errno), rest))
  {
    var head, tail := BigEndian(code(kind), 2), EncodeErrno(errno);
    Power256Is();
    BigEndianReads(code(kind), 2);
    ErrnoRoundTrip(errno);
    assert EncodeTail(code(kind), errno) + rest == head + (tail + rest);
    TakeWritten(head, tail + rest);
    TakeWritten(tail, rest);
  }

  lemma TailRewrites<K(!new)>(stream: Bytes, code: K -> nat, kindOf: nat -> Option<K>)
    requires Table(code, kindOf) && DecodeTail(stream, kindOf).Success?
    ensures var (kind, errno, rest) := DecodeTail(stream, kindOf).value;
      stream == EncodeTail(code(kind), errno) + rest
  {
    hide BigEndian, FromBigEndian, EncodeErrno, DecodeErrno;
    var head := Take(stream, 2).value;
    var tail := Take(head.1, 4).value;
    BigEndianWrites(head.0);
    ErrnoRewrites(tail.0);
    assert stream == head.0 + (tail.0 + tail.1);
    assert head.0 + (tail.0 + tail.1) == head.0 + tail.0 + tail.1;
  }

  // ----- the header of either frame -----

  datatype HeaderError = ShortHeader | WrongMagic

  function DecodeHeader(stream: Bytes, magic: Bytes): (r: Result<(Byte, Bytes), HeaderError>) {
    var head := Take(stream, |magic|);
    if head.None? then Failure(ShortHeader)
    else if head.value.0 != magic then Failure(WrongMagic)
    else
      var tag := Take(head.value.1, 1);
      if tag.None? then Failure(ShortHeader) else Success((tag.value.0[0], tag.value.1))
  }

  lemma HeaderRoundTrip(magic: Bytes, tag: Byte, rest: Bytes)
    ensures DecodeHeader(magic + [tag] + rest, magic) == Success((tag, rest))
  {
    assert magic + [tag] + rest == magic + ([tag] + rest);
    TakeWritten(magic, [tag] + rest);
    TakeWritten([tag], rest);
  }

  lemma HeaderRewrites(stream: Bytes, magic: Bytes)
    requires DecodeHeader(stream, magic).Success?
    ensures var (tag, rest) := DecodeHeader(stream, magic).value; stream == magic + [tag] + rest
  {
    var head := Take(stream, |magic|).value;
    var tag := Take(head.1, 1).value;
    assert tag.0 == [tag.0[0]];
    assert stream == magic + (tag.0 + tag.1);
  }

  // ----- the setup result -----

  datatype SetupResult = Ready | Rejected(kind: SetupKind, errno: Option<I32>)

  datatype SetupError = SetupIo | InvalidReady | InvalidSetupTag(tag: Byte) | InvalidSetupCode(code: nat)

  function EncodeSetup(result: SetupResult): (r: Bytes) {
    match result
    case Ready => SETUP_MAGIC + [SETUP_READY]
    case Rejected(kind, errno) => SETUP_MAGIC + [SETUP_FAILURE] + EncodeTail(SetupCode(kind), errno)
  }

  function DecodeSetup(stream: Bytes): (r: Result<(SetupResult, Bytes), SetupError>) {
    match DecodeHeader(stream, SETUP_MAGIC)
    case Failure(ShortHeader) => Failure(SetupIo)
    case Failure(WrongMagic) => Failure(InvalidReady)
    case Success((tag, rest)) =>
      if tag == SETUP_READY then Success((Ready, rest))
      else if tag == SETUP_FAILURE then
        match DecodeTail(rest, SetupKindOf)
        case Failure(ShortTail) => Failure(SetupIo)
        case Failure(UnknownCode(code)) => Failure(InvalidSetupCode(code))
        case Success((kind, errno, suffix)) => Success((Rejected(kind, errno), suffix))
      else Failure(InvalidSetupTag(tag))
  }

  function CarriedSetup(result: SetupResult): (r: SetupResult) {
    if result.Rejected? then result.(errno := Carried(result.errno)) else result
  }

  /** A setup result reads back as itself, unless its errno is the sentinel; the suffix is untouched. */
  lemma SetupRoundTrip(result: SetupResult, rest: Bytes)
    ensures DecodeSetup(EncodeSetup(result) + rest) == Success((CarriedSetup(result), rest))
    ensures CarriedSetup(result) == result <==> !(result.Rejected? && result.errno == Some(NO_ERRNO))
  {
    hide DecodeHeader, DecodeTail, EncodeTail;
    match result
    case Ready =>
      HeaderRoundTrip(SETUP_MAGIC, SETUP_READY, rest);
    case Rejected(kind, errno) =>
      var tail := EncodeTail(SetupCode(kind), errno);
      assert EncodeSetup(result) + rest == SETUP_MAGIC + [SETUP_FAILURE] + (tail + rest);
      HeaderRoundTrip(SETUP_MAGIC, SETUP_FAILURE, tail + rest);
      TablesAreTables();
      TailRoundTrip(kind, SetupCode, SetupKindOf, errno, rest);
  }

  /** The one errno that is lost: a rejection that carries the sentinel reads back without an errno. */
  lemma SentinelErrnoIsLost(kind: SetupKind, rest: Bytes)
    ensures DecodeSetup(EncodeSetup(Rejected(kind, Some(NO_ERRNO))) + rest) == Success((Rejected(kind, None), rest))
  {
    hide EncodeSetup, DecodeSetup;
    SetupRoundTrip(Rejected(kind, Some(NO_ERRNO)), rest);
  }

  /** Re-writing an accepted setup frame reproduces its bytes. */
  lemma SetupRewrites(stream: Bytes)
    requires DecodeSetup(stream).Success?
    ensures var (result, rest) := DecodeSetup(stream).value; stream == EncodeSetup(result) + rest
  {
    hide DecodeHeader, DecodeTail, EncodeTail;
    HeaderRewrites(stream, SETUP_MAGIC);
    var (tag, rest) := DecodeHeader(stream, SETUP_MAGIC).value;
    if tag == SETUP_FAILURE {
      TablesAreTables();
      TailRewrites(rest, SetupCode, SetupKindOf);
      var (kind, errno, suffix) := DecodeTail(rest, SetupKindOf).value;
      assert SETUP_MAGIC + [tag] + (EncodeTail(SetupCode(kind), errno) + suffix)
          == (SETUP_MAGIC + [tag] + EncodeTail(SetupCode(kind), errno)) + suffix;
    }
  }

  /** The first bytes are the magic of the frame. */
  predicate Opens(stream: Bytes, magic: Bytes) { magic <= stream }

  lemma HeaderAnswers(stream: Bytes, magic: Bytes)
    ensures var r := DecodeHeader(stream, magic);
      && (r == Failure(WrongMagic) <==> |stream| >= |magic| && !Opens(stream, magic))
      && (r == Failure(ShortHeader) <==> |stream| < |magic| || stream == magic)
      && (r.Success? <==> Opens(stream, magic) && |stream| > |magic|)
      && (r.Success? ==> r.value == (stream[|magic|], stream[|magic| + 1..]))
  {
    if |stream| >= |magic| {
      assert stream[..|magic|] + stream[|magic|..] == stream;
      assert stream[|magic|..] == [] ==> stream == stream[..|magic|];
    }
  }

  /** The number in the first two bytes. */
  function CodeOf(tail: Bytes): (r: nat)
    requires |tail| >= 2
  {
    var high: int := tail[0];
    256 * high + tail[1]
  }

  lemma CodeReads(tail: Bytes)
    requires |tail| >= 2
    ensures FromBigEndian(tail[..2]) == CodeOf(tail)
  {
    assert tail[..2][..1] == [tail[0]] && [tail[0]][..0] == [];
    assert FromBigEndian([tail[0]]) == tail[0];
  }

  lemma TailAnswers<K>(tail: Bytes, kindOf: nat -> Option<K>)
    ensures var r := DecodeTail(tail, kindOf);
      && (r == Failure(ShortTail) <==> |tail| < 2 || (|tail| < 6 && kindOf(CodeOf(tail)).Some?))
      && (forall c :: r == Failure(UnknownCode(c)) <==> |tail| >= 2 && c == CodeOf(tail) && kindOf(c).None?)
      && (r.Success? <==> |tail| >= 6 && kindOf(CodeOf(tail)).Some?)
  {
    hide FromBigEndian;
    if |tail| >= 2 {
      CodeReads(tail);
    }
  }

  /** Every malformed setup frame has its own error: the magic is judged first, then the tag, then the code, and
      a frame that ends before what is needed next is an input error. */
  lemma SetupFailures(stream: Bytes)
    ensures var r, n := DecodeSetup(stream), |SETUP_MAGIC|;
      var failing := Opens(stream, SETUP_MAGIC) && |stream| > n && stream[n] == SETUP_FAILURE;
      && (r == Failure(InvalidReady) <==> |stream| >= n && !Opens(stream, SETUP_MAGIC))
      && (forall tag :: r == Failure(InvalidSetupTag(tag)) <==>
            Opens(stream, SETUP_MAGIC) && |stream| > n && tag == stream[n] && tag !in {SETUP_READY, SETUP_FAILURE})
      && (forall code :: r == Failure(InvalidSetupCode(code)) <==>
            failing && |stream| >= n + 3 && code == CodeOf(stream[n + 1..]) && SetupKindOf(code).None?)
      && (r == Failure(SetupIo) <==>
            || |stream| < n || stream == SETUP_MAGIC
            || (failing && (|stream| < n + 3 || (|stream| < n + 7 && SetupKindOf(CodeOf(stream[n + 1..])).Some?))))
  {
    hide DecodeHeader, DecodeTail, SetupKindOf, CodeOf;
    var n := |SETUP_MAGIC|;
    HeaderAnswers(stream, SETUP_MAGIC);
    if |stream| > n {
      TailAnswers(stream[n + 1..], SetupKindOf);
    }
  }

  /** The outcome the parent acts on: a rejection by the helper is an error. */
  datatype HandshakeError = Frame(error: SetupError) | HelperRejected(kind: SetupKind, errno: Option<I32>)

  method ReadSetupResult(reader: Reader) returns (r: Outcome<HandshakeError>)
    modifies reader
    ensures match DecodeSetup(old(reader.pending)) {
      case Success((Ready, rest)) => r == Pass && reader.pending == rest
      case Success((Rejected(kind, errno), rest)) => r == Fail(HelperRejected(kind, errno)) && reader.pending == rest
      case Failure(error) => r == Fail(Frame(error))
    }
  {
    var magic := reader.ReadExact(|SETUP_MAGIC|);
    if magic.None? {
      return Fail(Frame(SetupIo));
    }
    if magic.value != SETUP_MAGIC {
      return Fail(Frame(InvalidReady));
    }
    var tag := reader.ReadExact(1);
    if tag.None? {
      return Fail(Frame(SetupIo));
    }
    if tag.value[0] == SETUP_READY {
      return Pass;
    }
    if tag.value[0] != SETUP_FAILURE {
      return Fail(Frame(InvalidSetupTag(tag.value[0])));
    }
    var code := reader.ReadExact(2);
    if code.None? {
      return Fail(Frame(SetupIo));
    }
    var kind := SetupKindOf(FromBigEndian(code.value));
    if kind.None? {
      return Fail(Frame(InvalidSetupCode(FromBigEndian(code.value))));
    }
    var errno := reader.ReadExact(4);
    if errno.None? {
      return Fail(Frame(SetupIo));
    }
    return Fail(HelperRejected(kind.value, DecodeErrno(errno.value)));
  }

  // ----- the execution result -----

  datatype StatusResult = CommandExited(rawStatus: I32) | HelperFailed(kind: RuntimeKind, errno: Option<I32>)

  datatype StatusError =
    | MissingFrame | StatusIo | InvalidMagic | InvalidStatusTag(tag: Byte) | InvalidStatusCode(code: nat)

  function EncodeStatus(result: StatusResult): (r: Bytes) {
    match result
    case CommandExited(rawStatus) => STATUS_MAGIC + [STATUS_COMMAND] + BigEndianI32(rawStatus)
    case HelperFailed(kind, errno) => STATUS_MAGIC + [STATUS_FAILURE] + EncodeTail(RuntimeCode(kind), errno)
  }

  function DecodeCommandStatus(stream: Bytes): (r: Result<(StatusResult, Bytes), StatusError>) {
    var raw := Take(stream, 4);
    if raw.None? then Failure(StatusIo) else Success((CommandExited(FromBigEndianI32(raw.value.0)), raw.value.1))
  }

  function DecodeStatus(stream: Bytes): (r: Result<(StatusResult, Bytes), StatusError>) {
    if stream == [] then Failure(MissingFrame)
    else
      match DecodeHeader(stream, STATUS_MAGIC)
      case Failure(ShortHeader) => Failure(StatusIo)
      case Failure(WrongMagic) => Failure(InvalidMagic)
      case Success((tag, rest)) =>
        if tag == STATUS_COMMAND then DecodeCommandStatus(rest)
        else if tag == STATUS_FAILURE then
          match DecodeTail(rest, RuntimeKindOf)
          case Failure(ShortTail) => Failure(StatusIo)
          case Failure(UnknownCode(code)) => Failure(InvalidStatusCode(code))
          case Success((kind, errno, suffix)) => Success((HelperFailed(kind, errno), suffix))
        else Failure(InvalidStatusTag(tag))
  }

  function CarriedStatus(result: StatusResult): (r: StatusResult) {
    if result.HelperFailed? then result.(errno := Carried(result.errno)) else result
  }

  /** Every wait status reads back as itself; a failure does unless its errno is the sentinel. */
  lemma StatusRoundTrip(result: StatusResult, rest: Bytes)
    ensures DecodeStatus(EncodeStatus(result) + rest) == Success((CarriedStatus(result), rest))
    ensures CarriedStatus(result) == result <==> !(result.HelperFailed? && result.errno == Some(NO_ERRNO))
  {
    hide DecodeHeader, DecodeTail, EncodeTail, Take;
    match result
    case CommandExited(rawStatus) =>
      var tail := BigEndianI32(rawStatus);
      assert EncodeStatus(result) + rest == STATUS_MAGIC + [STATUS_COMMAND] + (tail + rest);
      HeaderRoundTrip(STATUS_MAGIC, STATUS_COMMAND, tail + rest);
      BigEndianI32RoundTrip(rawStatus, tail);
      TakeWritten(tail, rest);
    case HelperFailed(kind, errno) =>
      var tail := EncodeTail(RuntimeCode(kind), errno);
      assert EncodeStatus(result) + rest == STATUS_MAGIC + [STATUS_FAILURE] + (tail + rest);
      HeaderRoundTrip(STATUS_MAGIC, STATUS_FAILURE, tail + rest);
      TablesAreTables();
      TailRoundTrip(kind, RuntimeCode, RuntimeKindOf, errno, rest);
  }

  /** Re-writing an accepted status frame reproduces its bytes. */
  lemma StatusRewrites(stream: Bytes)
    requires DecodeStatus(stream).Success?
    ensures var (result, rest) := DecodeStatus(stream).value; stream == EncodeStatus(result) + rest
  {
    hide DecodeHeader, DecodeTail, EncodeTail;
    HeaderRewrites(stream, STATUS_MAGIC);
    var (tag, rest) := DecodeHeader(stream, STATUS_MAGIC).value;
    if tag == STATUS_COMMAND {
      var raw := Take(rest, 4).value;
      BigEndianI32RoundTrip(0, raw.0);
      assert STATUS_MAGIC + [tag] + (raw.0 + raw.1) == (STATUS_MAGIC + [tag] + raw.0) + raw.1;
    } else {
      TablesAreTables();
      TailRewrites(rest, RuntimeCode, RuntimeKindOf);
      var (kind, errno, suffix) := DecodeTail(rest, RuntimeKindOf).value;
      assert STATUS_MAGIC + [tag] + (EncodeTail(RuntimeCode(kind), errno) + suffix)
          == (STATUS_MAGIC + [tag] + EncodeTail(RuntimeCode(kind), errno)) + suffix;
    }
  }

  /** Every malformed status frame has its own error; only an empty stream is a missing frame. */
  lemma StatusFailures(stream: Bytes)
    ensures var r, n := DecodeStatus(stream), |STATUS_MAGIC|;
      var tagged := Opens(stream, STATUS_MAGIC) && |stream| > n;
      && (r == Failure(MissingFrame) <==> stream == [])
      && (r == Failure(InvalidMagic) <==> |stream| >= n && !Opens(stream, STATUS_MAGIC))
      && (forall tag :: r == Failure(InvalidStatusTag(tag)) <==>
            tagged && tag == stream[n] && tag !in {STATUS_COMMAND, STATUS_FAILURE})
      && (forall code :: r == Failure(InvalidStatusCode(code)) <==>
            && tagged && stream[n] == STATUS_FAILURE && |stream| >= n + 3
            && code == CodeOf(stream[n + 1..]) && RuntimeKindOf(code).None?)
      && (r == Failure(StatusIo) <==>
            || 0 < |stream| < n || stream == STATUS_MAGIC
            || (tagged && stream[n] == STATUS_COMMAND && |stream| < n + 5)
            || (tagged && stream[n] == STATUS_FAILURE
                && (|stream| < n + 3 || (|stream| < n + 7 && RuntimeKindOf(CodeOf(stream[n + 1..])).Some?))))
  {
    hide DecodeHeader, DecodeTail, RuntimeKindOf, CodeOf;
    var n := |STATUS_MAGIC|;
    HeaderAnswers(stream, STATUS_MAGIC);
    if |stream| > n {
      TailAnswers(stream[n + 1..], RuntimeKindOf);
    }
  }

  /** What one attempt to read the first byte may meet before the stream answers. */
  datatype Fault = Interrupted | Broken

  /** Interruptions before the first byte are invisible; any other fault there is an input error. */
  method ReadStatus(reader: Reader, faults: seq<Fault>) returns (r: Result<StatusResult, StatusError>)
    modifies reader
    ensures Broken in faults ==> r == Failure(StatusIo) && reader.pending == old(reader.pending)
    ensures Broken !in faults ==> match DecodeStatus(old(reader.pending)) {
        case Success((result, rest)) => r == Success(result) && reader.pending == rest
        case Failure(error) => r == Failure(error)
      }
  {
    var k := 0;
    while k < |faults|
      invariant k <= |faults|
      invariant Broken !in faults[..k]
    {
      if faults[k] == Broken {
        return Failure(StatusIo);
      }
      assert faults[..k + 1] == faults[..k] + [faults[k]];
      k := k + 1;
    }
    assert faults[..k] == faults;
    r := ReadStatusFrame(reader);
  }

  method ReadStatusFrame(reader: Reader) returns (r: Result<StatusResult, StatusError>)
    modifies reader
    ensures match DecodeStatus(old(reader.pending)) {
      case Success((result, rest)) => r == Success(result) && reader.pending == rest
      case Failure(error) => r == Failure(error)
    }
  {
    ghost var stream := reader.pending;
    var first := reader.ReadExact(1);
    if first.None? {
      return Failure(MissingFrame);
    }
    var others := reader.ReadExact(|STATUS_MAGIC| - 1);
    if others.None? {
      return Failure(StatusIo);
    }
    var magic := first.value + others.value;
    assert stream == magic + reader.pending;
    if magic != STATUS_MAGIC {
      return Failure(InvalidMagic);
    }
    assert Take(stream, |STATUS_MAGIC|) == Some((magic, reader.pending));
    var tag := reader.ReadExact(1);
    if tag.None? {
      return Failure(StatusIo);
    }
    if tag.value[0] == STATUS_COMMAND {
      r := ReadCommandStatus(reader);
    } else if tag.value[0] == STATUS_FAILURE {
      r := ReadRuntimeFailure(reader);
    } else {
      return Failure(InvalidStatusTag(tag.value[0]));
    }
  }

  method ReadCommandStatus(reader: Reader) returns (r: Result<StatusResult, StatusError>)
    modifies reader
    ensures match DecodeCommandStatus(old(reader.pending)) {
      case Success((result, rest)) => r == Success(result) && reader.pending == rest
      case Failure(error) => r == Failure(error)
    }
  {
    var raw := reader.ReadExact(4);
    if raw.None? {
      return Failure(StatusIo);
    }
    return Success(CommandExited(FromBigEndianI32(raw.value)));
  }

  method ReadRuntimeFailure(reader: Reader) returns (r: Result<StatusResult, StatusError>)
    modifies reader
    ensures match DecodeTail(old(reader.pending), RuntimeKindOf) {
      case Success((kind, errno, rest)) => r == Success(HelperFailed(kind, errno)) && reader.pending == rest
      case Failure(ShortTail) => r == Failure(StatusIo)
      case Failure(UnknownCode(code)) => r == Failure(InvalidStatusCode(code))
    }
  {
    var code := reader.ReadExact(2);
    if code.None? {
      return Failure(StatusIo);
    }
    var kind := RuntimeKindOf(FromBigEndian(code.value));
    if kind.None? {
      return Failure(InvalidStatusCode(FromBigEndian(code.value)));
    }
    var errno := reader.ReadExact(4);
    if errno.None? {
      return Failure(StatusIo);
    }
    return Success(HelperFailed(kind.value, DecodeErrno(errno.value)));
  }
}
