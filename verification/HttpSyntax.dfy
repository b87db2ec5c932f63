/** Character classes, states and the other tables of the HTTP parser (strict mode). */
module HttpSyntax {
  import opened Basics

  const HT := 9
  const LF := 10
  const CR := 13
  const SP := 32

  const MAX_HEADER_SIZE := 80 * 1024
  const NO_LENGTH := 0xFFFF_FFFF_FFFF_FFFF  // content_length when there is no Content-Length

  function Chr(c: char): int {
    c as int
  }

  /** Character i of a matched word, with the terminating zero of a C string. */
  function At(word: string, i: nat): int {
    if i < |word| then word[i] as int else 0
  }

  function Lower(ch: byte): byte {
    if ch as int / 32 % 2 == 0 then ch as int + 32 else ch
  }

  predicate IsNum(ch: byte) {
    Chr('0') <= ch <= Chr('9')
  }

  predicate IsAlpha(ch: byte) {
    Chr('a') <= Lower(ch) <= Chr('z')
  }

  predicate IsIn(ch: byte, chars: string) {
    exists i :: 0 <= i < |chars| && chars[i] as int == ch
  }

  /** The token table: 0 for a character that cannot be in a header name, else its lower case. */
  function Token(ch: byte): byte {
    if Chr('A') <= ch <= Chr('Z') then ch as int + 32
    else if IsNum(ch) || Chr('a') <= ch <= Chr('z') || IsIn(ch, "!#$%&'*+-.^_`|~") then ch
    else 0
  }

  predicate IsHeaderChar(ch: byte) {
    ch == CR || ch == LF || ch == HT || (ch > 31 && ch != 127)
  }

  predicate IsUrlChar(ch: byte) {
    32 < ch < 127 && ch != Chr('#') && ch != Chr('?')
  }

  predicate IsUserinfoChar(ch: byte) {
    IsAlpha(ch) || IsNum(ch) || IsIn(ch, "-_.!~*'()%;:&=+$,")
  }

  /** The value of a hexadecimal digit, or -1. */
  function Unhex(ch: byte): (v: int)
    ensures -1 <= v < 16
  {
    if IsNum(ch) then ch - Chr('0')
    else if Chr('a') <= ch <= Chr('f') then ch - Chr('a') + 10
    else if Chr('A') <= ch <= Chr('F') then ch - Chr('A') + 10
    else -1
  }

  datatype State =
    | Dead
    | StartReqOrRes
    | ResOrRespH
    | StartRes | ResH | ResHT | ResHTT | ResHTTP
    | ResHttpMajor | ResHttpDot | ResHttpMinor | ResHttpEnd
    | ResFirstStatusCode | ResStatusCode | ResStatusStart | ResStatus | ResLineAlmostDone
    | StartReq | ReqMethod
    | ReqSpacesBeforeUrl | ReqSchema | ReqSchemaSlash | ReqSchemaSlashSlash
    | ReqServerStart | ReqServer | ReqServerWithAt | ReqPath
    | ReqQueryStringStart | ReqQueryString | ReqFragmentStart | ReqFragment
    | ReqHttpStart | ReqHttpH | ReqHttpHT | ReqHttpHTT | ReqHttpHTTP | ReqHttpI | ReqHttpIC
    | ReqHttpMajor | ReqHttpDot | ReqHttpMinor | ReqHttpEnd | ReqLineAlmostDone
    | HeaderFieldStart | HeaderField
    | HeaderValueDiscardWs | HeaderValueDiscardWsAlmostDone | HeaderValueDiscardLws
    | HeaderValueStart | HeaderValue | HeaderValueLws
    | HeaderAlmostDone
    | ChunkSizeStart | ChunkSize | ChunkParameters | ChunkSizeAlmostDone
    | HeadersAlmostDone | HeadersDone
    | ChunkData | ChunkDataAlmostDone | ChunkDataDone
    | BodyIdentity | BodyIdentityEof
    | MessageDone

  /** States up to headers_done: their bytes count towards the header size limit. */
  predicate ParsingHeader(s: State) {
    !(s.ChunkData? || s.ChunkDataAlmostDone? || s.ChunkDataDone? || s.BodyIdentity? || s.BodyIdentityEof?
      || s.MessageDone?)
  }

  datatype HeaderState =
    | General | C | CO | CON
    | MatchingConnection | MatchingProxyConnection | MatchingContentLength | MatchingTransferEncoding
    | MatchingUpgrade
    | Connection | ContentLength | ContentLengthNum | ContentLengthWs | TransferEncoding | Upgrade
    | MatchingTransferEncodingTokenStart | MatchingTransferEncodingChunked | MatchingTransferEncodingToken
    | MatchingConnectionTokenStart | MatchingConnectionKeepAlive | MatchingConnectionClose
    | MatchingConnectionUpgrade | MatchingConnectionToken
    | TransferEncodingChunked | ConnectionKeepAlive | ConnectionClose | ConnectionUpgrade

  datatype ParserType = Request | Response | Both

  datatype Errno =
    | Ok
    | InvalidEofState | HeaderOverflow | ClosedConnection
    | InvalidVersion | InvalidStatus | InvalidMethod | InvalidUrl
    | LfExpected | InvalidHeaderToken | InvalidContentLength | UnexpectedContentLength
    | InvalidChunkSize | InvalidConstant | StrictCheck | InvalidTransferEncoding

  datatype Method =
    | DELETE | GET | HEAD | POST | PUT | CONNECT | OPTIONS | TRACE | COPY | LOCK | MKCOL | MOVE | PROPFIND
    | PROPPATCH | SEARCH | UNLOCK | BIND | REBIND | UNBIND | ACL | REPORT | MKACTIVITY | CHECKOUT | MERGE
    | MSEARCH | NOTIFY | SUBSCRIBE | UNSUBSCRIBE | PATCH | PURGE | MKCALENDAR | LINK | UNLINK | SOURCE

  function MethodName(m: Method): string {
    match m
    case DELETE => "DELETE" case GET => "GET" case HEAD => "HEAD" case POST => "POST" case PUT => "PUT"
    case CONNECT => "CONNECT" case OPTIONS => "OPTIONS" case TRACE => "TRACE" case COPY => "COPY"
    case LOCK => "LOCK" case MKCOL => "MKCOL" case MOVE => "MOVE" case PROPFIND => "PROPFIND"
    case PROPPATCH => "PROPPATCH" case SEARCH => "SEARCH" case UNLOCK => "UNLOCK" case BIND => "BIND"
    case REBIND => "REBIND" case UNBIND => "UNBIND" case ACL => "ACL" case REPORT => "REPORT"
    case MKACTIVITY => "MKACTIVITY" case CHECKOUT => "CHECKOUT" case MERGE => "MERGE"
    case MSEARCH => "M-SEARCH" case NOTIFY => "NOTIFY" case SUBSCRIBE => "SUBSCRIBE"
    case UNSUBSCRIBE => "UNSUBSCRIBE" case PATCH => "PATCH" case PURGE => "PURGE"
    case MKCALENDAR => "MKCALENDAR" case LINK => "LINK" case UNLINK => "UNLINK" case SOURCE => "SOURCE"
  }

  /** The method guessed from its first letter. */
  function FirstMethod(ch: byte): Option<Method> {
    if ch == Chr('A') then Some(ACL) else if ch == Chr('B') then Some(BIND)
    else if ch == Chr('C') then Some(CONNECT) else if ch == Chr('D') then Some(DELETE)
    else if ch == Chr('G') then Some(GET) else if ch == Chr('H') then Some(HEAD)
    else if ch == Chr('L') then Some(LOCK) else if ch == Chr('M') then Some(MKCOL)
    else if ch == Chr('N') then Some(NOTIFY) else if ch == Chr('O') then Some(OPTIONS)
    else if ch == Chr('P') then Some(POST) else if ch == Chr('R') then Some(REPORT)
    else if ch == Chr('S') then Some(SUBSCRIBE) else if ch == Chr('T') then Some(TRACE)
    else if ch == Chr('U') then Some(UNLOCK) else None
  }

  /** The correction of the guess when letter i does not match. */
  function Redirect(m: Method, i: nat, ch: byte): Option<Method> {
    match m
    case POST =>
      if i == 1 && ch == Chr('U') then Some(PUT) else if i == 1 && ch == Chr('A') then Some(PATCH)
      else if i == 1 && ch == Chr('R') then Some(PROPFIND) else None
    case PUT => if i == 2 && ch == Chr('R') then Some(PURGE) else None
    case CONNECT =>
      if i == 1 && ch == Chr('H') then Some(CHECKOUT) else if i == 2 && ch == Chr('P') then Some(COPY) else None
    case MKCOL =>
      if i == 1 && ch == Chr('O') then Some(MOVE) else if i == 1 && ch == Chr('E') then Some(MERGE)
      else if i == 1 && ch == Chr('-') then Some(MSEARCH) else if i == 2 && ch == Chr('A') then Some(MKACTIVITY)
      else if i == 3 && ch == Chr('A') then Some(MKCALENDAR) else None
    case SUBSCRIBE =>
      if i == 1 && ch == Chr('E') then Some(SEARCH) else if i == 1 && ch == Chr('O') then Some(SOURCE) else None
    case REPORT => if i == 2 && ch == Chr('B') then Some(REBIND) else None
    case PROPFIND => if i == 4 && ch == Chr('P') then Some(PROPPATCH) else None
    case LOCK => if i == 1 && ch == Chr('I') then Some(LINK) else None
    case UNLOCK =>
      if i == 2 && ch == Chr('S') then Some(UNSUBSCRIBE) else if i == 2 && ch == Chr('B') then Some(UNBIND)
      else if i == 3 && ch == Chr('I') then Some(UNLINK) else None
    case _ => None
  }

  datatype Flags = Flags(
    chunked: bool, keepAlive: bool, close: bool, connectionUpgrade: bool,
    trailing: bool, upgrade: bool, skipBody: bool, contentLength: bool)

  const NO_FLAGS := Flags(false, false, false, false, false, false, false, false)

  /** The parser struct, except for nread, the header bytes counted so far, which is kept beside it. */
  datatype Parser = Parser(
    kind: ParserType,
    flags: Flags,
    state: State,
    headerState: HeaderState,
    index: nat,
    usesTransferEncoding: bool,
    allowChunkedLength: bool,
    lenient: bool,
    contentLength: nat,
    httpMajor: nat,
    httpMinor: nat,
    statusCode: nat,
    method_: Method,
    errno: Errno,
    upgrade: bool)

  // ----- callbacks -----

  datatype DataKind = Url | Status | Field | Value | Body
  datatype Note = MessageBegin | HeadersComplete | MessageComplete | ChunkHeader | ChunkComplete
  datatype Event = Data(kind: DataKind, bytes: seq<byte>) | Notified(note: Note)

  /** Adds a callback to a log in which adjacent pieces of the same data are joined. */
  function Add(log: seq<Event>, e: Event): seq<Event> {
    if e.Data? && log != [] && log[|log| - 1].Data? && log[|log| - 1].kind == e.kind then
      log[..|log| - 1] + [Data(e.kind, log[|log| - 1].bytes + e.bytes)]
    else log + [e]
  }

  /** A raw log with its adjacent pieces joined. */
  function Joined(events: seq<Event>): seq<Event> {
    if events == [] then [] else Add(Joined(events[..|events| - 1]), events[|events| - 1])
  }

  predicate EndsWith(log: seq<Event>, kind: DataKind) {
    log != [] && log[|log| - 1].Data? && log[|log| - 1].kind == kind
  }

  lemma {:induction false} JoinedSnoc(events: seq<Event>, e: Event)
    ensures Joined(events + [e]) == Add(Joined(events), e)
  {
    assert (events + [e])[..|events|] == events;
  }

  lemma {:induction false} AddTwice(log: seq<Event>, kind: DataKind, a: seq<byte>, b: seq<byte>)
    ensures Add(Add(log, Data(kind, a)), Data(kind, b)) == Add(log, Data(kind, a + b))
  {
    if EndsWith(log, kind) {
      assert log[|log| - 1].bytes + a + b == log[|log| - 1].bytes + (a + b);
    }
  }
}
