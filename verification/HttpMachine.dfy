/**
 The HTTP parser as a one-byte machine: what each state of the switch does with one character, and
 what one whole byte does to the parser and to the log of callbacks.  The callbacks return 0.
 */
module HttpMachine {
  import opened Basics
  import opened HttpSyntax

  // ----- one pass of the switch -----

  /** Mark and callback actions, performed in order at the current position. */
  datatype Action = Mark(kind: DataKind) | Flush(kind: DataKind) | FlushThrough(kind: DataKind) | Notify(note: Note)

  /** Consume the byte, run the switch again on it, stop with an error, or leave for another protocol. */
  datatype Next = Advance | Again | Stop(errno: Errno) | Exit

  /** No pass takes more than two actions. */
  datatype Actions = Nothing | Do(first: Action) | DoBoth(first: Action, second: Action)

  /** The parser after the pass, except that its state and error number are given separately. */
  datatype Effect = Effect(parser: Parser, state: State, actions: Actions, next: Next)

  function Stay(p: Parser): Effect {
    Effect(p, p.state, Nothing, Advance)
  }

  function To(p: Parser, s: State): Effect {
    Effect(p, s, Nothing, Advance)
  }

  function Reexecute(p: Parser, s: State): Effect {
    Effect(p, s, Nothing, Again)
  }

  function Fail(p: Parser, e: Errno): Effect {
    Effect(p, p.state, Nothing, Stop(e))
  }

  function ExpectChar(p: Parser, ch: byte, c: char, e: Errno, s: State): Effect {
    if ch == Chr(c) then To(p, s) else Fail(p, e)
  }

  function NewStartLine(p: Parser): Parser {
    p.(flags := NO_FLAGS, usesTransferEncoding := false, contentLength := NO_LENGTH)
  }

  function NeedsEof(p: Parser): bool {
    if p.kind == Request then false
    else if p.statusCode / 100 == 1 || p.statusCode == 204 || p.statusCode == 304 || p.flags.skipBody then false
    else if p.usesTransferEncoding && !p.flags.chunked then true
    else if p.flags.chunked || p.contentLength != NO_LENGTH then false
    else true
  }

  function ShouldKeepAlive(p: Parser): bool {
    if p.httpMajor > 0 && p.httpMinor > 0 then !p.flags.close && !NeedsEof(p)
    else p.flags.keepAlive && !NeedsEof(p)
  }

  function NewMessage(p: Parser): State {
    if !ShouldKeepAlive(p) then Dead else if p.kind == Request then StartReq else StartRes
  }

  function SwitchResponse(p: Parser, ch: byte): Effect {
    match p.state
    case StartRes =>
      if ch == CR || ch == LF then Stay(p)
      else if ch == Chr('H') then Effect(NewStartLine(p), ResH, Do(Notify(MessageBegin)), Advance)
      else Fail(NewStartLine(p), InvalidConstant)
    case ResH => ExpectChar(p, ch, 'T', StrictCheck, ResHT)
    case ResHT => ExpectChar(p, ch, 'T', StrictCheck, ResHTT)
    case ResHTT => ExpectChar(p, ch, 'P', StrictCheck, ResHTTP)
    case ResHTTP => ExpectChar(p, ch, '/', StrictCheck, ResHttpMajor)
    case ResHttpMajor =>
      if IsNum(ch) then To(p.(httpMajor := ch - Chr('0')), ResHttpDot) else Fail(p, InvalidVersion)
    case ResHttpDot => ExpectChar(p, ch, '.', InvalidVersion, ResHttpMinor)
    case ResHttpMinor =>
      if IsNum(ch) then To(p.(httpMinor := ch - Chr('0')), ResHttpEnd) else Fail(p, InvalidVersion)
    case _ => ExpectChar(p, ch, ' ', InvalidVersion, ResFirstStatusCode)
  }

  function SwitchStatus(p: Parser, ch: byte): Effect {
    match p.state
    case ResFirstStatusCode =>
      if IsNum(ch) then To(p.(statusCode := ch - Chr('0')), ResStatusCode)
      else if ch == SP then Stay(p)
      else Fail(p, InvalidStatus)
    case ResStatusCode =>
      if IsNum(ch) then
        var code := p.statusCode * 10 + (ch - Chr('0'));
        if code > 999 then Fail(p.(statusCode := code), InvalidStatus) else Stay(p.(statusCode := code))
      else if ch == SP then To(p, ResStatusStart)
      else if ch == CR || ch == LF then Reexecute(p, ResStatusStart)
      else Fail(p, InvalidStatus)
    case ResStatusStart =>
      Effect(p.(index := 0), ResStatus, Do(Mark(Status)), if ch == CR || ch == LF then Again else Advance)
    case ResStatus =>
      if ch == CR then Effect(p, ResLineAlmostDone, Do(Flush(Status)), Advance)
      else if ch == LF then Effect(p, HeaderFieldStart, Do(Flush(Status)), Advance)
      else Stay(p)
    case _ => if ch == LF then To(p, HeaderFieldStart) else Fail(p, StrictCheck)
  }

  function SwitchRequest(p: Parser, ch: byte): Effect {
    match p.state
    case StartReq =>
      if ch == CR || ch == LF then Stay(p)
      else
        var q := NewStartLine(p);
        if !IsAlpha(ch) then Fail(q, InvalidMethod)
        else
          var guess := FirstMethod(ch);
          if guess.None? then Fail(q.(method_ := DELETE, index := 1), InvalidMethod)
          else Effect(q.(method_ := guess.value, index := 1), ReqMethod, Do(Notify(MessageBegin)), Advance)
    case _ =>
      if ch == 0 then Fail(p, InvalidMethod)
      else
        var expected := At(MethodName(p.method_), p.index);
        var next := (p.index + 1) % 32;
        if ch == SP && expected == 0 then To(p.(index := next), ReqSpacesBeforeUrl)
        else if ch == expected then Stay(p.(index := next))
        else if Chr('A') <= ch <= Chr('Z') || ch == Chr('-') then
          var better := Redirect(p.method_, p.index, ch);
          if better.None? then Fail(p, InvalidMethod) else Stay(p.(method_ := better.value, index := next))
        else Fail(p, InvalidMethod)
  }

  /** The URL state machine; Dead means an error. */
  function ParseUrlChar(s: State, ch: byte): (r: State)
    ensures r.Dead? || InUrl(r)
  {
    if ch == SP || ch == CR || ch == LF || ch == HT || ch == 12 then Dead
    else
      match s
      case ReqSpacesBeforeUrl =>
        if ch == Chr('/') || ch == Chr('*') then ReqPath else if IsAlpha(ch) then ReqSchema else Dead
      case ReqSchema => if IsAlpha(ch) then ReqSchema else if ch == Chr(':') then ReqSchemaSlash else Dead
      case ReqSchemaSlash => if ch == Chr('/') then ReqSchemaSlashSlash else Dead
      case ReqSchemaSlashSlash => if ch == Chr('/') then ReqServerStart else Dead
      case ReqServerWithAt => if ch == Chr('@') then Dead else ServerChar(ch)
      case ReqServerStart => ServerChar(ch)
      case ReqServer => ServerChar(ch)
      case ReqPath =>
        if IsUrlChar(ch) then ReqPath
        else if ch == Chr('?') then ReqQueryStringStart else if ch == Chr('#') then ReqFragmentStart else Dead
      case ReqQueryStringStart => QueryChar(ch)
      case ReqQueryString => QueryChar(ch)
      case ReqFragmentStart =>
        if IsUrlChar(ch) || ch == Chr('?') then ReqFragment else if ch == Chr('#') then ReqFragmentStart else Dead
      case ReqFragment => if IsUrlChar(ch) || ch == Chr('?') || ch == Chr('#') then ReqFragment else Dead
      case _ => Dead
  }

  function ServerChar(ch: byte): State {
    if ch == Chr('/') then ReqPath
    else if ch == Chr('?') then ReqQueryStringStart
    else if ch == Chr('@') then ReqServerWithAt
    else if IsUserinfoChar(ch) || ch == Chr('[') || ch == Chr(']') then ReqServer
    else Dead
  }

  function QueryChar(ch: byte): State {
    if IsUrlChar(ch) || ch == Chr('?') then ReqQueryString
    else if ch == Chr('#') then ReqFragmentStart
    else Dead
  }

  /** States in which a URL is being collected. */
  predicate InUrl(s: State) {
    s.ReqPath? || s.ReqSchema? || s.ReqSchemaSlash? || s.ReqSchemaSlashSlash? || s.ReqServerStart? || s.ReqServer?
    || s.ReqServerWithAt? || s.ReqQueryStringStart? || s.ReqQueryString? || s.ReqFragmentStart? || s.ReqFragment?
  }

  function UrlChar(p: Parser, s: State, ch: byte, actions: Actions): Effect {
    var next := ParseUrlChar(s, ch);
    if next.Dead? then Fail(p, InvalidUrl) else Effect(p, next, actions, Advance)
  }

  function SwitchUrl(p: Parser, ch: byte): Effect {
    match p.state
    case ReqSpacesBeforeUrl =>
      if ch == SP then Stay(p)
      else UrlChar(p, if p.method_ == CONNECT then ReqServerStart else p.state, ch, Do(Mark(Url)))
    case ReqSchema => SchemaChar(p, ch)
    case ReqSchemaSlash => SchemaChar(p, ch)
    case ReqSchemaSlashSlash => SchemaChar(p, ch)
    case ReqServerStart => SchemaChar(p, ch)
    case _ =>
      if ch == SP then Effect(p, ReqHttpStart, Do(Flush(Url)), Advance)
      else if ch == CR || ch == LF then
        var next := if ch == CR then ReqLineAlmostDone else HeaderFieldStart;
        Effect(p.(httpMajor := 0, httpMinor := 9), next, Do(Flush(Url)), Advance)
      else UrlChar(p, p.state, ch, Nothing)
  }

  function SchemaChar(p: Parser, ch: byte): Effect {
    if ch == SP || ch == CR || ch == LF then Fail(p, InvalidUrl) else UrlChar(p, p.state, ch, Nothing)
  }

  function SwitchVersion(p: Parser, ch: byte): Effect {
    match p.state
    case ReqHttpStart =>
      if ch == SP then Stay(p)
      else if ch == Chr('H') then To(p, ReqHttpH)
      else if ch == Chr('I') && p.method_ == SOURCE then To(p, ReqHttpI)
      else Fail(p, InvalidConstant)
    case ReqHttpH => ExpectChar(p, ch, 'T', StrictCheck, ReqHttpHT)
    case ReqHttpHT => ExpectChar(p, ch, 'T', StrictCheck, ReqHttpHTT)
    case ReqHttpHTT => ExpectChar(p, ch, 'P', StrictCheck, ReqHttpHTTP)
    case ReqHttpI => ExpectChar(p, ch, 'C', StrictCheck, ReqHttpIC)
    case ReqHttpIC => ExpectChar(p, ch, 'E', StrictCheck, ReqHttpHTTP)
    case ReqHttpHTTP => ExpectChar(p, ch, '/', StrictCheck, ReqHttpMajor)
    case ReqHttpMajor =>
      if IsNum(ch) then To(p.(httpMajor := ch - Chr('0')), ReqHttpDot) else Fail(p, InvalidVersion)
    case ReqHttpDot => ExpectChar(p, ch, '.', InvalidVersion, ReqHttpMinor)
    case ReqHttpMinor =>
      if IsNum(ch) then To(p.(httpMinor := ch - Chr('0')), ReqHttpEnd) else Fail(p, InvalidVersion)
    case ReqHttpEnd =>
      if ch == CR then To(p, ReqLineAlmostDone)
      else if ch == LF then To(p, HeaderFieldStart)
      else Fail(p, InvalidVersion)
    case _ => if ch == LF then To(p, HeaderFieldStart) else Fail(p, LfExpected)
  }

  // ----- headers -----

  function FieldStart(p: Parser, c: byte): Parser {
    p.(index := 0, headerState :=
       if c == Chr('c') then HeaderState.C
       else if c == Chr('p') then MatchingProxyConnection
       else if c == Chr('t') then MatchingTransferEncoding
       else if c == Chr('u') then MatchingUpgrade
       else General)
  }

  /** Matches one more character of a known word. */
  function Match(p: Parser, c: byte, word: string, during: HeaderState, found: HeaderState, lost: HeaderState): Parser {
    var i := (p.index + 1) % 32;
    p.(index := i, headerState :=
       if i > |word| || c != At(word, i) then lost else if i == |word| - 1 then found else during)
  }

  /** One token character of a header name. */
  function FieldChar(p: Parser, c: byte): Parser {
    match p.headerState
    case C => p.(index := (p.index + 1) % 32, headerState := if c == Chr('o') then CO else General)
    case CO => p.(index := (p.index + 1) % 32, headerState := if c == Chr('n') then CON else General)
    case CON =>
      p.(index := (p.index + 1) % 32, headerState :=
         if c == Chr('n') then MatchingConnection else if c == Chr('t') then MatchingContentLength else General)
    case MatchingConnection => Match(p, c, "connection", MatchingConnection, Connection, General)
    case MatchingProxyConnection => Match(p, c, "proxy-connection", MatchingProxyConnection, Connection, General)
    case MatchingContentLength => Match(p, c, "content-length", MatchingContentLength, ContentLength, General)
    case MatchingTransferEncoding =>
      var q := Match(p, c, "transfer-encoding", MatchingTransferEncoding, TransferEncoding, General);
      if q.headerState == TransferEncoding then q.(usesTransferEncoding := true) else q
    case MatchingUpgrade => Match(p, c, "upgrade", MatchingUpgrade, Upgrade, General)
    case Connection => p.(headerState := General)
    case ContentLength => p.(headerState := General)
    case TransferEncoding => p.(headerState := General)
    case Upgrade => p.(headerState := General)
    case _ => p
  }

  function SwitchField(p: Parser, ch: byte): Effect {
    match p.state
    case HeaderFieldStart =>
      if ch == CR then To(p, HeadersAlmostDone)
      else if ch == LF then Reexecute(p, HeadersAlmostDone)
      else if Token(ch) == 0 then Fail(p, InvalidHeaderToken)
      else Effect(FieldStart(p, Token(ch)), HeaderField, Do(Mark(Field)), Advance)
    case _ =>
      if Token(ch) != 0 then Stay(FieldChar(p, Token(ch)))
      else if ch == Chr(':') then Effect(p, HeaderValueDiscardWs, Do(Flush(Field)), Advance)
      else Fail(p, InvalidHeaderToken)
  }

  /** The first character of a header value, or of a folded line. */
  function ValueStart(p: Parser, ch: byte): Effect {
    var q := p.(index := 0);
    var c := Lower(ch);
    match p.headerState
    case Upgrade => Effect(q.(flags := p.flags.(upgrade := true), headerState := General), HeaderValue, Do(Mark(Value)), Advance)
    case TransferEncoding =>
      var h := if c == Chr('c') then MatchingTransferEncodingChunked else MatchingTransferEncodingToken;
      Effect(q.(headerState := h), HeaderValue, Do(Mark(Value)), Advance)
    case MatchingTransferEncodingTokenStart => Effect(q, HeaderValue, Do(Mark(Value)), Advance)
    case ContentLength =>
      if !IsNum(ch) then Effect(q, HeaderValue, Nothing, Stop(InvalidContentLength))
      else if p.flags.contentLength then Effect(q, HeaderValue, Nothing, Stop(UnexpectedContentLength))
      else
        Effect(q.(flags := p.flags.(contentLength := true), contentLength := ch - Chr('0'),
                  headerState := ContentLengthNum), HeaderValue, Do(Mark(Value)), Advance)
    case ContentLengthWs => Effect(q, HeaderValue, Do(Mark(Value)), Advance)
    case Connection =>
      var h :=
        if c == Chr('k') then MatchingConnectionKeepAlive
        else if c == Chr('c') then MatchingConnectionClose
        else if c == Chr('u') then MatchingConnectionUpgrade
        else MatchingConnectionToken;
      Effect(q.(headerState := h), HeaderValue, Do(Mark(Value)), Advance)
    case MatchingConnectionTokenStart => Effect(q, HeaderValue, Do(Mark(Value)), Advance)
    case _ => Effect(q.(headerState := General), HeaderValue, Do(Mark(Value)), Advance)
  }

  /** The flag that a finished list element sets. */
  function SetConnectionFlag(f: Flags, h: HeaderState): Flags {
    match h
    case ConnectionKeepAlive => f.(keepAlive := true)
    case ConnectionClose => f.(close := true)
    case ConnectionUpgrade => f.(connectionUpgrade := true)
    case _ => f
  }

  function SetHeaderFlag(f: Flags, h: HeaderState): Flags {
    if h == TransferEncodingChunked then f.(chunked := true) else SetConnectionFlag(f, h)
  }

  function LengthDigit(p: Parser, ch: byte): Parser {
    var q := p.(headerState := ContentLengthNum);
    if ch == SP then q.(headerState := ContentLengthWs)
    else if !IsNum(ch) || (NO_LENGTH - 10) / 10 < p.contentLength then q.(errno := InvalidContentLength)
    else q.(contentLength := p.contentLength * 10 + (ch - Chr('0')))
  }

  function ListElement(p: Parser, ch: byte): Parser {
    if ch == Chr(',') then
      p.(flags := SetConnectionFlag(p.flags, p.headerState), headerState := MatchingConnectionTokenStart, index := 0)
    else if ch != SP then p.(headerState := MatchingConnectionToken)
    else p
  }

  /** One character inside a header value, other than CR and LF. */
  function ValueChar(p: Parser, ch: byte): Parser {
    var c := Lower(ch);
    if !p.lenient && !IsHeaderChar(ch) then p.(errno := InvalidHeaderToken)
    else
      match p.headerState
      case General => p
      case ContentLength => if ch == SP then p else LengthDigit(p, ch)
      case ContentLengthNum => LengthDigit(p, ch)
      case ContentLengthWs => if ch == SP then p else p.(errno := InvalidContentLength)
      case MatchingTransferEncodingTokenStart =>
        p.(headerState :=
           if c == Chr('c') then MatchingTransferEncodingChunked
           else if Token(c) != 0 then MatchingTransferEncodingToken
           else if c == SP || c == HT then p.headerState
           else General)
      case MatchingTransferEncodingChunked =>
        Match(p, c, "chunked", MatchingTransferEncodingChunked, TransferEncodingChunked, MatchingTransferEncodingToken)
      case MatchingTransferEncodingToken =>
        if ch == Chr(',') then p.(headerState := MatchingTransferEncodingTokenStart, index := 0) else p
      case MatchingConnectionTokenStart =>
        p.(headerState :=
           if c == Chr('k') then MatchingConnectionKeepAlive
           else if c == Chr('c') then MatchingConnectionClose
           else if c == Chr('u') then MatchingConnectionUpgrade
           else if Token(c) != 0 then MatchingConnectionToken
           else if c == SP || c == HT then p.headerState
           else General)
      case MatchingConnectionKeepAlive =>
        Match(p, c, "keep-alive", MatchingConnectionKeepAlive, ConnectionKeepAlive, MatchingConnectionToken)
      case MatchingConnectionClose =>
        Match(p, c, "close", MatchingConnectionClose, ConnectionClose, MatchingConnectionToken)
      case MatchingConnectionUpgrade =>
        Match(p, c, "upgrade", MatchingConnectionUpgrade, ConnectionUpgrade, MatchingConnectionToken)
      case MatchingConnectionToken =>
        if ch == Chr(',') then p.(headerState := MatchingConnectionTokenStart, index := 0) else p
      case TransferEncodingChunked => if ch != SP then p.(headerState := MatchingTransferEncodingToken) else p
      case ConnectionKeepAlive => ListElement(p, ch)
      case ConnectionClose => ListElement(p, ch)
      case ConnectionUpgrade => ListElement(p, ch)
      case _ => p.(headerState := General)
  }

  function SwitchValue(p: Parser, ch: byte): Effect {
    match p.state
    case HeaderValueDiscardWs =>
      if ch == SP || ch == HT then Stay(p)
      else if ch == CR then To(p, HeaderValueDiscardWsAlmostDone)
      else if ch == LF then To(p, HeaderValueDiscardLws)
      else ValueStart(p, ch)
    case HeaderValueStart => ValueStart(p, ch)
    case HeaderValue =>
      if ch == CR then Effect(p, HeaderAlmostDone, Do(Flush(Value)), Advance)
      else if ch == LF then Effect(p, HeaderAlmostDone, Do(Flush(Value)), Again)
      else
        var q := ValueChar(p, ch);
        if q.errno != Ok then Fail(q, q.errno) else Stay(q)
    case _ => if ch == LF then To(p, HeaderValueLws) else Fail(p, LfExpected)
  }

  /** What follows a header line: a folded line or the next header. */
  function SwitchFold(p: Parser, ch: byte): Effect {
    match p.state
    case HeaderValueLws =>
      if ch == SP || ch == HT then
        Reexecute(if p.headerState == ContentLengthNum then p.(headerState := ContentLengthWs) else p, HeaderValueStart)
      else Reexecute(p.(flags := SetHeaderFlag(p.flags, p.headerState)), HeaderFieldStart)
    case HeaderValueDiscardWsAlmostDone =>
      if ch == LF then To(p, HeaderValueDiscardLws) else Fail(p, StrictCheck)
    case _ =>
      if ch == SP || ch == HT then To(p, HeaderValueDiscardWs)
      else if p.headerState == ContentLength then Fail(p, InvalidContentLength)
      else
        Effect(p.(flags := SetHeaderFlag(p.flags, p.headerState)), HeaderFieldStart,
               DoBoth(Mark(Value), Flush(Value)), Again)
  }

  // ----- end of headers -----

  /** Whether Content-Length beside Transfer-Encoding is an error. */
  predicate LengthConflict(p: Parser) {
    p.usesTransferEncoding && p.flags.contentLength
    && if p.flags.chunked then !p.allowChunkedLength else !p.lenient
  }

  function HeadersEnd(p: Parser, ch: byte): Effect {
    if ch != LF then Fail(p, StrictCheck)
    else if p.flags.trailing then Effect(p, MessageDone, Do(Notify(ChunkComplete)), Again)
    else if LengthConflict(p) then Fail(p, UnexpectedContentLength)
    else
      var up :=
        if p.flags.upgrade && p.flags.connectionUpgrade then p.kind == Request || p.statusCode == 101
        else p.method_ == CONNECT;
      Effect(p.(upgrade := up), HeadersDone, Do(Notify(HeadersComplete)), Again)
  }

  function Complete(p: Parser, next: Next): Effect {
    Effect(p, NewMessage(p), Do(Notify(MessageComplete)), next)
  }

  function BodyStart(p: Parser, ch: byte): Effect {
    if ch != LF then Fail(p, StrictCheck)
    else
      var hasBody := p.flags.chunked || (p.contentLength > 0 && p.contentLength != NO_LENGTH);
      if p.upgrade && (p.method_ == CONNECT || p.flags.skipBody || !hasBody) then Complete(p, Exit)
      else if p.flags.skipBody then Complete(p, Advance)
      else if p.flags.chunked then To(p, ChunkSizeStart)
      else if p.usesTransferEncoding then
        if p.kind == Request && !p.lenient then Fail(p, InvalidTransferEncoding) else To(p, BodyIdentityEof)
      else if p.contentLength == 0 then Complete(p, Advance)
      else if p.contentLength != NO_LENGTH then To(p, BodyIdentity)
      else if !NeedsEof(p) then Complete(p, Advance)
      else To(p, BodyIdentityEof)
  }

  // ----- bodies -----

  function SizeDigit(p: Parser, ch: byte): Effect {
    if ch == CR then To(p, ChunkSizeAlmostDone)
    else if Unhex(ch) == -1 then
      if ch == Chr(';') || ch == SP then To(p, ChunkParameters) else Fail(p, InvalidChunkSize)
    else if (NO_LENGTH - 16) / 16 < p.contentLength then Fail(p, InvalidContentLength)
    else Stay(p.(contentLength := p.contentLength * 16 + Unhex(ch)))
  }

  /** A body byte counts against a remaining length, which is neither 0 nor the sentinel. */
  function Consume(p: Parser): Parser {
    p.(contentLength := if p.contentLength > 0 then p.contentLength - 1 else 0)
  }

  function SwitchBody(p: Parser, ch: byte): Effect {
    match p.state
    case BodyIdentity =>
      var q := Consume(p);
      if q.contentLength == 0 then Effect(q, MessageDone, DoBoth(Mark(Body), FlushThrough(Body)), Again)
      else Effect(q, BodyIdentity, Do(Mark(Body)), Advance)
    case BodyIdentityEof => Effect(p, BodyIdentityEof, Do(Mark(Body)), Advance)
    case MessageDone => Complete(p, if p.upgrade then Exit else Advance)
    case ChunkData =>
      var q := Consume(p);
      Effect(q, if q.contentLength == 0 then ChunkDataAlmostDone else ChunkData, Do(Mark(Body)), Advance)
    case _ =>
      if ch != CR then Fail(p, StrictCheck) else Effect(p, ChunkDataDone, Do(Flush(Body)), Advance)
  }

  function SwitchChunk(p: Parser, ch: byte): Effect {
    match p.state
    case ChunkSizeStart =>
      if Unhex(ch) == -1 then Fail(p, InvalidChunkSize) else To(p.(contentLength := Unhex(ch)), ChunkSize)
    case ChunkSize => SizeDigit(p, ch)
    case ChunkParameters => if ch == CR then To(p, ChunkSizeAlmostDone) else Stay(p)
    case ChunkSizeAlmostDone =>
      if ch != LF then Fail(p, StrictCheck)
      else if p.contentLength == 0 then
          Effect(p.(flags := p.flags.(trailing := true)), HeaderFieldStart, Do(Notify(ChunkHeader)), Advance)
        else Effect(p, ChunkData, Do(Notify(ChunkHeader)), Advance)
    case _ =>
      if ch != LF then Fail(p, StrictCheck)
      else Effect(p, ChunkSizeStart, Do(Notify(ChunkComplete)), Advance)
  }

  // ----- the whole switch -----

  function SwitchIdle(p: Parser, ch: byte): Effect {
    match p.state
    case Dead => if ch == CR || ch == LF then Stay(p) else Fail(p, ClosedConnection)
    case StartReqOrRes =>
      if ch == CR || ch == LF then Stay(p)
      else if ch == Chr('H') then Effect(NewStartLine(p), ResOrRespH, Do(Notify(MessageBegin)), Advance)
      else Reexecute(NewStartLine(p).(kind := Request), StartReq)
    case _ =>
      if ch == Chr('T') then To(p.(kind := Response), ResHT)
      else if ch != Chr('E') then Fail(p, InvalidConstant)
      else To(p.(kind := Request, method_ := HEAD, index := 2), ReqMethod)
  }

  function Switch(p: Parser, ch: byte): Effect {
    if p.state.HeadersAlmostDone? then HeadersEnd(p, ch)
    else if p.state.HeadersDone? then BodyStart(p, ch)
    else if InIdle(p.state) then SwitchIdle(p, ch)
    else if InResponseLine(p.state) then SwitchResponse(p, ch)
    else if InStatus(p.state) then SwitchStatus(p, ch)
    else if p.state.StartReq? || p.state.ReqMethod? then SwitchRequest(p, ch)
    else if p.state.ReqSpacesBeforeUrl? || InUrl(p.state) then SwitchUrl(p, ch)
    else if InVersion(p.state) then SwitchVersion(p, ch)
    else if p.state.HeaderFieldStart? || p.state.HeaderField? then SwitchField(p, ch)
    else if InValue(p.state) then SwitchValue(p, ch)
    else if InFold(p.state) then SwitchFold(p, ch)
    else if InChunkFrame(p.state) then SwitchChunk(p, ch)
    else SwitchBody(p, ch)
  }

  predicate InIdle(s: State) {
    s.Dead? || s.StartReqOrRes? || s.ResOrRespH?
  }

  predicate InResponseLine(s: State) {
    s.StartRes? || s.ResH? || s.ResHT? || s.ResHTT? || s.ResHTTP? || s.ResHttpMajor? || s.ResHttpDot?
    || s.ResHttpMinor? || s.ResHttpEnd?
  }

  predicate InStatus(s: State) {
    s.ResFirstStatusCode? || s.ResStatusCode? || s.ResStatusStart? || s.ResStatus? || s.ResLineAlmostDone?
  }

  predicate InVersion(s: State) {
    s.ReqHttpStart? || s.ReqHttpH? || s.ReqHttpHT? || s.ReqHttpHTT? || s.ReqHttpHTTP? || s.ReqHttpI? || s.ReqHttpIC?
    || s.ReqHttpMajor? || s.ReqHttpDot? || s.ReqHttpMinor? || s.ReqHttpEnd? || s.ReqLineAlmostDone?
  }

  predicate InValue(s: State) {
    s.HeaderValueDiscardWs? || s.HeaderValueStart? || s.HeaderValue? || s.HeaderAlmostDone?
  }

  predicate InFold(s: State) {
    s.HeaderValueLws? || s.HeaderValueDiscardWsAlmostDone? || s.HeaderValueDiscardLws?
  }

  predicate InChunkFrame(s: State) {
    s.ChunkSizeStart? || s.ChunkSize? || s.ChunkParameters? || s.ChunkSizeAlmostDone? || s.ChunkDataDone?
  }

  // ----- one byte -----

  /** How far a switch can still be run again on the same byte. */
  function Rank(s: State): nat {
    match s
    case StartReqOrRes => 9
    case StartReq => 8
    case ResStatusCode => 9
    case ResStatusStart => 8
    case ResStatus => 7
    case HeaderValue => 10
    case HeaderAlmostDone => 9
    case HeaderValueLws => 8
    case HeaderValueDiscardLws => 8
    case HeaderValueStart => 7
    case HeaderFieldStart => 7
    case HeadersAlmostDone => 6
    case HeadersDone => 5
    case BodyIdentity => 5
    case MessageDone => 4
    case _ => 0
  }

  predicate Descends(p: Parser, e: Effect) {
    e.next == Again ==> Rank(e.state) < Rank(p.state) && !Bulk(e.state) && !BodyState(e.state)
  }

  lemma {:induction false} IdleDescends(p: Parser, ch: byte)
    requires InIdle(p.state)
    ensures Descends(p, SwitchIdle(p, ch))
  {
    hide NewStartLine;
  }

  lemma {:induction false} ResponseDescends(p: Parser, ch: byte)
    requires InResponseLine(p.state)
    ensures Descends(p, SwitchResponse(p, ch))
  {
    hide NewStartLine, IsNum;
  }

  lemma {:induction false} StatusDescends(p: Parser, ch: byte)
    requires InStatus(p.state)
    ensures Descends(p, SwitchStatus(p, ch))
  {
    hide IsNum;
  }

  lemma {:induction false} RequestDescends(p: Parser, ch: byte)
    ensures Descends(p, SwitchRequest(p, ch))
  {
    hide NewStartLine, Redirect, FirstMethod, MethodName, IsAlpha, At;
  }

  lemma {:induction false} UrlDescends(p: Parser, ch: byte)
    ensures Descends(p, SwitchUrl(p, ch)) && Descends(p, SwitchVersion(p, ch))
  {
    hide ParseUrlChar, IsNum;
  }

  lemma {:induction false} FieldDescends(p: Parser, ch: byte)
    requires p.state.HeaderFieldStart? || p.state.HeaderField?
    ensures Descends(p, SwitchField(p, ch))
  {
    hide Token, FieldStart, FieldChar;
  }

  lemma {:induction false} ValueStartAdvances(p: Parser, ch: byte)
    ensures ValueStart(p, ch).next != Again
  {
    hide Lower, IsNum;
  }

  lemma {:induction false} ValueDescends(p: Parser, ch: byte)
    requires InValue(p.state)
    ensures Descends(p, SwitchValue(p, ch))
  {
    hide ValueStart, ValueChar, SetHeaderFlag;
    ValueStartAdvances(p, ch);
  }

  lemma {:induction false} FoldDescends(p: Parser, ch: byte)
    requires InFold(p.state)
    ensures Descends(p, SwitchFold(p, ch))
  {
    hide SetHeaderFlag;
  }

  lemma {:induction false} EndDescends(p: Parser, ch: byte)
    ensures p.state.HeadersAlmostDone? ==> Descends(p, HeadersEnd(p, ch))
    ensures Descends(p, BodyStart(p, ch))
  {
    hide LengthConflict, NewMessage, NeedsEof;
  }

  lemma {:induction false} BodyDescends(p: Parser, ch: byte)
    ensures Descends(p, SwitchBody(p, ch))
  {
    hide Consume, NewMessage;
  }

  lemma {:induction false} ChunkDescends(p: Parser, ch: byte)
    ensures Descends(p, SwitchChunk(p, ch))
  {
    hide SizeDigit, Unhex;
    SizeDigitAdvances(p, ch);
  }

  lemma {:induction false} SizeDigitAdvances(p: Parser, ch: byte)
    ensures SizeDigit(p, ch).next != Again
  {
  }

  lemma {:induction false} AgainDescends(p: Parser, ch: byte)
    ensures Descends(p, Switch(p, ch))
  {
    hide SwitchResponse, SwitchStatus, SwitchRequest, SwitchUrl, SwitchVersion, SwitchField, SwitchValue, HeadersEnd, BodyStart,
         SwitchBody, SwitchIdle, SwitchFold, SwitchChunk, Descends;
    if InIdle(p.state) {
      IdleDescends(p, ch);
    }
    RequestDescends(p, ch);
    UrlDescends(p, ch);
    EndDescends(p, ch);
    BodyDescends(p, ch);
    ChunkDescends(p, ch);
    if InFold(p.state) {
      FoldDescends(p, ch);
    }
    if InResponseLine(p.state) {
      ResponseDescends(p, ch);
    } else if InStatus(p.state) {
      StatusDescends(p, ch);
    } else if InValue(p.state) {
      ValueDescends(p, ch);
    } else if p.state.HeaderFieldStart? || p.state.HeaderField? {
      FieldDescends(p, ch);
    }
  }

  /** States whose data is scanned in bulk. */
  predicate Bulk(s: State) {
    s.HeaderField? || s.HeaderValue? || s.BodyIdentity? || s.BodyIdentityEof? || s.ChunkData?
  }

  /** States of body data. */
  predicate BodyState(s: State) {
    s.ChunkData? || s.ChunkDataAlmostDone? || s.BodyIdentity? || s.BodyIdentityEof?
  }

  /** The data that is being collected when a call starts in this state. */
  function Collecting(s: State): Option<DataKind> {
    match s
    case HeaderField => Some(Field)
    case HeaderValue => Some(Value)
    case ResStatus => Some(Status)
    case ReqSchema => Some(Url)
    case ReqSchemaSlash => Some(Url)
    case ReqSchemaSlashSlash => Some(Url)
    case ReqServerStart => Some(Url)
    case ReqServer => Some(Url)
    case ReqServerWithAt => Some(Url)
    case ReqPath => Some(Url)
    case ReqQueryStringStart => Some(Url)
    case ReqQueryString => Some(Url)
    case ReqFragmentStart => Some(Url)
    case ReqFragment => Some(Url)
    case _ => None
  }

  /** The count of header bytes starts again after the headers, a chunk size line and a chunk. */
  function NreadAfter(s: State, next: Next, nread: nat): nat {
    if (s.HeadersDone? || s.ChunkSizeAlmostDone? || s.ChunkDataDone?) && next != Stop(StrictCheck) then 0 else nread
  }

  /** A parser, its count of header bytes, its joined log, and whether it has left for another protocol. */
  datatype Conn = Conn(parser: Parser, nread: nat, log: seq<Event>, exited: bool) {
    predicate Live() {
      parser.errno == Ok && !exited
    }
  }

  /** The middle of a byte: the log so far and the data being collected, if any. */
  datatype Middle = Middle(parser: Parser, nread: nat, log: seq<Event>, mark: Option<DataKind>)

  function Act(m: Middle, a: Action, ch: byte): Middle {
    match a
    case Mark(k) => if m.mark.None? then m.(mark := Some(k)) else m
    case Flush(k) => if m.mark == Some(k) then m.(log := Add(m.log, Data(k, [])), mark := None) else m
    case FlushThrough(k) => if m.mark == Some(k) then m.(log := Add(m.log, Data(k, [ch])), mark := None) else m
    case Notify(n) => m.(log := Add(m.log, Notified(n)))
  }

  function ActAll(m: Middle, actions: Actions, ch: byte): Middle {
    match actions
    case Nothing => m
    case Do(a) => Act(m, a, ch)
    case DoBoth(a, b) => Act(Act(m, a, ch), b, ch)
  }

  /** The rest of the byte: the switch, again and again, then what is still being collected. */
  function Finish(m: Middle, ch: byte): Conn
    decreases Rank(m.parser.state)
  {
    var e := Switch(m.parser, ch);
    var p, n := e.parser.(state := e.state), NreadAfter(m.parser.state, e.next, m.nread);
    var m' := ActAll(m, e.actions, ch).(parser := p, nread := n);
    match e.next
    case Advance => Conn(p, n, if m'.mark.Some? then Add(m'.log, Data(m'.mark.value, [ch])) else m'.log, false)
    case Again => AgainDescends(m.parser, ch); Finish(m', ch)
    case Stop(errno) => Conn(p.(errno := errno), n, m'.log, false)
    case Exit => Conn(p, n, m'.log, true)
  }

  /** One byte, as a call with just that byte handles it: it is counted before anything else. */
  function Step(c: Conn, ch: byte): Conn {
    if !c.Live() then c
    else if !ParsingHeader(c.parser.state) then
      Finish(Middle(c.parser, c.nread, c.log, Collecting(c.parser.state)), ch)
    else if c.nread + 1 > MAX_HEADER_SIZE then
      c.(nread := c.nread + 1, parser := c.parser.(errno := HeaderOverflow))
    else Finish(Middle(c.parser, c.nread + 1, c.log, Collecting(c.parser.state)), ch)
  }

  function Run(c: Conn, data: seq<byte>): Conn {
    if data == [] then c else Step(Run(c, data[..|data| - 1]), data[|data| - 1])
  }

  /** Running on is the same however the bytes are cut. */
  lemma {:induction false} RunConcat(c: Conn, a: seq<byte>, b: seq<byte>)
    ensures Run(c, a + b) == Run(Run(c, a), b)
    decreases |b|
  {
    hide Step;
    if b == [] {
      assert a + b == a;
    } else {
      assert (a + b)[..|a + b| - 1] == a + b[..|b| - 1];
      RunConcat(c, a, b[..|b| - 1]);
    }
  }

  lemma {:induction false} RunStopped(c: Conn, data: seq<byte>)
    requires !c.Live()
    ensures Run(c, data) == c
  {
    hide Finish;
    if data != [] {
      RunStopped(c, data[..|data| - 1]);
    }
  }
}
