/** In every run the chunked flag is only ever set together with the transfer encoding flag. */
module HttpEncoding {
  import opened Basics
  import opened HttpSyntax
  import opened HttpMachine
  import opened HttpMarks
  import opened HttpInvariant

  predicate EncodingState(h: HeaderState) {
    h.TransferEncoding? || h.MatchingTransferEncodingTokenStart? || h.MatchingTransferEncodingChunked?
    || h.MatchingTransferEncodingToken? || h.TransferEncodingChunked?
  }

  lemma {:induction false} EncodingTable()
    ensures EncodingState(TransferEncoding) && EncodingState(MatchingTransferEncodingTokenStart)
    ensures EncodingState(MatchingTransferEncodingChunked) && EncodingState(MatchingTransferEncodingToken)
    ensures EncodingState(TransferEncodingChunked)
    ensures !EncodingState(General) && !EncodingState(HeaderState.C) && !EncodingState(CO)
    ensures !EncodingState(CON) && !EncodingState(MatchingConnection) && !EncodingState(MatchingProxyConnection)
    ensures !EncodingState(MatchingContentLength) && !EncodingState(MatchingTransferEncoding) && !EncodingState(MatchingUpgrade)
    ensures !EncodingState(Connection) && !EncodingState(ContentLength) && !EncodingState(ContentLengthNum)
    ensures !EncodingState(ContentLengthWs) && !EncodingState(Upgrade) && !EncodingState(MatchingConnectionTokenStart)
    ensures !EncodingState(MatchingConnectionKeepAlive) && !EncodingState(MatchingConnectionClose) && !EncodingState(MatchingConnectionUpgrade)
    ensures !EncodingState(MatchingConnectionToken) && !EncodingState(ConnectionKeepAlive) && !EncodingState(ConnectionClose)
    ensures !EncodingState(ConnectionUpgrade)
  {
  }

  predicate HeaderLine(s: State) {
    s.HeaderField? || InValue(s) || InFold(s)
  }

  /** The chunked flag, and a Transfer-Encoding header on its way, come with the transfer encoding flag. */
  predicate Encoded(p: Parser) {
    && (p.flags.chunked ==> p.usesTransferEncoding)
    && (HeaderLine(p.state) && EncodingState(p.headerState) ==> p.usesTransferEncoding)
  }

  predicate KeepsEncoded(e: Effect) {
    !e.next.Stop? ==> Encoded(e.parser.(state := e.state))
  }

  lemma {:induction false} IdleEncoded(p: Parser, ch: byte)
    requires Encoded(p) && InIdle(p.state)
    ensures KeepsEncoded(SwitchIdle(p, ch))
  {
    hide EncodingState;
  }

  lemma {:induction false} ResponseEncoded(p: Parser, ch: byte)
    requires Encoded(p) && InResponseLine(p.state)
    ensures KeepsEncoded(SwitchResponse(p, ch))
  {
    hide IsNum, EncodingState;
  }

  lemma {:induction false} StatusEncoded(p: Parser, ch: byte)
    requires Encoded(p) && InStatus(p.state)
    ensures KeepsEncoded(SwitchStatus(p, ch))
  {
    hide IsNum, EncodingState;
  }

  lemma {:induction false} VersionEncoded(p: Parser, ch: byte)
    requires Encoded(p) && InVersion(p.state)
    ensures KeepsEncoded(SwitchVersion(p, ch))
  {
    hide IsNum, EncodingState;
  }

  lemma {:induction false} RequestEncoded(p: Parser, ch: byte)
    requires Encoded(p) && (p.state.StartReq? || p.state.ReqMethod?)
    ensures KeepsEncoded(SwitchRequest(p, ch))
  {
    hide IsAlpha, FirstMethod, MethodName, Redirect, At, EncodingState;
  }

  lemma {:induction false} UrlEncoded(p: Parser, ch: byte)
    requires Encoded(p) && (p.state.ReqSpacesBeforeUrl? || InUrl(p.state))
    ensures KeepsEncoded(SwitchUrl(p, ch))
  {
    hide ParseUrlChar, EncodingState;
  }

  lemma {:induction false} NameEncoded(p: Parser, c: byte)
    requires EncodingState(p.headerState) ==> p.usesTransferEncoding
    ensures var q := FieldChar(p, c);
            && (EncodingState(q.headerState) ==> q.usesTransferEncoding)
            && q.flags == p.flags && q.state == p.state && (p.usesTransferEncoding ==> q.usesTransferEncoding)
  {
    EncodingTable();
    hide EncodingState, Match;
    match p.headerState
    case MatchingConnection => MatchKeeps(p, c, "connection", MatchingConnection, Connection, General);
    case MatchingProxyConnection => MatchKeeps(p, c, "proxy-connection", MatchingProxyConnection, Connection, General);
    case MatchingContentLength => MatchKeeps(p, c, "content-length", MatchingContentLength, ContentLength, General);
    case MatchingTransferEncoding =>
      MatchKeeps(p, c, "transfer-encoding", MatchingTransferEncoding, TransferEncoding, General);
    case MatchingUpgrade => MatchKeeps(p, c, "upgrade", MatchingUpgrade, Upgrade, General);
    case _ =>
  }

  lemma {:induction false} FieldEncoded(p: Parser, ch: byte)
    requires Encoded(p) && (p.state.HeaderFieldStart? || p.state.HeaderField?)
    ensures KeepsEncoded(SwitchField(p, ch))
  {
    hide Token, FieldChar;
    if p.state.HeaderField? {
      NameEncoded(p, Token(ch));
    }
  }

  /** The flags are kept, and no Transfer-Encoding header appears. */
  predicate Kept(q: Parser, p: Parser) {
    && q.flags.chunked == p.flags.chunked && q.usesTransferEncoding == p.usesTransferEncoding
    && (EncodingState(q.headerState) ==> EncodingState(p.headerState))
  }

  lemma {:induction false} EncodingStart(p: Parser, ch: byte)
    requires p.headerState.TransferEncoding? || p.headerState.MatchingTransferEncodingTokenStart?
    ensures Kept(ValueStart(p, ch).parser, p)
  {
    EncodingTable();
    hide EncodingState, Lower, IsNum;
  }

  lemma {:induction false} LengthStart(p: Parser, ch: byte)
    requires p.headerState.ContentLength? || p.headerState.ContentLengthWs?
    ensures Kept(ValueStart(p, ch).parser, p)
  {
    EncodingTable();
    hide EncodingState, Lower, IsNum;
  }

  lemma {:induction false} ConnectionStart(p: Parser, ch: byte)
    requires p.headerState.Connection? || p.headerState.MatchingConnectionTokenStart?
    ensures Kept(ValueStart(p, ch).parser, p)
  {
    EncodingTable();
    hide EncodingState, Lower, IsNum;
  }

  lemma {:induction false} OtherStart(p: Parser, ch: byte)
    requires !p.headerState.TransferEncoding? && !p.headerState.MatchingTransferEncodingTokenStart?
    requires !p.headerState.ContentLength? && !p.headerState.ContentLengthWs?
    requires !p.headerState.Connection? && !p.headerState.MatchingConnectionTokenStart?
    ensures Kept(ValueStart(p, ch).parser, p)
  {
    EncodingTable();
    hide EncodingState, Lower, IsNum;
  }

  lemma {:induction false} StartKept(p: Parser, ch: byte)
    ensures Kept(ValueStart(p, ch).parser, p)
  {
    hide ValueStart, Kept;
    if p.headerState.TransferEncoding? || p.headerState.MatchingTransferEncodingTokenStart? {
      EncodingStart(p, ch);
    } else if p.headerState.ContentLength? || p.headerState.ContentLengthWs? {
      LengthStart(p, ch);
    } else if p.headerState.Connection? || p.headerState.MatchingConnectionTokenStart? {
      ConnectionStart(p, ch);
    } else {
      OtherStart(p, ch);
    }
  }

  lemma {:induction false} StartEncoded(p: Parser, ch: byte)
    requires Encoded(p) && HeaderLine(p.state)
    ensures KeepsEncoded(ValueStart(p, ch))
  {
    hide ValueStart, EncodingState;
    StartKept(p, ch);
  }

  lemma {:induction false} FlagsEncoded(f: Flags, h: HeaderState)
    ensures SetConnectionFlag(f, h).chunked == f.chunked
    ensures SetHeaderFlag(f, h).chunked ==> f.chunked || EncodingState(h)
  {
  }

  lemma {:induction false} LengthKeeps(p: Parser, ch: byte)
    ensures var q := LengthDigit(p, ch);
            q.flags == p.flags && q.state == p.state && q.usesTransferEncoding == p.usesTransferEncoding
            && !EncodingState(q.headerState)
  {
  }

  lemma {:induction false} ListKeeps(p: Parser, ch: byte)
    requires !EncodingState(p.headerState)
    ensures var q := ListElement(p, ch);
            q.flags.chunked == p.flags.chunked && q.state == p.state && q.usesTransferEncoding == p.usesTransferEncoding
            && !EncodingState(q.headerState)
  {
    hide SetConnectionFlag;
    FlagsEncoded(p.flags, p.headerState);
  }

  lemma {:induction false} EncodingChar(p: Parser, ch: byte)
    requires EncodingState(p.headerState)
    ensures Kept(ValueChar(p, ch), p)
  {
    hide Match, Token, Lower, LengthDigit, ListElement, IsHeaderChar;
    MatchKeeps(p, Lower(ch), "chunked", MatchingTransferEncodingChunked, TransferEncodingChunked, MatchingTransferEncodingToken);
  }

  /** Inside a connection option that may still become a keyword. */
  predicate OptionState(h: HeaderState) {
    h.MatchingConnectionKeepAlive? || h.MatchingConnectionClose? || h.MatchingConnectionUpgrade?
  }

  lemma {:induction false} MatchKept(p: Parser, c: byte, word: string, during: HeaderState, found: HeaderState, lost: HeaderState)
    requires !EncodingState(during) && !EncodingState(found) && !EncodingState(lost)
    ensures Kept(Match(p, c, word, during, found, lost), p)
  {
    hide Match, EncodingState;
    MatchKeeps(p, c, word, during, found, lost);
  }

  lemma {:induction false} OptionChar(p: Parser, ch: byte)
    requires OptionState(p.headerState)
    ensures Kept(ValueChar(p, ch), p)
  {
    EncodingTable();
    hide Match, Token, Lower, LengthDigit, ListElement, IsHeaderChar, EncodingState;
    var c := Lower(ch);
    if p.headerState.MatchingConnectionKeepAlive? {
      MatchKept(p, c, "keep-alive", MatchingConnectionKeepAlive, ConnectionKeepAlive, MatchingConnectionToken);
    } else if p.headerState.MatchingConnectionClose? {
      MatchKept(p, c, "close", MatchingConnectionClose, ConnectionClose, MatchingConnectionToken);
    } else {
      MatchKept(p, c, "upgrade", MatchingConnectionUpgrade, ConnectionUpgrade, MatchingConnectionToken);
    }
  }

  predicate KeywordState(h: HeaderState) {
    h.ConnectionKeepAlive? || h.ConnectionClose? || h.ConnectionUpgrade?
  }

  lemma {:induction false} KeywordChar(p: Parser, ch: byte)
    requires KeywordState(p.headerState)
    ensures Kept(ValueChar(p, ch), p)
  {
    EncodingTable();
    hide Match, Token, Lower, LengthDigit, ListElement, IsHeaderChar, EncodingState;
    ListKeeps(p, ch);
  }

  lemma {:induction false} OtherChar(p: Parser, ch: byte)
    requires !EncodingState(p.headerState) && !OptionState(p.headerState) && !KeywordState(p.headerState)
    ensures Kept(ValueChar(p, ch), p)
  {
    EncodingTable();
    hide Match, Token, Lower, LengthDigit, ListElement, IsHeaderChar, EncodingState;
    LengthKeeps(p, ch);
  }

  lemma {:induction false} CharKept(p: Parser, ch: byte)
    ensures Kept(ValueChar(p, ch), p)
  {
    hide ValueChar, Kept, EncodingState, OptionState, KeywordState;
    if EncodingState(p.headerState) {
      EncodingChar(p, ch);
    } else if OptionState(p.headerState) {
      OptionChar(p, ch);
    } else if KeywordState(p.headerState) {
      KeywordChar(p, ch);
    } else {
      OtherChar(p, ch);
    }
  }

  lemma {:induction false} ValueEncoded(p: Parser, ch: byte)
    requires Encoded(p) && InValue(p.state)
    ensures KeepsEncoded(SwitchValue(p, ch))
  {
    hide ValueStart, ValueChar, EncodingState;
    StartEncoded(p, ch);
    CharKept(p, ch);
  }

  lemma {:induction false} LengthIsNoEncoding()
    ensures !EncodingState(ContentLengthWs)
  {
  }

  lemma {:induction false} LineEncoded(p: Parser, ch: byte)
    requires Encoded(p) && p.state.HeaderValueLws?
    ensures KeepsEncoded(SwitchFold(p, ch))
  {
    hide SetHeaderFlag, EncodingState;
    FlagsEncoded(p.flags, p.headerState);
    LengthIsNoEncoding();
  }

  lemma {:induction false} FoldEncoded(p: Parser, ch: byte)
    requires Encoded(p) && InFold(p.state)
    ensures KeepsEncoded(SwitchFold(p, ch))
  {
    hide SetHeaderFlag, EncodingState;
    FlagsEncoded(p.flags, p.headerState);
    if p.state.HeaderValueLws? {
      LineEncoded(p, ch);
    }
  }

  lemma {:induction false} EndEncoded(p: Parser, ch: byte)
    requires Encoded(p) && p.state.HeadersAlmostDone?
    ensures KeepsEncoded(HeadersEnd(p, ch))
  {
    hide LengthConflict, EncodingState;
  }

  lemma {:induction false} BodyStartEncoded(p: Parser, ch: byte)
    requires Encoded(p) && p.state.HeadersDone?
    ensures KeepsEncoded(BodyStart(p, ch))
  {
    hide NewMessage, NeedsEof, EncodingState;
    NewMessageLine(p);
  }

  lemma {:induction false} ChunkEncoded(p: Parser, ch: byte)
    requires Encoded(p) && InChunkFrame(p.state)
    ensures KeepsEncoded(SwitchChunk(p, ch))
  {
    hide Unhex, EncodingState;
  }

  lemma {:induction false} DataEncoded(p: Parser, ch: byte)
    requires Encoded(p) && (BodyState(p.state) || p.state.MessageDone?)
    ensures KeepsEncoded(SwitchBody(p, ch))
  {
    hide NewMessage, EncodingState;
    NewMessageLine(p);
  }

  lemma {:induction false} NewMessageLine(p: Parser)
    ensures !HeaderLine(NewMessage(p))
  {
    hide ShouldKeepAlive;
  }

  lemma {:induction false} SwitchEncoded(p: Parser, ch: byte)
    requires Encoded(p)
    ensures KeepsEncoded(Switch(p, ch))
  {
    hide SwitchResponse, SwitchStatus, SwitchRequest, SwitchUrl, SwitchVersion, SwitchField, SwitchValue, HeadersEnd,
         BodyStart, SwitchBody, SwitchIdle, SwitchFold, SwitchChunk, KeepsEncoded, Encoded;
    if InIdle(p.state) {
      IdleEncoded(p, ch);
    } else if InResponseLine(p.state) {
      ResponseEncoded(p, ch);
    } else if InStatus(p.state) {
      StatusEncoded(p, ch);
    } else if p.state.HeadersAlmostDone? {
      EndEncoded(p, ch);
    } else if p.state.HeadersDone? {
      BodyStartEncoded(p, ch);
    } else if p.state.StartReq? || p.state.ReqMethod? {
      RequestEncoded(p, ch);
    } else if p.state.ReqSpacesBeforeUrl? || InUrl(p.state) {
      UrlEncoded(p, ch);
    } else if InChunkFrame(p.state) {
      ChunkEncoded(p, ch);
    } else if InVersion(p.state) {
      VersionEncoded(p, ch);
    } else if p.state.HeaderFieldStart? || p.state.HeaderField? {
      FieldEncoded(p, ch);
    } else if InValue(p.state) {
      ValueEncoded(p, ch);
    } else if InFold(p.state) {
      FoldEncoded(p, ch);
    } else {
      DataEncoded(p, ch);
    }
  }

  lemma {:induction false} FinishEncoded(m: Middle, ch: byte)
    requires Encoded(m.parser) && m.parser.errno == Ok
    ensures Finish(m, ch).parser.errno == Ok ==> Encoded(Finish(m, ch).parser)
    ensures Finish(m, ch).exited ==> Encoded(Finish(m, ch).parser)
    decreases Rank(m.parser.state)
  {
    hide Switch, Encoded, Add, ActAll, SoundAll, MarkAfter, Collecting;
    SwitchEncoded(m.parser, ch);
    SwitchOrderly(m.parser, ch);
    AgainDescends(m.parser, ch);
    var e := Switch(m.parser, ch);
    if e.next == Again {
      var n := NreadAfter(m.parser.state, e.next, m.nread);
      FinishEncoded(ActAll(m, e.actions, ch).(parser := e.parser.(state := e.state), nread := n), ch);
    }
  }

  /** In every run the chunked flag is only ever set together with the transfer encoding flag. */
  lemma {:induction false} RunEncoded(c: Conn, data: seq<byte>)
    requires Encoded(c.parser)
    ensures Run(c, data).Live() ==> Encoded(Run(c, data).parser)
    decreases |data|
  {
    hide Finish, Encoded;
    if data != [] {
      var n := |data| - 1;
      var d := Run(c, data[..n]);
      RunEncoded(c, data[..n]);
      if d.Live() {
        FinishEncoded(Middle(d.parser, d.nread, d.log, Collecting(d.parser.state)), data[n]);
        FinishEncoded(Middle(d.parser, d.nread + 1, d.log, Collecting(d.parser.state)), data[n]);
      }
    }
  }

  lemma {:induction false} FreshEncoded(kind: ParserType, allowChunkedLength: bool, lenient: bool, data: seq<byte>)
    ensures var r := Run(Fresh(kind, allowChunkedLength, lenient), data);
            r.Live() && r.parser.flags.chunked ==> r.parser.usesTransferEncoding
  {
    hide Run;
    RunEncoded(Fresh(kind, allowChunkedLength, lenient), data);
  }
}
