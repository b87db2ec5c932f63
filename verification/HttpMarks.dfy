/**
 Facts about the one-byte machine that the scanning loops rely on: which data is being collected
 between bytes, when errors appear, and what a run of body or header bytes adds up to.
 */
module HttpMarks {
  import opened Basics
  import opened HttpSyntax
  import opened HttpMachine

  // ----- marks across one pass of the switch -----

  function MarkAction(mark: Option<DataKind>, a: Action): Option<DataKind> {
    match a
    case Mark(k) => if mark.None? then Some(k) else mark
    case Flush(k) => if mark == Some(k) then None else mark
    case FlushThrough(k) => if mark == Some(k) then None else mark
    case Notify(_) => mark
  }

  function MarkAfter(mark: Option<DataKind>, actions: Actions): Option<DataKind> {
    match actions
    case Nothing => mark
    case Do(a) => MarkAction(mark, a)
    case DoBoth(a, b) => MarkAction(MarkAction(mark, a), b)
  }

  /** At most one kind of data is collected at a time, and none when a notification is made. */
  predicate SoundAction(mark: Option<DataKind>, a: Action) {
    a.Mark? || a.Notify? ==> mark.None?
  }

  predicate SoundAll(mark: Option<DataKind>, actions: Actions) {
    match actions
    case Nothing => true
    case Do(a) => SoundAction(mark, a)
    case DoBoth(a, b) => SoundAction(mark, a) && SoundAction(MarkAction(mark, a), b)
  }

  predicate ForBody(a: Action) {
    !a.Notify? && a.kind == Body
  }

  predicate OnlyBody(actions: Actions) {
    match actions
    case Nothing => true
    case Do(a) => ForBody(a)
    case DoBoth(a, b) => ForBody(a) && ForBody(b)
  }

  /** Body data may be collected or not between passes, but not when the body states are left. */
  predicate BodyFlushed(actions: Actions) {
    MarkAfter(None, actions).None? && MarkAfter(Some(Body), actions).None?
  }

  /** What a pass leaves behind: no error unless it stops, and a mark exactly in a collecting state. */
  predicate Orderly(p: Parser, e: Effect) {
    && (e.next.Stop? ==> e.next.errno != Ok)
    && (!e.next.Stop? ==> e.parser.errno == Ok)
    && (e.next.Exit? ==> Collecting(e.state).None?)
    && (!BodyState(p.state) ==>
          && SoundAll(Collecting(p.state), e.actions)
          && (!e.next.Stop? ==> MarkAfter(Collecting(p.state), e.actions) == Collecting(e.state)))
    && (BodyState(p.state) ==>
          OnlyBody(e.actions) && (!e.next.Stop? && !BodyState(e.state) ==> BodyFlushed(e.actions)))
  }

  lemma {:induction false} IdleOrderly(p: Parser, ch: byte)
    requires p.errno == Ok && InIdle(p.state)
    ensures Orderly(p, SwitchIdle(p, ch))
  {
  }

  lemma {:induction false} StartLineErrno(p: Parser)
    ensures NewStartLine(p).errno == p.errno
  {
  }

  lemma {:induction false} ResponseOrderly(p: Parser, ch: byte)
    requires p.errno == Ok && InResponseLine(p.state)
    ensures Orderly(p, SwitchResponse(p, ch))
  {
    hide IsNum, NewStartLine;
    StartLineErrno(p);
  }

  lemma {:induction false} StatusOrderly(p: Parser, ch: byte)
    requires p.errno == Ok && InStatus(p.state)
    ensures Orderly(p, SwitchStatus(p, ch))
  {
    hide IsNum;
  }

  lemma {:induction false} RequestOrderly(p: Parser, ch: byte)
    requires p.errno == Ok && (p.state.StartReq? || p.state.ReqMethod?)
    ensures Orderly(p, SwitchRequest(p, ch))
  {
    hide IsAlpha, FirstMethod, MethodName, Redirect, At;
  }

  lemma {:induction false} UrlOrderly(p: Parser, ch: byte)
    requires p.errno == Ok && (p.state.ReqSpacesBeforeUrl? || InUrl(p.state))
    ensures Orderly(p, SwitchUrl(p, ch))
  {
    hide ParseUrlChar;
  }

  lemma {:induction false} VersionOrderly(p: Parser, ch: byte)
    requires p.errno == Ok && InVersion(p.state)
    ensures Orderly(p, SwitchVersion(p, ch))
  {
    hide IsNum;
  }

  /** Matching a word changes the header state to one of three, and otherwise only the index. */
  lemma {:induction false} MatchKeeps(p: Parser, c: byte, word: string, during: HeaderState, found: HeaderState, lost: HeaderState)
    ensures var q := Match(p, c, word, during, found, lost);
            && (q.headerState == during || q.headerState == found || q.headerState == lost)
            && q == p.(index := q.index, headerState := q.headerState)
  {
    hide At;
  }

  lemma {:induction false} FieldCharKeeps(p: Parser, c: byte)
    ensures FieldChar(p, c).errno == p.errno && FieldChar(p, c).state == p.state
  {
    hide Match;
    MatchKeeps(p, c, "connection", MatchingConnection, Connection, General);
    MatchKeeps(p, c, "proxy-connection", MatchingProxyConnection, Connection, General);
    MatchKeeps(p, c, "content-length", MatchingContentLength, ContentLength, General);
    MatchKeeps(p, c, "transfer-encoding", MatchingTransferEncoding, TransferEncoding, General);
    MatchKeeps(p, c, "upgrade", MatchingUpgrade, Upgrade, General);
  }

  lemma {:induction false} FieldOrderly(p: Parser, ch: byte)
    requires p.errno == Ok && (p.state.HeaderFieldStart? || p.state.HeaderField?)
    ensures Orderly(p, SwitchField(p, ch))
  {
    hide Token, FieldChar, FieldStart;
    FieldCharKeeps(p, Token(ch));
    FieldStartKeeps(p, Token(ch));
  }

  lemma {:induction false} FieldStartKeeps(p: Parser, c: byte)
    ensures FieldStart(p, c).errno == p.errno
  {
  }

  lemma {:induction false} ValueStartOrderly(p: Parser, ch: byte)
    requires p.errno == Ok && Collecting(p.state).None? && !BodyState(p.state)
    ensures Orderly(p, ValueStart(p, ch))
  {
    hide IsNum, Lower;
  }

  lemma {:induction false} ValueCharKeeps(p: Parser, ch: byte)
    ensures ValueChar(p, ch).state == p.state
  {
    hide Match, IsNum, Token, Lower, SetConnectionFlag, IsHeaderChar;
    var c := Lower(ch);
    MatchKeeps(p, c, "chunked", MatchingTransferEncodingChunked, TransferEncodingChunked, MatchingTransferEncodingToken);
    MatchKeeps(p, c, "keep-alive", MatchingConnectionKeepAlive, ConnectionKeepAlive, MatchingConnectionToken);
    MatchKeeps(p, c, "close", MatchingConnectionClose, ConnectionClose, MatchingConnectionToken);
    MatchKeeps(p, c, "upgrade", MatchingConnectionUpgrade, ConnectionUpgrade, MatchingConnectionToken);
  }

  lemma {:induction false} ValueOrderly(p: Parser, ch: byte)
    requires p.errno == Ok && InValue(p.state)
    ensures Orderly(p, SwitchValue(p, ch))
  {
    hide ValueStart, ValueChar, SetHeaderFlag;
    ValueCharKeeps(p, ch);
    if p.state.HeaderValueDiscardWs? || p.state.HeaderValueStart? {
      ValueStartOrderly(p, ch);
    }
  }

  lemma {:induction false} FoldOrderly(p: Parser, ch: byte)
    requires p.errno == Ok && InFold(p.state)
    ensures Orderly(p, SwitchFold(p, ch))
  {
    hide SetHeaderFlag;
  }

  lemma {:induction false} HeadersEndOrderly(p: Parser, ch: byte)
    requires p.errno == Ok && p.state.HeadersAlmostDone?
    ensures Orderly(p, HeadersEnd(p, ch))
  {
    hide LengthConflict;
  }

  lemma {:induction false} NewMessageIdle(p: Parser)
    ensures Collecting(NewMessage(p)).None? && !BodyState(NewMessage(p))
  {
    hide ShouldKeepAlive;
  }

  lemma {:induction false} BodyStartOrderly(p: Parser, ch: byte)
    requires p.errno == Ok && p.state.HeadersDone?
    ensures Orderly(p, BodyStart(p, ch))
  {
    hide NeedsEof, NewMessage;
    NewMessageIdle(p);
  }

  lemma {:induction false} BodyOrderly(p: Parser, ch: byte)
    requires p.errno == Ok && (BodyState(p.state) || p.state.MessageDone?)
    ensures Orderly(p, SwitchBody(p, ch))
  {
    hide NewMessage, Consume;
    NewMessageIdle(p);
    ConsumeKeeps(p);
  }

  lemma {:induction false} ChunkOrderly(p: Parser, ch: byte)
    requires p.errno == Ok && InChunkFrame(p.state)
    ensures Orderly(p, SwitchChunk(p, ch))
  {
    hide Unhex, SizeDigit;
    if p.state.ChunkSize? {
      SizeDigitOrderly(p, ch);
    }
  }

  lemma {:induction false} ConsumeKeeps(p: Parser)
    ensures Consume(p).errno == p.errno
  {
  }

  lemma {:induction false} SizeDigitOrderly(p: Parser, ch: byte)
    requires p.errno == Ok && p.state.ChunkSize?
    ensures Orderly(p, SizeDigit(p, ch))
  {
    hide Unhex;
  }

  lemma {:induction false} SwitchOrderly(p: Parser, ch: byte)
    requires p.errno == Ok
    ensures Orderly(p, Switch(p, ch))
  {
    hide SwitchResponse, SwitchStatus, SwitchRequest, SwitchUrl, SwitchVersion, SwitchField, SwitchValue, HeadersEnd, BodyStart,
         SwitchBody, SwitchIdle, SwitchFold, SwitchChunk, Orderly;
    if InIdle(p.state) {
      IdleOrderly(p, ch);
    } else if p.state.HeadersAlmostDone? {
      HeadersEndOrderly(p, ch);
    } else if p.state.HeadersDone? {
      BodyStartOrderly(p, ch);
    } else if InResponseLine(p.state) {
      ResponseOrderly(p, ch);
    } else if InStatus(p.state) {
      StatusOrderly(p, ch);
    } else if p.state.StartReq? || p.state.ReqMethod? {
      RequestOrderly(p, ch);
    } else if p.state.ReqSpacesBeforeUrl? || InUrl(p.state) {
      UrlOrderly(p, ch);
    } else if InVersion(p.state) {
      VersionOrderly(p, ch);
    } else if p.state.HeaderFieldStart? || p.state.HeaderField? {
      FieldOrderly(p, ch);
    } else if InValue(p.state) {
      ValueOrderly(p, ch);
    } else if InFold(p.state) {
      FoldOrderly(p, ch);
    } else if InChunkFrame(p.state) {
      ChunkOrderly(p, ch);
    } else {
      BodyOrderly(p, ch);
    }
  }
}
