/**
 What holds of the parser in every run: the conditions its assertions state, in particular that the
 body states are entered and re-entered only with a remaining length that is neither 0 nor the
 "no length" sentinel.
 */
module HttpInvariant {
  import opened Basics
  import opened HttpSyntax
  import opened HttpMachine
  import opened HttpMarks

  predicate NameState(h: HeaderState) {
    match h
    case General => true
    case C => true
    case CO => true
    case CON => true
    case MatchingConnection => true
    case MatchingProxyConnection => true
    case MatchingContentLength => true
    case MatchingTransferEncoding => true
    case MatchingUpgrade => true
    case Connection => true
    case ContentLength => true
    case TransferEncoding => true
    case Upgrade => true
    case _ => false
  }

  /** What the switch asserts on entry, except for the count of header bytes. */
  predicate Sane(p: Parser) {
    && p.contentLength <= NO_LENGTH
    && match p.state
       case BodyIdentity => 0 < p.contentLength < NO_LENGTH
       case ChunkSizeStart => p.flags.chunked
       case ChunkSize => p.flags.chunked && p.contentLength < NO_LENGTH
       case ChunkParameters => p.flags.chunked && p.contentLength < NO_LENGTH
       case ChunkSizeAlmostDone => p.flags.chunked && p.contentLength < NO_LENGTH
       case ChunkData => p.flags.chunked && 0 < p.contentLength < NO_LENGTH
       case ChunkDataAlmostDone => p.flags.chunked && p.contentLength == 0
       case ChunkDataDone => p.flags.chunked
       case HeaderField => NameState(p.headerState)
       case HeaderValue => p.headerState != Connection && p.headerState != TransferEncoding
       case _ => true
  }

  /** Between bytes; a chunk size line starts with no header bytes counted. */
  predicate Inv(c: Conn) {
    Sane(c.parser) && (c.parser.state.ChunkSizeStart? ==> c.nread == 0)
  }

  /** On entry to the switch: its assertions. */
  predicate Asserted(p: Parser, nread: nat) {
    Sane(p) && (p.state.ChunkSizeStart? ==> nread == 1)
  }

  predicate Keeps(p: Parser, e: Effect) {
    !e.next.Stop? ==>
      && Sane(e.parser.(state := e.state))
      && (e.state.ChunkSizeStart? ==> e.next == Advance && (p.state.HeadersDone? || p.state.ChunkDataDone?))
  }

  lemma {:induction false} IdleKeeps(p: Parser, ch: byte)
    requires Sane(p) && InIdle(p.state)
    ensures Keeps(p, SwitchIdle(p, ch))
  {
  }

  lemma {:induction false} ResponseKeeps(p: Parser, ch: byte)
    requires Sane(p) && InResponseLine(p.state)
    ensures Keeps(p, SwitchResponse(p, ch))
  {
    hide IsNum;
  }

  lemma {:induction false} StatusKeeps(p: Parser, ch: byte)
    requires Sane(p) && InStatus(p.state)
    ensures Keeps(p, SwitchStatus(p, ch))
  {
    hide IsNum;
  }

  lemma {:induction false} RequestKeeps(p: Parser, ch: byte)
    requires Sane(p) && (p.state.StartReq? || p.state.ReqMethod?)
    ensures Keeps(p, SwitchRequest(p, ch))
  {
    hide IsAlpha, FirstMethod, MethodName, Redirect, At;
  }

  lemma {:induction false} UrlKeeps(p: Parser, ch: byte)
    requires Sane(p) && (p.state.ReqSpacesBeforeUrl? || InUrl(p.state))
    ensures Keeps(p, SwitchUrl(p, ch))
  {
    hide ParseUrlChar;
  }

  lemma {:induction false} VersionKeeps(p: Parser, ch: byte)
    requires Sane(p) && InVersion(p.state)
    ensures Keeps(p, SwitchVersion(p, ch))
  {
    hide IsNum;
  }

  lemma {:induction false} FieldCharName(p: Parser, c: byte)
    requires NameState(p.headerState)
    ensures NameState(FieldChar(p, c).headerState)
    ensures FieldChar(p, c).contentLength == p.contentLength && FieldChar(p, c).state == p.state
  {
    hide At;
  }

  lemma {:induction false} FieldKeeps(p: Parser, ch: byte)
    requires Sane(p) && (p.state.HeaderFieldStart? || p.state.HeaderField?)
    ensures Keeps(p, SwitchField(p, ch))
  {
    hide Token, FieldChar;
    if p.state.HeaderField? {
      FieldCharName(p, Token(ch));
    }
  }

  lemma {:induction false} ValueStartKeeps(p: Parser, ch: byte)
    requires Sane(p)
    ensures Keeps(p, ValueStart(p, ch))
  {
    hide Lower;
  }

  lemma {:induction false} LengthDigitKeeps(p: Parser, ch: byte)
    requires p.contentLength <= NO_LENGTH
    ensures var q := LengthDigit(p, ch);
            q.errno == Ok ==> q.contentLength <= NO_LENGTH && q.state == p.state
                              && q.headerState != Connection && q.headerState != TransferEncoding
  {
  }

  lemma {:induction false} ValueCharSane(p: Parser, ch: byte)
    requires p.contentLength <= NO_LENGTH && p.headerState != Connection && p.headerState != TransferEncoding
    ensures var q := ValueChar(p, ch);
            q.errno == Ok ==> q.contentLength <= NO_LENGTH && q.state == p.state
                              && q.headerState != Connection && q.headerState != TransferEncoding
  {
    hide At, Token, Lower, IsNum, LengthDigit, SetConnectionFlag, IsHeaderChar;
    LengthDigitKeeps(p, ch);
  }

  lemma {:induction false} ValueKeeps(p: Parser, ch: byte)
    requires Sane(p) && InValue(p.state)
    ensures Keeps(p, SwitchValue(p, ch))
  {
    hide ValueStart, ValueChar;
    if p.state.HeaderValue? {
      ValueCharSane(p, ch);
    } else {
      ValueStartKeeps(p, ch);
    }
  }

  lemma {:induction false} FoldKeeps(p: Parser, ch: byte)
    requires Sane(p) && InFold(p.state)
    ensures Keeps(p, SwitchFold(p, ch))
  {
    hide SetHeaderFlag;
  }

  lemma {:induction false} HeadersEndKeeps(p: Parser, ch: byte)
    requires Sane(p) && p.state.HeadersAlmostDone?
    ensures Keeps(p, HeadersEnd(p, ch))
  {
    hide LengthConflict;
  }

  lemma {:induction false} NewMessageSane(p: Parser)
    requires p.contentLength <= NO_LENGTH
    ensures Sane(p.(state := NewMessage(p))) && !NewMessage(p).ChunkSizeStart?
  {
    hide ShouldKeepAlive;
  }

  lemma {:induction false} BodyStartKeeps(p: Parser, ch: byte)
    requires Sane(p) && p.state.HeadersDone?
    ensures Keeps(p, BodyStart(p, ch))
  {
    hide NeedsEof, NewMessage;
    NewMessageSane(p);
  }

  lemma {:induction false} BodyKeeps(p: Parser, ch: byte)
    requires Sane(p) && (BodyState(p.state) || p.state.MessageDone?)
    ensures Keeps(p, SwitchBody(p, ch))
  {
    hide NewMessage;
    NewMessageSane(p);
  }

  lemma {:induction false} ChunkKeeps(p: Parser, ch: byte)
    requires Sane(p) && InChunkFrame(p.state)
    ensures Keeps(p, SwitchChunk(p, ch))
  {
    hide Unhex;
  }

  lemma {:induction false} SwitchKeeps(p: Parser, ch: byte)
    requires Sane(p)
    ensures Keeps(p, Switch(p, ch))
  {
    hide SwitchResponse, SwitchStatus, SwitchRequest, SwitchUrl, SwitchVersion, SwitchField, SwitchValue, HeadersEnd,
         BodyStart, SwitchBody, SwitchIdle, SwitchFold, SwitchChunk, Keeps, Sane;
    if InIdle(p.state) {
      IdleKeeps(p, ch);
    } else if p.state.HeadersAlmostDone? {
      HeadersEndKeeps(p, ch);
    } else if p.state.HeadersDone? {
      BodyStartKeeps(p, ch);
    } else if InResponseLine(p.state) {
      ResponseKeeps(p, ch);
    } else if InStatus(p.state) {
      StatusKeeps(p, ch);
    } else if p.state.StartReq? || p.state.ReqMethod? {
      RequestKeeps(p, ch);
    } else if p.state.ReqSpacesBeforeUrl? || InUrl(p.state) {
      UrlKeeps(p, ch);
    } else if InVersion(p.state) {
      VersionKeeps(p, ch);
    } else if p.state.HeaderFieldStart? || p.state.HeaderField? {
      FieldKeeps(p, ch);
    } else if InValue(p.state) {
      ValueKeeps(p, ch);
    } else if InFold(p.state) {
      FoldKeeps(p, ch);
    } else if InChunkFrame(p.state) {
      ChunkKeeps(p, ch);
    } else {
      BodyKeeps(p, ch);
    }
  }

  /** Every pass of the switch over this byte starts with its assertions met. */
  predicate AssertionsHold(m: Middle, ch: byte)
    decreases Rank(m.parser.state)
  {
    && Asserted(m.parser, m.nread)
    && var e := Switch(m.parser, ch);
       var n := NreadAfter(m.parser.state, e.next, m.nread);
       (e.next == Again ==>
          (AgainDescends(m.parser, ch);
           AssertionsHold(ActAll(m, e.actions, ch).(parser := e.parser.(state := e.state), nread := n), ch)))
  }

  lemma {:induction false} FinishKeeps(m: Middle, ch: byte)
    requires Asserted(m.parser, m.nread) && m.parser.errno == Ok
    ensures AssertionsHold(m, ch)
    ensures Finish(m, ch).parser.errno == Ok ==> Inv(Finish(m, ch))
    decreases Rank(m.parser.state)
  {
    hide Switch, Sane, Add, ActAll, SoundAll, MarkAfter, Collecting;
    SwitchKeeps(m.parser, ch);
    SwitchOrderly(m.parser, ch);
    var e := Switch(m.parser, ch);
    AgainDescends(m.parser, ch);
    if e.next == Again {
      var n := NreadAfter(m.parser.state, e.next, m.nread);
      FinishKeeps(ActAll(m, e.actions, ch).(parser := e.parser.(state := e.state), nread := n), ch);
    }
  }

  /** The byte, unless the size limit stops it, meets every assertion on its way. */
  predicate SafeByte(c: Conn, ch: byte) {
    if !ParsingHeader(c.parser.state) then
      AssertionsHold(Middle(c.parser, c.nread, c.log, Collecting(c.parser.state)), ch)
    else
      c.nread + 1 <= MAX_HEADER_SIZE ==>
        AssertionsHold(Middle(c.parser, c.nread + 1, c.log, Collecting(c.parser.state)), ch)
  }

  lemma {:induction false} StepKeeps(c: Conn, ch: byte)
    requires c.Live() && Inv(c)
    ensures SafeByte(c, ch)
    ensures Step(c, ch).parser.errno == Ok ==> Inv(Step(c, ch))
  {
    hide Finish, Sane, Collecting, AssertionsHold;
    if !ParsingHeader(c.parser.state) {
      FinishKeeps(Middle(c.parser, c.nread, c.log, Collecting(c.parser.state)), ch);
    } else if c.nread + 1 <= MAX_HEADER_SIZE {
      FinishKeeps(Middle(c.parser, c.nread + 1, c.log, Collecting(c.parser.state)), ch);
    }
  }

  /** A parser as http_parser_init leaves it. */
  function Fresh(kind: ParserType, allowChunkedLength: bool, lenient: bool): Conn {
    Conn(Parser(kind, NO_FLAGS, if kind == Request then StartReq else if kind == Response then StartRes else StartReqOrRes,
                General, 0, false, allowChunkedLength, lenient, 0, 0, 0, 0, DELETE, Ok, false),
         0, [], false)
  }

  lemma {:induction false} RunKeeps(c: Conn, data: seq<byte>)
    requires c.Live() && Inv(c)
    ensures Run(c, data).parser.errno == Ok ==> Inv(Run(c, data))
    ensures forall i {:trigger data[..i]} :: 0 <= i < |data| && Run(c, data[..i]).Live() ==> SafeByte(Run(c, data[..i]), data[i])
    decreases |data|
  {
    hide Step, SafeByte, Inv;
    if data != [] {
      var n := |data| - 1;
      var init := data[..n];
      RunKeeps(c, init);
      if Run(c, init).Live() {
        StepKeeps(Run(c, init), data[n]);
      } else {
        Stopped(Run(c, init), data[n]);
      }
      forall i | 0 <= i < |data| && Run(c, data[..i]).Live()
        ensures SafeByte(Run(c, data[..i]), data[i])
      {
        if i < n {
          assert init[..i] == data[..i] && init[i] == data[i];
        }
      }
    }
  }

  lemma {:induction false} Stopped(c: Conn, ch: byte)
    requires !c.Live()
    ensures Step(c, ch) == c
  {
    hide Finish;
  }

  /** In every run from a fresh parser no assertion of the switch is ever violated. */
  lemma {:induction false} NoAssertionFails(kind: ParserType, allowChunkedLength: bool, lenient: bool, data: seq<byte>)
    ensures var c := Fresh(kind, allowChunkedLength, lenient);
            && (Run(c, data).parser.errno == Ok ==> Inv(Run(c, data)))
            && forall i {:trigger data[..i]} :: 0 <= i < |data| && Run(c, data[..i]).Live() ==>
                 SafeByte(Run(c, data[..i]), data[i])
  {
    hide Run, SafeByte;
    RunKeeps(Fresh(kind, allowChunkedLength, lenient), data);
  }
}
