/** In every run, the first header line of a message is reached with nothing left of the message before. */
module HttpStartLine {
  import opened Basics
  import opened HttpSyntax
  import opened HttpMachine
  import opened HttpMarks
  import opened HttpInvariant
  import opened HttpValues
  import opened HttpFraming

  /** Behind the first character of a start line. */
  predicate StartLine(s: State) {
    s.ResOrRespH? || (InResponseLine(s) && !s.StartRes?) || InStatus(s) || s.ReqMethod? || s.ReqSpacesBeforeUrl?
    || InUrl(s) || InVersion(s)
  }

  predicate Clean(p: Parser) {
    p.flags == NO_FLAGS && !p.usesTransferEncoding && p.contentLength == NO_LENGTH
  }

  /** From a clean start line to a clean start line or to the first header; start lines begin clean. */
  predicate KeepsClean(p: Parser, e: Effect) {
    !e.next.Stop? ==>
      && (StartLine(e.state) ==> Clean(e.parser))
      && (StartLine(p.state) ==>
            StartLine(e.state) || (e.state.HeaderFieldStart? && e.next == Next.Advance && Clean(e.parser)))
  }

  lemma {:induction false} IdleClean(p: Parser, ch: byte)
    requires InIdle(p.state) && (StartLine(p.state) ==> Clean(p))
    ensures KeepsClean(p, SwitchIdle(p, ch))
  {
  }

  lemma {:induction false} ResponseClean(p: Parser, ch: byte)
    requires InResponseLine(p.state) && (StartLine(p.state) ==> Clean(p))
    ensures KeepsClean(p, SwitchResponse(p, ch))
  {
    hide IsNum;
  }

  lemma {:induction false} StatusClean(p: Parser, ch: byte)
    requires InStatus(p.state) && Clean(p)
    ensures KeepsClean(p, SwitchStatus(p, ch))
  {
    hide IsNum;
  }

  lemma {:induction false} RequestClean(p: Parser, ch: byte)
    requires (p.state.StartReq? || p.state.ReqMethod?) && (StartLine(p.state) ==> Clean(p))
    ensures KeepsClean(p, SwitchRequest(p, ch))
  {
    hide IsAlpha, FirstMethod, MethodName, Redirect, At;
  }

  lemma {:induction false} UrlClean(p: Parser, ch: byte)
    requires (p.state.ReqSpacesBeforeUrl? || InUrl(p.state)) && Clean(p)
    ensures KeepsClean(p, SwitchUrl(p, ch))
  {
    hide ParseUrlChar, NO_FLAGS;
  }

  lemma {:induction false} VersionClean(p: Parser, ch: byte)
    requires InVersion(p.state) && Clean(p)
    ensures KeepsClean(p, SwitchVersion(p, ch))
  {
    hide IsNum;
  }

  lemma {:induction false} NewMessageState(p: Parser)
    ensures !StartLine(NewMessage(p))
  {
    hide ShouldKeepAlive;
  }

  lemma {:induction false} FieldLater(p: Parser, ch: byte)
    requires p.state.HeaderFieldStart? || p.state.HeaderField?
    ensures !StartLine(SwitchField(p, ch).state)
  {
    hide Token, FieldChar, FieldStart;
    FieldCharKeeps(p, Token(ch));
  }

  lemma {:induction false} ValueStartState(p: Parser, ch: byte)
    ensures ValueStart(p, ch).state.HeaderValue?
  {
    hide Lower, IsNum;
  }

  lemma {:induction false} ValueLater(p: Parser, ch: byte)
    requires InValue(p.state)
    ensures !StartLine(SwitchValue(p, ch).state)
  {
    hide ValueStart, ValueChar;
    ValueCharKeeps(p, ch);
    ValueStartState(p, ch);
  }

  lemma {:induction false} FoldLater(p: Parser, ch: byte)
    requires InFold(p.state)
    ensures !StartLine(SwitchFold(p, ch).state)
  {
    hide SetHeaderFlag;
  }

  lemma {:induction false} EndLater(p: Parser, ch: byte)
    ensures p.state.HeadersAlmostDone? ==> !StartLine(HeadersEnd(p, ch).state)
    ensures p.state.HeadersDone? ==> !StartLine(BodyStart(p, ch).state)
  {
    hide LengthConflict, NewMessage, NeedsEof;
    NewMessageState(p);
  }

  lemma {:induction false} ChunkLater(p: Parser, ch: byte)
    requires InChunkFrame(p.state)
    ensures !StartLine(SwitchChunk(p, ch).state)
  {
    hide Unhex;
  }

  lemma {:induction false} BodyLater(p: Parser, ch: byte)
    requires BodyState(p.state) || p.state.MessageDone?
    ensures !StartLine(SwitchBody(p, ch).state)
  {
    hide NewMessage, Consume;
    NewMessageState(p);
  }

  lemma {:induction false} LaterClean(p: Parser, ch: byte)
    requires !InIdle(p.state) && !InResponseLine(p.state) && !StartLine(p.state) && !p.state.StartReq?
    ensures KeepsClean(p, Switch(p, ch))
  {
    hide SwitchField, SwitchValue, SwitchFold, HeadersEnd, BodyStart, SwitchChunk, SwitchBody, Clean, SwitchResponse, SwitchStatus,
         SwitchRequest, SwitchUrl, SwitchVersion, SwitchIdle;
    EndLater(p, ch);
    if p.state.HeaderFieldStart? || p.state.HeaderField? {
      FieldLater(p, ch);
    } else if InValue(p.state) {
      ValueLater(p, ch);
    } else if InFold(p.state) {
      FoldLater(p, ch);
    } else if InChunkFrame(p.state) {
      ChunkLater(p, ch);
    } else if BodyState(p.state) || p.state.MessageDone? {
      BodyLater(p, ch);
    }
  }

  lemma {:induction false} SwitchClean(p: Parser, ch: byte)
    requires StartLine(p.state) ==> Clean(p)
    ensures KeepsClean(p, Switch(p, ch))
  {
    hide SwitchResponse, SwitchStatus, SwitchRequest, SwitchUrl, SwitchVersion, SwitchField, SwitchValue, HeadersEnd,
         BodyStart, SwitchBody, SwitchIdle, SwitchFold, SwitchChunk, KeepsClean, Clean;
    if InIdle(p.state) {
      IdleClean(p, ch);
    } else if InResponseLine(p.state) {
      ResponseClean(p, ch);
    } else if InStatus(p.state) {
      StatusClean(p, ch);
    } else if p.state.StartReq? || p.state.ReqMethod? {
      RequestClean(p, ch);
    } else if p.state.ReqSpacesBeforeUrl? || InUrl(p.state) {
      UrlClean(p, ch);
    } else if InVersion(p.state) {
      VersionClean(p, ch);
    } else {
      LaterClean(p, ch);
    }
  }

  lemma {:induction false} FinishClean(m: Middle, ch: byte)
    requires m.parser.errno == Ok && (StartLine(m.parser.state) ==> Clean(m.parser))
    ensures var r := Finish(m, ch);
            r.Live() ==>
              && (StartLine(r.parser.state) ==> Clean(r.parser))
              && (StartLine(m.parser.state) && r.parser.state.HeaderFieldStart? ==> Clean(r.parser))
    decreases Rank(m.parser.state)
  {
    hide Switch, StartLine, Clean, Add, ActAll, SoundAll, MarkAfter, Collecting;
    SwitchClean(m.parser, ch);
    SwitchOrderly(m.parser, ch);
    AgainDescends(m.parser, ch);
    var e := Switch(m.parser, ch);
    var q := e.parser.(state := e.state);
    CleanElsewhere(e.parser, e.state);
    if e.next == Again {
      var n := NreadAfter(m.parser.state, e.next, m.nread);
      FinishClean(ActAll(m, e.actions, ch).(parser := q, nread := n), ch);
    }
  }

  lemma {:induction false} CleanElsewhere(p: Parser, s: State)
    ensures Clean(p.(state := s)) == Clean(p)
  {
  }

  lemma {:induction false} RunClean(c: Conn, data: seq<byte>)
    requires StartLine(c.parser.state) ==> Clean(c.parser)
    ensures var r := Run(c, data); r.Live() && StartLine(r.parser.state) ==> Clean(r.parser)
    decreases |data|
  {
    hide Finish, StartLine, Clean, Collecting, ParsingHeader;
    if data != [] {
      var n := |data| - 1;
      var d := Run(c, data[..n]);
      RunClean(c, data[..n]);
      if d.Live() {
        FinishClean(Middle(d.parser, d.nread, d.log, Collecting(d.parser.state)), data[n]);
        FinishClean(Middle(d.parser, d.nread + 1, d.log, Collecting(d.parser.state)), data[n]);
      }
    }
  }

  /** The byte that ends a start line leaves the parser as the framing results require. */
  lemma {:induction false} StartLineEnds(kind: ParserType, allowChunkedLength: bool, lenient: bool, data: seq<byte>, ch: byte)
    requires StartLine(Run(Fresh(kind, allowChunkedLength, lenient), data).parser.state)
    ensures var r := Run(Fresh(kind, allowChunkedLength, lenient), data + [ch]);
            r.Live() && r.parser.state.HeaderFieldStart? ==> Starts(r)
  {
    hide Finish, StartLine, Clean, Collecting, ParsingHeader, Run;
    var c := Fresh(kind, allowChunkedLength, lenient);
    FreshIdle(kind, allowChunkedLength, lenient);
    RunClean(c, data);
    RunOnOne(c, data, ch);
    var d := Run(c, data);
    if d.Live() {
      FinishClean(Middle(d.parser, d.nread, d.log, Collecting(d.parser.state)), ch);
      FinishClean(Middle(d.parser, d.nread + 1, d.log, Collecting(d.parser.state)), ch);
      CleanStarts(Run(c, data + [ch]));
    }
  }

  lemma {:induction false} FreshIdle(kind: ParserType, allowChunkedLength: bool, lenient: bool)
    ensures !StartLine(Fresh(kind, allowChunkedLength, lenient).parser.state)
  {
  }

  lemma {:induction false} CleanStarts(r: Conn)
    ensures r.Live() && r.parser.state.HeaderFieldStart? && Clean(r.parser) ==> Starts(r)
  {
  }
}
