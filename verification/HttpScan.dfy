/** What the one-byte machine does with whole stretches of header and body bytes. */
module HttpScan {
  import opened Basics
  import opened HttpSyntax
  import opened HttpMachine
  import opened HttpMarks

  predicate Failed(c: Conn) {
    c.parser.errno != Ok && !c.exited
  }

  lemma {:induction false} RunStep(c: Conn, data: seq<byte>, i: nat)
    requires i < |data|
    ensures Run(c, data[..i + 1]) == Step(Run(c, data[..i]), data[i])
  {
    hide Step;
    assert data[..i + 1][..i] == data[..i];
  }

  lemma {:induction false} StaysStopped(c: Conn, data: seq<byte>, i: nat)
    requires i <= |data| && !Run(c, data[..i]).Live()
    ensures Run(c, data) == Run(c, data[..i])
  {
    hide Step, Run;
    assert data == data[..i] + data[i..];
    RunConcat(c, data[..i], data[i..]);
    RunStopped(Run(c, data[..i]), data[i..]);
  }

  /** Stopped by the limit on header bytes. */
  predicate Overflowed(c: Conn) {
    Failed(c) && c.parser.errno == HeaderOverflow
  }

  lemma {:induction false} OverflowStep(c: Conn, ch: byte)
    requires c.Live() && ParsingHeader(c.parser.state) && c.nread >= MAX_HEADER_SIZE
    ensures Overflowed(Step(c, ch))
  {
    hide Finish;
  }

  // ----- one pass, from its effect -----

  // Which group of states handles the byte.

  lemma {:induction false} OnField(p: Parser, ch: byte)
    requires p.state.HeaderFieldStart? || p.state.HeaderField?
    ensures Switch(p, ch) == SwitchField(p, ch)
  {
    hide SwitchResponse, SwitchStatus, SwitchRequest, SwitchUrl, SwitchVersion, SwitchField, SwitchValue, HeadersEnd,
         BodyStart, SwitchBody, SwitchIdle, SwitchFold, SwitchChunk;
  }

  lemma {:induction false} OnValue(p: Parser, ch: byte)
    requires InValue(p.state)
    ensures Switch(p, ch) == SwitchValue(p, ch)
  {
    hide SwitchResponse, SwitchStatus, SwitchRequest, SwitchUrl, SwitchVersion, SwitchField, SwitchValue, HeadersEnd,
         BodyStart, SwitchBody, SwitchIdle, SwitchFold, SwitchChunk;
  }

  lemma {:induction false} OnFold(p: Parser, ch: byte)
    requires InFold(p.state)
    ensures Switch(p, ch) == SwitchFold(p, ch)
  {
    hide SwitchResponse, SwitchStatus, SwitchRequest, SwitchUrl, SwitchVersion, SwitchField, SwitchValue, HeadersEnd,
         BodyStart, SwitchBody, SwitchIdle, SwitchFold, SwitchChunk;
  }

  lemma {:induction false} OnChunk(p: Parser, ch: byte)
    requires InChunkFrame(p.state)
    ensures Switch(p, ch) == SwitchChunk(p, ch)
  {
    hide SwitchResponse, SwitchStatus, SwitchRequest, SwitchUrl, SwitchVersion, SwitchField, SwitchValue, HeadersEnd,
         BodyStart, SwitchBody, SwitchIdle, SwitchFold, SwitchChunk;
  }

  lemma {:induction false} OnEnd(p: Parser, ch: byte)
    requires p.state.HeadersAlmostDone?
    ensures Switch(p, ch) == HeadersEnd(p, ch)
  {
    hide SwitchResponse, SwitchStatus, SwitchRequest, SwitchUrl, SwitchVersion, SwitchField, SwitchValue, HeadersEnd,
         BodyStart, SwitchBody, SwitchIdle, SwitchFold, SwitchChunk;
  }

  lemma {:induction false} OnBody(p: Parser, ch: byte)
    requires BodyState(p.state) || p.state.MessageDone?
    ensures Switch(p, ch) == SwitchBody(p, ch)
  {
    hide SwitchResponse, SwitchStatus, SwitchRequest, SwitchUrl, SwitchVersion, SwitchField, SwitchValue, HeadersEnd,
         BodyStart, SwitchBody, SwitchIdle, SwitchFold, SwitchChunk;
  }

  /** A header byte that is neither stopped by the size limit nor inside collected data. */
  predicate Plain(c: Conn) {
    c.Live() && ParsingHeader(c.parser.state) && c.nread < MAX_HEADER_SIZE && Collecting(c.parser.state).None?
  }

  lemma {:induction false} PlainAdvance(c: Conn, ch: byte, e: Effect)
    requires Plain(c) && e == Switch(c.parser, ch) && e.next == Next.Advance && e.parser.errno == Ok
    requires e.actions.Nothing? || (e.actions.Do? && (e.actions.first.Mark? || e.actions.first.Notify?))
    ensures Step(c, ch) ==
            Conn(e.parser.(state := e.state), NreadAfter(c.parser.state, Next.Advance, c.nread + 1),
                 if e.actions.Nothing? then c.log
                 else if e.actions.first.Mark? then Add(c.log, Data(e.actions.first.kind, [ch]))
                 else Add(c.log, Notified(e.actions.first.note)),
                 false)
  {
    hide Switch, Add, Collecting, ParsingHeader, NreadAfter;
  }

  lemma {:induction false} PlainStop(c: Conn, ch: byte, e: Effect)
    requires Plain(c) && e == Switch(c.parser, ch) && e.next.Stop? && e.next.errno != Ok
    ensures Failed(Step(c, ch))
  {
    hide Switch, Add, Collecting, ParsingHeader, NreadAfter, ActAll;
  }

  lemma {:induction false} PlainAgain(c: Conn, ch: byte, e: Effect)
    requires Plain(c) && e == Switch(c.parser, ch) && e.next.Again?
    requires e.actions.Nothing? || (e.actions.Do? && e.actions.first.Notify?)
    ensures Step(c, ch) ==
            Finish(Middle(e.parser.(state := e.state), NreadAfter(c.parser.state, Again, c.nread + 1),
                          if e.actions.Nothing? then c.log else Add(c.log, Notified(e.actions.first.note)), None), ch)
  {
    hide Switch, Add, Collecting, ParsingHeader, NreadAfter;
    AgainDescends(c.parser, ch);
  }

  /** One byte of a header name, already counted. */
  lemma {:induction false} FieldFinish(p: Parser, n: nat, log: seq<Event>, ch: byte)
    requires p.errno == Ok && p.state.HeaderField?
    ensures var r := Finish(Middle(p, n, log, Some(Field)), ch);
            if Token(ch) != 0 then r == Conn(FieldChar(p, Token(ch)), n, Add(log, Data(Field, [ch])), false)
            else if ch == Chr(':') then
              r == Conn(p.(state := HeaderValueDiscardWs), n, Add(log, Data(Field, [])), false)
            else Failed(r) && r.parser.errno == InvalidHeaderToken
  {
    hide Switch, FieldChar, Token, Add;
    FieldCharKeeps(p, Token(ch));
    OnField(p, ch);
  }

  /** One byte of a header value, already counted. */
  lemma {:induction false} ValueFinish(p: Parser, n: nat, log: seq<Event>, ch: byte)
    requires p.errno == Ok && p.state.HeaderValue?
    ensures var r := Finish(Middle(p, n, log, Some(Value)), ch);
            if ch == CR then r == Conn(p.(state := HeaderAlmostDone), n, Add(log, Data(Value, [])), false)
            else if ch == LF then
              r == Finish(Middle(p.(state := HeaderAlmostDone), n, Add(log, Data(Value, [])), None), ch)
            else if ValueChar(p, ch).errno == Ok then
              r == Conn(ValueChar(p, ch), n, Add(log, Data(Value, [ch])), false)
            else Failed(r) && r.parser.errno == ValueChar(p, ch).errno
  {
    hide Switch, ValueChar, Add;
    ValueCharKeeps(p, ch);
    OnValue(p, ch);
  }

  // ----- body data -----

  /** A body byte: p has a remaining length of more than one, or is the last one of a chunk. */
  lemma {:induction false} ChunkDataStep(c: Conn, ch: byte)
    requires c.Live() && c.parser.state.ChunkData? && c.parser.contentLength > 0
    ensures Step(c, ch) ==
            Conn(c.parser.(contentLength := c.parser.contentLength - 1,
                           state := if c.parser.contentLength == 1 then ChunkDataAlmostDone else ChunkData),
                 c.nread, Add(c.log, Data(Body, [ch])), false)
  {
    hide Switch, Add;
    OnBody(c.parser, ch);
  }

  lemma {:induction false} IdentityEffect(p: Parser, ch: byte)
    requires p.state.BodyIdentity? && p.contentLength > 0
    ensures SwitchBody(p, ch) ==
            var q := p.(contentLength := p.contentLength - 1);
            if p.contentLength > 1 then Effect(q, BodyIdentity, Do(Mark(Body)), Advance)
            else Effect(q, MessageDone, DoBoth(Mark(Body), FlushThrough(Body)), Again)
  {
    hide Complete;
  }

  lemma {:induction false} IdentityStep(c: Conn, ch: byte)
    requires c.Live() && c.parser.state.BodyIdentity? && c.parser.contentLength > 0
    ensures Step(c, ch) ==
            if c.parser.contentLength > 1 then
              Conn(c.parser.(contentLength := c.parser.contentLength - 1), c.nread, Add(c.log, Data(Body, [ch])), false)
            else
              Finish(Middle(c.parser.(contentLength := 0, state := MessageDone), c.nread,
                            Add(c.log, Data(Body, [ch])), None), ch)
  {
    hide Switch, SwitchBody, Add;
    OnBody(c.parser, ch);
    IdentityEffect(c.parser, ch);
    AgainDescends(c.parser, ch);
  }

  lemma {:induction false} EofStep(c: Conn, ch: byte)
    requires c.Live() && c.parser.state.BodyIdentityEof?
    ensures Step(c, ch) == Conn(c.parser, c.nread, Add(c.log, Data(Body, [ch])), false)
  {
    hide Switch, Add;
    OnBody(c.parser, ch);
  }

  lemma {:induction false} ChunkDataRun(c: Conn, bytes: seq<byte>)
    requires c.Live() && c.parser.state.ChunkData? && 0 < |bytes| <= c.parser.contentLength
    ensures Run(c, bytes) ==
            Conn(c.parser.(contentLength := c.parser.contentLength - |bytes|,
                           state := if |bytes| == c.parser.contentLength then ChunkDataAlmostDone else ChunkData),
                 c.nread, Add(c.log, Data(Body, bytes)), false)
    decreases |bytes|
  {
    hide Step, Add;
    var n := |bytes| - 1;
    var init := bytes[..n];
    assert bytes == init + [bytes[n]];
    if n == 0 {
      assert init == [];
      ChunkDataStep(c, bytes[0]);
    } else {
      ChunkDataRun(c, init);
      ChunkDataStep(Run(c, init), bytes[n]);
      AddTwice(c.log, Body, init, [bytes[n]]);
    }
  }

  lemma {:induction false} IdentityRun(c: Conn, bytes: seq<byte>)
    requires c.Live() && c.parser.state.BodyIdentity? && 0 < |bytes| < c.parser.contentLength
    ensures Run(c, bytes) ==
            Conn(c.parser.(contentLength := c.parser.contentLength - |bytes|), c.nread,
                 Add(c.log, Data(Body, bytes)), false)
    decreases |bytes|
  {
    hide Step, Add, Finish;
    var n := |bytes| - 1;
    var init := bytes[..n];
    assert bytes == init + [bytes[n]];
    if n == 0 {
      assert init == [];
      IdentityStep(c, bytes[0]);
    } else {
      IdentityRun(c, init);
      IdentityStep(Run(c, init), bytes[n]);
      AddTwice(c.log, Body, init, [bytes[n]]);
    }
  }

  /** The last bytes of a counted body: the machine reports them and is at the end of the message. */
  lemma {:induction false} IdentityEnd(c: Conn, bytes: seq<byte>)
    requires c.Live() && c.parser.state.BodyIdentity? && 0 < |bytes| == c.parser.contentLength
    ensures Run(c, bytes) ==
            Finish(Middle(c.parser.(contentLength := 0, state := MessageDone), c.nread,
                          Add(c.log, Data(Body, bytes)), None), bytes[|bytes| - 1])
  {
    hide Step, Add, Finish;
    var n := |bytes| - 1;
    var init := bytes[..n];
    assert bytes == init + [bytes[n]];
    if n == 0 {
      assert init == [];
      IdentityStep(c, bytes[0]);
    } else {
      IdentityRun(c, init);
      IdentityStep(Run(c, init), bytes[n]);
      AddTwice(c.log, Body, init, [bytes[n]]);
    }
  }

  lemma {:induction false} EofRun(c: Conn, bytes: seq<byte>)
    requires c.Live() && c.parser.state.BodyIdentityEof? && |bytes| > 0
    ensures Run(c, bytes) == Conn(c.parser, c.nread, Add(c.log, Data(Body, bytes)), false)
    decreases |bytes|
  {
    hide Step, Add;
    var n := |bytes| - 1;
    var init := bytes[..n];
    assert bytes == init + [bytes[n]];
    if n == 0 {
      assert init == [];
      EofStep(c, bytes[0]);
    } else {
      EofRun(c, init);
      EofStep(Run(c, init), bytes[n]);
      AddTwice(c.log, Body, init, [bytes[n]]);
    }
  }

  /** After the data of a chunk: nothing is collected any more, and a CR must follow. */
  lemma {:induction false} ChunkDataEnd(c: Conn, ch: byte)
    requires c.Live() && c.parser.state.ChunkDataAlmostDone?
    ensures if ch == CR then Step(c, ch) == c.(parser := c.parser.(state := ChunkDataDone), exited := false)
            else Failed(Step(c, ch)) && Step(c, ch).parser.errno == StrictCheck
  {
    hide Switch;
    OnBody(c.parser, ch);
  }

  lemma {:induction false} RunOn(c: Conn, data: seq<byte>, i: nat, j: nat)
    requires i <= j <= |data|
    ensures Run(c, data[..j]) == Run(Run(c, data[..i]), data[i..j])
  {
    hide Run;
    assert data[..j] == data[..i] + data[i..j];
    RunConcat(c, data[..i], data[i..j]);
  }
}
