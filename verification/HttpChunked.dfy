/**
 Chunk sizes and the chunked transfer coding: section 4.1 of RFC 7230, with chunk extensions and
 trailer fields.
 */
module HttpChunked {
  import opened Basics
  import opened HttpSyntax
  import opened HttpMachine
  import opened HttpScan
  import opened HttpInvariant
  import opened HttpValues
  import opened HttpNames
  import opened HttpLists
  import opened HttpHeaders

  const MAX_CHUNK := 0xFFFF_FFFF_FFFF_FFEF

  function Hex(digits: seq<byte>): (v: nat)
    requires forall i :: 0 <= i < |digits| ==> Unhex(digits[i]) >= 0
  {
    if digits == [] then 0 else Hex(digits[..|digits| - 1]) * 16 + Unhex(digits[|digits| - 1])
  }

  predicate HexDigits(digits: seq<byte>) {
    digits != [] && forall i :: 0 <= i < |digits| ==> Unhex(digits[i]) >= 0
  }

  // ----- chunk sizes -----

  lemma {:induction false} FirstDigitStep(c: Conn, ch: byte)
    requires c.Live() && c.parser.state.ChunkSizeStart? && c.nread < MAX_HEADER_SIZE && Unhex(ch) >= 0
    ensures Step(c, ch) == Conn(c.parser.(state := ChunkSize, contentLength := Unhex(ch)), c.nread + 1, c.log, false)
  {
    hide Switch, Step, Finish, Unhex;
    OnChunk(c.parser, ch);
    PlainAdvance(c, ch, SwitchChunk(c.parser, ch));
  }

  lemma {:induction false} DigitStep(c: Conn, ch: byte)
    requires c.Live() && c.parser.state.ChunkSize? && c.nread < MAX_HEADER_SIZE && Unhex(ch) >= 0
    ensures var v := c.parser.contentLength * 16 + Unhex(ch);
            if v <= MAX_CHUNK then
              Step(c, ch) == Conn(c.parser.(contentLength := v), c.nread + 1, c.log, false)
            else Failed(Step(c, ch))
  {
    assert Unhex(CR) == -1;
    hide Switch, Step, Unhex, Finish;
    OnChunk(c.parser, ch);
    var e := SwitchChunk(c.parser, ch);
    if e.next.Stop? {
      PlainStop(c, ch, e);
    } else {
      PlainAdvance(c, ch, e);
    }
  }

  /** A chunk size is accepted exactly when it is at most 2^64-17, and is then what its digits denote. */
  lemma {:induction false} ChunkSizeExact(c: Conn, digits: seq<byte>)
    requires c.Live() && c.parser.state.ChunkSizeStart? && HexDigits(digits) && c.nread + |digits| <= MAX_HEADER_SIZE
    ensures var r := Run(c, digits);
            if Hex(digits) <= MAX_CHUNK then
              r == Conn(c.parser.(state := ChunkSize, contentLength := Hex(digits)), c.nread + |digits|, c.log, false)
            else Failed(r)
    decreases |digits|
  {
    hide Step, Unhex;
    var n := |digits| - 1;
    var init := digits[..n];
    assert digits == init + [digits[n]];
    if n == 0 {
      assert init == [];
      FirstDigitStep(c, digits[0]);
    } else {
      ChunkSizeExact(c, init);
      if Hex(init) <= MAX_CHUNK {
        DigitStep(Run(c, init), digits[n]);
      } else {
        Stopped(Run(c, init), digits[n]);
      }
    }
  }

  // ----- the size line -----

  datatype Chunk = Chunk(size: seq<byte>, extension: seq<byte>, data: seq<byte>)

  /** An extension starts with a semicolon or a space and holds no CR. */
  predicate Extension(s: seq<byte>) {
    s != [] ==> (s[0] == Chr(';') || s[0] == SP) && forall i :: 0 <= i < |s| ==> s[i] != CR
  }

  /** A chunk whose size line fits the header limit. */
  predicate Proper(k: Chunk) {
    && HexDigits(k.size) && Hex(k.size) == |k.data| <= MAX_CHUNK
    && Extension(k.extension)
    && |k.size| + |k.extension| + 2 <= MAX_HEADER_SIZE
  }

  function SizeLine(k: Chunk): seq<byte> {
    k.size + k.extension + [CR, LF]
  }

  lemma {:induction false} SizeEndStep(c: Conn, ch: byte)
    requires c.Live() && c.parser.state.ChunkSize? && c.nread < MAX_HEADER_SIZE
    requires ch == CR || ch == Chr(';') || ch == SP
    ensures Step(c, ch) ==
            Conn(c.parser.(state := if ch == CR then ChunkSizeAlmostDone else ChunkParameters), c.nread + 1, c.log, false)
  {
    assert Unhex(CR) == -1 && Unhex(SP) == -1 && Unhex(Chr(';')) == -1;
    hide Switch, Step, Unhex, Finish;
    OnChunk(c.parser, ch);
    PlainAdvance(c, ch, SwitchChunk(c.parser, ch));
  }

  lemma {:induction false} ParameterStep(c: Conn, ch: byte)
    requires c.Live() && c.parser.state.ChunkParameters? && c.nread < MAX_HEADER_SIZE
    ensures Step(c, ch) ==
            Conn(c.parser.(state := if ch == CR then ChunkSizeAlmostDone else ChunkParameters), c.nread + 1, c.log, false)
  {
    hide Switch, Step, Finish;
    OnChunk(c.parser, ch);
    PlainAdvance(c, ch, SwitchChunk(c.parser, ch));
  }

  lemma {:induction false} SizeLfStep(c: Conn)
    requires c.Live() && c.parser.state.ChunkSizeAlmostDone? && c.nread < MAX_HEADER_SIZE
    ensures var p := c.parser;
            Step(c, LF) ==
            Conn(if p.contentLength == 0 then p.(flags := p.flags.(trailing := true), state := HeaderFieldStart)
                 else p.(state := ChunkData),
                 0, c.log + [Notified(ChunkHeader)], false)
  {
    hide Switch, Step, Finish;
    OnChunk(c.parser, LF);
    PlainAdvance(c, LF, SwitchChunk(c.parser, LF));
  }

  lemma {:induction false} ExtensionRun(c: Conn, ext: seq<byte>)
    requires c.Live() && c.parser.state.ChunkSize? && ext != [] && Extension(ext)
    requires c.nread + |ext| <= MAX_HEADER_SIZE
    ensures Run(c, ext) == Conn(c.parser.(state := ChunkParameters), c.nread + |ext|, c.log, false)
    decreases |ext|
  {
    hide Step;
    var n := |ext| - 1;
    var init := ext[..n];
    assert ext == init + [ext[n]];
    if n == 0 {
      assert init == [];
      SizeEndStep(c, ext[0]);
    } else {
      ExtensionRun(c, init);
      ParameterStep(Run(c, init), ext[n]);
    }
  }

  lemma {:induction false} RunTwo(c: Conn, a: byte, b: byte)
    ensures Run(c, [a, b]) == Step(Step(c, a), b)
  {
    hide Step;
    assert [a, b][..1] == [a] && [a][..0] == [];
    assert Run(c, [a]) == Step(Run(c, []), a);
  }

  lemma {:induction false} SizeLineRun(c: Conn, k: Chunk)
    requires c.Live() && c.parser.state.ChunkSizeStart? && c.nread == 0 && Proper(k)
    ensures var p := c.parser.(contentLength := |k.data|);
            Run(c, SizeLine(k)) ==
            Conn(if k.data == [] then p.(flags := p.flags.(trailing := true), state := HeaderFieldStart)
                 else p.(state := ChunkData),
                 0, c.log + [Notified(ChunkHeader)], false)
  {
    hide Step, Run, Hex, Unhex;
    ChunkSizeExact(c, k.size);
    var c1 := Run(c, k.size);
    RunConcat(c, k.size, k.extension);
    var c2 := Run(c, k.size + k.extension);
    if k.extension != [] {
      ExtensionRun(c1, k.extension);
      ParameterStep(c2, CR);
    } else {
      assert k.size + k.extension == k.size;
      SizeEndStep(c1, CR);
    }
    RunConcat(c, k.size + k.extension, [CR, LF]);
    RunTwo(c2, CR, LF);
    SizeLfStep(Step(c2, CR));
  }

  // ----- whole chunks -----

  function Encode(k: Chunk): seq<byte> {
    SizeLine(k) + k.data + [CR, LF]
  }

  function ChunkEvents(k: Chunk): seq<Event> {
    [Notified(ChunkHeader), Data(Body, k.data), Notified(ChunkComplete)]
  }

  lemma {:induction false} ChunkLfStep(c: Conn)
    requires c.Live() && c.parser.state.ChunkDataDone?
    ensures Step(c, LF) == Conn(c.parser.(state := ChunkSizeStart), 0, c.log + [Notified(ChunkComplete)], false)
  {
    hide Switch, ShouldKeepAlive;
    OnChunk(c.parser, LF);
  }

  lemma {:induction false} ChunkRun(c: Conn, k: Chunk)
    requires c.Live() && c.parser.state.ChunkSizeStart? && c.nread == 0 && Proper(k) && k.data != []
    ensures Run(c, Encode(k)) ==
            Conn(c.parser.(contentLength := 0), 0, c.log + ChunkEvents(k), false)
  {
    hide Step, Run, Proper;
    SizeLineRun(c, k);
    var c1 := Run(c, SizeLine(k));
    RunConcat(c, SizeLine(k), k.data);
    ChunkDataRun(c1, k.data);
    var c2 := Run(c1, k.data);
    RunConcat(c, SizeLine(k) + k.data, [CR, LF]);
    RunTwo(c2, CR, LF);
    ChunkDataEnd(c2, CR);
    ChunkLfStep(Step(c2, CR));
    assert c.log + [Notified(ChunkHeader)] + [Data(Body, k.data)] + [Notified(ChunkComplete)] == c.log + ChunkEvents(k);
  }

  function Chunks(chunks: seq<Chunk>): seq<byte> {
    if chunks == [] then [] else Chunks(chunks[..|chunks| - 1]) + Encode(chunks[|chunks| - 1])
  }

  function EventsOf(chunks: seq<Chunk>): seq<Event> {
    if chunks == [] then [] else EventsOf(chunks[..|chunks| - 1]) + ChunkEvents(chunks[|chunks| - 1])
  }

  lemma {:induction false} ChunksRun(c: Conn, chunks: seq<Chunk>)
    requires c.Live() && c.parser.state.ChunkSizeStart? && c.nread == 0
    requires forall i :: 0 <= i < |chunks| ==> Proper(chunks[i]) && chunks[i].data != []
    ensures var r := Run(c, Chunks(chunks));
            && r.Live() && r.parser.state.ChunkSizeStart? && r.nread == 0
            && r.log == c.log + EventsOf(chunks)
            && r.parser == c.parser.(contentLength := r.parser.contentLength)
    decreases |chunks|
  {
    hide Proper, Encode, ChunkEvents, Step;
    if chunks != [] {
      var init, k := chunks[..|chunks| - 1], chunks[|chunks| - 1];
      ChunksRun(c, init);
      hide Run;
      RunConcat(c, Chunks(init), Encode(k));
      ChunkRun(Run(c, Chunks(init)), k);
      assert c.log + EventsOf(init) + ChunkEvents(k) == c.log + (EventsOf(init) + ChunkEvents(k));
    } else {
      assert c.log + EventsOf(chunks) == c.log;
    }
  }

  // ----- the last chunk and the trailers -----

  lemma {:induction false} MessageEnd(m: Middle)
    requires m.parser.state.MessageDone? && m.mark.None?
    ensures Finish(m, LF) ==
            Conn(m.parser.(state := NewMessage(m.parser)), m.nread, m.log + [Notified(MessageComplete)], m.parser.upgrade)
  {
    hide NewMessage, Switch;
    OnBody(m.parser, LF);
  }

  lemma {:induction false} TrailersFinish(m: Middle)
    requires m.parser.state.HeadersAlmostDone? && m.parser.flags.trailing && m.mark.None?
    ensures Finish(m, LF) ==
            Conn(m.parser.(state := NewMessage(m.parser)), m.nread,
                 m.log + [Notified(ChunkComplete), Notified(MessageComplete)], m.parser.upgrade)
  {
    hide NewMessage, Switch, Finish;
    OnEnd(m.parser, LF);
    AgainFinish(m, LF);
    var done := m.parser.(state := MessageDone);
    MessageEnd(Middle(done, m.nread, m.log + [Notified(ChunkComplete)], None));
    MessageElsewhere(m.parser, MessageDone);
    assert m.log + [Notified(ChunkComplete)] + [Notified(MessageComplete)] ==
           m.log + [Notified(ChunkComplete), Notified(MessageComplete)];
  }

  lemma {:induction false} MessageElsewhere(p: Parser, s: State)
    ensures NewMessage(p.(state := s)) == NewMessage(p)
  {
  }

  /** The last chunk, trailer fields, and an empty line that may lack its CR. */
  datatype Tail = Tail(last: Chunk, trailers: seq<Header>, cr: bool)

  function Ending(t: Tail): seq<byte> {
    SizeLine(t.last) + (Block(t.trailers) + Break(t.cr))
  }

  predicate ProperTail(t: Tail) {
    && Proper(t.last) && t.last.data == []
    && AllWellFormed(t.trailers) && |Block(t.trailers)| + |Break(t.cr)| <= MAX_HEADER_SIZE
  }

  function EndLog(log: seq<Event>, t: Tail): seq<Event> {
    LogAll(log + [Notified(ChunkHeader)], t.trailers) + [Notified(ChunkComplete), Notified(MessageComplete)]
  }

  /** The parser at the first trailer. */
  function InTrailers(p: Parser): Parser {
    p.(flags := p.flags.(trailing := true), contentLength := 0, state := HeaderFieldStart)
  }

  /** What is kept or closed does not depend on the place of the parser. */
  lemma {:induction false} KeepElsewhere(p: Parser, q: Parser)
    requires q == p.(state := q.state, headerState := q.headerState, index := q.index)
    ensures NewMessage(q) == NewMessage(p)
  {
  }

  lemma {:induction false} EndingRun(c: Conn, t: Tail)
    requires c.Live() && c.parser.state.ChunkSizeStart? && c.nread == 0 && ProperTail(t)
    ensures var r := Run(c, Ending(t));
            if TakesAll(c.parser, t.trailers) then
              && r.parser.errno == Ok && r.log == EndLog(c.log, t) && r.exited == c.parser.upgrade
              && r.parser.state == NewMessage(WithAll(InTrailers(c.parser), t.trailers))
            else Failed(r)
  {
    hide Step, Run, Proper, Finish, Block, TakesAll, LogAll, NewMessage, AllWellFormed;
    SizeLineRun(c, t.last);
    var c1 := Run(c, SizeLine(t.last));
    RunConcat(c, SizeLine(t.last), Block(t.trailers) + Break(t.cr));
    TakesAlike(c.parser, c1.parser, t.trailers);
    var d := HeadersRun(c1, t.trailers, t.cr);
    if TakesAll(c.parser, t.trailers) {
      EndLine(d, t.cr);
      WithAllAlike(c1.parser, t.trailers);
      TrailersFinish(Middle(d.parser.(state := HeadersAlmostDone), d.nread + |Break(t.cr)|, d.log, None));
      KeepElsewhere(WithAll(c1.parser, t.trailers), d.parser.(state := HeadersAlmostDone));
    }
  }

  // Which trailers change nothing.

  lemma {:induction false} ChunkedNoEof(p: Parser)
    ensures p.flags.chunked ==> !NeedsEof(p)
  {
  }

  /** A field of any other name than Connection and Proxy-Connection leaves the options alone. */
  lemma {:induction false} OtherName(p: Parser, h: Header)
    requires !Named(h.name, CONNECTION) && !Named(h.name, PROXY_CONNECTION)
    ensures var f := WithHeader(p, h).flags;
            f.close == p.flags.close && f.keepAlive == p.flags.keepAlive && (p.flags.chunked ==> f.chunked)
  {
    hide Named, HeaderOf, Extends, Acceptable, Number, Recognised, Reported;
    HeaderOfExact(h.name);
    RecognisedKind(Codings, h.value, Close);
    RecognisedKind(Codings, h.value, KeepAlive);
  }

  lemma {:induction false} OtherNames(p: Parser, hs: seq<Header>)
    requires forall i :: 0 <= i < |hs| ==> !Named(hs[i].name, CONNECTION) && !Named(hs[i].name, PROXY_CONNECTION)
    ensures var f := WithAll(p, hs).flags;
            f.close == p.flags.close && f.keepAlive == p.flags.keepAlive && (p.flags.chunked ==> f.chunked)
    decreases |hs|
  {
    hide Named, WithHeader;
    if hs != [] {
      OtherNames(p, hs[..|hs| - 1]);
      OtherName(WithAll(p, hs[..|hs| - 1]), hs[|hs| - 1]);
    }
  }

  /** Trailers with other names than Connection and Proxy-Connection do not change whether the connection is kept. */
  lemma {:induction false} TrailersKeep(p: Parser, hs: seq<Header>)
    requires p.flags.chunked
    requires forall i :: 0 <= i < |hs| ==> !Named(hs[i].name, CONNECTION) && !Named(hs[i].name, PROXY_CONNECTION)
    ensures NewMessage(WithAll(p, hs)) == NewMessage(p)
  {
    hide Named, WithAll, NeedsEof;
    OtherNames(p, hs);
    WithAllAlike(p, hs);
    ChunkedNoEof(p);
    ChunkedNoEof(WithAll(p, hs));
  }

  /** Trailers are taken when none is a Content-Length. */
  lemma {:induction false} TrailersTaken(p: Parser, hs: seq<Header>)
    requires forall i :: 0 <= i < |hs| ==> !Named(hs[i].name, CONTENT_LENGTH)
    ensures TakesAll(p, hs)
    decreases |hs|
  {
    hide Named, HeaderOf, Acceptable, WithHeader;
    if hs != [] {
      TrailersTaken(p, hs[..|hs| - 1]);
      HeaderOfExact(hs[|hs| - 1].name);
    }
  }

  /** The wire form of a chunked body. */
  function Chunked(chunks: seq<Chunk>, t: Tail): seq<byte> {
    Chunks(chunks) + Ending(t)
  }

  predicate ChunkedBody(chunks: seq<Chunk>, t: Tail) {
    && (forall i :: 0 <= i < |chunks| ==> Proper(chunks[i]) && chunks[i].data != [])
    && ProperTail(t)
  }

  /**
   The parser reads every chunked body to its end, making exactly these callbacks: one chunk_header,
   one body and one chunk_complete for each chunk, the trailer fields, and one message_complete.  It
   fails exactly when a trailer is a Content-Length that it does not take.
   */
  lemma {:induction false} ChunkedRun(c: Conn, chunks: seq<Chunk>, t: Tail)
    requires c.Live() && c.parser.state.ChunkSizeStart? && c.nread == 0 && ChunkedBody(chunks, t)
    ensures var r := Run(c, Chunked(chunks, t));
            if TakesAll(c.parser, t.trailers) then
              && r.parser.errno == Ok && r.log == EndLog(c.log + EventsOf(chunks), t) && r.exited == c.parser.upgrade
              && r.parser.state == NewMessage(WithAll(InTrailers(c.parser), t.trailers))
            else Failed(r)
  {
    hide Run, Proper, EndLog, TakesAll, NewMessage, ProperTail, Ending, Chunks;
    ChunksRun(c, chunks);
    RunConcat(c, Chunks(chunks), Ending(t));
    var d := Run(c, Chunks(chunks));
    TakesAlike(c.parser, d.parser, t.trailers);
    EndingRun(d, t);
    assert InTrailers(d.parser) == InTrailers(c.parser);
  }

  // ----- what the callbacks add up to -----

  function BodyOf(events: seq<Event>): seq<byte> {
    if events == [] then []
    else
      var e := events[|events| - 1];
      BodyOf(events[..|events| - 1]) + if e.Data? && e.kind == Body then e.bytes else []
  }

  function Times(n: Note, events: seq<Event>): nat {
    if events == [] then 0
    else Times(n, events[..|events| - 1]) + if events[|events| - 1] == Notified(n) then 1 else 0
  }

  lemma {:induction false} BodyAppend(a: seq<Event>, b: seq<Event>)
    ensures BodyOf(a + b) == BodyOf(a) + BodyOf(b)
    decreases |b|
  {
    if b == [] {
      assert a + b == a;
    } else {
      assert (a + b)[..|a + b| - 1] == a + b[..|b| - 1];
      BodyAppend(a, b[..|b| - 1]);
    }
  }

  lemma {:induction false} TimesAppend(n: Note, a: seq<Event>, b: seq<Event>)
    ensures Times(n, a + b) == Times(n, a) + Times(n, b)
    decreases |b|
  {
    if b == [] {
      assert a + b == a;
    } else {
      assert (a + b)[..|a + b| - 1] == a + b[..|b| - 1];
      TimesAppend(n, a, b[..|b| - 1]);
    }
  }

  lemma {:induction false} BodySnoc(events: seq<Event>, e: Event)
    ensures BodyOf(events + [e]) == BodyOf(events) + if e.Data? && e.kind == Body then e.bytes else []
    ensures forall n :: Times(n, events + [e]) == Times(n, events) + if e == Notified(n) then 1 else 0
  {
    assert (events + [e])[..|events|] == events;
  }

  /** Joining adjacent pieces of data changes neither the body bytes nor the notifications. */
  lemma {:induction false} JoinedKeeps(events: seq<Event>, n: Note)
    ensures BodyOf(Joined(events)) == BodyOf(events) && Times(n, Joined(events)) == Times(n, events)
    decreases |events|
  {
    if events != [] {
      var init, e := events[..|events| - 1], events[|events| - 1];
      JoinedKeeps(init, n);
      AddKeeps(Joined(init), e, n);
    }
  }

  lemma {:induction false} AddKeeps(log: seq<Event>, e: Event, n: Note)
    ensures BodyOf(Add(log, e)) == BodyOf(log) + if e.Data? && e.kind == Body then e.bytes else []
    ensures Times(n, Add(log, e)) == Times(n, log) + if e == Notified(n) then 1 else 0
  {
    if e.Data? && EndsWith(log, e.kind) {
      var l := |log| - 1;
      BodySnoc(log[..l], Data(e.kind, log[l].bytes + e.bytes));
    } else {
      BodySnoc(log, e);
    }
  }

  function Payload(chunks: seq<Chunk>): seq<byte> {
    if chunks == [] then [] else Payload(chunks[..|chunks| - 1]) + chunks[|chunks| - 1].data
  }

  lemma {:induction false} EventsBody(chunks: seq<Chunk>)
    ensures BodyOf(EventsOf(chunks)) == Payload(chunks)
    ensures Times(ChunkComplete, EventsOf(chunks)) == |chunks| && Times(MessageComplete, EventsOf(chunks)) == 0
    decreases |chunks|
  {
    hide BodyOf, Times;
    if chunks == [] {
      NoEvents();
    } else {
      var init, k := chunks[..|chunks| - 1], chunks[|chunks| - 1];
      EventsBody(init);
      BodyAppend(EventsOf(init), ChunkEvents(k));
      TimesAppend(ChunkComplete, EventsOf(init), ChunkEvents(k));
      TimesAppend(MessageComplete, EventsOf(init), ChunkEvents(k));
      ThreeEvents(Notified(ChunkHeader), Data(Body, k.data), Notified(ChunkComplete));
    }
  }

  lemma {:induction false} NoEvents()
    ensures BodyOf([]) == [] && forall n :: Times(n, []) == 0
  {
  }

  lemma {:induction false} ThreeEvents(a: Event, b: Event, c: Event)
    requires !a.Data? && !c.Data?
    ensures BodyOf([a, b, c]) == if b.Data? && b.kind == Body then b.bytes else []
    ensures forall n :: Times(n, [a, b, c]) ==
                        (if a == Notified(n) then 1 else 0) + (if b == Notified(n) then 1 else 0)
                        + (if c == Notified(n) then 1 else 0)
  {
    hide BodyOf, Times;
    NoEvents();
    BodySnoc([], a);
    BodySnoc([a], b);
    BodySnoc([a, b], c);
    assert [] + [a] == [a] && [a] + [b] == [a, b] && [a, b] + [c] == [a, b, c];
  }

  // ----- any cut -----

  /** Pieces run one after the other. */
  function RunPieces(c: Conn, pieces: seq<seq<byte>>): Conn
    decreases |pieces|
  {
    if pieces == [] then c else RunPieces(Run(c, pieces[0]), pieces[1..])
  }

  /** The way the network cuts the bytes makes no difference. */
  lemma {:induction false} CutsAgree(c: Conn, pieces: seq<seq<byte>>)
    ensures RunPieces(c, pieces) == Run(c, Flatten(pieces))
    decreases |pieces|
  {
    hide Step;
    if pieces != [] {
      CutsAgree(Run(c, pieces[0]), pieces[1..]);
      RunConcat(c, pieces[0], Flatten(pieces[1..]));
    }
  }

  /** The names and values of headers are neither body bytes nor notifications. */
  lemma {:induction false} HeadersKeep(log: seq<Event>, hs: seq<Header>, n: Note)
    ensures BodyOf(LogAll(log, hs)) == BodyOf(log) && Times(n, LogAll(log, hs)) == Times(n, log)
    decreases |hs|
  {
    hide BodyOf, Times, Add, Reported;
    if hs != [] {
      var init, h := hs[..|hs| - 1], hs[|hs| - 1];
      HeadersKeep(log, init, n);
      var named := Add(LogAll(log, init), Data(DataKind.Field, h.name));
      AddKeeps(LogAll(log, init), Data(DataKind.Field, h.name), n);
      AddKeeps(named, Data(Value, Reported(h.value)), n);
    }
  }

  /** What the end of a chunked body adds to the callbacks. */
  lemma {:induction false} EndCounts(log: seq<Event>, t: Tail)
    ensures BodyOf(EndLog(log, t)) == BodyOf(log)
    ensures Times(ChunkComplete, EndLog(log, t)) == Times(ChunkComplete, log) + 1
    ensures Times(MessageComplete, EndLog(log, t)) == Times(MessageComplete, log) + 1
  {
    hide BodyOf, Times, LogAll;
    var begun := log + [Notified(ChunkHeader)];
    var ends := [Notified(ChunkComplete), Notified(MessageComplete)];
    HeadersKeep(begun, t.trailers, ChunkComplete);
    HeadersKeep(begun, t.trailers, MessageComplete);
    BodySnoc(log, Notified(ChunkHeader));
    var body := LogAll(begun, t.trailers);
    BodySnoc(body, Notified(ChunkComplete));
    BodySnoc(body + [Notified(ChunkComplete)], Notified(MessageComplete));
    assert body + [Notified(ChunkComplete)] + [Notified(MessageComplete)] == body + ends;
    assert BodyOf(log) + [] == BodyOf(log);
  }

  /** Chunked transfer, for every list of chunks, every trailer section and every way its encoding is cut. */
  lemma {:induction false} ChunkedTransfer(c: Conn, chunks: seq<Chunk>, t: Tail, pieces: seq<seq<byte>>)
    requires c.Live() && c.parser.state.ChunkSizeStart? && c.nread == 0 && ChunkedBody(chunks, t)
    requires Flatten(pieces) == Chunked(chunks, t)
    ensures var r := RunPieces(c, pieces);
            if TakesAll(c.parser, t.trailers) then
              && r.parser.errno == Ok
              && BodyOf(r.log) == BodyOf(c.log) + Payload(chunks)
              && Times(ChunkComplete, r.log) == Times(ChunkComplete, c.log) + |chunks| + 1
              && Times(MessageComplete, r.log) == Times(MessageComplete, c.log) + 1
            else Failed(r)
  {
    hide Run, Step, BodyOf, Times, Chunked, ChunkedBody, RunPieces, Flatten, EndLog, TakesAll, NewMessage;
    CutsAgree(c, pieces);
    ChunkedRun(c, chunks, t);
    EventsBody(chunks);
    var events := EventsOf(chunks);
    BodyAppend(c.log, events);
    TimesAppend(ChunkComplete, c.log, events);
    TimesAppend(MessageComplete, c.log, events);
    EndCounts(c.log + events, t);
  }
}
