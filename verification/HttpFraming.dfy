/**
 Where a message ends and whether the connection persists: what the parser makes of any block of
 headers, against sections 3.3.3 and 6.3 of RFC 7230 read over the same header values.
 */
module HttpFraming {
  import opened Basics
  import opened HttpSyntax
  import opened HttpMachine
  import opened HttpScan
  import opened HttpValues
  import opened HttpNames
  import opened HttpLists
  import opened HttpListRuns
  import opened HttpContentLength
  import opened HttpHeaders

  // ----- what the RFC reads in the headers -----

  /** The values of all header lines of a name, in order. */
  function Values(hs: seq<Header>, word: string): seq<seq<Item>> {
    if hs == [] then []
    else Values(hs[..|hs| - 1], word) + if Named(hs[|hs| - 1].name, word) then [hs[|hs| - 1].value] else []
  }

  /** At most one Content-Length, with a value that the parser takes. */
  ghost predicate LengthsFine(hs: seq<Header>) {
    && (forall i :: 0 <= i < |hs| && Named(hs[i].name, CONTENT_LENGTH) ==> Acceptable(hs[i].value))
    && (forall i, j :: 0 <= i < j < |hs| ==> !(Named(hs[i].name, CONTENT_LENGTH) && Named(hs[j].name, CONTENT_LENGTH)))
  }

  /** The announced length. */
  ghost function Announced(hs: seq<Header>): Option<nat>
    requires LengthsFine(hs)
  {
    if i :| 0 <= i < |hs| && Named(hs[i].name, CONTENT_LENGTH) then Some(Number(hs[i].value)) else None
  }

  predicate HasHeader(hs: seq<Header>, word: string) {
    exists i :: 0 <= i < |hs| && Named(hs[i].name, word)
  }

  /** The ways to find the end of a message body; a length of zero is no body. */
  datatype Framing = NoBody | Chunks | Length(n: nat) | UntilClose | Refusal

  /** Rule 1: these responses never have a body. */
  predicate Bodiless(p: Parser) {
    p.kind != Request && (p.statusCode / 100 == 1 || p.statusCode == 204 || p.statusCode == 304)
  }

  ghost function Rfc(p: Parser, hs: seq<Header>): Framing
    requires LengthsFine(hs)
  {
    if Bodiless(p) then NoBody
    else if HasHeader(hs, TRANSFER_ENCODING) then
      if FinallyChunked(Values(hs, TRANSFER_ENCODING)) then Chunks else if p.kind == Request then Refusal else UntilClose
    else if Announced(hs).Some? then if Announced(hs).value == 0 then NoBody else Length(Announced(hs).value)
    else if p.kind == Request then NoBody
    else UntilClose
  }

  /** Rule 3: a message with both headers may be refused. */
  ghost predicate Permits(p: Parser, hs: seq<Header>, f: Framing)
    requires LengthsFine(hs)
  {
    f == Rfc(p, hs) || (f == Refusal && HasHeader(hs, TRANSFER_ENCODING) && Announced(hs).Some?)
  }

  /** HTTP/1.1 or later. */
  predicate Persistent(p: Parser) {
    p.httpMajor > 1 || (p.httpMajor == 1 && p.httpMinor >= 1)
  }

  /** Section 6.3: without close, from 1.1 on or when keep-alive asks for it. */
  predicate OptionsPersist(p: Parser, hs: seq<Header>) {
    !HasOption(Values(hs, CONNECTION), Close) && (Persistent(p) || HasOption(Values(hs, CONNECTION), KeepAlive))
  }

  ghost predicate Persists(p: Parser, hs: seq<Header>)
    requires LengthsFine(hs)
  {
    OptionsPersist(p, hs) && Rfc(p, hs) != UntilClose
  }

  // ----- what the parser reads in the headers -----

  /** The names under which it looks for a list. */
  predicate ListName(name: seq<byte>, kind: Kind) {
    if kind == Codings then Named(name, TRANSFER_ENCODING) else Named(name, CONNECTION) || Named(name, PROXY_CONNECTION)
  }

  /** A header line in which an element that the parser sees is the word. */
  predicate Sets(h: Header, w: Word) {
    ListName(h.name, KindOf(w)) && Found(KindOf(w), h.value, w)
  }

  predicate AnySets(hs: seq<Header>, w: Word) {
    exists i :: 0 <= i < |hs| && Sets(hs[i], w)
  }

  /** A name that begins with Transfer-Encoding. */
  predicate AnyExtends(hs: seq<Header>) {
    exists i :: 0 <= i < |hs| && Extends(hs[i].name, TRANSFER_ENCODING)
  }

  predicate AnyUpgrade(hs: seq<Header>) {
    exists i :: 0 <= i < |hs| && Named(hs[i].name, UPGRADE) && Reported(hs[i].value) != []
  }

  /** The parser at the first header of a message. */
  predicate Starts(c: Conn) {
    && c.Live() && c.parser.state.HeaderFieldStart?
    && c.parser.flags == NO_FLAGS && !c.parser.usesTransferEncoding && c.parser.contentLength == NO_LENGTH
  }

  /** What the parser has made of the headers. */
  ghost predicate Summed(q: Parser, hs: seq<Header>)
    requires LengthsFine(hs)
  {
    && q.flags == Flags(AnySets(hs, Chunked), AnySets(hs, KeepAlive), AnySets(hs, Close), AnySets(hs, UpgradeWord),
                        false, AnyUpgrade(hs), false, Announced(hs).Some?)
    && q.usesTransferEncoding == AnyExtends(hs)
    && q.contentLength == if Announced(hs).Some? then Announced(hs).value else NO_LENGTH
  }

  // Adding one more header.

  lemma {:induction false} SetsExactly(h: Header, w: Word)
    ensures Sets(h, w) <==> HeaderOf(h.name) == StateOf(KindOf(w), Lead) && w in Recognised(KindOf(w), h.value)
  {
    hide Named, HeaderOf, Found, Recognised;
    HeaderOfExact(h.name);
    RecognisedExact(KindOf(w), h.value, w);
  }

  lemma {:induction false} AnySnoc(hs: seq<Header>, h: Header, w: Word)
    ensures AnySets(hs + [h], w) <==> AnySets(hs, w) || Sets(h, w)
    ensures AnyExtends(hs + [h]) <==> AnyExtends(hs) || Extends(h.name, TRANSFER_ENCODING)
    ensures AnyUpgrade(hs + [h]) <==> AnyUpgrade(hs) || (Named(h.name, UPGRADE) && Reported(h.value) != [])
  {
    hide Sets, Extends, Named, Reported;
    var more := hs + [h];
    assert more[|hs|] == h;
    assert forall i :: 0 <= i < |hs| ==> more[i] == hs[i];
  }

  lemma {:induction false} FineSnoc(hs: seq<Header>, h: Header)
    ensures LengthsFine(hs + [h]) <==>
            LengthsFine(hs) && (Named(h.name, CONTENT_LENGTH) ==> Acceptable(h.value) && !HasHeader(hs, CONTENT_LENGTH))
  {
    hide Named, Acceptable;
    var more := hs + [h];
    assert more[|hs|] == h;
    assert forall i :: 0 <= i < |hs| ==> more[i] == hs[i];
    if LengthsFine(more) {
      assert forall i :: 0 <= i < |hs| && Named(hs[i].name, CONTENT_LENGTH) ==> Named(more[i].name, CONTENT_LENGTH);
    }
  }

  /** The announced length is the number of the one Content-Length header. */
  lemma {:induction false} AnnouncedIs(hs: seq<Header>)
    requires LengthsFine(hs)
    ensures Announced(hs).Some? <==> HasHeader(hs, CONTENT_LENGTH)
    ensures forall i :: 0 <= i < |hs| && Named(hs[i].name, CONTENT_LENGTH) ==> Announced(hs) == Some(Number(hs[i].value))
  {
    hide Named, Acceptable, Number;
    if HasHeader(hs, CONTENT_LENGTH) {
      var j :| 0 <= j < |hs| && Named(hs[j].name, CONTENT_LENGTH) && Announced(hs) == Some(Number(hs[j].value));
      forall i | 0 <= i < |hs| && Named(hs[i].name, CONTENT_LENGTH) ensures i == j {
      }
    }
  }

  lemma {:induction false} AnnouncedSnoc(hs: seq<Header>, h: Header)
    requires LengthsFine(hs) && LengthsFine(hs + [h])
    ensures Named(h.name, CONTENT_LENGTH) ==> Acceptable(h.value)
    ensures Announced(hs + [h]) == if Named(h.name, CONTENT_LENGTH) then Some(Number(h.value)) else Announced(hs)
  {
    hide Named, Acceptable, Number, Announced;
    var more := hs + [h];
    AnnouncedIs(hs);
    AnnouncedIs(more);
    assert more[|hs|] == h;
    assert forall i :: 0 <= i < |hs| ==> more[i] == hs[i];
    if !Named(h.name, CONTENT_LENGTH) && HasHeader(hs, CONTENT_LENGTH) {
      var i :| 0 <= i < |hs| && Named(hs[i].name, CONTENT_LENGTH);
      assert Named(more[i].name, CONTENT_LENGTH);
    }
  }

  function FlagOf(f: Flags, w: Word): bool {
    match w
    case Chunked => f.chunked
    case KeepAlive => f.keepAlive
    case Close => f.close
    case UpgradeWord => f.connectionUpgrade
  }

  /** What a header does to a flag of a word, and to the other fields. */
  lemma {:induction false} HeaderWord(q: Parser, h: Header, w: Word)
    ensures FlagOf(WithHeader(q, h).flags, w) == (FlagOf(q.flags, w) || Sets(h, w))
  {
    hide Sets, Extends, HeaderOf, Recognised, Reported, Number, Acceptable;
    SetsExactly(h, w);
    RecognisedKind(Codings, h.value, w);
    RecognisedKind(Options, h.value, w);
  }

  lemma {:induction false} ValueRest(p: Parser, g: HeaderState, items: seq<Item>)
    requires g == ContentLength ==> Acceptable(items)
    ensures var r := WithValue(p, g, items);
            && r.flags.upgrade == (p.flags.upgrade || (g == Upgrade && Reported(items) != []))
            && r.contentLength == (if g == ContentLength then Number(items) else p.contentLength)
  {
    hide Acceptable, Number, Recognised, WithWords, Reported;
    if g == TransferEncoding {
      WordsKeep(p.flags, Recognised(Codings, items));
    } else if g == Connection {
      WordsKeep(p.flags, Recognised(Options, items));
    }
  }

  lemma {:induction false} HeaderRest(q: Parser, h: Header)
    requires Named(h.name, CONTENT_LENGTH) ==> Acceptable(h.value)
    ensures var r := WithHeader(q, h);
            && r.flags.trailing == q.flags.trailing && r.flags.skipBody == q.flags.skipBody
            && r.flags.upgrade == (q.flags.upgrade || (Named(h.name, UPGRADE) && Reported(h.value) != []))
            && r.flags.contentLength == (q.flags.contentLength || Named(h.name, CONTENT_LENGTH))
            && r.contentLength == (if Named(h.name, CONTENT_LENGTH) then Number(h.value) else q.contentLength)
            && r.usesTransferEncoding == (q.usesTransferEncoding || Extends(h.name, TRANSFER_ENCODING))
            && r == q.(flags := r.flags, contentLength := r.contentLength, usesTransferEncoding := r.usesTransferEncoding)
  {
    hide Extends, HeaderOf, Named, Reported, Number, Acceptable, WithValue;
    HeaderOfExact(h.name);
    var p := q.(usesTransferEncoding := q.usesTransferEncoding || Extends(h.name, TRANSFER_ENCODING));
    ValueRest(p, HeaderOf(h.name), h.value);
    ValueKeeps(p, HeaderOf(h.name), h.value);
  }

  lemma {:induction false} SameFlags(f: Flags, g: Flags)
    requires forall w :: FlagOf(f, w) == FlagOf(g, w)
    requires f.trailing == g.trailing && f.skipBody == g.skipBody && f.upgrade == g.upgrade && f.contentLength == g.contentLength
    ensures f == g
  {
    assert FlagOf(f, Chunked) == FlagOf(g, Chunked) && FlagOf(f, KeepAlive) == FlagOf(g, KeepAlive);
    assert FlagOf(f, Close) == FlagOf(g, Close) && FlagOf(f, UpgradeWord) == FlagOf(g, UpgradeWord);
  }

  /** One more header that the parser takes adds to the sums just what it says. */
  lemma {:induction false} SummedSnoc(q: Parser, hs: seq<Header>, h: Header)
    requires LengthsFine(hs) && LengthsFine(hs + [h]) && Summed(q, hs)
    ensures Summed(WithHeader(q, h), hs + [h])
  {
    hide AnySets, AnyExtends, AnyUpgrade, Sets, Extends, Named, Reported, LengthsFine, Announced, Number, Acceptable, WithHeader;
    AnnouncedSnoc(hs, h);
    LastAcceptable(hs, h);
    HeaderRest(q, h);
    var f := WithHeader(q, h).flags;
    var more := hs + [h];
    var g := Flags(AnySets(more, Chunked), AnySets(more, KeepAlive), AnySets(more, Close), AnySets(more, UpgradeWord),
                   false, AnyUpgrade(more), false, Announced(more).Some?);
    forall w ensures FlagOf(f, w) == FlagOf(g, w) {
      AnySnoc(hs, h, w);
      HeaderWord(q, h, w);
    }
    AnySnoc(hs, h, Chunked);
    SameFlags(f, g);
  }

  lemma {:induction false} LastAcceptable(hs: seq<Header>, h: Header)
    requires LengthsFine(hs + [h])
    ensures Named(h.name, CONTENT_LENGTH) ==> Acceptable(h.value)
  {
    hide Named, Acceptable;
    assert (hs + [h])[|hs|] == h;
  }

  lemma {:induction false} SummedNone(q: Parser)
    requires q.flags == NO_FLAGS && !q.usesTransferEncoding && q.contentLength == NO_LENGTH
    ensures LengthsFine([]) && Summed(q, [])
  {
  }

  /** The headers are taken exactly when their lengths are fine, and the parser then holds their sums. */
  lemma {:induction false} SummedAll(p: Parser, hs: seq<Header>)
    requires p.flags == NO_FLAGS && !p.usesTransferEncoding && p.contentLength == NO_LENGTH
    ensures TakesAll(p, hs) <==> LengthsFine(hs)
    ensures LengthsFine(hs) ==> Summed(WithAll(p, hs), hs)
    decreases |hs|
  {
    hide Summed, LengthsFine, WithHeader, Takes;
    if hs == [] {
      SummedNone(p);
    } else {
      var init, h := hs[..|hs| - 1], hs[|hs| - 1];
      assert hs == init + [h];
      SummedAll(p, init);
      FineSnoc(init, h);
      if LengthsFine(init) {
        TakesExactly(WithAll(p, init), init, h);
        if LengthsFine(hs) {
          SummedSnoc(WithAll(p, init), init, h);
        }
      }
    }
  }

  lemma {:induction false} TakesExactly(q: Parser, hs: seq<Header>, h: Header)
    requires LengthsFine(hs) && Summed(q, hs)
    ensures Takes(q, h) <==> (Named(h.name, CONTENT_LENGTH) ==> Acceptable(h.value) && !HasHeader(hs, CONTENT_LENGTH))
  {
    hide LengthsFine, HasHeader, Acceptable, Named, HeaderOf, AnySets, AnyExtends, AnyUpgrade, Announced;
    HeaderOfExact(h.name);
    AnnouncedIs(hs);
  }

  /** Headers whose lengths are not fine make the parser fail. */
  lemma {:induction false} LengthsRefused(c: Conn, hs: seq<Header>, cr: bool)
    requires Starts(c) && AllWellFormed(hs) && !LengthsFine(hs)
    requires c.nread + |Block(hs)| + |Break(cr)| <= MAX_HEADER_SIZE
    ensures Failed(Run(c, Block(hs) + Break(cr)))
  {
    hide Run, Block, TakesAll, LengthsFine, AllWellFormed, NextLine;
    SummedAll(c.parser, hs);
    var _ := HeadersRun(c, hs, cr);
  }

  // ----- the end of the headers -----

  /** Whether the connection is to go over to another protocol. */
  function Upgraded(p: Parser): bool {
    if p.flags.upgrade && p.flags.connectionUpgrade then p.kind == Request || p.statusCode == 101 else p.method_ == CONNECT
  }

  lemma {:induction false} HeadersFinish(m: Middle)
    requires m.parser.state.HeadersAlmostDone? && !m.parser.flags.trailing && m.mark.None?
    ensures Finish(m, LF) ==
            if LengthConflict(m.parser) then Conn(m.parser.(errno := UnexpectedContentLength), m.nread, m.log, false)
            else Finish(Middle(m.parser.(upgrade := Upgraded(m.parser), state := HeadersDone), m.nread,
                               Add(m.log, Notified(HeadersComplete)), None), LF)
  {
    hide Switch, LengthConflict, Add;
    OnEnd(m.parser, LF);
    if !LengthConflict(m.parser) {
      AgainFinish(m, LF);
    }
  }

  lemma {:induction false} OnDone(p: Parser, ch: byte)
    requires p.state.HeadersDone?
    ensures Switch(p, ch) == BodyStart(p, ch)
  {
    hide SwitchResponse, SwitchStatus, SwitchRequest, SwitchUrl, SwitchVersion, SwitchField, SwitchValue, HeadersEnd,
         BodyStart, SwitchBody, SwitchIdle, SwitchFold, SwitchChunk;
  }

  lemma {:induction false} BodyFinish(m: Middle)
    requires m.parser.state.HeadersDone? && m.mark.None?
    ensures var e, r := BodyStart(m.parser, LF), Finish(m, LF);
            && r.parser == e.parser.(state := e.state, errno := if e.next.Stop? then e.next.errno else e.parser.errno)
            && r.exited == e.next.Exit?
            && r.log == if e.actions.Nothing? then m.log else Add(m.log, Notified(MessageComplete))
  {
    hide Switch, NewMessage, NeedsEof, Add;
    OnDone(m.parser, LF);
  }

  // ----- framing -----

  /** How the parser goes on after the headers. */
  function Outcome(r: Conn): Option<Framing> {
    if r.parser.errno == UnexpectedContentLength || r.parser.errno == InvalidTransferEncoding then Some(Refusal)
    else if r.parser.errno != Ok || r.exited then None
    else
      match r.parser.state
      case ChunkSizeStart => Some(Chunks)
      case BodyIdentity => Some(Length(r.parser.contentLength))
      case BodyIdentityEof => Some(UntilClose)
      case Dead => Some(NoBody)
      case StartReq => Some(NoBody)
      case StartRes => Some(NoBody)
      case _ => None
  }

  predicate HasBody(q: Parser) {
    q.flags.chunked || (q.contentLength > 0 && q.contentLength != NO_LENGTH)
  }

  /** It leaves for another protocol. */
  predicate Leaves(q: Parser) {
    !LengthConflict(q) && Upgraded(q) && (q.method_ == CONNECT || !HasBody(q))
  }

  /** The framing that it decides on, unless it leaves. */
  function Decided(q: Parser): Framing {
    if LengthConflict(q) then Refusal
    else if q.flags.chunked then Chunks
    else if q.usesTransferEncoding then if q.kind == Request && !q.lenient then Refusal else UntilClose
    else if q.contentLength == 0 then NoBody
    else if q.contentLength != NO_LENGTH then Length(q.contentLength)
    else if q.kind == Request || Bodiless(q) then NoBody
    else UntilClose
  }

  lemma {:induction false} BodyOutcome(q: Parser, n: nat, log: seq<Event>)
    requires q.state.HeadersDone? && q.errno == Ok && !q.flags.skipBody && q.upgrade == Upgraded(q) && !LengthConflict(q)
    ensures var r := Finish(Middle(q, n, log, None), LF);
            && r.exited == Leaves(q)
            && (!r.exited ==> Outcome(r) == Some(Decided(q)))
            && r.parser == q.(state := r.parser.state, errno := r.parser.errno)
  {
    hide Finish, ShouldKeepAlive, LengthConflict, Add, Upgraded;
    BodyFinish(Middle(q, n, log, None));
  }

  lemma {:induction false} EndOutcome(q: Parser, n: nat, log: seq<Event>)
    requires q.state.HeadersAlmostDone? && q.errno == Ok && !q.flags.skipBody && !q.flags.trailing
    ensures var r := Finish(Middle(q, n, log, None), LF);
            && r.exited == Leaves(q)
            && (!r.exited ==> Outcome(r) == Some(Decided(q)))
            && r.parser == q.(state := r.parser.state, errno := r.parser.errno, upgrade := r.parser.upgrade)
  {
    hide Finish, LengthConflict, Add, Decided;
    HeadersFinish(Middle(q, n, log, None));
    if !LengthConflict(q) {
      var p := q.(upgrade := Upgraded(q), state := HeadersDone);
      DecidedElsewhere(q, p);
      BodyOutcome(p, n, Add(log, Notified(HeadersComplete)));
    } else {
      Conflicted(q);
    }
  }

  lemma {:induction false} DecidedElsewhere(q: Parser, p: Parser)
    requires p == q.(upgrade := p.upgrade, state := p.state, errno := p.errno)
    ensures Decided(p) == Decided(q) && Leaves(p) == Leaves(q) && LengthConflict(p) == LengthConflict(q) && Upgraded(p) == Upgraded(q)
  {
  }

  lemma {:induction false} Conflicted(q: Parser)
    requires LengthConflict(q)
    ensures Decided(q) == Refusal && !Leaves(q)
  {
  }

  /** A message whose headers are taken: the parser holds their sums and decides from them. */
  lemma {:induction false} Conclusion(c: Conn, hs: seq<Header>, cr: bool)
    requires Starts(c) && AllWellFormed(hs) && LengthsFine(hs)
    requires c.nread + |Block(hs)| + |Break(cr)| <= MAX_HEADER_SIZE
    ensures var r := Run(c, Block(hs) + Break(cr));
            var p := r.parser;
            && Summed(p, hs) && Alike(p, c.parser)
            && r.exited == Leaves(p)
            && (!r.exited ==> Outcome(r) == Some(Decided(p)))
  {
    hide Run, Block, LengthsFine, AllWellFormed, Summed, Decided, Leaves, Outcome, LogAll, WithAll, Alike, Starts;
    StartsClean(c);
    SummedAll(c.parser, hs);
    var d := HeadersRun(c, hs, cr);
    WithAllAlike(c.parser, hs);
    EmptyLine(d, WithAll(c.parser, hs), hs, cr);
    AlikeTwice(Run(d, Break(cr)).parser, WithAll(c.parser, hs), c.parser);
  }

  lemma {:induction false} StartsClean(c: Conn)
    requires Starts(c)
    ensures c.Live() && c.parser.state.HeaderFieldStart?
    ensures c.parser.flags == NO_FLAGS && !c.parser.usesTransferEncoding && c.parser.contentLength == NO_LENGTH
  {
  }

  lemma {:induction false} AlikeTwice(p: Parser, q: Parser, r: Parser)
    requires Alike(p, q) && Alike(q, r)
    ensures Alike(p, r)
  {
  }

  /** The empty line, read by a parser that holds the sums of the headers. */
  lemma {:induction false} EmptyLine(d: Conn, p: Parser, hs: seq<Header>, cr: bool)
    requires d.Live() && d.parser == p.(state := HeaderFieldStart, headerState := d.parser.headerState, index := d.parser.index)
    requires LengthsFine(hs) && Summed(p, hs) && d.nread + |Break(cr)| <= MAX_HEADER_SIZE
    ensures var r := Run(d, Break(cr));
            && Summed(r.parser, hs) && Alike(r.parser, p)
            && r.exited == Leaves(r.parser)
            && (!r.exited ==> Outcome(r) == Some(Decided(r.parser)))
  {
    hide Run, LengthsFine, Summed, Decided, Leaves, Outcome, Finish;
    EndLine(d, cr);
    var q := d.parser.(state := HeadersAlmostDone);
    SummedElsewhere(p, q, hs);
    SummedFlags(q, hs);
    EndOutcome(q, d.nread + |Break(cr)|, d.log);
    DecidedElsewhere(q, Run(d, Break(cr)).parser);
    SummedElsewhere(q, Run(d, Break(cr)).parser, hs);
  }

  lemma {:induction false} SummedElsewhere(p: Parser, q: Parser, hs: seq<Header>)
    requires LengthsFine(hs) && Summed(p, hs)
    requires q == p.(state := q.state, headerState := q.headerState, index := q.index, errno := q.errno, upgrade := q.upgrade)
    ensures Summed(q, hs)
  {
    hide LengthsFine, AnySets, AnyExtends, AnyUpgrade, Announced;
  }

  lemma {:induction false} SummedFlags(p: Parser, hs: seq<Header>)
    requires LengthsFine(hs) && Summed(p, hs)
    ensures !p.flags.skipBody && !p.flags.trailing
  {
    hide LengthsFine, AnySets, AnyExtends, AnyUpgrade, Announced;
  }

  /** A whole name begins with itself; only Transfer-Encoding lines set chunked. */
  lemma {:induction false} ChunkedHas(hs: seq<Header>)
    ensures AnySets(hs, Chunked) ==> HasHeader(hs, TRANSFER_ENCODING)
    ensures HasHeader(hs, TRANSFER_ENCODING) ==> AnyExtends(hs)
  {
    hide NameBegins, Found;
    if HasHeader(hs, TRANSFER_ENCODING) {
      var i :| 0 <= i < |hs| && Named(hs[i].name, TRANSFER_ENCODING);
      assert hs[i].name[..|TRANSFER_ENCODING|] == hs[i].name;
      assert Extends(hs[i].name, TRANSFER_ENCODING);
    }
  }

  /**
   When the framing is right.  Without a Transfer-Encoding header: there is no header whose name merely
   begins with it, and a response without a body announces none; or such a name comes in a response
   that is to run until the end anyway.  With one: a length beside it is refused, or the message may
   have a body, the lines set chunked exactly if it is the final coding, and no request is let through.
   */
  ghost predicate FramedRight(p: Parser, hs: seq<Header>)
    requires LengthsFine(hs)
  {
    var chunked := AnySets(hs, Chunked);
    if HasHeader(hs, TRANSFER_ENCODING) then
      || (Announced(hs).Some? && if chunked then !p.allowChunkedLength else !p.lenient)
      || (!Bodiless(p) && chunked == FinallyChunked(Values(hs, TRANSFER_ENCODING))
          && (p.kind == Request ==> chunked || !p.lenient))
    else if AnyExtends(hs) then p.kind != Request && !Bodiless(p) && Announced(hs).None?
    else Bodiless(p) ==> Announced(hs).None? || Announced(hs).value == 0
  }

  /**
   After any block of headers that it takes, the parser frames the message as section 3.3.3 permits
   exactly when FramedRight, unless it leaves for another protocol.
   */
  lemma {:induction false} FramingExact(c: Conn, hs: seq<Header>, cr: bool)
    requires Starts(c) && AllWellFormed(hs) && LengthsFine(hs)
    requires c.nread + |Block(hs)| + |Break(cr)| <= MAX_HEADER_SIZE
    ensures var r := Run(c, Block(hs) + Break(cr));
            r.exited || ((Outcome(r).Some? && Permits(c.parser, hs, Outcome(r).value)) <==> FramedRight(c.parser, hs))
  {
    hide Run, Block, LengthsFine, AllWellFormed, Leaves, Outcome, AnySets, AnyExtends, AnyUpgrade, Announced, HasHeader, FinallyChunked,
         Values;
    Conclusion(c, hs, cr);
    ChunkedHas(hs);
    LengthRange(hs);
  }

  lemma {:induction false} LengthRange(hs: seq<Header>)
    requires LengthsFine(hs)
    ensures Announced(hs).Some? ==> Announced(hs).value <= MAX_LENGTH
  {
    hide Named, Number, Acceptable;
    AnnouncedIs(hs);
    if Announced(hs).Some? {
      var i :| 0 <= i < |hs| && Named(hs[i].name, CONTENT_LENGTH);
      NumberRange(hs[i].value);
    }
  }

  lemma {:induction false} NumberRange(items: seq<Item>)
    requires Acceptable(items)
    ensures Number(items) <= MAX_LENGTH
  {
    hide Dec;
  }

  /** The parser waits for the end of input exactly for a response that the RFC delimits by it, when EofRight. */
  ghost predicate EofRight(p: Parser, hs: seq<Header>)
    requires LengthsFine(hs)
  {
    || p.kind == Request || Bodiless(p)
    || if HasHeader(hs, TRANSFER_ENCODING) then AnySets(hs, Chunked) == FinallyChunked(Values(hs, TRANSFER_ENCODING))
       else !AnyExtends(hs) || Announced(hs).None?
  }

  lemma {:induction false} NeedsEofExact(c: Conn, hs: seq<Header>, cr: bool)
    requires Starts(c) && AllWellFormed(hs) && LengthsFine(hs)
    requires c.nread + |Block(hs)| + |Break(cr)| <= MAX_HEADER_SIZE
    ensures var r := Run(c, Block(hs) + Break(cr));
            (NeedsEof(r.parser) <==> Rfc(c.parser, hs) == UntilClose) <==> EofRight(c.parser, hs)
  {
    hide Run, Block, LengthsFine, AllWellFormed, Leaves, Outcome, AnySets, AnyExtends, AnyUpgrade, Announced, HasHeader, FinallyChunked,
         Values, Decided;
    Conclusion(c, hs, cr);
    ChunkedHas(hs);
    LengthRange(hs);
  }

  /** What the parser makes of version and options. */
  predicate OptionsKeep(p: Parser, hs: seq<Header>) {
    if p.httpMajor > 0 && p.httpMinor > 0 then !AnySets(hs, Close) else AnySets(hs, KeepAlive)
  }

  /**
   When the connection is kept as it should be.  Where the parser is right about the end of input: the
   message runs to that end, or the options are read as they should be for the version; a version x.0
   from 2.0 on is taken for an old one.  Where it is wrong: the side that would keep the connection is
   overruled by the options.
   */
  ghost predicate KeptRight(p: Parser, hs: seq<Header>)
    requires LengthsFine(hs)
  {
    var close := HasOption(Values(hs, CONNECTION), Close);
    if EofRight(p, hs) then
      || Rfc(p, hs) == UntilClose
      || if p.httpMajor > 0 && p.httpMinor > 0 then AnySets(hs, Close) == close
         else if p.httpMajor > 1 then AnySets(hs, KeepAlive) == !close
         else AnySets(hs, KeepAlive) == (HasOption(Values(hs, CONNECTION), KeepAlive) && !close)
    else if HasHeader(hs, TRANSFER_ENCODING) && AnySets(hs, Chunked) then !OptionsKeep(p, hs)
    else !OptionsPersist(p, hs)
  }

  /** After any block of headers the connection persists as section 6.3 says exactly when KeptRight. */
  lemma {:induction false} KeepAliveExact(c: Conn, hs: seq<Header>, cr: bool)
    requires Starts(c) && AllWellFormed(hs) && LengthsFine(hs)
    requires c.nread + |Block(hs)| + |Break(cr)| <= MAX_HEADER_SIZE
    ensures var r := Run(c, Block(hs) + Break(cr));
            (ShouldKeepAlive(r.parser) <==> Persists(c.parser, hs)) <==> KeptRight(c.parser, hs)
  {
    hide Run, Block, LengthsFine, AllWellFormed, Leaves, Outcome, AnySets, AnyExtends, AnyUpgrade, Announced, HasHeader, FinallyChunked,
         Values, Decided, HasOption;
    Conclusion(c, hs, cr);
    NeedsEofExact(c, hs, cr);
    ChunkedHas(hs);
    LengthRange(hs);
  }

  // ----- headers that are read as they should be -----

  predicate OrdinaryValue(kind: Kind, items: seq<Item>) {
    forall k :: 0 <= k < |Split(items, false)| ==> Ordinary(kind, Split(items, false)[k])
  }

  lemma {:induction false} OptionSnoc(values: seq<seq<Item>>, v: seq<Item>, w: Word)
    ensures HasOption(values + [v], w) <==> HasOption(values, w) || HasOption([v], w)
  {
    hide Split, Denotes;
    var more := values + [v];
    OneLine(v, w);
    assert more[|values|] == v && forall i :: 0 <= i < |values| ==> more[i] == values[i];
    forall i, k | 0 <= i < |values| && 0 <= k < |Split(values[i], false)| && Denotes(Split(values[i], false)[k], w)
      ensures HasOption(more, w)
    {
      assert Denotes(Split(more[i], false)[k], w);
    }
    forall k | 0 <= k < |Split(v, false)| && Denotes(Split(v, false)[k], w) ensures HasOption(more, w) {
      assert Denotes(Split(more[|values|], false)[k], w);
    }
  }

  /** Without Proxy-Connection, and with ordinary elements in every Connection line, the options are read right. */
  lemma {:induction false} OptionsAgree(hs: seq<Header>, w: Word)
    requires KindOf(w) == Options
    requires forall i :: 0 <= i < |hs| ==>
               !Named(hs[i].name, PROXY_CONNECTION)
               && (Named(hs[i].name, CONNECTION) ==> OrdinaryValue(Options, hs[i].value))
    ensures AnySets(hs, w) <==> HasOption(Values(hs, CONNECTION), w)
    decreases |hs|
  {
    hide Named, OrdinaryValue, HasOption, Found, AnySets;
    if hs == [] {
      NoLines(w);
    } else {
      var init, h := hs[..|hs| - 1], hs[|hs| - 1];
      assert hs == init + [h];
      OptionsAgree(init, w);
      AnySnoc(init, h, w);
      OptionSnoc(Values(init, CONNECTION), h.value, w);
      if Named(h.name, CONNECTION) {
        OrdinaryFound(h.value, w);
      } else {
        assert Values(init, CONNECTION) + [] == Values(init, CONNECTION);
      }
    }
  }

  lemma {:induction false} NoLines(w: Word)
    ensures !AnySets([], w) && !HasOption(Values([], CONNECTION), w)
  {
  }

  lemma {:induction false} OrdinaryFound(items: seq<Item>, w: Word)
    requires KindOf(w) == Options && OrdinaryValue(Options, items)
    ensures Found(Options, items, w) <==> HasOption([items], w)
  {
    hide Found, HasOption, Split, Ordinary, Recognised;
    OrdinaryOptions(items, w);
    RecognisedExact(Options, items, w);
  }

  /** One Transfer-Encoding line with ordinary elements, of which only the last may be chunked, is read right. */
  lemma {:induction false} EncodingAgrees(hs: seq<Header>, i: nat)
    requires i < |hs| && (forall j :: 0 <= j < |hs| ==> (Named(hs[j].name, TRANSFER_ENCODING) <==> j == i))
    requires var v := hs[i].value;
             OrdinaryValue(Codings, v)
             && forall k :: 0 <= k < |Split(v, false)| - 1 ==> !Denotes(Split(v, false)[k], Chunked)
    ensures AnySets(hs, Chunked) <==> FinallyChunked(Values(hs, TRANSFER_ENCODING))
  {
    hide Named, Found, FinallyChunked, Recognised, Split, Ordinary, Denotes;
    var v := hs[i].value;
    OrdinaryCodings(v);
    RecognisedExact(Codings, v, Chunked);
    OnlyValue(hs, i, TRANSFER_ENCODING);
    assert Sets(hs[i], Chunked) <==> Found(Codings, v, Chunked);
  }

  lemma {:induction false} OnlyValue(hs: seq<Header>, i: nat, word: string)
    requires i < |hs| && forall j :: 0 <= j < |hs| ==> (Named(hs[j].name, word) <==> j == i)
    ensures Values(hs, word) == [hs[i].value]
    decreases |hs|
  {
    hide Named;
    var init := hs[..|hs| - 1];
    if i == |hs| - 1 {
      NoValue(init, word);
      assert [] + [hs[i].value] == [hs[i].value];
    } else {
      OnlyValue(init, i, word);
      assert [hs[i].value] + [] == [hs[i].value];
    }
  }

  lemma {:induction false} NoValue(hs: seq<Header>, word: string)
    requires forall j :: 0 <= j < |hs| ==> !Named(hs[j].name, word)
    ensures Values(hs, word) == []
    decreases |hs|
  {
    hide Named;
    if hs != [] {
      NoValue(hs[..|hs| - 1], word);
    }
  }
}
