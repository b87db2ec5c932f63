/** What a block of header lines, of any names and values, leaves in the parser. */
module HttpHeaders {
  import opened Basics
  import opened HttpSyntax
  import opened HttpMachine
  import opened HttpScan
  import opened HttpValues
  import opened HttpNames
  import opened HttpLists
  import opened HttpListRuns
  import opened HttpContentLength

  /** One header line, ended by LF, with or without a CR before it. */
  datatype Header = Header(name: seq<byte>, value: seq<Item>, cr: bool)

  predicate WellFormed(h: Header) {
    Name(h.name) && Printable(h.value)
  }

  function Line(h: Header): seq<byte> {
    h.name + [Chr(':')] + Bytes(h.value) + Break(h.cr)
  }

  /** The value is a length that the parser takes. */
  ghost predicate Acceptable(items: seq<Item>) {
    exists i: nat, j: nat :: Good(items, i, j)
  }

  ghost function Number(items: seq<Item>): nat
    requires Acceptable(items)
  {
    var i: nat, j: nat :| Good(items, i, j);
    Dec(items[i..j])
  }

  lemma {:induction false} NumberIs(items: seq<Item>, i: nat, j: nat)
    requires Good(items, i, j)
    ensures Acceptable(items) && Number(items) == Dec(items[i..j])
  {
    hide Dec;
    forall a: nat, b: nat | Good(items, a, b) ensures a == i && b == j {
      ShapeUnique(items, i, j, a, b);
    }
  }

  /** What a value means for the parser, by the header that its name was taken for. */
  ghost function WithValue(p: Parser, h: HeaderState, items: seq<Item>): Parser {
    match h
    case TransferEncoding => p.(flags := WithWords(p.flags, Recognised(Codings, items)))
    case Connection => p.(flags := WithWords(p.flags, Recognised(Options, items)))
    case ContentLength =>
      if Acceptable(items) then p.(flags := p.flags.(contentLength := true), contentLength := Number(items)) else p
    case Upgrade => if Reported(items) == [] then p else p.(flags := p.flags.(upgrade := true))
    case _ => p
  }

  ghost function WithHeader(p: Parser, h: Header): Parser {
    WithValue(p.(usesTransferEncoding := p.usesTransferEncoding || Extends(h.name, TRANSFER_ENCODING)),
              HeaderOf(h.name), h.value)
  }

  /** Only a Content-Length can fail: a second one, or one that is not acceptable. */
  ghost predicate Takes(p: Parser, h: Header) {
    HeaderOf(h.name) == ContentLength ==> !p.flags.contentLength && Acceptable(h.value)
  }

  // ----- the end of a value -----

  /** r is at the end of the line, and when that is settled it is q at the start of the next header. */
  predicate Ended(r: Conn, q: Parser, n: nat, log: seq<Event>) {
    var s := Settled(r).parser;
    && LineOver(r) && r.nread == n
    && Settled(r) == Conn(q.(state := HeaderFieldStart, headerState := s.headerState, index := s.index), n, log, false)
  }

  lemma {:induction false} LastFlag(f: Flags, kind: Kind, s: Place)
    requires Fits(kind, s)
    ensures SetHeaderFlag(f, StateOf(kind, s)) == WithWords(f, if s.Whole? then {s.w} else {})
  {
    if s.Whole? {
      WholeFlag(f, s.w);
    } else {
      hide WithWords;
      WithNone(f);
    }
  }

  lemma {:induction false} WholeFlag(f: Flags, w: Word)
    ensures SetHeaderFlag(f, StateOf(KindOf(w), Whole(w))) == WithWords(f, {w})
  {
  }

  lemma {:induction false} ListEnds(c: Conn, kind: Kind, items: seq<Item>, cr: bool)
    requires Leading(c) && c.parser.headerState == StateOf(kind, Lead)
    requires Printable(items) && c.nread + |Bytes(items)| + |Break(cr)| <= MAX_HEADER_SIZE
    ensures Ended(Run(c, Bytes(items) + Break(cr)), c.parser.(flags := WithWords(c.parser.flags, Recognised(kind, items))),
                  c.nread + |Bytes(items)| + |Break(cr)|, Add(c.log, Data(Value, Reported(items))))
  {
    hide Run, Step, Add, Bytes, Reported, PlaceAfter, Passed, WithWords, StateOf, Fits, SetHeaderFlag, Printable;
    ListRun(c, kind, items);
    RunConcat(c, Bytes(items), Break(cr));
    var r := Run(c, Bytes(items));
    var s := PlaceAfter(kind, items);
    var last: set<Word> := if s.Whole? then {s.w} else {};
    LastFlag(r.parser.flags, kind, s);
    WithMore(c.parser.flags, Passed(kind, items), last);
    NotLength(kind, s);
    if s.Lead? {
      LeadBreak(r, cr);
    } else {
      InsideBreak(r, cr);
      AddTwice(c.log, Value, Reported(items), []);
      assert Reported(items) + [] == Reported(items);
    }
  }

  // ----- values that mean nothing, or an upgrade -----

  /** The headers whose values are not looked at. */
  predicate Skimmed(h: HeaderState) {
    h.Upgrade? || h.General? || Matching(h)
  }

  function Skim(p: Parser): Parser {
    p.(flags := if p.headerState == Upgrade then p.flags.(upgrade := true) else p.flags)
  }

  predicate Skimming(r: Conn, c: Conn, items: seq<Item>) {
    var q := if Reported(items) == [] then c.parser else Skim(c.parser).(state := HeaderValue, headerState := General);
    r == Conn(q.(index := r.parser.index), c.nread + |Bytes(items)|,
              if Reported(items) == [] then c.log else Add(c.log, Data(Value, Reported(items))), false)
  }

  lemma {:induction false} SkimFirst(p: Parser, ch: byte)
    requires Skimmed(p.headerState)
    ensures ValueStart(p, ch).parser == Skim(p).(index := 0, headerState := General)
  {
    hide Lower;
  }

  lemma {:induction false} SkimNext(p: Parser, ch: byte)
    requires p.headerState.General? && p.state.HeaderValue?
    ensures IsHeaderChar(ch) ==> ValueChar(p, ch) == p
    ensures Folded(p, ch) == p.(index := 0)
  {
    hide Lower, IsHeaderChar;
  }

  lemma {:induction false} SkimStep(c: Conn, items: seq<Item>, t: Item, r: Conn)
    requires Leading(c) && Skimmed(c.parser.headerState) && Skimming(r, c, items)
    requires Printable([t]) && r.nread + |Wire(t)| <= MAX_HEADER_SIZE
    ensures Skimming(Run(r, Wire(t)), c, items + [t])
  {
    hide Step, Run, Add, ValueStart, ValueChar, Folded, Bytes, Reported, IsHeaderChar, Skim;
    BytesSnoc(items, t);
    assert [t][0] == t;
    SkimKeeps(c.parser);
    if Reported(items) == [] {
      assert [] + [t.b] == [t.b];
      if t.Fold? {
        LeadFold(r, t);
      } else if Blank(t) {
        RunOne(r, t.b);
        LeadBlank(r, t.b);
      } else {
        RunOne(r, t.b);
        LeadChar(r, t.b);
        SkimFirst(r.parser, t.b);
        SkimIndex(c.parser, r.parser.index);
      }
    } else {
      AddTwice(c.log, Value, Reported(items), [t.b]);
      SkimNext(r.parser, t.b);
      if t.Fold? {
        InsideFold(r, t);
      } else {
        RunOne(r, t.b);
        InsideChar(r, t.b);
      }
    }
  }

  lemma {:induction false} SkimIndex(p: Parser, i: nat)
    ensures Skim(p.(index := i)) == Skim(p).(index := i)
  {
  }

  lemma {:induction false} SkimKeeps(p: Parser)
    ensures Skim(p).errno == p.errno
  {
  }

  lemma {:induction false} SkimRun(c: Conn, items: seq<Item>)
    requires Leading(c) && Skimmed(c.parser.headerState)
    requires Printable(items) && c.nread + |Bytes(items)| <= MAX_HEADER_SIZE
    ensures Skimming(Run(c, Bytes(items)), c, items)
    decreases |items|
  {
    hide Step, Run, Skimming, Skimmed, Printable, Bytes, Reported;
    if items == [] {
      SkimNothing(c);
    } else {
      var init, t := items[..|items| - 1], items[|items| - 1];
      assert items == init + [t];
      PrintableSnoc(init, t);
      BytesSnoc(init, t);
      SkimRun(c, init);
      RunConcat(c, Bytes(init), Wire(t));
      SkimCount(Run(c, Bytes(init)), c, init);
      SkimStep(c, init, t, Run(c, Bytes(init)));
    }
  }

  lemma {:induction false} SkimNothing(c: Conn)
    requires Leading(c)
    ensures Bytes([]) == [] && Run(c, []) == c && Skimming(c, c, [])
  {
    hide Step, Add, Skim;
  }

  lemma {:induction false} SkimCount(r: Conn, c: Conn, items: seq<Item>)
    requires Skimming(r, c, items)
    ensures r.nread == c.nread + |Bytes(items)|
  {
  }

  lemma {:induction false} SkimEnds(c: Conn, items: seq<Item>, cr: bool)
    requires Leading(c) && Skimmed(c.parser.headerState)
    requires Printable(items) && c.nread + |Bytes(items)| + |Break(cr)| <= MAX_HEADER_SIZE
    ensures Ended(Run(c, Bytes(items) + Break(cr)), if Reported(items) == [] then c.parser else Skim(c.parser),
                  c.nread + |Bytes(items)| + |Break(cr)|, Add(c.log, Data(Value, Reported(items))))
  {
    hide Run, Step, Add, Bytes, Reported, Printable;
    SkimRun(c, items);
    RunConcat(c, Bytes(items), Break(cr));
    var r := Run(c, Bytes(items));
    if Reported(items) == [] {
      LeadBreak(r, cr);
    } else {
      InsideBreak(r, cr);
      AddTwice(c.log, Value, Reported(items), []);
      assert Reported(items) + [] == Reported(items);
    }
  }

  // ----- one header -----

  /** A length that was refused, or that waits for the next line to refuse it. */
  predicate Refused(r: Conn) {
    Failed(r) || (r.Live() && r.parser.state.HeaderValueDiscardLws? && r.parser.headerState.ContentLength?)
  }

  lemma {:induction false} LengthEnds(c: Conn, items: seq<Item>, cr: bool)
    requires Leading(c) && c.parser.headerState.ContentLength?
    requires Text(items) && c.nread + |Bytes(items)| + |Break(cr)| <= MAX_HEADER_SIZE
    ensures var r := Run(c, Bytes(items) + Break(cr));
            if !c.parser.flags.contentLength && Acceptable(items) then
              Ended(r, WithValue(c.parser, ContentLength, items), c.nread + |Bytes(items)| + |Break(cr)|,
                    Add(c.log, Data(Value, Reported(items))))
            else Refused(r)
  {
    hide Run, Step, Add, Bytes, Reported, Dec, Number, Shaped;
    ContentLengthExact(c, items, cr);
    if !c.parser.flags.contentLength && Acceptable(items) {
      var i: nat, j: nat :| Good(items, i, j);
      NumberIs(items, i, j);
    }
  }

  /** The connection behind the colon of a header line. */
  function AtValue(c: Conn, name: seq<byte>, index: nat): Conn {
    Conn(c.parser.(state := HeaderValueDiscardWs, headerState := HeaderOf(name), index := index,
                   usesTransferEncoding := c.parser.usesTransferEncoding || Extends(name, TRANSFER_ENCODING)),
         c.nread + |name| + 1, Add(c.log, Data(DataKind.Field, name)), false)
  }

  lemma {:induction false} NameAndColon(c: Conn, name: seq<byte>)
    requires c.Live() && c.parser.state.HeaderFieldStart? && Name(name) && c.nread + |name| + 1 <= MAX_HEADER_SIZE
    ensures var r := Run(c, name + [Chr(':')]);
            r == AtValue(c, name, r.parser.index) && Leading(r)
  {
    hide Run, Step, Add, HeaderOf, Extends;
    NameRun(c, name);
    RunOnOne(c, name, Chr(':'));
    ColonStep(Run(c, name));
    AddTwice(c.log, DataKind.Field, name, []);
    assert name + [] == name;
  }

  lemma {:induction false} ValueRun(d: Conn, items: seq<Item>, cr: bool)
    requires Leading(d) && (d.parser.headerState == ContentLength || d.parser.headerState == TransferEncoding
                            || d.parser.headerState == Connection || Skimmed(d.parser.headerState))
    requires Printable(items) && d.nread + |Bytes(items)| + |Break(cr)| <= MAX_HEADER_SIZE
    ensures var r := Run(d, Bytes(items) + Break(cr));
            if d.parser.headerState == ContentLength && (d.parser.flags.contentLength || !Acceptable(items)) then Refused(r)
            else Ended(r, WithValue(d.parser, d.parser.headerState, items), d.nread + |Bytes(items)| + |Break(cr)|,
                       Add(d.log, Data(Value, Reported(items))))
  {
    hide Run, Step, Add, Bytes, Reported, Recognised, WithWords, Ended, Acceptable, Refused;
    match d.parser.headerState
    case ContentLength => LengthEnds(d, items, cr);
    case TransferEncoding => ListEnds(d, Codings, items, cr);
    case Connection => ListEnds(d, Options, items, cr);
    case _ => SkimEnds(d, items, cr);
  }

  /** After a line the parser is what its header makes of it, and the callbacks have its name and value. */
  lemma {:induction false} HeaderRun(c: Conn, h: Header)
    requires c.Live() && c.parser.state.HeaderFieldStart? && WellFormed(h) && c.nread + |Line(h)| <= MAX_HEADER_SIZE
    ensures var r := Run(c, Line(h));
            if Takes(c.parser, h) then
              Ended(r, WithHeader(c.parser, h), c.nread + |Line(h)|,
                    Add(Add(c.log, Data(DataKind.Field, h.name)), Data(Value, Reported(h.value))))
            else Refused(r)
  {
    hide Run, Step, Add, Bytes, Reported, HeaderOf, Extends, Name, Printable, Acceptable, Settled, LineOver, Refused, Recognised, WithWords;
    NameAndColon(c, h.name);
    HeaderRange(h.name);
    var start := h.name + [Chr(':')];
    var d := Run(c, start);
    assert Line(h) == start + (Bytes(h.value) + Break(h.cr));
    RunConcat(c, start, Bytes(h.value) + Break(h.cr));
    ValueRun(d, h.value, h.cr);
    WithIndex(c.parser, d.parser.index, h);
  }

  /** Where the parser is plays no part in what a header means. */
  lemma {:induction false} WithIndex(p: Parser, i: nat, h: Header)
    ensures var q := p.(state := HeaderValueDiscardWs, headerState := HeaderOf(h.name), index := i,
                        usesTransferEncoding := p.usesTransferEncoding || Extends(h.name, TRANSFER_ENCODING));
            var s := WithHeader(p, h);
            WithValue(q, HeaderOf(h.name), h.value) == s.(state := HeaderValueDiscardWs, headerState := HeaderOf(h.name), index := i)
  {
    hide HeaderOf, Extends, WithValue;
    ValueElsewhere(p.(usesTransferEncoding := p.usesTransferEncoding || Extends(h.name, TRANSFER_ENCODING)),
                   HeaderValueDiscardWs, HeaderOf(h.name), i, HeaderOf(h.name), h.value);
  }

  lemma {:induction false} ValueElsewhere(p: Parser, s: State, g: HeaderState, i: nat, h: HeaderState, items: seq<Item>)
    ensures WithValue(p.(state := s, headerState := g, index := i), h, items) ==
            WithValue(p, h, items).(state := s, headerState := g, index := i)
  {
    hide Acceptable, Number, Recognised, WithWords, Reported;
    match h
    case TransferEncoding =>
    case Connection =>
    case ContentLength =>
    case Upgrade =>
    case _ =>
  }

  lemma {:induction false} HeaderElsewhere(p: Parser, s: State, g: HeaderState, i: nat, h: Header)
    ensures WithHeader(p.(state := s, headerState := g, index := i), h) ==
            WithHeader(p, h).(state := s, headerState := g, index := i)
  {
    hide HeaderOf, Extends, WithValue;
    ValueElsewhere(p.(usesTransferEncoding := p.usesTransferEncoding || Extends(h.name, TRANSFER_ENCODING)),
                   s, g, i, HeaderOf(h.name), h.value);
  }

  // ----- a block of headers -----

  predicate AllWellFormed(hs: seq<Header>) {
    forall i :: 0 <= i < |hs| ==> WellFormed(hs[i])
  }

  function Block(hs: seq<Header>): seq<byte> {
    if hs == [] then [] else Block(hs[..|hs| - 1]) + Line(hs[|hs| - 1])
  }

  ghost function WithAll(p: Parser, hs: seq<Header>): Parser {
    if hs == [] then p else WithHeader(WithAll(p, hs[..|hs| - 1]), hs[|hs| - 1])
  }

  ghost predicate TakesAll(p: Parser, hs: seq<Header>) {
    hs != [] ==> TakesAll(p, hs[..|hs| - 1]) && Takes(WithAll(p, hs[..|hs| - 1]), hs[|hs| - 1])
  }

  /** The callbacks of a block: each name and each value, once. */
  function LogAll(log: seq<Event>, hs: seq<Header>): seq<Event> {
    if hs == [] then log
    else
      var h := hs[|hs| - 1];
      Add(Add(LogAll(log, hs[..|hs| - 1]), Data(DataKind.Field, h.name)), Data(Value, Reported(h.value)))
  }

  /** After the lines: at the end of the last one, or still at the start, or refused. */
  ghost predicate Through(r: Conn, c: Conn, hs: seq<Header>) {
    if !TakesAll(c.parser, hs) then Refused(r)
    else if hs == [] then r == c
    else Ended(r, WithAll(c.parser, hs), c.nread + |Block(hs)|, LogAll(c.log, hs))
  }

  /** The connection at the start of the line after the block. */
  ghost predicate NextLine(d: Conn, c: Conn, hs: seq<Header>) {
    && d == Conn(WithAll(c.parser, hs).(state := HeaderFieldStart, headerState := d.parser.headerState, index := d.parser.index),
                 c.nread + |Block(hs)|, LogAll(c.log, hs), false)
    && d.Live()
  }

  /** More bytes, not starting with a blank, are read from the start of the next line. */
  lemma {:induction false} Onward(r: Conn, c: Conn, hs: seq<Header>, data: seq<byte>) returns (d: Conn)
    requires c.Live() && c.parser.state.HeaderFieldStart? && Through(r, c, hs)
    requires c.nread + |Block(hs)| < MAX_HEADER_SIZE && data != [] && data[0] != SP && data[0] != HT
    ensures if TakesAll(c.parser, hs) then NextLine(d, c, hs) && Run(r, data) == Run(d, data) else Failed(Run(r, data))
  {
    hide Run, Step, Block, LogAll, SetHeaderFlag, Add;
    d := r;
    WithAllAlike(c.parser, hs);
    if !TakesAll(c.parser, hs) {
      hide TakesAll;
      RefusedRun(r, data);
    } else if hs != [] {
      d := Settled(r);
      SettledRun(r, data);
    } else {
      NoHeaders(c);
    }
  }

  lemma {:induction false} NoHeaders(c: Conn)
    ensures Block([]) == [] && WithAll(c.parser, []) == c.parser && LogAll(c.log, []) == c.log
  {
  }

  lemma {:induction false} RefusedRun(r: Conn, data: seq<byte>)
    requires Refused(r) && data != [] && data[0] != SP && data[0] != HT
    ensures Failed(Run(r, data))
  {
    hide Run, Step;
    RunFirst(r, data);
    if Failed(r) {
      RunStopped(r, data);
    } else {
      EmptyLengthFails(r, data[0]);
      RunStopped(Step(r, data[0]), data[1..]);
    }
  }

  lemma {:induction false} LineStart(h: Header)
    requires WellFormed(h)
    ensures Line(h) != [] && Line(h)[0] != SP && Line(h)[0] != HT
  {
    hide Bytes, Printable, Token;
    NotBreak(h.name[0]);
    assert Line(h)[0] == h.name[0];
  }

  lemma {:induction false} MoreTakes(p: Parser, d: Parser, h: Header)
    requires d == p.(state := HeaderFieldStart, headerState := d.headerState, index := d.index)
    ensures Takes(d, h) <==> Takes(p, h)
    ensures WithHeader(d, h) == WithHeader(p, h).(state := HeaderFieldStart, headerState := d.headerState, index := d.index)
  {
    hide HeaderOf, Acceptable, WithHeader;
    HeaderElsewhere(p, HeaderFieldStart, d.headerState, d.index, h);
  }

  lemma {:induction false} EndedAlike(r: Conn, q: Parser, q': Parser, n: nat, log: seq<Event>)
    requires Ended(r, q, n, log) && q == q'.(state := q.state, headerState := q.headerState, index := q.index)
    ensures Ended(r, q', n, log)
  {
    hide SetHeaderFlag, Add;
  }

  lemma {:induction false} BlockRun(c: Conn, hs: seq<Header>)
    requires c.Live() && c.parser.state.HeaderFieldStart? && AllWellFormed(hs) && c.nread + |Block(hs)| <= MAX_HEADER_SIZE
    ensures Through(Run(c, Block(hs)), c, hs)
    decreases |hs|
  {
    hide Run, Step, WellFormed, Line, Takes, WithHeader, Add, Reported, Refused, Ended;
    if hs == [] {
      RunNone(c);
    } else {
      var init, h := hs[..|hs| - 1], hs[|hs| - 1];
      BlockRun(c, init);
      LineStart(h);
      RunConcat(c, Block(init), Line(h));
      var r := Run(c, Block(init));
      var d := Onward(r, c, init, Line(h));
      if TakesAll(c.parser, init) {
        HeaderRun(d, h);
        MoreTakes(WithAll(c.parser, init), d.parser, h);
        if Takes(d.parser, h) {
          EndedAlike(Run(r, Line(h)), WithHeader(d.parser, h), WithAll(c.parser, hs), c.nread + |Block(hs)|, LogAll(c.log, hs));
        }
      } else {
        FailedRefused(Run(r, Line(h)));
      }
    }
  }

  lemma {:induction false} FailedRefused(r: Conn)
    requires Failed(r)
    ensures Refused(r)
  {
  }

  /** The empty line after the block is read from what the headers mean. */
  lemma {:induction false} HeadersRun(c: Conn, hs: seq<Header>, cr: bool) returns (d: Conn)
    requires c.Live() && c.parser.state.HeaderFieldStart? && AllWellFormed(hs)
    requires c.nread + |Block(hs)| + |Break(cr)| <= MAX_HEADER_SIZE
    ensures if TakesAll(c.parser, hs) then NextLine(d, c, hs) && Run(c, Block(hs) + Break(cr)) == Run(d, Break(cr))
            else Failed(Run(c, Block(hs) + Break(cr)))
  {
    hide Run, Step, Block, TakesAll, Through, NextLine;
    BlockRun(c, hs);
    RunConcat(c, Block(hs), Break(cr));
    d := Onward(Run(c, Block(hs)), c, hs, Break(cr));
  }

  /** What headers do not change. */
  predicate Alike(p: Parser, q: Parser) {
    && p.kind == q.kind && p.statusCode == q.statusCode && p.method_ == q.method_
    && p.httpMajor == q.httpMajor && p.httpMinor == q.httpMinor
    && p.lenient == q.lenient && p.allowChunkedLength == q.allowChunkedLength
  }

  lemma {:induction false} WordsKeep(f: Flags, words: set<Word>)
    ensures var g := WithWords(f, words);
            g.trailing == f.trailing && g.skipBody == f.skipBody && g.upgrade == f.upgrade && g.contentLength == f.contentLength
  {
  }

  /** q is p but for what headers may change; a length is noted when there is one. */
  predicate Kept(q: Parser, p: Parser, length: bool) {
    && q == p.(flags := q.flags, contentLength := q.contentLength)
    && q.flags.trailing == p.flags.trailing && q.flags.skipBody == p.flags.skipBody
    && q.flags.contentLength == (p.flags.contentLength || length)
  }

  lemma {:induction false} FlagsKept(p: Parser, f: Flags, n: nat)
    requires f.trailing == p.flags.trailing && f.skipBody == p.flags.skipBody
    ensures f.contentLength == p.flags.contentLength ==> Kept(p.(flags := f), p, false)
    ensures f.contentLength ==> Kept(p.(flags := f, contentLength := n), p, true)
    ensures Kept(p, p, false)
  {
  }

  lemma {:induction false} ValueKeeps(p: Parser, g: HeaderState, items: seq<Item>)
    ensures Kept(WithValue(p, g, items), p, g == ContentLength && Acceptable(items))
  {
    hide Acceptable, Number, Recognised, WithWords, Reported, Kept;
    if g == TransferEncoding {
      WordsKeep(p.flags, Recognised(Codings, items));
      FlagsKept(p, WithWords(p.flags, Recognised(Codings, items)), 0);
    } else if g == Connection {
      WordsKeep(p.flags, Recognised(Options, items));
      FlagsKept(p, WithWords(p.flags, Recognised(Options, items)), 0);
    } else if g == ContentLength {
      if Acceptable(items) {
        FlagsKept(p, p.flags.(contentLength := true), Number(items));
      } else {
        FlagsKept(p, p.flags, 0);
      }
    } else {
      FlagsKept(p, p.flags.(upgrade := true), 0);
    }
  }

  /** What one header leaves as it was, and the one flag that tells of a length. */
  lemma {:induction false} HeaderKeeps(p: Parser, h: Header)
    ensures var q := WithHeader(p, h);
            && Alike(q, p) && q.errno == p.errno && q.upgrade == p.upgrade
            && q.flags.trailing == p.flags.trailing && q.flags.skipBody == p.flags.skipBody
            && q.flags.contentLength == (p.flags.contentLength || (HeaderOf(h.name) == ContentLength && Acceptable(h.value)))
  {
    hide HeaderOf, Extends, Acceptable, WithValue;
    ValueKeeps(p.(usesTransferEncoding := p.usesTransferEncoding || Extends(h.name, TRANSFER_ENCODING)),
               HeaderOf(h.name), h.value);
  }

  lemma {:induction false} WithAllAlike(p: Parser, hs: seq<Header>)
    ensures var q := WithAll(p, hs);
            Alike(q, p) && q.errno == p.errno && q.upgrade == p.upgrade && q.flags.trailing == p.flags.trailing
    decreases |hs|
  {
    hide WithHeader, Acceptable, HeaderOf;
    if hs != [] {
      WithAllAlike(p, hs[..|hs| - 1]);
      HeaderKeeps(WithAll(p, hs[..|hs| - 1]), hs[|hs| - 1]);
    }
  }

  // ----- the empty line -----

  /** It is over with its LF, which the switch then runs on again. */
  lemma {:induction false} EndLine(d: Conn, cr: bool)
    requires d.Live() && d.parser.state.HeaderFieldStart? && d.nread + |Break(cr)| <= MAX_HEADER_SIZE
    ensures Run(d, Break(cr)) ==
            Finish(Middle(d.parser.(state := HeadersAlmostDone), d.nread + |Break(cr)|, d.log, None), LF)
  {
    hide Switch, Step, Run, Finish, Collecting, ParsingHeader;
    RunBreak(d, cr);
    StartsNothing(d.parser.state);
    OnField(d.parser, CR);
    OnField(d.parser, LF);
    if cr {
      PlainAdvance(d, CR, SwitchField(d.parser, CR));
      DoneStep(Step(d, CR));
    } else {
      PlainAgain(d, LF, SwitchField(d.parser, LF));
    }
  }

  lemma {:induction false} DoneStep(d: Conn)
    requires d.Live() && d.parser.state.HeadersAlmostDone? && d.nread < MAX_HEADER_SIZE
    ensures Step(d, LF) == Finish(Middle(d.parser, d.nread + 1, d.log, None), LF)
  {
    hide Finish;
  }

  /** Whether headers are taken depends only on whether a length has been seen. */
  lemma {:induction false} TakesAlike(p: Parser, q: Parser, hs: seq<Header>)
    requires p.flags.contentLength == q.flags.contentLength
    ensures TakesAll(p, hs) == TakesAll(q, hs)
    ensures WithAll(p, hs).flags.contentLength == WithAll(q, hs).flags.contentLength
    decreases |hs|
  {
    hide HeaderOf, Acceptable, WithHeader;
    if hs != [] {
      var init, h := hs[..|hs| - 1], hs[|hs| - 1];
      TakesAlike(p, q, init);
      HeaderKeeps(WithAll(p, init), h);
      HeaderKeeps(WithAll(q, init), h);
    }
  }
}
