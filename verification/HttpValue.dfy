/**
 Header values as characters and line folds, and what the one-byte machine does with each of them
 whatever header it is reading.
 */
module HttpValues {
  import opened Basics
  import opened HttpSyntax
  import opened HttpMachine
  import opened HttpScan

  /** A fold is a line break, with or without its CR, followed by one space or tab. */
  datatype Item = Char(b: byte) | Fold(cr: bool, b: byte)

  predicate Text(items: seq<Item>) {
    forall k :: 0 <= k < |items| ==>
      if items[k].Fold? then items[k].b == SP || items[k].b == HT else items[k].b != CR && items[k].b != LF
  }

  /** Text whose characters may stand in a header. */
  predicate Printable(items: seq<Item>) {
    Text(items) && forall k :: 0 <= k < |items| ==> items[k].Char? ==> IsHeaderChar(items[k].b)
  }

  function Break(cr: bool): seq<byte> {
    if cr then [CR, LF] else [LF]
  }

  function Wire(t: Item): seq<byte> {
    if t.Fold? then Break(t.cr) + [t.b] else [t.b]
  }

  function Bytes(items: seq<Item>): seq<byte> {
    if items == [] then [] else Bytes(items[..|items| - 1]) + Wire(items[|items| - 1])
  }

  predicate Blank(t: Item) {
    t.Fold? || t.b == SP || t.b == HT
  }

  /** What is reported of a value: all but its leading blanks, without the line breaks of its folds. */
  function Reported(items: seq<Item>): seq<byte> {
    if items == [] then []
    else
      var init, t := Reported(items[..|items| - 1]), items[|items| - 1];
      if init == [] && Blank(t) then [] else init + [t.b]
  }

  // ----- runs of a few bytes -----

  lemma {:induction false} RunOne(c: Conn, ch: byte)
    ensures Run(c, [ch]) == Step(c, ch)
  {
    hide Step;
    assert [ch][..0] == [];
    assert Run(c, []) == c;
  }

  lemma {:induction false} RunOnOne(c: Conn, data: seq<byte>, ch: byte)
    ensures Run(c, data + [ch]) == Step(Run(c, data), ch)
  {
    hide Step, Run;
    RunConcat(c, data, [ch]);
    RunOne(Run(c, data), ch);
  }

  lemma {:induction false} RunFirst(c: Conn, data: seq<byte>)
    requires data != []
    ensures Run(c, data) == Run(Step(c, data[0]), data[1..])
  {
    hide Step, Run;
    assert data == [data[0]] + data[1..];
    RunConcat(c, [data[0]], data[1..]);
    RunOne(c, data[0]);
  }

  lemma {:induction false} RunBreak(c: Conn, cr: bool)
    ensures Run(c, Break(cr)) == if cr then Step(Step(c, CR), LF) else Step(c, LF)
  {
    hide Step, Run;
    RunOne(c, CR);
    RunOne(c, LF);
    RunOnOne(c, [CR], LF);
    assert [CR] + [LF] == [CR, LF];
  }

  // ----- steps -----

  lemma {:induction false} CollectsNothing(s: State)
    requires InFold(s) || (InValue(s) && !s.HeaderValue?)
    ensures Collecting(s).None? && ParsingHeader(s)
  {
  }

  /** Steps that only change the state. */
  lemma {:induction false} BreakEffects(p: Parser, ch: byte)
    ensures p.state.HeaderValueDiscardWs? && ch == CR ==> SwitchValue(p, ch) == To(p, HeaderValueDiscardWsAlmostDone)
    ensures p.state.HeaderValueDiscardWs? && ch == LF ==> SwitchValue(p, ch) == To(p, HeaderValueDiscardLws)
    ensures p.state.HeaderValueDiscardWs? && (ch == SP || ch == HT) ==> SwitchValue(p, ch) == Stay(p)
    ensures p.state.HeaderValueDiscardWs? && ch != CR && ch != LF && ch != SP && ch != HT ==>
              SwitchValue(p, ch) == ValueStart(p, ch)
    ensures p.state.HeaderValueStart? ==> SwitchValue(p, ch) == ValueStart(p, ch)
    ensures p.state.HeaderValueDiscardWsAlmostDone? && ch == LF ==> SwitchFold(p, ch) == To(p, HeaderValueDiscardLws)
    ensures p.state.HeaderValueDiscardLws? && (ch == SP || ch == HT) ==> SwitchFold(p, ch) == To(p, HeaderValueDiscardWs)
    ensures p.state.HeaderAlmostDone? && ch == LF ==> SwitchValue(p, ch) == To(p, HeaderValueLws)
  {
    hide ValueStart, ValueChar, SetHeaderFlag;
  }

  lemma {:induction false} PlainTo(c: Conn, ch: byte, s: State)
    requires Plain(c) && Switch(c.parser, ch) == To(c.parser, s) && !c.parser.state.HeadersDone?
    requires !InChunkFrame(c.parser.state)
    ensures Step(c, ch) == Conn(c.parser.(state := s), c.nread + 1, c.log, false)
  {
    hide Switch, Step, Finish, Collecting, ParsingHeader;
    PlainAdvance(c, ch, To(c.parser, s));
  }

  // ----- before the first character -----

  predicate Leading(c: Conn) {
    c.Live() && c.parser.state.HeaderValueDiscardWs?
  }

  lemma {:induction false} LeadBlank(c: Conn, ch: byte)
    requires Leading(c) && c.nread < MAX_HEADER_SIZE && (ch == SP || ch == HT)
    ensures Step(c, ch) == c.(nread := c.nread + 1)
  {
    hide Switch, Step, Collecting, SwitchValue, ParsingHeader;
    OnValue(c.parser, ch);
    BreakEffects(c.parser, ch);
    CollectsNothing(c.parser.state);
    PlainTo(c, ch, c.parser.state);
  }

  lemma {:induction false} LeadBreak(c: Conn, cr: bool)
    requires Leading(c) && c.nread + |Break(cr)| <= MAX_HEADER_SIZE
    ensures Run(c, Break(cr)) ==
            Conn(c.parser.(state := HeaderValueDiscardLws), c.nread + |Break(cr)|, c.log, false)
  {
    hide Switch, Step, Run, Collecting, SwitchValue, SwitchFold, ParsingHeader;
    RunBreak(c, cr);
    CollectsNothing(c.parser.state);
    OnValue(c.parser, CR);
    OnValue(c.parser, LF);
    BreakEffects(c.parser, CR);
    BreakEffects(c.parser, LF);
    if cr {
      PlainTo(c, CR, HeaderValueDiscardWsAlmostDone);
      var d := Step(c, CR);
      OnFold(d.parser, LF);
      BreakEffects(d.parser, LF);
      CollectsNothing(d.parser.state);
      PlainTo(d, LF, HeaderValueDiscardLws);
    } else {
      PlainTo(c, LF, HeaderValueDiscardLws);
    }
  }

  lemma {:induction false} LeadFold(c: Conn, t: Item)
    requires Leading(c) && t.Fold? && (t.b == SP || t.b == HT) && c.nread + |Wire(t)| <= MAX_HEADER_SIZE
    ensures Run(c, Wire(t)) == c.(nread := c.nread + |Wire(t)|)
  {
    hide Switch, Step, Run, Collecting, SwitchFold, ParsingHeader;
    LeadBreak(c, t.cr);
    RunOnOne(c, Break(t.cr), t.b);
    var d := Run(c, Break(t.cr));
    OnFold(d.parser, t.b);
    BreakEffects(d.parser, t.b);
    CollectsNothing(d.parser.state);
    PlainTo(d, t.b, HeaderValueDiscardWs);
  }

  /** The first character, of any header but Content-Length. */
  lemma {:induction false} LeadChar(c: Conn, ch: byte)
    requires Leading(c) && c.nread < MAX_HEADER_SIZE && !c.parser.headerState.ContentLength?
    requires ch != CR && ch != LF && ch != SP && ch != HT
    ensures Step(c, ch) ==
            Conn(ValueStart(c.parser, ch).parser.(state := HeaderValue), c.nread + 1, Add(c.log, Data(Value, [ch])), false)
  {
    hide Switch, Step, Add, Collecting, ValueStart, SwitchValue, ParsingHeader;
    OnValue(c.parser, ch);
    BreakEffects(c.parser, ch);
    CollectsNothing(c.parser.state);
    StartsValue(c.parser, ch);
    PlainAdvance(c, ch, ValueStart(c.parser, ch));
  }

  lemma {:induction false} StartsValue(p: Parser, ch: byte)
    requires !p.headerState.ContentLength?
    ensures var e := ValueStart(p, ch);
            && e.next == Next.Advance && e.state == HeaderValue && e.actions == Do(Mark(Value))
            && e.parser.errno == p.errno
  {
    hide Lower;
  }

  // ----- inside a value -----

  predicate Inside(c: Conn) {
    c.Live() && c.parser.state.HeaderValue?
  }

  lemma {:induction false} InsideChar(c: Conn, ch: byte)
    requires Inside(c) && c.nread < MAX_HEADER_SIZE && ch != CR && ch != LF
    ensures if ValueChar(c.parser, ch).errno == Ok then
              Step(c, ch) == Conn(ValueChar(c.parser, ch), c.nread + 1, Add(c.log, Data(Value, [ch])), false)
            else Failed(Step(c, ch))
  {
    hide Add, Finish, ValueChar;
    ValueFinish(c.parser, c.nread + 1, c.log, ch);
  }

  /** A line break ends the data that is reported. */
  lemma {:induction false} InsideBreak(c: Conn, cr: bool)
    requires Inside(c) && c.nread + |Break(cr)| <= MAX_HEADER_SIZE
    ensures Run(c, Break(cr)) ==
            Conn(c.parser.(state := HeaderValueLws), c.nread + |Break(cr)|, Add(c.log, Data(Value, [])), false)
  {
    hide Add, Run, ValueChar, Step;
    RunBreak(c, cr);
    if cr {
      CrStep(c);
      AlmostDoneStep(Step(c, CR));
    } else {
      LfStep(c);
    }
  }

  lemma {:induction false} CrStep(c: Conn)
    requires Inside(c) && c.nread < MAX_HEADER_SIZE
    ensures Step(c, CR) ==
            Conn(c.parser.(state := HeaderAlmostDone), c.nread + 1, Add(c.log, Data(Value, [])), false)
  {
    hide Add, Finish, ValueChar;
    ValueFinish(c.parser, c.nread + 1, c.log, CR);
  }

  lemma {:induction false} AlmostDoneStep(c: Conn)
    requires c.Live() && c.parser.state.HeaderAlmostDone? && c.nread < MAX_HEADER_SIZE
    ensures Step(c, LF) == Conn(c.parser.(state := HeaderValueLws), c.nread + 1, c.log, false)
  {
    hide Switch, Step, Collecting, SwitchValue, ParsingHeader;
    OnValue(c.parser, LF);
    BreakEffects(c.parser, LF);
    CollectsNothing(c.parser.state);
    PlainTo(c, LF, HeaderValueLws);
  }

  lemma {:induction false} LfStep(c: Conn)
    requires Inside(c) && c.nread < MAX_HEADER_SIZE
    ensures Step(c, LF) ==
            Conn(c.parser.(state := HeaderValueLws), c.nread + 1, Add(c.log, Data(Value, [])), false)
  {
    hide Add, Switch, ValueChar;
    var q := c.parser.(state := HeaderAlmostDone);
    hide Finish;
    ValueFinish(c.parser, c.nread + 1, c.log, LF);
    DoneFinish(q, c.nread + 1, Add(c.log, Data(Value, [])));
  }

  lemma {:induction false} DoneFinish(q: Parser, n: nat, log: seq<Event>)
    requires q.state.HeaderAlmostDone?
    ensures Finish(Middle(q, n, log, None), LF) == Conn(q.(state := HeaderValueLws), n, log, false)
  {
    hide Switch, SwitchValue;
    OnValue(q, LF);
    BreakEffects(q, LF);
  }

  /** The parser after a fold: its blank is taken as the first character of a value. */
  function Folded(p: Parser, b: byte): Parser {
    var q := if p.headerState == ContentLengthNum then p.(headerState := ContentLengthWs) else p;
    ValueStart(q.(state := HeaderValueStart), b).parser.(state := HeaderValue)
  }

  lemma {:induction false} InsideFold(c: Conn, t: Item)
    requires Inside(c) && t.Fold? && (t.b == SP || t.b == HT) && c.nread + |Wire(t)| <= MAX_HEADER_SIZE
    requires !c.parser.headerState.ContentLength?
    ensures Run(c, Wire(t)) == Conn(Folded(c.parser, t.b), c.nread + |Wire(t)|, Add(c.log, Data(Value, [t.b])), false)
  {
    hide Run, Step, Add, Folded;
    InsideBreak(c, t.cr);
    RunOnOne(c, Break(t.cr), t.b);
    FoldStep(Run(c, Break(t.cr)), c.parser, t.b);
    AddTwice(c.log, Value, [], [t.b]);
    assert [] + [t.b] == [t.b];
  }

  lemma {:induction false} FoldStep(d: Conn, p: Parser, b: byte)
    requires d.Live() && d.parser == p.(state := HeaderValueLws) && p.state.HeaderValue? && d.nread < MAX_HEADER_SIZE
    requires !p.headerState.ContentLength? && (b == SP || b == HT)
    ensures Step(d, b) == Conn(Folded(p, b), d.nread + 1, Add(d.log, Data(Value, [b])), false)
  {
    hide Switch, Step, Finish, Add, Collecting, ValueStart;
    OnFold(d.parser, b);
    CollectsNothing(d.parser.state);
    PlainAgain(d, b, SwitchFold(d.parser, b));
    var q := if p.headerState == ContentLengthNum then p.(headerState := ContentLengthWs) else p;
    StartFinish(q.(state := HeaderValueStart), d.nread + 1, d.log, b);
  }

  lemma {:induction false} StartFinish(q: Parser, n: nat, log: seq<Event>, b: byte)
    requires q.state.HeaderValueStart? && !q.headerState.ContentLength?
    ensures Finish(Middle(q, n, log, None), b) ==
            Conn(ValueStart(q, b).parser.(state := HeaderValue), n, Add(log, Data(Value, [b])), false)
  {
    hide Switch, Add, ValueStart, SwitchValue;
    OnValue(q, b);
    BreakEffects(q, b);
    StartsValue(q, b);
  }

  // ----- the end of a header line -----

  /** A header line is over; whether the next one continues it is not known yet. */
  predicate LineOver(c: Conn) {
    c.Live() && (c.parser.state.HeaderValueLws? || (c.parser.state.HeaderValueDiscardLws? && !c.parser.headerState.ContentLength?))
  }

  /** The same connection when the next line is known to start a new header, or to end them. */
  function Settled(c: Conn): Conn {
    Conn(c.parser.(flags := SetHeaderFlag(c.parser.flags, c.parser.headerState), state := HeaderFieldStart), c.nread,
         if c.parser.state.HeaderValueLws? then c.log else Add(c.log, Data(Value, [])), c.exited)
  }

  lemma {:induction false} LineOverEffects(p: Parser, ch: byte)
    requires p.state.HeaderValueLws? || (p.state.HeaderValueDiscardLws? && !p.headerState.ContentLength?)
    requires ch != SP && ch != HT
    ensures var q := p.(flags := SetHeaderFlag(p.flags, p.headerState));
            SwitchFold(p, ch) ==
            if p.state.HeaderValueLws? then Reexecute(q, HeaderFieldStart)
            else Effect(q, HeaderFieldStart, DoBoth(Mark(Value), Flush(Value)), Again)
  {
    hide SetHeaderFlag;
  }

  lemma {:induction false} AgainFinish(m: Middle, ch: byte)
    requires Switch(m.parser, ch).next == Again
    ensures var e := Switch(m.parser, ch);
            Rank(e.state) < Rank(m.parser.state)
            && Finish(m, ch) ==
               Finish(ActAll(m, e.actions, ch).(parser := e.parser.(state := e.state),
                                                nread := NreadAfter(m.parser.state, Again, m.nread)), ch)
  {
    hide Switch, ActAll, NreadAfter, Rank;
    AgainDescends(m.parser, ch);
  }

  lemma {:induction false} SettledStep(c: Conn, ch: byte)
    requires LineOver(c) && c.nread < MAX_HEADER_SIZE && ch != SP && ch != HT
    ensures Step(c, ch) == Step(Settled(c), ch)
  {
    hide Switch, SwitchFold, Finish, Add, SetHeaderFlag, Collecting, ParsingHeader;
    OnFold(c.parser, ch);
    LineOverEffects(c.parser, ch);
    CollectsNothing(c.parser.state);
    AgainFinish(Middle(c.parser, c.nread + 1, c.log, None), ch);
    StartsNothing(HeaderFieldStart);
  }

  lemma {:induction false} StartsNothing(s: State)
    requires s == HeaderFieldStart
    ensures Collecting(s).None? && ParsingHeader(s)
  {
  }

  /** Whatever comes next, other than a blank, is read as if the header line had been settled before. */
  lemma {:induction false} SettledRun(c: Conn, data: seq<byte>)
    requires LineOver(c) && c.nread < MAX_HEADER_SIZE && data != [] && data[0] != SP && data[0] != HT
    ensures Run(c, data) == Run(Settled(c), data)
  {
    hide Step, Run, Settled, LineOver;
    SettledStep(c, data[0]);
    RunFirst(c, data);
    RunFirst(Settled(c), data);
  }

  lemma {:induction false} BytesSnoc(items: seq<Item>, t: Item)
    ensures Bytes(items + [t]) == Bytes(items) + Wire(t)
    ensures Reported(items + [t]) == if Reported(items) == [] && Blank(t) then [] else Reported(items) + [t.b]
  {
    assert (items + [t])[..|items|] == items;
  }
}
