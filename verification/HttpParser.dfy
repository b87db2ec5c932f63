/**
 The parser as it runs: one call scans a whole buffer, with bulk loops for header names, header
 values and body data, and calls back once per stretch of data.  Each call does to the parser and
 to the joined log what the one-byte machine does byte by byte.
 */
module HttpParser {
  import opened Basics
  import opened HttpSyntax
  import opened HttpMachine
  import opened HttpMarks
  import opened HttpScan
  import opened HttpInvariant

  type Marks = map<DataKind, nat>

  /** Data of one kind is being collected since its mark, and everything before it has been reported. */
  predicate Holds(kind: DataKind, marks: Marks, seen: seq<Event>, log: seq<Event>, data: seq<byte>, i: nat) {
    && kind in marks && marks == map[kind := marks[kind]] && marks[kind] <= i <= |data|
    && (if marks[kind] == i then i == 0 && seen == log
        else seen == Add(log, Data(kind, data[marks[kind]..i])))
  }

  /** Between bytes: the machine's log is what has been reported plus what is being collected. */
  predicate Pending(s: State, marks: Marks, seen: seq<Event>, log: seq<Event>, data: seq<byte>, i: nat) {
    match Collecting(s)
    case Some(kind) => Holds(kind, marks, seen, log, data, i)
    case None =>
      || (marks == map[] && seen == log)
      || (BodyState(s) && Holds(Body, marks, seen, log, data, i) && marks[Body] < i)
  }

  /** In the middle of a byte, where a mark may just have been set. */
  predicate MidPending(mark: Option<DataKind>, marks: Marks, seen: seq<Event>, log: seq<Event>, data: seq<byte>, i: nat) {
    match mark
    case Some(kind) =>
      && kind in marks && marks == map[kind := marks[kind]] && marks[kind] <= i < |data|
      && Add(seen, Data(kind, [])) == Add(log, Data(kind, data[marks[kind]..i]))
    case None => marks == map[] && seen == log
  }

  lemma {:induction false} PendingToMid(s: State, marks: Marks, seen: seq<Event>, log: seq<Event>, data: seq<byte>, i: nat)
    requires i < |data| && Pending(s, marks, seen, log, data, i) && !BodyState(s)
    ensures MidPending(Collecting(s), marks, seen, log, data, i)
  {
    hide Add;
    if Collecting(s).Some? {
      var kind := Collecting(s).value;
      var piece := data[marks[kind]..i];
      assert piece + [] == piece;
      AddTwice(log, kind, piece, []);
      if marks[kind] == i {
        assert piece == [];
      }
    }
  }

  /** At the end of a byte, the byte itself joins what is being collected. */
  lemma {:induction false} MidToPending(s: State, marks: Marks, seen: seq<Event>, log: seq<Event>, data: seq<byte>, i: nat)
    requires i < |data| && MidPending(Collecting(s), marks, seen, log, data, i)
    ensures var mark := Collecting(s);
            var seen' := if mark.Some? then Add(seen, Data(mark.value, [data[i]])) else seen;
            Pending(s, marks, seen', log, data, i + 1)
  {
    hide Add;
    if Collecting(s).Some? {
      var kind := Collecting(s).value;
      var piece := data[marks[kind]..i];
      assert data[marks[kind]..i + 1] == piece + [data[i]];
      assert [] + [data[i]] == [data[i]];
      AddTwice(seen, kind, [], [data[i]]);
      AddTwice(log, kind, piece, [data[i]]);
    }
  }

  lemma {:induction false} HoldsMore(kind: DataKind, marks: Marks, seen: seq<Event>, log: seq<Event>, data: seq<byte>, i: nat)
    requires i < |data| && Holds(kind, marks, seen, log, data, i)
    ensures Holds(kind, marks, Add(seen, Data(kind, [data[i]])), log, data, i + 1)
  {
    hide Add;
    var piece := data[marks[kind]..i];
    assert data[marks[kind]..i + 1] == piece + [data[i]];
    AddTwice(log, kind, piece, [data[i]]);
    if marks[kind] == i {
      assert piece + [data[i]] == [data[i]];
    }
  }

  /** Body bytes from i to j join what was held, or start being held. */
  lemma {:induction false} BodyHeld(marks: Marks, marks': Marks, seen: seq<Event>, log: seq<Event>, data: seq<byte>,
                                    i: nat, j: nat)
    requires i < j <= |data|
    requires if Body in marks then marks' == marks && Holds(Body, marks, seen, log, data, i) && marks[Body] < i
             else marks == map[] && marks' == map[Body := i] && seen == log
    ensures Holds(Body, marks', Add(seen, Data(Body, data[i..j])), log, data, j) && marks'[Body] < j
    ensures Add(seen, Data(Body, data[i..j])) == Add(log, Data(Body, data[marks'[Body]..j]))
  {
    hide Add;
    if Body in marks {
      assert data[marks[Body]..j] == data[marks[Body]..i] + data[i..j];
      AddTwice(log, Body, data[marks[Body]..i], data[i..j]);
    }
  }

  lemma {:induction false} PendingBody(s: State, marks: Marks, seen: seq<Event>, log: seq<Event>, data: seq<byte>, i: nat)
    requires s.ChunkData? || s.BodyIdentity? || s.BodyIdentityEof?
    ensures Pending(s, marks, seen, log, data, i) <==>
            if Body in marks then Holds(Body, marks, seen, log, data, i) && marks[Body] < i
            else marks == map[] && seen == log
  {
  }

  lemma {:induction false} PendingRest(s: State, marks: Marks, seen: seq<Event>, log: seq<Event>, data: seq<byte>)
    returns (kind: Option<DataKind>)
    requires data != [] && Pending(s, marks, seen, log, data, |data|)
    ensures match kind
            case None => marks == map[] && seen == log
            case Some(k) =>
              && k in marks && marks == map[k := marks[k]] && marks[k] <= |data|
              && seen == Add(log, Data(k, data[marks[k]..]))
  {
    hide Add;
    kind := if Body in marks then Some(Body) else Collecting(s);
    if kind.Some? {
      assert data[marks[kind.value]..|data|] == data[marks[kind.value]..];
    }
  }

  lemma {:induction false} DoneCollectsNothing()
    ensures Collecting(MessageDone).None?
  {
  }

  lemma {:induction false} PendingHolds(kind: DataKind, s: State, marks: Marks, seen: seq<Event>, log: seq<Event>,
                                        data: seq<byte>, i: nat)
    requires Collecting(s) == Some(kind) && Pending(s, marks, seen, log, data, i)
    ensures kind in marks && marks[kind] <= i && Holds(kind, marks, seen, log, data, i)
  {
  }

  lemma {:induction false} PendingBodyEnd(s: State, marks: Marks, seen: seq<Event>, log: seq<Event>, data: seq<byte>,
                                          i: nat)
    requires BodyState(s) && Body in marks && Holds(Body, marks, seen, log, data, i) && marks[Body] < i
    ensures Pending(s, marks, seen, log, data, i)
  {
  }

  /** Reporting what is held brings the log level with the machine's. */
  lemma {:induction false} HoldsFlush(kind: DataKind, marks: Marks, seen: seq<Event>, log: seq<Event>, data: seq<byte>, i: nat)
    requires Holds(kind, marks, seen, log, data, i)
    ensures Add(seen, Data(kind, [])) == Add(log, Data(kind, data[marks[kind]..i]))
    ensures marks - {kind} == map[]
  {
    hide Add;
    var piece := data[marks[kind]..i];
    assert piece + [] == piece;
    AddTwice(log, kind, piece, []);
    if marks[kind] == i {
      assert piece == [];
    }
  }

  /**
   Inside a bulk loop the header bytes are counted only at the end.  Until then either the machine
   agrees, or it has already stopped because the count, n, is past the limit.
   */
  predicate ScanOk(kind: DataKind, c: Conn, p: Parser, n: int, marks: Marks, log: seq<Event>, data: seq<byte>, i: nat) {
    if c.Live() then c.parser == p && c.nread == n <= MAX_HEADER_SIZE && Holds(kind, marks, c.log, log, data, i)
    else Overflowed(c) && n > MAX_HEADER_SIZE
  }

  /**
   The error of a call is the machine's, except that the loop over a header value, which counts late, may
   meet a wrong character where the machine has already run over the limit.
   */
  predicate SameError(e: Errno, r: Conn) {
    && Failed(r)
    && (e == r.parser.errno || (Overflowed(r) && (e == InvalidHeaderToken || e == InvalidContentLength)))
  }

  lemma {:induction false} FieldScanStep(c0: Conn, p: Parser, n: int, marks: Marks, log: seq<Event>, data: seq<byte>,
                                         i: nat)
    requires i < |data| && p.errno == Ok && p.state.HeaderField? && Token(data[i]) != 0
    requires ScanOk(Field, Run(c0, data[..i]), p, n, marks, log, data, i)
    ensures ScanOk(Field, Run(c0, data[..i + 1]), FieldChar(p, Token(data[i])), n + 1, marks, log, data, i + 1)
  {
    hide FieldChar, Token, Add, Finish, Run, Holds;
    var c := Run(c0, data[..i]);
    RunStep(c0, data, i);
    if c.Live() {
      if c.nread >= MAX_HEADER_SIZE {
        OverflowStep(c, data[i]);
      } else {
        FieldFinish(p, c.nread + 1, c.log, data[i]);
        FieldCharKeeps(p, Token(data[i]));
        HoldsMore(Field, marks, c.log, log, data, i);
      }
    }
  }

  lemma {:induction false} GeneralField(p: Parser, c: byte)
    requires p.headerState == General
    ensures FieldChar(p, c) == p
  {
  }

  lemma {:induction false} HoldsPending(kind: DataKind, s: State, marks: Marks, seen: seq<Event>, log: seq<Event>,
                                        data: seq<byte>, i: nat)
    requires Collecting(s) == Some(kind) && Holds(kind, marks, seen, log, data, i)
    ensures Pending(s, marks, seen, log, data, i)
  {
  }

  /** The byte after a header name. */
  lemma {:induction false} EndOfField(c0: Conn, p: Parser, n: int, marks: Marks, log: seq<Event>, data: seq<byte>, i: nat)
    requires i < |data| && p.errno == Ok && p.state.HeaderField? && Token(data[i]) == 0 && Field in marks
    requires marks[Field] <= i
    requires ScanOk(Field, Run(c0, data[..i]), p, n, marks, log, data, i)
    ensures if n + 1 > MAX_HEADER_SIZE then Overflowed(Run(c0, data))
            else if data[i] != Chr(':') then SameError(InvalidHeaderToken, Run(c0, data))
            else
              && Run(c0, data[..i + 1]) == Conn(p.(state := HeaderValueDiscardWs), n + 1,
                                                Add(log, Data(Field, data[marks[Field]..i])), false)
              && marks - {Field} == map[]
  {
    hide Token, Add, Finish, Run, Holds;
    var c := Run(c0, data[..i]);
    RunStep(c0, data, i);
    if !c.Live() {
      StaysStopped(c0, data, i);
    } else {
      HoldsFlush(Field, marks, c.log, log, data, i);
      if n >= MAX_HEADER_SIZE {
        OverflowStep(c, data[i]);
        StaysStopped(c0, data, i + 1);
      } else {
        FieldFinish(p, n + 1, c.log, data[i]);
        if data[i] != Chr(':') {
          StaysStopped(c0, data, i + 1);
        }
      }
    }
  }

  lemma {:induction false} ValueErrors(p: Parser, ch: byte)
    ensures var e := ValueChar(p, ch).errno; e == p.errno || e == InvalidHeaderToken || e == InvalidContentLength
  {
    hide Match, IsNum, Token, Lower, SetConnectionFlag, IsHeaderChar;
    var c := Lower(ch);
    MatchKeeps(p, c, "chunked", MatchingTransferEncodingChunked, TransferEncodingChunked, MatchingTransferEncodingToken);
    MatchKeeps(p, c, "keep-alive", MatchingConnectionKeepAlive, ConnectionKeepAlive, MatchingConnectionToken);
    MatchKeeps(p, c, "close", MatchingConnectionClose, ConnectionClose, MatchingConnectionToken);
    MatchKeeps(p, c, "upgrade", MatchingConnectionUpgrade, ConnectionUpgrade, MatchingConnectionToken);
  }

  lemma {:induction false} ValueScanStep(c0: Conn, p: Parser, n: int, marks: Marks, log: seq<Event>, data: seq<byte>,
                                         i: nat)
    requires i < |data| && p.errno == Ok && p.state.HeaderValue? && data[i] != CR && data[i] != LF
    requires ScanOk(Value, Run(c0, data[..i]), p, n, marks, log, data, i)
    ensures var c, q := Run(c0, data[..i + 1]), ValueChar(p, data[i]);
            if q.errno == Ok then ScanOk(Value, c, q, n + 1, marks, log, data, i + 1) else SameError(q.errno, c)
  {
    hide ValueChar, Add, Finish, Run, Holds;
    ValueErrors(p, data[i]);
    var c := Run(c0, data[..i]);
    RunStep(c0, data, i);
    if c.Live() {
      if c.nread >= MAX_HEADER_SIZE {
        OverflowStep(c, data[i]);
      } else {
        ValueFinish(p, c.nread + 1, c.log, data[i]);
        HoldsMore(Value, marks, c.log, log, data, i);
      }
    }
  }

  lemma {:induction false} IdlePending(s: State, log: seq<Event>, data: seq<byte>, i: nat)
    requires Collecting(s).None?
    ensures Pending(s, map[], log, log, data, i)
  {
  }

  lemma {:induction false} GeneralValue(p: Parser, ch: byte)
    requires p.headerState == General
    ensures ValueChar(p, ch) == if !p.lenient && !IsHeaderChar(ch) then p.(errno := InvalidHeaderToken) else p
  {
  }

  /** A byte past the limit stops the machine, whatever it is. */
  lemma {:induction false} PastLimit(c0: Conn, kind: DataKind, p: Parser, n: int, marks: Marks, log: seq<Event>,
                                     data: seq<byte>, i: nat)
    requires i < |data| && ParsingHeader(p.state) && n >= MAX_HEADER_SIZE
    requires ScanOk(kind, Run(c0, data[..i]), p, n, marks, log, data, i)
    ensures ScanOk(kind, Run(c0, data[..i + 1]), p, n + 1, marks, log, data, i + 1)
  {
    hide Finish, Run, Holds;
    RunStep(c0, data, i);
    if Run(c0, data[..i]).Live() {
      OverflowStep(Run(c0, data[..i]), data[i]);
    }
  }

  /** The end of a header value: a CR is consumed, a LF is switched on again. */
  lemma {:induction false} EndOfValue(c0: Conn, p: Parser, n: int, marks: Marks, log: seq<Event>, data: seq<byte>, i: nat)
    requires i < |data| && p.errno == Ok && p.state.HeaderValue? && (data[i] == CR || data[i] == LF)
    requires Value in marks && marks[Value] <= i
    requires ScanOk(Value, Run(c0, data[..i]), p, n, marks, log, data, i)
    ensures n + 1 > MAX_HEADER_SIZE ==> Overflowed(Run(c0, data))
    ensures n + 1 <= MAX_HEADER_SIZE ==>
              var q, log' := p.(state := HeaderAlmostDone), Add(log, Data(Value, data[marks[Value]..i]));
              && marks - {Value} == map[]
              && Run(c0, data[..i + 1]) ==
                 if data[i] == CR then Conn(q, n + 1, log', false) else Finish(Middle(q, n + 1, log', None), data[i])
  {
    hide Add, Finish, Run, Holds, ValueChar;
    var c := Run(c0, data[..i]);
    RunStep(c0, data, i);
    if !c.Live() {
      StaysStopped(c0, data, i);
    } else {
      HoldsFlush(Value, marks, c.log, log, data, i);
      if n >= MAX_HEADER_SIZE {
        OverflowStep(c, data[i]);
        StaysStopped(c0, data, i + 1);
      } else {
        ValueFinish(p, n + 1, c.log, data[i]);
      }
    }
  }

  lemma {:induction false} MidIdle(marks: Marks, seen: seq<Event>, log: seq<Event>, data: seq<byte>, i: nat)
    requires MidPending(None, marks, seen, log, data, i)
    ensures seen == log && marks == map[]
  {
  }

  lemma {:induction false} ValueStates()
    ensures Collecting(HeaderAlmostDone).None? && Collecting(HeaderValue) == Some(Value)
  {
  }

  datatype Outcome = Going | Error | Left

  class HttpParser {
    var parser: Parser
    var nread: nat
    var events: seq<Event>  // every callback made, as it was made

    ghost function Log(): seq<Event>
      reads this
    {
      Joined(events)
    }

    method Callback(e: Event)
      modifies this`events
      ensures Log() == Add(old(Log()), e)
    {
      JoinedSnoc(events, e);
      events := events + [e];
    }

    /** One mark or callback action at position i. */
    method Perform(a: Action, data: seq<byte>, i: nat, marks: Marks, ghost m: Middle) returns (marks': Marks)
      requires i < |data| && MidPending(m.mark, marks, m.log, Log(), data, i)
      requires SoundAction(m.mark, a)
      modifies this`events
      ensures var m' := Act(m, a, data[i]);
              MidPending(m'.mark, marks', m'.log, Log(), data, i) && m'.mark == MarkAction(m.mark, a)
    {
      hide Joined, Add;
      marks' := marks;
      match a {
        case Mark(kind) =>
          if kind !in marks {
            marks' := marks[kind := i];
            assert data[i..i] == [];
          }
        case Flush(kind) =>
          if kind in marks {
            Callback(Data(kind, data[marks[kind]..i]));
            marks' := marks - {kind};
          }
        case FlushThrough(kind) =>
          if kind in marks {
            ghost var piece := data[marks[kind]..i];
            assert data[marks[kind]..i + 1] == piece + [data[i]];
            AddTwice(Log(), kind, piece, [data[i]]);
            AddTwice(m.log, kind, [], [data[i]]);
            assert [] + [data[i]] == [data[i]];
            Callback(Data(kind, data[marks[kind]..i + 1]));
            marks' := marks - {kind};
          }
        case Notify(note) =>
          Callback(Notified(note));
      }
    }

    method PerformAll(actions: Actions, data: seq<byte>, i: nat, marks: Marks, ghost m: Middle) returns (marks': Marks)
      requires i < |data| && MidPending(m.mark, marks, m.log, Log(), data, i)
      requires SoundAll(m.mark, actions)
      modifies this`events
      ensures var m' := ActAll(m, actions, data[i]);
              MidPending(m'.mark, marks', m'.log, Log(), data, i) && m'.mark == MarkAfter(m.mark, actions)
    {
      hide Joined, Add, Act, MidPending, SoundAction, MarkAction;
      marks' := marks;
      match actions {
        case Nothing =>
        case Do(a) =>
          marks' := Perform(a, data, i, marks', m);
        case DoBoth(a, b) =>
          marks' := Perform(a, data, i, marks', m);
          marks' := Perform(b, data, i, marks', Act(m, a, data[i]));
      }
    }

    /** The switch, run again and again on byte i until it consumes it. */
    method SwitchByte(data: seq<byte>, i: nat, marks: Marks, ghost m0: Middle)
      returns (outcome: Outcome, marks': Marks)
      requires i < |data| && m0.parser == parser && m0.nread == nread && parser.errno == Ok
      requires !BodyState(parser.state) && m0.mark == Collecting(parser.state)
      requires MidPending(m0.mark, marks, m0.log, Log(), data, i)
      modifies this
      ensures ByteDone(outcome, Finish(m0, data[i]), marks', data, i) && nread <= old(nread)
    {
      hide Joined, Add, Switch, ActAll, MidPending, SoundAll, MarkAfter, Collecting, Rank, Pending;
      var ch := data[i];
      ghost var m := m0;
      marks' := marks;
      while true
        invariant m.parser == parser && m.nread == nread <= old(nread) && parser.errno == Ok
        invariant !BodyState(parser.state) && m.mark == Collecting(parser.state)
        invariant MidPending(m.mark, marks', m.log, Log(), data, i)
        invariant Finish(m, ch) == Finish(m0, ch)
        decreases Rank(parser.state)
      {
        var e := Switch(parser, ch);
        SwitchOrderly(parser, ch);
        AgainDescends(parser, ch);
        marks' := PerformAll(e.actions, data, i, marks', m);
        ghost var p, n := e.parser.(state := e.state), NreadAfter(parser.state, e.next, nread);
        m := ActAll(m, e.actions, ch).(parser := p, nread := n);
        nread := NreadAfter(parser.state, e.next, nread);
        parser := e.parser.(state := e.state);
        match e.next {
          case Again =>
          case Advance =>
            MidToPending(parser.state, marks', m.log, Log(), data, i);
            return Going, marks';
          case Stop(errno) =>
            parser := parser.(errno := errno);
            return Error, marks';
          case Exit =>
            MidIdle(marks', m.log, Log(), data, i);
            return Left, marks';
        }
      }
    }

    /** COUNT_HEADER_SIZE. */
    method Count(v: nat) returns (ok: bool)
      requires nread + v < 0x1_0000_0000
      modifies this`nread, this`parser
      ensures nread == old(nread) + v && ok == (nread <= MAX_HEADER_SIZE)
      ensures parser == if ok then old(parser) else old(parser).(errno := HeaderOverflow)
    {
      nread := (nread + v) % 0x1_0000_0000;
      ok := nread <= MAX_HEADER_SIZE;
      if !ok {
        parser := parser.(errno := HeaderOverflow);
      }
    }

    /** Between bytes the parser stands as the machine does. */
    ghost predicate Stands(c: Conn, marks: Marks, data: seq<byte>, i: nat)
      reads this
    {
      && c.Live() && parser == c.parser && nread == c.nread <= MAX_HEADER_SIZE
      && Pending(parser.state, marks, c.log, Log(), data, i)
    }

    /** The bulk loop over a header name, from byte start, which has been counted. */
    method ScanField(data: seq<byte>, start: nat, marks: Marks, ghost c0: Conn)
      returns (p: nat, outcome: Outcome, marks': Marks)
      requires start < |data| && |data| + MAX_HEADER_SIZE < 0x1_0000_0000
      requires parser.errno == Ok && parser.state.HeaderField? && 1 <= nread <= MAX_HEADER_SIZE
      requires ScanOk(Field, Run(c0, data[..start]), parser, nread - 1, marks, Log(), data, start)
      requires Field in marks && marks[Field] <= start
      modifies this
      ensures start <= p < |data| && Scanned(outcome, c0, marks', data, p)
    {
      hide Joined, Add, Token, FieldChar, Run, Finish, Holds;
      p := start;
      while p < |data| && Token(data[p]) != 0
        invariant start <= p <= |data|
        invariant parser.errno == Ok && parser.state.HeaderField? && nread == old(nread) && Log() == old(Log())
        invariant ScanOk(Field, Run(c0, data[..p]), parser, nread - 1 + (p - start), marks, Log(), data, p)
      {
        if parser.headerState == General {
          var pe := p + Min(|data| - p, MAX_HEADER_SIZE);
          FieldScanStep(c0, parser, nread - 1 + (p - start), marks, Log(), data, p);
          GeneralField(parser, Token(data[p]));
          while p + 1 < pe && Token(data[p + 1]) != 0
            invariant start <= p < pe <= |data|
            invariant ScanOk(Field, Run(c0, data[..p + 1]), parser, nread - 1 + (p + 1 - start), marks, Log(), data, p + 1)
            modifies {}
          {
            p := p + 1;
            FieldScanStep(c0, parser, nread - 1 + (p - start), marks, Log(), data, p);
            GeneralField(parser, Token(data[p]));
          }
        } else {
          FieldScanStep(c0, parser, nread - 1 + (p - start), marks, Log(), data, p);
          FieldCharKeeps(parser, Token(data[p]));
          parser := FieldChar(parser, Token(data[p]));
        }
        p := p + 1;
      }
      p, outcome, marks' := EndField(data, start, p, marks, c0);
    }

    /** After the loop over a header name: counts its bytes and reports it if it is complete. */
    method EndField(data: seq<byte>, start: nat, end: nat, marks: Marks, ghost c0: Conn)
      returns (p: nat, outcome: Outcome, marks': Marks)
      requires start <= end <= |data| && start < |data| && |data| + MAX_HEADER_SIZE < 0x1_0000_0000
      requires end < |data| ==> Token(data[end]) == 0
      requires parser.errno == Ok && parser.state.HeaderField? && 1 <= nread <= MAX_HEADER_SIZE
      requires ScanOk(Field, Run(c0, data[..end]), parser, nread - 1 + (end - start), marks, Log(), data, end)
      requires Field in marks && marks[Field] <= start
      modifies this
      ensures start <= p < |data| && Scanned(outcome, c0, marks', data, p)
    {
      hide Joined, Add, Token, Run, Finish, Holds;
      p := end;
      marks' := marks;
      ghost var c := Run(c0, data[..p]);
      if p == |data| {
        assert data[..p] == data;
        p := p - 1;
        var ok := Count(p - start);
        if !ok {
          return p, Error, marks';
        }
        HoldsPending(Field, parser.state, marks', c.log, Log(), data, p + 1);
        return p, Going, marks';
      }
      EndOfField(c0, parser, nread - 1 + (p - start), marks', Log(), data, p);
      var ok := Count(p - start);
      if !ok {
        return p, Error, marks';
      }
      if data[p] == Chr(':') {
        parser := parser.(state := HeaderValueDiscardWs);
        Callback(Data(Field, data[marks'[Field]..p]));
        marks' := marks' - {Field};
        return p, Going, marks';
      }
      parser := parser.(errno := InvalidHeaderToken);
      outcome := Error;
    }

    /** The inner loop over an unrecognised value: stops before CR or LF, or after the size limit. */
    method SkipValue(data: seq<byte>, ghost start: nat, at: nat, ghost marks: Marks, ghost c0: Conn)
      returns (p: nat, outcome: Outcome)
      requires start <= at < |data| && data[at] != CR && data[at] != LF
      requires parser.errno == Ok && parser.state.HeaderValue? && parser.headerState == General && nread >= 1
      requires ScanOk(Value, Run(c0, data[..at]), parser, nread - 1 + (at - start), marks, Log(), data, at)
      modifies this`parser
      ensures at <= p < |data|
      ensures outcome.Going? ==>
                && parser == old(parser)
                && ScanOk(Value, Run(c0, data[..p + 1]), parser, nread + (p - start), marks, Log(), data, p + 1)
      ensures outcome.Error? ==> SameError(parser.errno, Run(c0, data))
      ensures !outcome.Left?
    {
      hide Joined, Add, ValueChar, Run, Finish, Holds, IsHeaderChar;
      p := at;
      var pe := p + Min(|data| - p, MAX_HEADER_SIZE);
      while p < pe && data[p] != CR && data[p] != LF
        invariant at <= p <= pe <= |data| && parser == old(parser)
        invariant ScanOk(Value, Run(c0, data[..p]), parser, nread - 1 + (p - start), marks, Log(), data, p)
      {
        ValueScanStep(c0, parser, nread - 1 + (p - start), marks, Log(), data, p);
        GeneralValue(parser, data[p]);
        if !parser.lenient && !IsHeaderChar(data[p]) {
          StaysStopped(c0, data, p + 1);
          parser := parser.(errno := InvalidHeaderToken);
          return p, Error;
        }
        p := p + 1;
      }
      if p < pe || p == |data| {
        p := p - 1;
      } else {
        PastLimit(c0, Value, parser, nread - 1 + (p - start), marks, Log(), data, p);
      }
      outcome := Going;
    }

    /** The bulk loop over a header value, from byte start, which has been counted. */
    method ScanValue(data: seq<byte>, start: nat, marks: Marks, ghost c0: Conn)
      returns (p: nat, outcome: Outcome, marks': Marks)
      requires start < |data| && |data| + MAX_HEADER_SIZE < 0x1_0000_0000
      requires parser.errno == Ok && parser.state.HeaderValue? && 1 <= nread <= MAX_HEADER_SIZE
      requires ScanOk(Value, Run(c0, data[..start]), parser, nread - 1, marks, Log(), data, start)
      requires Value in marks && marks[Value] <= start
      modifies this
      ensures start <= p < |data| && Scanned(outcome, c0, marks', data, p)
    {
      hide Joined, Add, ValueChar, Run, Finish, Holds, IsHeaderChar, Pending;
      p := start;
      marks' := marks;
      while p < |data| && data[p] != CR && data[p] != LF
        invariant start <= p <= |data|
        invariant parser.errno == Ok && parser.state.HeaderValue? && nread == old(nread) && Log() == old(Log())
        invariant ScanOk(Value, Run(c0, data[..p]), parser, nread - 1 + (p - start), marks, Log(), data, p)
      {
        if parser.headerState == General {
          p, outcome := SkipValue(data, start, p, marks, c0);
          if outcome.Error? {
            return;
          }
        } else {
          ValueScanStep(c0, parser, nread - 1 + (p - start), marks, Log(), data, p);
          ValueCharKeeps(parser, data[p]);
          parser := ValueChar(parser, data[p]);
          if parser.errno != Ok {
            StaysStopped(c0, data, p + 1);
            return p, Error, marks';
          }
        }
        p := p + 1;
      }
      p, outcome, marks' := EndValue(data, start, p, marks, c0);
    }

    /** After the loop over a header value: counts its bytes and reports it if it is complete. */
    method EndValue(data: seq<byte>, start: nat, end: nat, marks: Marks, ghost c0: Conn)
      returns (p: nat, outcome: Outcome, marks': Marks)
      requires start <= end <= |data| && start < |data| && |data| + MAX_HEADER_SIZE < 0x1_0000_0000
      requires end < |data| ==> data[end] == CR || data[end] == LF
      requires parser.errno == Ok && parser.state.HeaderValue? && 1 <= nread <= MAX_HEADER_SIZE
      requires ScanOk(Value, Run(c0, data[..end]), parser, nread - 1 + (end - start), marks, Log(), data, end)
      requires Value in marks && marks[Value] <= start
      modifies this
      ensures start <= p < |data| && Scanned(outcome, c0, marks', data, p)
    {
      hide Joined, Add, Run, Finish, Holds, Pending, ValueChar, IsHeaderChar, Collecting;
      ValueStates();
      p := end;
      marks' := marks;
      ghost var c := Run(c0, data[..p]);
      if p == |data| {
        assert data[..p] == data;
        p := p - 1;
        var ok := Count(p - start);
        if !ok {
          return p, Error, marks';
        }
        HoldsPending(Value, parser.state, marks', c.log, Log(), data, p + 1);
        return p, Going, marks';
      }
      EndOfValue(c0, parser, nread - 1 + (p - start), marks', Log(), data, p);
      parser := parser.(state := HeaderAlmostDone);
      ghost var log := Add(Log(), Data(Value, data[marks[Value]..p]));
      if data[p] == CR {
        Callback(Data(Value, data[marks[Value]..p]));
        marks' := map[];
        var ok := Count(p - start);
        outcome := if ok then Going else Error;
        IdlePending(parser.state, Log(), data, p + 1);
      } else {
        var ok := Count(p - start);
        if !ok {
          return p, Error, marks';
        }
        Callback(Data(Value, data[marks[Value]..p]));
        outcome, marks' := SwitchAgain(data, p, c0);
      }
    }

    /** The byte after a header value, switched on again. */
    method SwitchAgain(data: seq<byte>, p: nat, ghost c0: Conn) returns (outcome: Outcome, marks': Marks)
      requires p < |data| && parser.errno == Ok && parser.state.HeaderAlmostDone? && nread <= MAX_HEADER_SIZE
      requires Run(c0, data[..p + 1]) == Finish(Middle(parser, nread, Log(), None), data[p])
      requires Run(c0, data[..p]).Live()
      modifies this
      ensures Scanned(outcome, c0, marks', data, p)
    {
      hide Joined, Add, Run, Finish;
      outcome, marks' := SwitchByte(data, p, map[], Middle(parser, nread, Log(), None));
      if !outcome.Going? {
        StaysStopped(c0, data, p + 1);
      }
    }

    /** Body data from byte i: as much of it as the buffer holds and the message has left. */
    method ScanBody(data: seq<byte>, i: nat, marks: Marks, ghost c0: Conn)
      returns (p: nat, outcome: Outcome, marks': Marks)
      requires i < |data| && Stands(Run(c0, data[..i]), marks, data, i)
      requires parser.state.ChunkData? || parser.state.BodyIdentity? || parser.state.BodyIdentityEof?
      requires Sane(parser)
      modifies this
      ensures i <= p < |data| && Scanned(outcome, c0, marks', data, p)
    {
      hide Joined, Add, Run, Finish, Holds, Pending, Collecting;
      ghost var c := Run(c0, data[..i]);
      PendingBody(parser.state, marks, c.log, Log(), data, i);
      marks' := marks;
      if Body !in marks' {
        marks' := marks'[Body := i];
      }
      var toRead := if parser.state.BodyIdentityEof? then |data| - i else Min(parser.contentLength, |data| - i);
      p := i + toRead - 1;
      RunOn(c0, data, i, p + 1);
      BodyHeld(marks, marks', c.log, Log(), data, i, p + 1);
      if parser.state.BodyIdentity? && toRead == parser.contentLength {
        IdentityEnd(c, data[i..p + 1]);
        RunOn(c0, data, i, p);
        if i < p {
          IdentityRun(c, data[i..p]);
        }
        outcome, marks' := EndIdentity(data, p, marks', c0, Add(c.log, Data(Body, data[i..p + 1])));
      } else {
        TakeBody(data, i, p, marks', c0);
        outcome := Going;
      }
    }

    /** Counts off body bytes i to p that do not end the message. */
    method TakeBody(data: seq<byte>, i: nat, p: nat, marks: Marks, ghost c0: Conn)
      requires i <= p < |data|
      requires var c := Run(c0, data[..i]);
               && c.Live() && parser == c.parser && nread == c.nread <= MAX_HEADER_SIZE
               && Run(c0, data[..p + 1]) == Run(c, data[i..p + 1])
               && Body in marks && marks[Body] < p + 1
               && Holds(Body, marks, Add(c.log, Data(Body, data[i..p + 1])), Log(), data, p + 1)
      requires Sane(parser)
      requires || parser.state.BodyIdentityEof?
               || (parser.state.BodyIdentity? && p + 1 - i < parser.contentLength)
               || (parser.state.ChunkData? && p + 1 - i <= parser.contentLength)
      modifies this`parser
      ensures Stands(Run(c0, data[..p + 1]), marks, data, p + 1)
    {
      hide Joined, Add, Run, Finish, Holds, Pending, Collecting;
      ghost var c := Run(c0, data[..i]);
      if parser.state.BodyIdentityEof? {
        EofRun(c, data[i..p + 1]);
      } else {
        var left := parser.contentLength - (p + 1 - i);
        if parser.state.BodyIdentity? {
          IdentityRun(c, data[i..p + 1]);
          parser := parser.(contentLength := left);
        } else {
          ChunkDataRun(c, data[i..p + 1]);
          parser := parser.(contentLength := left, state := if left == 0 then ChunkDataAlmostDone else ChunkData);
        }
      }
      PendingBodyEnd(parser.state, marks, Run(c0, data[..p + 1]).log, Log(), data, p + 1);
    }

    /** The last byte of a counted body: the data is reported and the message is complete. */
    method EndIdentity(data: seq<byte>, p: nat, marks: Marks, ghost c0: Conn, ghost seen: seq<Event>)
      returns (outcome: Outcome, marks': Marks)
      requires p < |data| && parser.errno == Ok && nread <= MAX_HEADER_SIZE
      requires Body in marks && marks[Body] < p + 1 && Holds(Body, marks, seen, Log(), data, p + 1)
      requires Run(c0, data[..p]).Live()
      requires Run(c0, data[..p + 1]) ==
               Finish(Middle(parser.(contentLength := 0, state := MessageDone), nread, seen, None), data[p])
      modifies this
      ensures Scanned(outcome, c0, marks', data, p)
    {
      hide Joined, Add, Run, Finish, Pending, Collecting;
      HoldsFlush(Body, marks, seen, Log(), data, p + 1);
      parser := parser.(contentLength := 0, state := MessageDone);
      Callback(Data(Body, data[marks[Body]..p + 1]));
      DoneCollectsNothing();
      outcome, marks' := SwitchIdleByte(data, p, marks - {Body}, Log());
      if !outcome.Going? {
        StaysStopped(c0, data, p + 1);
      }
    }

    /** The switch run on byte i in a state that collects nothing. */
    method SwitchIdleByte(data: seq<byte>, i: nat, marks: Marks, ghost seen: seq<Event>)
      returns (outcome: Outcome, marks': Marks)
      requires i < |data| && marks == map[] && seen == Log() && parser.errno == Ok
      requires !BodyState(parser.state) && Collecting(parser.state).None?
      modifies this
      ensures ByteDone(outcome, Finish(old(Middle(parser, nread, seen, None)), data[i]), marks', data, i)
      ensures nread <= old(nread)
    {
      hide Joined, Add, Finish, ByteDone;
      outcome, marks' := SwitchByte(data, i, marks, Middle(parser, nread, seen, None));
    }

    /** The byte after the data of a chunk: what is still held is reported. */
    method EndChunkData(data: seq<byte>, i: nat, marks: Marks, ghost c0: Conn) returns (outcome: Outcome, marks': Marks)
      requires i < |data| && Stands(Run(c0, data[..i]), marks, data, i) && parser.state.ChunkDataAlmostDone?
      modifies this
      ensures Scanned(outcome, c0, marks', data, i)
    {
      hide Joined, Add, Run, Step;
      RunStep(c0, data, i);
      ChunkDataEnd(Run(c0, data[..i]), data[i]);
      marks' := marks;
      if data[i] != CR {
        parser := parser.(errno := StrictCheck);
        StaysStopped(c0, data, i + 1);
        return Error, marks';
      }
      parser := parser.(state := ChunkDataDone);
      if Body in marks' {
        Callback(Data(Body, data[marks'[Body]..i]));
        marks' := marks' - {Body};
      }
      outcome := Going;
    }

    /** A byte outside the bulk states, already counted if it is to be. */
    method OneByte(data: seq<byte>, i: nat, marks: Marks, ghost c0: Conn) returns (outcome: Outcome, marks': Marks)
      requires i < |data| && parser.errno == Ok && nread <= MAX_HEADER_SIZE && !BodyState(parser.state)
      requires var c := Run(c0, data[..i]);
               && c.Live() && Pending(parser.state, marks, c.log, Log(), data, i)
               && Run(c0, data[..i + 1]) == Finish(Middle(parser, nread, c.log, Collecting(parser.state)), data[i])
      modifies this
      ensures Scanned(outcome, c0, marks', data, i)
    {
      hide Joined, Add, Run, Finish, Pending, MidPending, Collecting;
      ghost var c := Run(c0, data[..i]);
      PendingToMid(parser.state, marks, c.log, Log(), data, i);
      outcome, marks' := SwitchByte(data, i, marks, Middle(parser, nread, c.log, Collecting(parser.state)));
      if !outcome.Going? {
        StaysStopped(c0, data, i + 1);
      }
    }

    /** What a bulk loop or a single byte leaves behind, having consumed bytes up to p. */
    ghost predicate Scanned(outcome: Outcome, c0: Conn, marks: Marks, data: seq<byte>, p: nat)
      requires p < |data|
      reads this
    {
      match outcome
      case Going => Stands(Run(c0, data[..p + 1]), marks, data, p + 1)
      case Error => SameError(parser.errno, Run(c0, data))
      case Left =>
        var r := Run(c0, data[..p + 1]);
        r == Run(c0, data) && r.exited && Run(c0, data[..p]).Live() && parser == r.parser && nread == r.nread <= MAX_HEADER_SIZE
        && Log() == r.log && parser.errno == Ok
    }

    /** The parser stands after byte i as the machine does. */
    ghost predicate ByteDone(outcome: Outcome, r: Conn, marks: Marks, data: seq<byte>, i: nat)
      reads this
    {
      match outcome
      case Going =>
        && r.Live() && parser == r.parser && nread == r.nread
        && Pending(parser.state, marks, r.log, Log(), data, i + 1)
      case Error => Failed(r) && parser.errno == r.parser.errno
      case Left => r.exited && parser == r.parser && nread == r.nread && Log() == r.log && parser.errno == Ok
    }

    /** One pass of the main loop: from byte i to the last byte that the state at i handles. */
    method Advance(data: seq<byte>, i: nat, marks: Marks, ghost c0: Conn)
      returns (p: nat, outcome: Outcome, marks': Marks)
      requires i < |data| && |data| + MAX_HEADER_SIZE < 0x1_0000_0000
      requires Stands(Run(c0, data[..i]), marks, data, i) && Sane(parser)
      modifies this
      ensures i <= p < |data| && Scanned(outcome, c0, marks', data, p)
    {
      hide Joined, Add, Run, Finish, Pending, Holds, Sane;
      ghost var c := Run(c0, data[..i]);
      RunStep(c0, data, i);
      p, marks' := i, marks;
      if ParsingHeader(parser.state) {
        var ok := Count(1);
        if !ok {
          OverflowStep(c, data[i]);
          StaysStopped(c0, data, i + 1);
          return p, Error, marks';
        }
      }
      if parser.state.HeaderField? {
        PendingHolds(Field, parser.state, marks, c.log, Log(), data, i);
        p, outcome, marks' := ScanField(data, i, marks, c0);
      } else if parser.state.HeaderValue? {
        PendingHolds(Value, parser.state, marks, c.log, Log(), data, i);
        p, outcome, marks' := ScanValue(data, i, marks, c0);
      } else if parser.state.ChunkData? || parser.state.BodyIdentity? || parser.state.BodyIdentityEof? {
        p, outcome, marks' := ScanBody(data, i, marks, c0);
      } else if parser.state.ChunkDataAlmostDone? {
        outcome, marks' := EndChunkData(data, i, marks, c0);
      } else {
        outcome, marks' := OneByte(data, i, marks, c0);
      }
    }

    /** Reports what is still being collected when the buffer ends; at most one mark is set. */
    method ReportRest(data: seq<byte>, marks: Marks, ghost c: Conn)
      requires data != [] && Pending(parser.state, marks, c.log, Log(), data, |data|)
      modifies this`events
      ensures Log() == c.log
    {
      hide Joined, Add, Pending;
      ghost var kind := PendingRest(parser.state, marks, c.log, Log(), data);
      assert kind.None? || kind.value.Field? || kind.value.Value? || kind.value.Url? || kind.value.Body?
             || kind.value.Status?;
      if Field in marks {
        Callback(Data(Field, data[marks[Field]..]));
      }
      if Value in marks {
        Callback(Data(Value, data[marks[Value]..]));
      }
      if Url in marks {
        Callback(Data(Url, data[marks[Url]..]));
      }
      if Body in marks {
        Callback(Data(Body, data[marks[Body]..]));
      }
      if Status in marks {
        Callback(Data(Status, data[marks[Status]..]));
      }
    }

    /** The mark a call starts with. */
    method StartMarks(ghost data: seq<byte>) returns (marks: Marks)
      ensures Pending(parser.state, marks, Log(), Log(), data, 0)
    {
      hide Joined, Add;
      marks := map[];
      if parser.state.HeaderField? {
        marks := marks[Field := 0];
      }
      if parser.state.HeaderValue? {
        marks := marks[Value := 0];
      }
      if InUrl(parser.state) {
        marks := marks[Url := 0];
      } else if parser.state.ResStatus? {
        marks := marks[Status := 0];
      }
    }

    /** The parser, as the one-byte machine sees it. */
    ghost function AsConn(): Conn
      reads this
    {
      Conn(parser, nread, Log(), false)
    }

    /** Ready for a call: no error so far and every assertion of the switch in force. */
    ghost predicate Ready()
      reads this
    {
      parser.errno == Ok ==> Inv(AsConn()) && nread <= MAX_HEADER_SIZE
    }

    constructor (kind: ParserType, allowChunkedLength: bool, lenient: bool)
      ensures AsConn() == Fresh(kind, allowChunkedLength, lenient) && Ready()
    {
      parser := Fresh(kind, allowChunkedLength, lenient).parser;
      nread := 0;
      events := [];
    }

    /**
     One call on one non-empty buffer.  It does what the one-byte machine does with the bytes one at
     a time; consumed is short of the buffer only on an error or on leaving for another protocol.
     */
    method Scan(data: seq<byte>) returns (consumed: nat, left: bool)
      requires 0 < |data| && |data| + MAX_HEADER_SIZE < 0x1_0000_0000
      requires Ready() && parser.errno == Ok
      modifies this
      ensures Ready() && consumed <= |data|
      ensures var r := Run(old(AsConn()), data);
              if r.Live() then !left && consumed == |data| && AsConn() == r
              else if r.exited then
                && left && consumed > 0 && AsConn() == r.(exited := false)
                && Run(old(AsConn()), data[..consumed]) == r && Run(old(AsConn()), data[..consumed - 1]).Live()
              else !left && SameError(parser.errno, r)
    {
      hide Joined, Add, Run, Pending, Inv, Sane;
      ghost var c0 := AsConn();
      var marks := StartMarks(data);
      assert data[..0] == [];
      RunNothing(c0);
      var i := 0;
      while i < |data|
        invariant 0 <= i <= |data|
        invariant Stands(Run(c0, data[..i]), marks, data, i)
      {
        RunKeeps(c0, data[..i]);
        SaneRun(c0, data[..i]);
        var p, outcome;
        p, outcome, marks := Advance(data, i, marks, c0);
        match outcome {
          case Error =>
            return p, false;
          case Left =>
            RunKeeps(c0, data);
            InvLog(Run(c0, data), AsConn());
            return p + 1, true;
          case Going =>
            i := p + 1;
        }
      }
      assert data[..i] == data;
      ReportRest(data, marks, Run(c0, data));
      RunKeeps(c0, data);
      return |data|, false;
    }

    /** One call.  An empty buffer stands for the end of the connection. */
    method Execute(data: seq<byte>) returns (consumed: nat, left: bool)
      requires |data| + MAX_HEADER_SIZE < 0x1_0000_0000
      requires Ready()
      modifies this
      ensures Ready() && consumed <= |data| + 1
      ensures old(parser.errno) != Ok ==> consumed == 0 && !left && AsConn() == old(AsConn())
      ensures old(parser.errno) == Ok && data == [] ==> !left && AsConn() == EndOfInput(old(AsConn()))
      ensures old(parser.errno) == Ok && data != [] ==>
              var r := Run(old(AsConn()), data);
              if r.Live() then !left && consumed == |data| && AsConn() == r
              else if r.exited then
                && left && 0 < consumed <= |data| && AsConn() == r.(exited := false)
                && Run(old(AsConn()), data[..consumed]) == r && Run(old(AsConn()), data[..consumed - 1]).Live()
              else !left && SameError(parser.errno, r)
    {
      hide Joined, Add, Run, Sane;
      consumed, left := 0, false;
      if parser.errno != Ok {
        return;
      }
      if data != [] {
        consumed, left := Scan(data);
      } else if parser.state.BodyIdentityEof? {
        Callback(Notified(MessageComplete));
      } else if !(parser.state.Dead? || parser.state.StartReqOrRes? || parser.state.StartRes? || parser.state.StartReq?) {
        parser := parser.(errno := InvalidEofState);
        consumed := 1;
      }
    }

    /** A connection whose bytes arrive in non-empty pieces, each given to one call. */
    method ExecuteAll(pieces: seq<seq<byte>>) returns (left: bool)
      requires forall k :: 0 <= k < |pieces| ==> 0 < |pieces[k]| && |pieces[k]| + MAX_HEADER_SIZE < 0x1_0000_0000
      requires Ready() && parser.errno == Ok
      modifies this
      ensures Ready()
      ensures var r := Run(old(AsConn()), Flatten(pieces));
              if r.Live() then !left && AsConn() == r
              else if r.exited then left && AsConn() == r.(exited := false)
              else !left && SameError(parser.errno, r)
    {
      hide Joined, Add, Run, Inv, Flatten;
      ghost var c0 := AsConn();
      var k := 0;
      RunNothing(c0);
      FlattenNothing(pieces);
      while k < |pieces|
        invariant 0 <= k <= |pieces|
        invariant Ready() && parser.errno == Ok
        invariant AsConn() == Run(c0, Flatten(pieces[..k]))
      {
        ghost var c := AsConn();
        var consumed;
        consumed, left := Scan(pieces[k]);
        assert pieces[..k + 1] == pieces[..k] + [pieces[k]];
        FlattenSnoc(pieces[..k], pieces[k]);
        RunConcat(c0, Flatten(pieces[..k]), pieces[k]);
        if left || parser.errno != Ok {
          FlattenPrefix(pieces, k + 1);
          RunConcat(c0, Flatten(pieces[..k + 1]), Flatten(pieces[k + 1..]));
          RunStopped(Run(c0, Flatten(pieces[..k + 1])), Flatten(pieces[k + 1..]));
          return left;
        }
        k := k + 1;
      }
      assert pieces[..k] == pieces;
      return false;
    }
  }

  /** What the end of the connection does: only a body that runs until then is complete. */
  function EndOfInput(c: Conn): Conn {
    match c.parser.state
    case BodyIdentityEof => c.(log := Add(c.log, Notified(MessageComplete)))
    case Dead => c
    case StartReqOrRes => c
    case StartRes => c
    case StartReq => c
    case _ => c.(parser := c.parser.(errno := InvalidEofState))
  }

  lemma {:induction false} FlattenNothing(pieces: seq<seq<byte>>)
    ensures Flatten(pieces[..0]) == []
  {
  }

  lemma {:induction false} FlattenPrefix(pieces: seq<seq<byte>>, k: nat)
    requires k <= |pieces|
    ensures Flatten(pieces) == Flatten(pieces[..k]) + Flatten(pieces[k..])
    decreases |pieces|
  {
    if k == 0 {
      assert pieces[..0] == [] && pieces[0..] == pieces;
    } else {
      FlattenPrefix(pieces[1..], k - 1);
      assert pieces[1..][..k - 1] == pieces[..k][1..];
      assert pieces[1..][k - 1..] == pieces[k..];
    }
  }

  lemma {:induction false} RunNothing(c: Conn)
    ensures Run(c, []) == c
  {
    hide Step;
  }

  lemma {:induction false} SaneRun(c: Conn, data: seq<byte>)
    requires Inv(Run(c, data))
    ensures Sane(Run(c, data).parser)
  {
    hide Run, Sane;
  }

  lemma {:induction false} InvLog(c: Conn, d: Conn)
    requires Inv(c) && c.parser == d.parser && c.nread == d.nread
    ensures Inv(d)
  {
    hide Sane;
  }
}
