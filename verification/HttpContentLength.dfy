/**
 The value of a Content-Length header, line folds included: exactly which values are accepted, and
 that an accepted value is the number that its digits denote.
 */
module HttpContentLength {
  import opened Basics
  import opened HttpSyntax
  import opened HttpMachine
  import opened HttpScan
  import opened HttpValues

  const MAX_LENGTH := 18446744073709551609

  predicate Digit(t: Item) {
    t.Char? && IsNum(t.b)
  }

  /** What may follow the digits: a tab only as the character that makes a fold. */
  predicate Trailing(t: Item) {
    t.Fold? || t.b == SP
  }

  predicate AllBlank(items: seq<Item>) {
    forall k :: 0 <= k < |items| ==> Blank(items[k])
  }

  /** Blanks, then digits from i to j, then spaces. */
  predicate Shaped(items: seq<Item>, i: nat, j: nat) {
    && i < j <= |items|
    && (forall k :: 0 <= k < i ==> Blank(items[k]))
    && (forall k :: i <= k < j ==> Digit(items[k]))
    && (forall k :: j <= k < |items| ==> Trailing(items[k]))
  }

  function Ones(t: Item): nat
    requires Digit(t)
  {
    t.b - Chr('0')
  }

  /** The number that the digits denote. */
  function Dec(items: seq<Item>): nat
    requires forall k :: 0 <= k < |items| ==> Digit(items[k])
  {
    if items == [] then 0
    else Dec(items[..|items| - 1]) * 10 + Ones(items[|items| - 1])
  }

  predicate Good(items: seq<Item>, i: nat, j: nat) {
    Shaped(items, i, j) && Dec(items[i..j]) <= MAX_LENGTH
  }

  lemma {:induction false} ShapeUnique(items: seq<Item>, i: nat, j: nat, i': nat, j': nat)
    requires Shaped(items, i, j) && Shaped(items, i', j')
    ensures i == i' && j == j'
  {
    assert Digit(items[i]) && Digit(items[i']);
    assert j < |items| ==> Trailing(items[j]);
    assert j' < |items| ==> Trailing(items[j']);
    assert Digit(items[j - 1]) && Digit(items[j' - 1]);
  }

  /** A value whose last item is taken away keeps its shape, or is left with blanks only. */
  lemma {:induction false} GoodBefore(items: seq<Item>, i: nat, j: nat)
    requires Good(items, i, j)
    ensures var init := items[..|items| - 1];
            AllBlank(init) || Good(init, i, Min(j, |init|))
  {
    var init := items[..|items| - 1];
    if j == |items| {
      if j - 1 > i {
        assert init[i..j - 1] == items[i..j][..j - i - 1];
      }
    } else {
      assert init[i..j] == items[i..j];
    }
  }

  // ----- steps -----

  /** Before the first digit. */
  predicate Waiting(c: Conn, start: Conn, n: nat) {
    Leading(start) && start.parser.headerState.ContentLength? && c == start.(nread := n)
  }

  /** The parser that has read v from the digits. */
  function Counted(p: Parser, h: HeaderState, v: nat, index: nat): Parser {
    p.(state := HeaderValue, headerState := h, contentLength := v, index := index, flags := p.flags.(contentLength := true))
  }

  /** After the first digit; bytes are reported. */
  predicate Counting(c: Conn, start: Conn, h: HeaderState, v: nat, n: nat, bytes: seq<byte>) {
    && (h == ContentLengthNum || h == ContentLengthWs) && bytes != [] && start.parser.errno == Ok
    && c == Conn(Counted(start.parser, h, v, c.parser.index), n, Add(start.log, Data(Value, bytes)), false)
  }

  lemma {:induction false} LengthStart(p: Parser, ch: byte)
    requires p.headerState.ContentLength? && p.errno == Ok
    ensures var e := ValueStart(p, ch);
            if IsNum(ch) && !p.flags.contentLength then
              && e.next == Next.Advance && e.actions == Do(Mark(Value)) && e.parser.errno == Ok
              && e.parser.(state := e.state) == Counted(p, ContentLengthNum, ch - Chr('0'), 0)
            else e.next.Stop? && e.next.errno != Ok
  {
    hide Lower;
  }

  lemma {:induction false} WaitingChar(c: Conn, start: Conn, ch: byte)
    requires Waiting(c, start, c.nread) && c.nread < MAX_HEADER_SIZE && ch != CR && ch != LF && ch != SP && ch != HT
    ensures if IsNum(ch) && !start.parser.flags.contentLength then
              Counting(Step(c, ch), start, ContentLengthNum, ch - Chr('0'), c.nread + 1, [ch])
            else Failed(Step(c, ch))
  {
    hide Switch, Step, Finish, Add, Collecting, ValueStart, SwitchValue, Failed, IsNum, ParsingHeader;
    OnValue(c.parser, ch);
    BreakEffects(c.parser, ch);
    CollectsNothing(c.parser.state);
    LengthStart(c.parser, ch);
    var e := ValueStart(c.parser, ch);
    if e.next.Stop? {
      PlainStop(c, ch, e);
    } else {
      PlainAdvance(c, ch, e);
    }
  }

  lemma {:induction false} LengthChar(p: Parser, ch: byte)
    requires p.errno == Ok && (p.headerState.ContentLengthNum? || p.headerState.ContentLengthWs?)
    ensures var q := ValueChar(p, ch);
            if ch == SP then q == p.(headerState := ContentLengthWs)
            else if p.headerState.ContentLengthNum? && IsNum(ch) && p.contentLength * 10 + (ch - Chr('0')) <= MAX_LENGTH then
              q == p.(contentLength := p.contentLength * 10 + (ch - Chr('0')))
            else q.errno != Ok
  {
  }

  lemma {:induction false} CountingChar(c: Conn, start: Conn, bytes: seq<byte>, ch: byte)
    requires Counting(c, start, c.parser.headerState, c.parser.contentLength, c.nread, bytes)
    requires c.nread < MAX_HEADER_SIZE && ch != CR && ch != LF
    ensures var r, h := Step(c, ch), c.parser.headerState;
            var v := c.parser.contentLength * 10 + (ch - Chr('0'));
            if ch == SP then Counting(r, start, ContentLengthWs, c.parser.contentLength, c.nread + 1, bytes + [ch])
            else if h == ContentLengthNum && IsNum(ch) && v <= MAX_LENGTH then
              Counting(r, start, h, v, c.nread + 1, bytes + [ch])
            else Failed(r)
  {
    hide Add, Finish, Step, ValueChar, Switch, IsNum;
    InsideChar(c, ch);
    LengthChar(c.parser, ch);
    AddTwice(start.log, Value, bytes, [ch]);
  }

  lemma {:induction false} WaitingFold(c: Conn, start: Conn, t: Item)
    requires Waiting(c, start, c.nread) && t.Fold? && (t.b == SP || t.b == HT) && c.nread + |Wire(t)| <= MAX_HEADER_SIZE
    ensures Waiting(Run(c, Wire(t)), start, c.nread + |Wire(t)|)
  {
    hide Run;
    LeadFold(c, t);
  }

  lemma {:induction false} CountingFold(c: Conn, start: Conn, bytes: seq<byte>, t: Item)
    requires Counting(c, start, c.parser.headerState, c.parser.contentLength, c.nread, bytes)
    requires t.Fold? && (t.b == SP || t.b == HT) && c.nread + |Wire(t)| <= MAX_HEADER_SIZE
    ensures Counting(Run(c, Wire(t)), start, ContentLengthWs, c.parser.contentLength, c.nread + |Wire(t)|, bytes + [t.b])
  {
    hide Run, Add, Folded;
    InsideFold(c, t);
    FoldedLength(c.parser, t.b);
    AddTwice(start.log, Value, bytes, [t.b]);
  }

  /** The first character of a folded line is not looked at. */
  lemma {:induction false} FoldedLength(p: Parser, b: byte)
    requires p.headerState.ContentLengthNum? || p.headerState.ContentLengthWs?
    ensures Folded(p, b) == p.(index := 0, headerState := ContentLengthWs, state := HeaderValue)
  {
    hide Lower;
  }

  // ----- whole values -----

  datatype Phase = Blanks | Digits | Spaces | Bad

  ghost predicate Reached(c: Conn, items: seq<Item>, r: Conn, phase: Phase, i: nat, j: nat) {
    var n := c.nread + |Bytes(items)|;
    match phase
    case Blanks => AllBlank(items) && Waiting(r, c, n) && Reported(items) == []
    case Digits =>
      && Good(items, i, j) && !c.parser.flags.contentLength
      && j == |items| && Counting(r, c, ContentLengthNum, Dec(items[i..j]), n, Reported(items))
    case Spaces =>
      && Good(items, i, j) && !c.parser.flags.contentLength
      && j < |items| && Counting(r, c, ContentLengthWs, Dec(items[i..j]), n, Reported(items))
    case Bad =>
      Failed(r) && !AllBlank(items) && (c.parser.flags.contentLength || forall a: nat, b: nat :: !Good(items, a, b))
  }

  lemma {:induction false} AddToBlanks(c: Conn, items: seq<Item>, r: Conn) returns (phase: Phase, i: nat, j: nat)
    requires items != [] && Text(items) && c.nread + |Bytes(items)| < MAX_HEADER_SIZE
    requires Reached(c, items[..|items| - 1], r, Blanks, 0, 0)
    ensures Reached(c, items, Run(r, Wire(items[|items| - 1])), phase, i, j)
  {
    hide Step, Run, IsNum, Good, Counting, Bytes, AllBlank, Dec, Failed, Reported;
    var l := |items| - 1;
    var t := items[l];
    ItemsSnoc(items);
    phase, i, j := Blanks, 0, 0;
    if t.Fold? {
      WaitingFold(r, c, t);
    } else {
      RunOne(r, t.b);
      if Blank(t) {
        LeadBlank(r, t.b);
      } else {
        WaitingChar(r, c, t.b);
        NotGood(items, l);
        phase := Bad;
        if Digit(t) && !c.parser.flags.contentLength {
          phase, i, j := Digits, l, l + 1;
          FirstDigit(items, l);
          assert [] + [t.b] == [t.b];
        }
      }
    }
  }

  /** An item that may follow the digits leaves a good value good. */
  lemma {:induction false} GoodTrails(items: seq<Item>, i: nat, j: nat)
    requires items != [] && Good(items[..|items| - 1], i, j) && Trailing(items[|items| - 1])
    ensures Good(items, i, j) && items[i..j] == items[..|items| - 1][i..j]
  {
    hide Dec, Digit, Blank, Trailing;
    var init := items[..|items| - 1];
    assert items[i..j] == init[i..j];
    assert forall k :: 0 <= k < |init| ==> items[k] == init[k];
  }

  lemma {:induction false} AddToDigits(c: Conn, items: seq<Item>, r: Conn, i: nat, j: nat)
      returns (phase: Phase, i': nat, j': nat)
    requires items != [] && Text(items) && c.nread + |Bytes(items)| < MAX_HEADER_SIZE
    requires Reached(c, items[..|items| - 1], r, Digits, i, j)
    ensures Reached(c, items, Run(r, Wire(items[|items| - 1])), phase, i', j')
  {
    hide Step, Run, Failed, Waiting, AllBlank, Bytes, Dec, Reported;
    var t := items[|items| - 1];
    ItemsSnoc(items);
    phase, i', j' := Spaces, i, j;
    if t.Fold? {
      hide Shaped;
      GoodTrails(items, i, j);
      CountingFold(r, c, Reported(items[..|items| - 1]), t);
    } else {
      RunOne(r, t.b);
      CountingChar(r, c, Reported(items[..|items| - 1]), t.b);
      if Digit(t) {
        MoreDigits(items, i);
        phase, j' := Digits, |items|;
        if Dec(items[i..|items|]) > MAX_LENGTH {
          phase := Bad;
          TooLarge(items, i);
        }
      } else if t.b == SP {
        hide Shaped;
        GoodTrails(items, i, j);
      } else {
        phase := Bad;
        EndsBadly(items, i);
      }
    }
  }

  lemma {:induction false} TooLarge(items: seq<Item>, i: nat)
    requires Shaped(items, i, |items|) && !Good(items, i, |items|)
    ensures !AllBlank(items) && forall a: nat, b: nat :: !Good(items, a, b)
  {
    hide Dec;
    assert Digit(items[i]);
    forall a: nat, b: nat ensures !Good(items, a, b) {
      if Good(items, a, b) {
        ShapeUnique(items, i, |items|, a, b);
      }
    }
  }

  lemma {:induction false} AddToSpaces(c: Conn, items: seq<Item>, r: Conn, i: nat, j: nat) returns (phase: Phase)
    requires items != [] && Text(items) && c.nread + |Bytes(items)| < MAX_HEADER_SIZE
    requires Reached(c, items[..|items| - 1], r, Spaces, i, j)
    ensures Reached(c, items, Run(r, Wire(items[|items| - 1])), phase, i, j)
  {
    hide Step, Run, Failed, Dec, Waiting, AllBlank, Bytes, Reported;
    var l := |items| - 1;
    var t := items[l];
    ItemsSnoc(items);
    assert items[i..j] == items[..l][i..j];
    phase := Spaces;
    if t.Fold? {
      CountingFold(r, c, Reported(items[..|items| - 1]), t);
    } else {
      RunOne(r, t.b);
      CountingChar(r, c, Reported(items[..|items| - 1]), t.b);
      if t.b != SP {
        phase := Bad;
        DigitTooLate(items, i, j);
      }
    }
  }

  lemma {:induction false} AddToBad(c: Conn, items: seq<Item>, r: Conn)
    requires items != [] && Reached(c, items[..|items| - 1], r, Bad, 0, 0)
    ensures Reached(c, items, Run(r, Wire(items[|items| - 1])), Bad, 0, 0)
  {
    hide Run, Good, Waiting, Counting;
    RunStopped(r, Wire(items[|items| - 1]));
    forall a: nat, b: nat | !c.parser.flags.contentLength ensures !Good(items, a, b) {
      if Good(items, a, b) {
        GoodBefore(items, a, b);
      }
    }
  }

  lemma {:induction false} AddItem(c: Conn, items: seq<Item>, r: Conn, phase: Phase, i: nat, j: nat)
      returns (phase': Phase, i': nat, j': nat)
    requires items != [] && Text(items) && c.nread + |Bytes(items)| < MAX_HEADER_SIZE
    requires Reached(c, items[..|items| - 1], r, phase, i, j)
    ensures Reached(c, items, Run(r, Wire(items[|items| - 1])), phase', i', j')
  {
    hide Run, Good, Waiting, Counting, Bytes, AllBlank;
    match phase {
      case Blanks =>
        phase', i', j' := AddToBlanks(c, items, r);
      case Digits =>
        phase', i', j' := AddToDigits(c, items, r, i, j);
      case Spaces =>
        phase' := AddToSpaces(c, items, r, i, j);
        i', j' := i, j;
      case Bad =>
        AddToBad(c, items, r);
        phase', i', j' := Bad, 0, 0;
    }
  }

  lemma {:induction false} OneDigit(t: Item)
    requires Digit(t)
    ensures Dec([t]) == t.b - Chr('0') && !Blank(t)
  {
    assert [t][..0] == [];
    assert Dec([]) == 0;
  }

  lemma {:induction false} NumBlank(t: Item)
    requires Digit(t)
    ensures !Blank(t)
  {
  }

  /** The first item that is not blank is no digit, so there is no number. */
  lemma {:induction false} NotGood(items: seq<Item>, l: nat)
    requires l + 1 == |items| && AllBlank(items[..l]) && !Blank(items[l])
    ensures !AllBlank(items)
    ensures !Digit(items[l]) ==> forall a: nat, b: nat :: !Good(items, a, b)
  {
    hide Dec;
    forall k | 0 <= k < l ensures !Digit(items[k]) {
      assert items[..l][k] == items[k];
    }
    forall a: nat, b: nat | Good(items, a, b) ensures Digit(items[a]) && Digit(items[l]) {
    }
  }

  lemma {:induction false} FirstDigit(items: seq<Item>, l: nat)
    requires l + 1 == |items| && AllBlank(items[..l]) && Digit(items[l])
    ensures Good(items, l, l + 1) && Dec(items[l..l + 1]) == Ones(items[l])
  {
    assert items[l..l + 1] == [items[l]];
    OneDigit(items[l]);
    forall k | 0 <= k < l ensures Blank(items[k]) {
      assert items[..l][k] == items[k];
    }
  }

  lemma {:induction false} MoreDigits(items: seq<Item>, i: nat)
    requires i + 1 < |items| && Shaped(items[..|items| - 1], i, |items| - 1) && Digit(items[|items| - 1])
    ensures Shaped(items, i, |items|)
    ensures Dec(items[i..]) == Dec(items[i..|items| - 1]) * 10 + (items[|items| - 1].b - Chr('0'))
    ensures items[i..|items|] == items[i..] && items[..|items| - 1][i..|items| - 1] == items[i..|items| - 1]
  {
    hide Dec, Digit, Blank, Trailing;
    var l := |items| - 1;
    assert items[i..][..l - i] == items[i..l];
    assert items[..l][i..l] == items[i..l];
    forall k | 0 <= k < i ensures Blank(items[k]) {
      assert items[..l][k] == items[k];
    }
    forall k | i <= k < |items| ensures Digit(items[k]) {
      assert k < l ==> items[..l][k] == items[k];
    }
    DecSnoc(items[i..]);
  }

  lemma {:induction false} DecSnoc(items: seq<Item>)
    requires items != [] && forall k :: 0 <= k < |items| ==> Digit(items[k])
    ensures Dec(items) == Dec(items[..|items| - 1]) * 10 + (items[|items| - 1].b - Chr('0'))
  {
  }

  lemma {:induction false} EndsBadly(items: seq<Item>, i: nat)
    requires i + 1 < |items| && Shaped(items[..|items| - 1], i, |items| - 1)
    requires !Digit(items[|items| - 1]) && !Trailing(items[|items| - 1])
    ensures !AllBlank(items) && forall a: nat, b: nat :: !Good(items, a, b)
  {
    hide Dec;
    var l := |items| - 1;
    assert Digit(items[..l][i]);
    NumBlank(items[i]);
    forall a: nat, b: nat ensures !Good(items, a, b) {
    }
  }

  lemma {:induction false} DigitTooLate(items: seq<Item>, i: nat, j: nat)
    requires items != [] && Shaped(items[..|items| - 1], i, j) && j < |items| - 1
    requires !Trailing(items[|items| - 1])
    ensures !AllBlank(items) && forall a: nat, b: nat :: !Good(items, a, b)
  {
    hide Dec;
    var l := |items| - 1;
    assert Digit(items[..l][i]) && Trailing(items[..l][j]);
    NumBlank(items[i]);
    forall a: nat, b: nat | Good(items, a, b) ensures Digit(items[j]) {
      assert b == |items| && a <= i;
    }
  }

  lemma {:induction false} ItemsSnoc(items: seq<Item>)
    requires items != []
    ensures |Bytes(items)| == |Bytes(items[..|items| - 1])| + |Wire(items[|items| - 1])|
    ensures AllBlank(items) <==> AllBlank(items[..|items| - 1]) && Blank(items[|items| - 1])
    ensures var r := Reported(items[..|items| - 1]);
            Reported(items) == if r == [] && Blank(items[|items| - 1]) then [] else r + [items[|items| - 1].b]
  {
    forall k | 0 <= k < |items| - 1 ensures items[..|items| - 1][k] == items[k] {
    }
  }

  lemma {:induction false} NothingYet(c: Conn)
    requires Waiting(c, c, c.nread)
    ensures Reached(c, [], c, Blanks, 0, 0)
  {
  }

  lemma {:induction false} Track(c: Conn, items: seq<Item>) returns (phase: Phase, i: nat, j: nat)
    requires Waiting(c, c, c.nread) && Text(items) && c.nread + |Bytes(items)| < MAX_HEADER_SIZE
    ensures Reached(c, items, Run(c, Bytes(items)), phase, i, j)
    decreases |items|
  {
    hide Step, Reached;
    if items == [] {
      phase, i, j := Blanks, 0, 0;
      NothingYet(c);
    } else {
      var init, t := items[..|items| - 1], items[|items| - 1];
      phase, i, j := Track(c, init);
      RunConcat(c, Bytes(init), Wire(t));
      phase, i, j := AddItem(c, items, Run(c, Bytes(init)), phase, i, j);
    }
  }

  /** A number was read and the line that held it is over. */
  predicate Accepted(r: Conn) {
    r.Live() && r.parser.state.HeaderValueLws?
  }

  /** What a number leaves: the length, its flag, and the reported value; all else is as before. */
  predicate Holds(r: Conn, c: Conn, items: seq<Item>, cr: bool, v: nat) {
    r == Conn(Counted(c.parser, r.parser.headerState, v, r.parser.index).(state := HeaderValueLws),
              c.nread + |Bytes(items)| + |Break(cr)|, Add(c.log, Data(Value, Reported(items))), false)
    && (r.parser.headerState == ContentLengthNum || r.parser.headerState == ContentLengthWs)
  }

  lemma {:induction false} CountingBreak(c: Conn, items: seq<Item>, d: Conn, cr: bool)
    requires d.Live() && Counting(d, c, d.parser.headerState, d.parser.contentLength, c.nread + |Bytes(items)|, Reported(items))
    requires d.nread + |Break(cr)| <= MAX_HEADER_SIZE
    ensures Holds(Run(d, Break(cr)), c, items, cr, d.parser.contentLength)
    ensures Accepted(Run(d, Break(cr)))
  {
    hide Run, Add, Bytes, Reported;
    InsideBreak(d, cr);
    AddTwice(c.log, Value, Reported(items), []);
    assert Reported(items) + [] == Reported(items);
  }

  /**
   A Content-Length value is accepted exactly when it is the first one of the message, consists of
   blanks, digits and spaces, and denotes at most 2^64-7; the length is then what it denotes.  It is
   therefore never the "no length" sentinel and never wraps.
   */
  lemma {:induction false} ContentLengthExact(c: Conn, items: seq<Item>, cr: bool)
    requires Leading(c) && c.parser.headerState.ContentLength?
    requires Text(items) && c.nread + |Bytes(items)| + |Break(cr)| <= MAX_HEADER_SIZE
    ensures var r := Run(c, Bytes(items) + Break(cr));
            && (Accepted(r) <==> !c.parser.flags.contentLength && exists i: nat, j: nat :: Good(items, i, j))
            && (Accepted(r) ==> forall i: nat, j: nat :: Good(items, i, j) ==> Holds(r, c, items, cr, Dec(items[i..j])))
            && (!Accepted(r) ==> Failed(r) || (r.Live() && r.parser.state.HeaderValueDiscardLws? && r.parser.headerState.ContentLength?))
  {
    hide Run, Step, Dec, Holds, Reported;
    var phase, i, j := Track(c, items);
    var d := Run(c, Bytes(items));
    RunConcat(c, Bytes(items), Break(cr));
    match phase {
      case Blanks =>
        LeadBreak(d, cr);
        forall a: nat, b: nat | Good(items, a, b) ensures false {
          assert Digit(items[a]);
          NumBlank(items[a]);
        }
      case Bad =>
        RunStopped(d, Break(cr));
      case _ =>
        hide Waiting, AllBlank, Shaped, Digit;
        CountingBreak(c, items, d, cr);
        forall a: nat, b: nat | Good(items, a, b) ensures a == i && b == j {
          ShapeUnique(items, a, b, i, j);
        }
    }
  }

  /** A value without digits fails as soon as the next line is seen not to continue it. */
  lemma {:induction false} EmptyLengthFails(r: Conn, ch: byte)
    requires r.Live() && r.parser.state.HeaderValueDiscardLws? && r.parser.headerState.ContentLength?
    requires ch != SP && ch != HT
    ensures Failed(Step(r, ch))
  {
    hide Switch, Finish, Collecting;
    OnFold(r.parser, ch);
    CollectsNothing(r.parser.state);
    if r.nread < MAX_HEADER_SIZE {
      PlainStop(r, ch, SwitchFold(r.parser, ch));
    }
  }
}
