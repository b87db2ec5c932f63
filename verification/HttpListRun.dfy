/** The parser reads the value of a Transfer-Encoding or Connection header as the list reading says. */
module HttpListRuns {
  import opened Basics
  import opened HttpSyntax
  import opened HttpMachine
  import opened HttpValues
  import opened HttpLists

  /** The header state for a place in a list. */
  function StateOf(kind: Kind, s: Place): HeaderState {
    if kind == Codings then
      match s
      case Lead => TransferEncoding
      case Start => MatchingTransferEncodingTokenStart
      case In(_, _) => MatchingTransferEncodingChunked
      case Whole(_) => TransferEncodingChunked
      case Other => MatchingTransferEncodingToken
      case Lost => General
    else
      match s
      case Lead => Connection
      case Start => MatchingConnectionTokenStart
      case In(w, _) =>
        if w == KeepAlive then MatchingConnectionKeepAlive else if w == Close then MatchingConnectionClose
        else MatchingConnectionUpgrade
      case Whole(w) =>
        if w == KeepAlive then ConnectionKeepAlive else if w == Close then ConnectionClose else ConnectionUpgrade
      case Other => MatchingConnectionToken
      case Lost => General
  }

  /** Words belong to their kind, and a word begun is not finished. */
  predicate Fits(kind: Kind, s: Place) {
    && (s.In? ==> KindOf(s.w) == kind && 0 < s.n < |Spelling(s.w)|)
    && (s.Whole? ==> KindOf(s.w) == kind)
  }

  /** The matching index, where it matters. */
  predicate Indexed(s: Place, index: nat) {
    (s.In? ==> index == s.n - 1) && (s.Start? ==> index == 0)
  }

  function WithWords(f: Flags, words: set<Word>): Flags {
    f.(chunked := f.chunked || Chunked in words, keepAlive := f.keepAlive || KeepAlive in words,
       close := f.close || Close in words, connectionUpgrade := f.connectionUpgrade || UpgradeWord in words)
  }

  lemma {:induction false} WithMore(f: Flags, a: set<Word>, b: set<Word>)
    ensures WithWords(WithWords(f, a), b) == WithWords(f, a + b)
  {
  }

  lemma {:induction false} WithNone(f: Flags)
    ensures WithWords(f, {}) == f
  {
  }

  lemma {:induction false} PlaceFits(kind: Kind, items: seq<Item>)
    ensures Fits(kind, PlaceAfter(kind, items))
    decreases |items|
  {
    hide Lower, At;
    if items != [] {
      PlaceFits(kind, items[..|items| - 1]);
      FitsNext(kind, PlaceAfter(kind, items[..|items| - 1]), items[|items| - 1]);
    }
  }

  lemma {:induction false} FitsNext(kind: Kind, s: Place, t: Item)
    requires Fits(kind, s)
    ensures Fits(kind, NextPlace(kind, s, t))
  {
    hide Lower, At, Token;
  }

  // ----- one character -----

  /** The words that one more item recognises. */
  function PassedAt(kind: Kind, s: Place, t: Item): set<Word> {
    if kind == Options && s.Whole? && IsComma(t) then {s.w} else {}
  }

  /** q is p after one more item of the list. */
  predicate Moved(q: Parser, p: Parser, kind: Kind, s: Place, t: Item) {
    var s' := NextPlace(kind, s, t);
    && q == p.(headerState := StateOf(kind, s'), index := q.index, flags := WithWords(p.flags, PassedAt(kind, s, t)))
    && Indexed(s', q.index)
  }

  predicate Placed(p: Parser, kind: Kind, s: Place) {
    p.headerState == StateOf(kind, s) && Fits(kind, s) && Indexed(s, p.index) && p.errno == Ok
  }

  lemma {:induction false} MatchWord(p: Parser, c: byte, word: string, n: nat, during: HeaderState, found: HeaderState, lost: HeaderState)
    requires 0 < n < |word| <= 10 && p.index == n - 1
    ensures Match(p, c, word, during, found, lost) ==
            p.(index := n, headerState := if c != HttpSyntax.At(word, n) then lost else if n + 1 == |word| then found else during)
  {
    hide HttpSyntax.At;
  }

  lemma {:induction false} InChar(p: Parser, kind: Kind, s: Place, ch: byte)
    requires Placed(p, kind, s) && s.In? && IsHeaderChar(ch)
    ensures Moved(ValueChar(p, ch), p, kind, s, Char(ch))
  {
    hide Lower, HttpSyntax.At, Match, Token, IsHeaderChar, LengthDigit, ListElement, WithWords;
    var c := Lower(ch);
    WithNone(p.flags);
    match s.w
    case Chunked =>
      MatchWord(p, c, "chunked", s.n, MatchingTransferEncodingChunked, TransferEncodingChunked, MatchingTransferEncodingToken);
    case KeepAlive =>
      MatchWord(p, c, "keep-alive", s.n, MatchingConnectionKeepAlive, ConnectionKeepAlive, MatchingConnectionToken);
    case Close => MatchWord(p, c, "close", s.n, MatchingConnectionClose, ConnectionClose, MatchingConnectionToken);
    case UpgradeWord =>
      MatchWord(p, c, "upgrade", s.n, MatchingConnectionUpgrade, ConnectionUpgrade, MatchingConnectionToken);
  }

  lemma {:induction false} WholeEffect(p: Parser, w: Word, ch: byte)
    requires p.headerState == StateOf(KindOf(w), Whole(w)) && IsHeaderChar(ch)
    ensures ValueChar(p, ch) ==
            if ch == SP then p
            else if KindOf(w) == Codings then p.(headerState := MatchingTransferEncodingToken)
            else if ch == Chr(',') then
              p.(flags := WithWords(p.flags, {w}), headerState := MatchingConnectionTokenStart, index := 0)
            else p.(headerState := MatchingConnectionToken)
  {
    hide Lower, IsHeaderChar, Token, Match, LengthDigit;
  }

  lemma {:induction false} WholeChar(p: Parser, kind: Kind, s: Place, ch: byte)
    requires Placed(p, kind, s) && s.Whole? && IsHeaderChar(ch)
    ensures Moved(ValueChar(p, ch), p, kind, s, Char(ch))
  {
    hide IsHeaderChar, ValueChar, WithWords;
    WithNone(p.flags);
    WholeEffect(p, s.w, ch);
  }

  lemma {:induction false} SpaceLower(ch: byte)
    requires IsHeaderChar(ch) && ch != CR && ch != LF
    ensures Lower(ch) == SP <==> ch == SP
    ensures Lower(ch) != HT
    ensures Opens(SP) == false
  {
  }

  lemma {:induction false} StartChar(p: Parser, kind: Kind, s: Place, ch: byte)
    requires Placed(p, kind, s) && s.Start? && IsHeaderChar(ch) && ch != CR && ch != LF
    ensures Moved(ValueChar(p, ch), p, kind, s, Char(ch))
  {
    hide Lower, IsHeaderChar, Token;
    WithNone(p.flags);
    SpaceLower(ch);
    LettersOpen(kind, ch);
  }

  lemma {:induction false} OtherChar(p: Parser, kind: Kind, s: Place, ch: byte)
    requires Placed(p, kind, s) && (s.Other? || s.Lost?) && IsHeaderChar(ch)
    ensures Moved(ValueChar(p, ch), p, kind, s, Char(ch))
  {
    hide Lower, IsHeaderChar, Token, Match, LengthDigit, ListElement, WithWords;
    WithNone(p.flags);
  }

  lemma {:induction false} ListChar(p: Parser, kind: Kind, s: Place, ch: byte)
    requires Placed(p, kind, s) && !s.Lead? && IsHeaderChar(ch) && ch != CR && ch != LF
    ensures Moved(ValueChar(p, ch), p, kind, s, Char(ch))
  {
    hide Placed, Moved, ValueChar, IsHeaderChar;
    match s
    case In(_, _) => InChar(p, kind, s, ch);
    case Whole(_) => WholeChar(p, kind, s, ch);
    case Start => StartChar(p, kind, s, ch);
    case _ => OtherChar(p, kind, s, ch);
  }

  /** A fold keeps the parser before an element; anywhere else the rest of the value is ignored. */
  lemma {:induction false} FoldedState(p: Parser, b: byte)
    requires p.state.HeaderValue? && !p.headerState.ContentLength? && !p.headerState.ContentLengthNum?
    requires !p.headerState.Upgrade? && !p.headerState.TransferEncoding? && !p.headerState.Connection?
    requires !p.headerState.ContentLengthWs?
    ensures Folded(p, b) ==
            p.(index := 0, headerState :=
               if p.headerState.MatchingTransferEncodingTokenStart? || p.headerState.MatchingConnectionTokenStart?
               then p.headerState else General)
  {
    hide Lower;
  }

  lemma {:induction false} FoldNext(kind: Kind, s: Place, t: Item)
    requires t.Fold? && !s.Lead?
    ensures NextPlace(kind, s, t) == if s.Start? then Start else Lost
  {
  }

  lemma {:induction false} ListFold(p: Parser, kind: Kind, s: Place, t: Item)
    requires Placed(p, kind, s) && !s.Lead? && t.Fold? && p.state.HeaderValue?
    ensures Moved(Folded(p, t.b), p, kind, s, t)
  {
    hide Folded, WithWords, NextPlace;
    WithNone(p.flags);
    FoldedState(p, t.b);
    FoldNext(kind, s, t);
  }

  lemma {:induction false} ListFirst(p: Parser, kind: Kind, t: Item)
    requires Placed(p, kind, Lead) && t.Char? && !Blank(t)
    ensures Moved(ValueStart(p, t.b).parser, p, kind, Lead, t)
  {
    hide Lower;
    WithNone(p.flags);
  }

  // ----- whole values -----

  /** What the parser has made of the value so far. */
  predicate Listing(r: Conn, c: Conn, kind: Kind, items: seq<Item>) {
    var s := PlaceAfter(kind, items);
    && Placed(r.parser, kind, s)
    && r == Conn(c.parser.(state := if s.Lead? then HeaderValueDiscardWs else HeaderValue, headerState := StateOf(kind, s),
                           index := r.parser.index, flags := WithWords(c.parser.flags, Passed(kind, items))),
                 c.nread + |Bytes(items)|, if s.Lead? then c.log else Add(c.log, Data(Value, Reported(items))), false)
    && (s.Lead? <==> Reported(items) == [])
  }

  lemma {:induction false} LeadNext(kind: Kind, t: Item)
    ensures NextPlace(kind, Lead, t).Lead? <==> Blank(t)
    ensures forall s: Place :: !s.Lead? ==> !NextPlace(kind, s, t).Lead?
    ensures StateOf(kind, Lead) != ContentLength
  {
    hide Lower, Token, HttpSyntax.At;
  }

  lemma {:induction false} NotLength(kind: Kind, s: Place)
    ensures StateOf(kind, s) != ContentLength
  {
  }

  lemma {:induction false} AddToLead(c: Conn, kind: Kind, items: seq<Item>, t: Item, r: Conn)
    requires Leading(c) && Listing(r, c, kind, items) && PlaceAfter(kind, items).Lead?
    requires Printable([t]) && r.nread + |Wire(t)| <= MAX_HEADER_SIZE
    ensures Listing(Run(r, Wire(t)), c, kind, items + [t])
  {
    hide Step, Run, Add, ValueStart, Bytes, Reported, PlaceAfter, Passed, WithWords, NextPlace, StateOf, Fits;
    Snoc(kind, items, t);
    LeadNext(kind, t);
    FitsNext(kind, Lead, t);
    assert [t][0] == t;
    WithMore(c.parser.flags, Passed(kind, items), PassedAt(kind, Lead, t));
    WithNone(r.parser.flags);
    if t.Fold? {
      LeadFold(r, t);
    } else if Blank(t) {
      RunOne(r, t.b);
      LeadBlank(r, t.b);
    } else {
      RunOne(r, t.b);
      LeadChar(r, t.b);
      ListFirst(r.parser, kind, t);
      assert [] + [t.b] == [t.b];
    }
  }

  lemma {:induction false} Snoc(kind: Kind, items: seq<Item>, t: Item)
    ensures Bytes(items + [t]) == Bytes(items) + Wire(t)
    ensures Reported(items + [t]) == if Reported(items) == [] && Blank(t) then [] else Reported(items) + [t.b]
    ensures PlaceAfter(kind, items + [t]) == NextPlace(kind, PlaceAfter(kind, items), t)
    ensures Passed(kind, items + [t]) == Passed(kind, items) + PassedAt(kind, PlaceAfter(kind, items), t)
  {
    hide NextPlace;
    BytesSnoc(items, t);
    assert (items + [t])[..|items|] == items;
  }

  lemma {:induction false} AddToList(c: Conn, kind: Kind, items: seq<Item>, t: Item, r: Conn)
    requires Leading(c) && Listing(r, c, kind, items) && !PlaceAfter(kind, items).Lead?
    requires Printable([t]) && r.nread + |Wire(t)| <= MAX_HEADER_SIZE
    ensures Listing(Run(r, Wire(t)), c, kind, items + [t])
  {
    hide Step, Run, Add, ValueChar, Folded, Bytes, Reported, PlaceAfter, Passed, WithWords, NextPlace, StateOf, Fits, IsHeaderChar;
    var s := PlaceAfter(kind, items);
    Snoc(kind, items, t);
    LeadNext(kind, t);
    FitsNext(kind, s, t);
    NotLength(kind, s);
    assert [t][0] == t;
    WithMore(c.parser.flags, Passed(kind, items), PassedAt(kind, s, t));
    AddTwice(c.log, Value, Reported(items), [t.b]);
    if t.Fold? {
      InsideFold(r, t);
      ListFold(r.parser, kind, s, t);
    } else {
      RunOne(r, t.b);
      InsideChar(r, t.b);
      ListChar(r.parser, kind, s, t.b);
    }
  }

  lemma {:induction false} ListRun(c: Conn, kind: Kind, items: seq<Item>)
    requires Leading(c) && c.parser.headerState == StateOf(kind, Lead)
    requires Printable(items) && c.nread + |Bytes(items)| <= MAX_HEADER_SIZE
    ensures Listing(Run(c, Bytes(items)), c, kind, items)
    decreases |items|
  {
    hide Step, Run, Listing, StateOf, Printable, PlaceAfter, Bytes, Reported;
    if items == [] {
      ListStart(c, kind);
    } else {
      var init, t := items[..|items| - 1], items[|items| - 1];
      assert items == init + [t];
      PrintableSnoc(init, t);
      BytesSnoc(init, t);
      ListRun(c, kind, init);
      RunConcat(c, Bytes(init), Wire(t));
      var r := Run(c, Bytes(init));
      ListCount(r, c, kind, init);
      if PlaceAfter(kind, init).Lead? {
        AddToLead(c, kind, init, t, r);
      } else {
        AddToList(c, kind, init, t, r);
      }
    }
  }

  lemma {:induction false} PrintableSnoc(items: seq<Item>, t: Item)
    ensures Printable(items + [t]) ==> Printable(items) && Printable([t])
  {
    hide IsHeaderChar;
    var longer := items + [t];
    assert forall k :: 0 <= k < |items| ==> items[k] == longer[k];
    assert [t][0] == longer[|items|];
  }

  lemma {:induction false} ListCount(r: Conn, c: Conn, kind: Kind, items: seq<Item>)
    requires Listing(r, c, kind, items)
    ensures r.nread == c.nread + |Bytes(items)|
  {
  }

  lemma {:induction false} ListStart(c: Conn, kind: Kind)
    requires Leading(c) && c.parser.headerState == StateOf(kind, Lead)
    ensures Bytes([]) == [] && Run(c, []) == c && Listing(c, c, kind, [])
  {
    hide WithWords, Add, Step;
    WithNone(c.parser.flags);
  }
}
