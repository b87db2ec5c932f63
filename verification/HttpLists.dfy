/**
 The lists in Transfer-Encoding and Connection headers: how the parser reads a value, character by
 character, which elements it therefore sees, and what RFC 7230 says that the value lists.
 */
module HttpLists {
  import opened Basics
  import opened HttpSyntax
  import opened HttpValues

  datatype Word = Chunked | KeepAlive | Close | UpgradeWord

  /** Transfer codings, or connection options. */
  datatype Kind = Codings | Options

  function Spelling(w: Word): string {
    match w
    case Chunked => "chunked"
    case KeepAlive => "keep-alive"
    case Close => "close"
    case UpgradeWord => "upgrade"
  }

  function KindOf(w: Word): Kind {
    if w == Chunked then Codings else Options
  }

  // ----- how the parser reads -----

  /** Where the parser is in a list: before it, before an element, or so far into an element. */
  datatype Place = Lead | Start | In(w: Word, n: nat) | Whole(w: Word) | Other | Lost

  /** The keyword with this first letter. */
  function Starting(kind: Kind, b: byte): Option<Word> {
    if kind == Codings then if Lower(b) == Chr('c') then Some(Chunked) else None
    else if Lower(b) == Chr('k') then Some(KeepAlive)
    else if Lower(b) == Chr('c') then Some(Close)
    else if Lower(b) == Chr('u') then Some(UpgradeWord)
    else None
  }

  function FirstPlace(kind: Kind, b: byte): Place {
    var w := Starting(kind, b);
    if w.Some? then In(w.value, 1) else Other
  }

  predicate IsComma(t: Item) {
    t.Char? && t.b == Chr(',')
  }

  /** A character that may start an element. */
  predicate Opens(b: byte) {
    Token(Lower(b)) != 0
  }

  function NextPlace(kind: Kind, s: Place, t: Item): Place {
    match s
    case Lead => if Blank(t) then Lead else FirstPlace(kind, t.b)
    case Start => if Skipped(false, t) then Start else if Opens(t.b) then FirstPlace(kind, t.b) else Lost
    case In(w, n) =>
      if t.Fold? then Lost
      else if Lower(t.b) != At(Spelling(w), n) then Other
      else if n + 1 == |Spelling(w)| then Whole(w) else In(w, n + 1)
    case Whole(w) =>
      if t.Fold? then Lost else if t.b == SP then s else if IsComma(t) && kind == Options then Start else Other
    case Other => if t.Fold? then Lost else if IsComma(t) then Start else Other
    case Lost => Lost
  }

  function PlaceAfter(kind: Kind, items: seq<Item>): Place {
    if items == [] then Lead else NextPlace(kind, PlaceAfter(kind, items[..|items| - 1]), items[|items| - 1])
  }

  /** The options that have been recognised at a comma. */
  function Passed(kind: Kind, items: seq<Item>): set<Word> {
    if items == [] then {}
    else
      var init, t := items[..|items| - 1], items[|items| - 1];
      var s := PlaceAfter(kind, init);
      Passed(kind, init) + if kind == Options && s.Whole? && IsComma(t) then {s.w} else {}
  }

  /** The words whose flags are set when the header line is over. */
  function Recognised(kind: Kind, items: seq<Item>): set<Word> {
    var s := PlaceAfter(kind, items);
    Passed(kind, items) + if s.Whole? then {s.w} else {}
  }

  // ----- the elements it sees -----

  /** Inside a quoted string, after a backslash in one, or outside. */
  datatype Quoting = Outside | Quoted | Escaped

  function QuotingAfter(items: seq<Item>): Quoting {
    if items == [] then Outside
    else
      var q, t := QuotingAfter(items[..|items| - 1]), items[|items| - 1];
      if t.Fold? then q
      else if q == Outside then if t.b == Chr('"') then Quoted else Outside
      else if q == Escaped then Quoted
      else if t.b == Chr('"') then Outside else if t.b == Chr('\\') then Escaped else Quoted
  }

  /** The stretches between commas; quotes says whether commas in quoted strings are ordinary characters. */
  function Split(items: seq<Item>, quotes: bool): (ps: seq<seq<Item>>)
    ensures ps != []
  {
    if items == [] then [[]]
    else
      var init, t := items[..|items| - 1], items[|items| - 1];
      var ps := Split(init, quotes);
      if IsComma(t) && (quotes ==> QuotingAfter(init) == Outside) then ps + [[]]
      else ps[..|ps| - 1] + [ps[|ps| - 1] + [t]]
  }

  /** Blanks before an element: a tab is skipped only before the first one, or as part of a fold. */
  predicate Skipped(first: bool, t: Item) {
    if first then Blank(t) else t.Fold? || t.b == SP
  }

  function Stripped(first: bool, e: seq<Item>): (r: seq<Item>)
    ensures r != [] ==> !Skipped(first, r[0])
  {
    if e == [] || !Skipped(first, e[0]) then e else Stripped(first, e[1..])
  }

  predicate HasFold(e: seq<Item>) {
    exists k :: 0 <= k < |e| && e[k].Fold?
  }

  /** e is a beginning of the word, in any case. */
  predicate Begins(e: seq<Item>, w: Word) {
    |e| <= |Spelling(w)| && forall k :: 0 <= k < |e| ==> e[k].Char? && Lower(e[k].b) == At(Spelling(w), k)
  }

  /** The word, in any case, with nothing but spaces after it. */
  predicate Names(e: seq<Item>, w: Word) {
    var n := |Spelling(w)|;
    n <= |e| && Begins(e[..n], w) && forall k :: n <= k < |e| ==> e[k] == Char(SP)
  }

  /** A proper beginning of a word. */
  predicate CutShort(kind: Kind, e: seq<Item>) {
    exists w :: KindOf(w) == kind && |e| < |Spelling(w)| && Begins(e, w)
  }

  /** An element is looked at, passed over, or not reached because the rest of the value is ignored. */
  datatype Sight = Seen | Hidden | Gone

  /** How the element after a seen one is treated. */
  function SightAfter(kind: Kind, first: bool, piece: seq<Item>): Sight {
    var e := Stripped(first, piece);
    if e == [] then if first then Hidden else Gone
    else if (!first && !Opens(e[0].b)) || HasFold(e) then Gone
    else if CutShort(kind, e) || (kind == Codings && Names(e, Chunked)) then Hidden
    else Seen
  }

  function SightOf(kind: Kind, pieces: seq<seq<Item>>, k: nat): Sight
    requires k < |pieces|
  {
    if k == 0 then Seen
    else
      match SightOf(kind, pieces, k - 1)
      case Gone => Gone
      case Hidden => if HasFold(pieces[k - 1]) then Gone else Seen
      case Seen => SightAfter(kind, k == 1, pieces[k - 1])
  }

  /** Element k is seen and is the word: a coding only as the last element. */
  predicate Counts(kind: Kind, pieces: seq<seq<Item>>, k: nat, w: Word)
    requires k < |pieces|
  {
    && KindOf(w) == kind && (kind == Codings ==> k == |pieces| - 1)
    && SightOf(kind, pieces, k) == Seen && Names(Stripped(k == 0, pieces[k]), w)
  }

  /** Some element is seen and is the word. */
  predicate Found(kind: Kind, items: seq<Item>, w: Word) {
    exists k :: 0 <= k < |Split(items, false)| && Counts(kind, Split(items, false), k, w)
  }

  // ----- the reading of one element -----

  /** Where the parser is after reading a seen element so far. */
  function PlaceIn(kind: Kind, first: bool, piece: seq<Item>): Place {
    var e := Stripped(first, piece);
    if e == [] then if first then Lead else Start
    else if (!first && !Opens(e[0].b)) || HasFold(e) then Lost
    else
      var w := Starting(kind, e[0].b);
      if w.None? then Other
      else if Begins(e, w.value) && |e| < |Spelling(w.value)| then In(w.value, |e|)
      else if Names(e, w.value) then Whole(w.value)
      else Other
  }

  lemma {:induction false} StrippedSnoc(first: bool, e: seq<Item>, t: Item)
    ensures Stripped(first, e + [t]) ==
            if Stripped(first, e) == [] && Skipped(first, t) then [] else Stripped(first, e) + [t]
    decreases |e|
  {
    hide Skipped;
    if e == [] {
      assert e + [t] == [t] && [t][1..] == [];
    } else {
      assert (e + [t])[0] == e[0] && (e + [t])[1..] == e[1..] + [t];
      StrippedSnoc(first, e[1..], t);
    }
  }

  /** The words have different first letters. */
  lemma {:induction false} FirstLetter(kind: Kind, b: byte, w: Word)
    ensures Starting(kind, b) == Some(w) <==> KindOf(w) == kind && Lower(b) == At(Spelling(w), 0)
    ensures |Spelling(w)| >= 5
  {
  }

  lemma {:induction false} BeginsSnoc(e: seq<Item>, t: Item, w: Word)
    ensures Begins(e + [t], w) <==> Begins(e, w) && |e| < |Spelling(w)| && t.Char? && Lower(t.b) == At(Spelling(w), |e|)
  {
    hide Spelling, At, Lower;
    assert forall k :: 0 <= k < |e| ==> (e + [t])[k] == e[k];
    if Begins(e + [t], w) {
      assert (e + [t])[|e|] == t;
      forall k | 0 <= k < |e| ensures e[k].Char? && Lower(e[k].b) == At(Spelling(w), k) {
        assert (e + [t])[k] == e[k];
      }
    }
  }

  lemma {:induction false} NamesSnoc(e: seq<Item>, t: Item, w: Word)
    ensures Names(e + [t], w) <==> (|e| + 1 == |Spelling(w)| && Begins(e + [t], w)) || (Names(e, w) && t == Char(SP))
  {
    hide Spelling, Begins;
    var n := |Spelling(w)|;
    if n <= |e| {
      assert (e + [t])[..n] == e[..n];
      assert (e + [t])[|e|] == t;
      assert forall k :: 0 <= k < |e| ==> (e + [t])[k] == e[k];
    } else if n == |e| + 1 {
      assert (e + [t])[..n] == e + [t];
    }
  }

  lemma {:induction false} FoldSnoc(e: seq<Item>, t: Item)
    ensures HasFold(e + [t]) <==> HasFold(e) || t.Fold?
  {
    assert forall k :: 0 <= k < |e| ==> (e + [t])[k] == e[k];
    assert (e + [t])[|e|] == t;
  }

  lemma {:induction false} PlaceInSnoc(kind: Kind, first: bool, piece: seq<Item>, t: Item)
    requires !IsComma(t)
    ensures PlaceIn(kind, first, piece + [t]) == NextPlace(kind, PlaceIn(kind, first, piece), t)
  {
    hide Stripped, Spelling, At, Token, Begins, Names, HasFold, Starting, Lower;
    var e := Stripped(first, piece);
    StrippedSnoc(first, piece, t);
    FoldSnoc(e, t);
    if e == [] {
      assert [] + [t] == [t];
      if !Skipped(first, t) {
        FirstItem(kind, t);
      }
    } else {
      assert (e + [t])[0] == e[0];
      var w := Starting(kind, e[0].b);
      if w.Some? {
        BeginsSnoc(e, t, w.value);
        NamesSnoc(e, t, w.value);
        NamesWhole(e, w.value);
      }
    }
  }

  lemma {:induction false} FirstItem(kind: Kind, t: Item)
    requires t.Char?
    ensures !HasFold([t])
    ensures var w := Starting(kind, t.b);
            w.Some? ==> Begins([t], w.value) && |Spelling(w.value)| > 1
  {
    var w := Starting(kind, t.b);
    if w.Some? {
      FirstLetter(kind, t.b, w.value);
    }
  }

  /** A word so far is either not yet whole or whole, and whole words hold no fold. */
  lemma {:induction false} NamesWhole(e: seq<Item>, w: Word)
    ensures Begins(e, w) && |e| == |Spelling(w)| ==> Names(e, w)
    ensures Names(e, w) && Begins(e, w) ==> |e| == |Spelling(w)|
    ensures Names(e, w) ==> !HasFold(e) && e != []
  {
    hide At, Lower;
    var n := |Spelling(w)|;
    if |e| == n {
      assert e[..n] == e;
    }
    if Names(e, w) {
      forall k | 0 <= k < |e| ensures e[k].Char? {
        if k < n {
          assert e[..n][k] == e[k];
        }
      }
    }
  }

  /** What is left behind at a comma. */
  lemma {:induction false} PlaceAtComma(kind: Kind, first: bool, piece: seq<Item>, t: Item)
    requires IsComma(t)
    ensures NextPlace(kind, PlaceIn(kind, first, piece), t) ==
            match SightAfter(kind, first, piece)
            case Seen => Start
            case Hidden => Other
            case Gone => Lost
  {
    hide Stripped, HasFold, Names, Begins;
    var e := Stripped(first, piece);
    CommaFits(kind);
    if e != [] && !HasFold(e) && (first || Opens(e[0].b)) {
      var w := Starting(kind, e[0].b);
      CutShortIs(kind, e);
      if w.Some? {
        NamesWhole(e, w.value);
      }
      NamesStarts(kind, e);
    }
  }

  lemma {:induction false} CommaFits(kind: Kind)
    ensures Starting(kind, Chr(',')).None? && !Opens(Chr(','))
    ensures forall w: Word, n: nat :: n < |Spelling(w)| ==> Lower(Chr(',')) != At(Spelling(w), n)
  {
    forall w: Word, n: nat | n < |Spelling(w)| ensures Lower(Chr(',')) != At(Spelling(w), n) {
      match w
      case Chunked =>
      case KeepAlive =>
      case Close =>
      case UpgradeWord =>
    }
  }

  lemma {:induction false} CutShortIs(kind: Kind, e: seq<Item>)
    requires e != [] && e[0].Char?
    ensures CutShort(kind, e) <==>
            var w := Starting(kind, e[0].b);
            w.Some? && Begins(e, w.value) && |e| < |Spelling(w.value)|
  {
    hide Starting, Spelling, At, Lower;
    var w := Starting(kind, e[0].b);
    if w.Some? {
      FirstLetter(kind, e[0].b, w.value);
    }
    forall v | KindOf(v) == kind && |e| < |Spelling(v)| && Begins(e, v) ensures w == Some(v) {
      FirstLetter(kind, e[0].b, v);
    }
  }

  /** A named word is the one with its first letter. */
  lemma {:induction false} NamesStarts(kind: Kind, e: seq<Item>)
    requires e != [] && e[0].Char?
    ensures forall w :: KindOf(w) == kind && Names(e, w) ==> Starting(kind, e[0].b) == Some(w)
  {
    hide Starting, Spelling, At, Lower;
    forall w | KindOf(w) == kind && Names(e, w) ensures Starting(kind, e[0].b) == Some(w) {
      FirstLetter(kind, e[0].b, w);
      assert e[..|Spelling(w)|][0] == e[0];
    }
  }

  /** A seen element is the word exactly when the parser stands behind the whole word. */
  lemma {:induction false} WholeExactly(kind: Kind, first: bool, piece: seq<Item>, w: Word)
    ensures PlaceIn(kind, first, piece) == Whole(w) <==> KindOf(w) == kind && Names(Stripped(first, piece), w)
  {
    hide Stripped, HasFold, Names, Begins, Token, Starting, Spelling;
    var e := Stripped(first, piece);
    if e != [] {
      NamesWhole(e, w);
      NamesStarts(kind, e);
      FirstLetter(kind, e[0].b, w);
      LettersOpen(kind, e[0].b);
      if Starting(kind, e[0].b).Some? {
        FirstLetter(kind, e[0].b, Starting(kind, e[0].b).value);
      }
    } else {
      NamesWhole(e, w);
    }
  }

  lemma {:induction false} LettersOpen(kind: Kind, b: byte)
    ensures Starting(kind, b).Some? ==> Opens(b)
  {
  }

  // ----- the whole value -----

  lemma {:induction false} SightPrefix(kind: Kind, a: seq<seq<Item>>, b: seq<seq<Item>>, k: nat)
    requires k < |a| && k < |b| && a[..k] == b[..k]
    ensures SightOf(kind, a, k) == SightOf(kind, b, k)
    decreases k
  {
    hide SightAfter;
    if k > 0 {
      assert a[..k][..k - 1] == a[..k - 1] && b[..k][..k - 1] == b[..k - 1];
      assert a[..k][k - 1] == a[k - 1] && b[..k][k - 1] == b[k - 1];
      SightPrefix(kind, a, b, k - 1);
    }
  }

  /** Where the parser is, from the last element and how it is treated. */
  function PlaceOf(kind: Kind, pieces: seq<seq<Item>>): Place
    requires pieces != []
  {
    var k := |pieces| - 1;
    match SightOf(kind, pieces, k)
    case Seen => PlaceIn(kind, k == 0, pieces[k])
    case Hidden => if HasFold(pieces[k]) then Lost else Other
    case Gone => Lost
  }

  lemma {:induction false} CommaPlace(kind: Kind, ps: seq<seq<Item>>, t: Item)
    requires ps != [] && IsComma(t)
    ensures PlaceOf(kind, ps + [[]]) == NextPlace(kind, PlaceOf(kind, ps), t)
  {
    hide PlaceIn, SightAfter, NextPlace, HasFold;
    var k := |ps| - 1;
    var qs := ps + [[]];
    SightPrefix(kind, ps, qs, k);
    PlaceAtComma(kind, k == 0, ps[k], t);
    NewPiece(kind, t);
    assert qs[k] == ps[k] && qs[k + 1] == [];
  }

  /** The last of some pieces with one more item. */
  function Longer(ps: seq<seq<Item>>, t: Item): (qs: seq<seq<Item>>)
    requires ps != []
    ensures |qs| == |ps| && qs[..|ps| - 1] == ps[..|ps| - 1] && qs[|ps| - 1] == ps[|ps| - 1] + [t]
  {
    ps[..|ps| - 1] + [ps[|ps| - 1] + [t]]
  }

  lemma {:induction false} ItemPlace(kind: Kind, ps: seq<seq<Item>>, t: Item)
    requires ps != [] && !IsComma(t)
    ensures PlaceOf(kind, Longer(ps, t)) == NextPlace(kind, PlaceOf(kind, ps), t)
  {
    hide PlaceIn, SightAfter, NextPlace, HasFold, Longer;
    var k := |ps| - 1;
    SightPrefix(kind, ps, Longer(ps, t), k);
    PlaceInSnoc(kind, k == 0, ps[k], t);
    FoldSnoc(ps[k], t);
    OldPiece(kind, t);
  }

  lemma {:induction false} SplitSnoc(items: seq<Item>, quotes: bool, t: Item)
    ensures Split(items + [t], quotes) ==
            if IsComma(t) && (quotes ==> QuotingAfter(items) == Outside) then Split(items, quotes) + [[]]
            else Longer(Split(items, quotes), t)
  {
    hide QuotingAfter;
    assert (items + [t])[..|items|] == items;
  }

  lemma {:induction false} PlaceExact(kind: Kind, items: seq<Item>)
    ensures PlaceAfter(kind, items) == PlaceOf(kind, Split(items, false))
    decreases |items|
  {
    hide PlaceOf, NextPlace, Split;
    if items == [] {
      LeadPlace(kind);
    } else {
      var init, t := items[..|items| - 1], items[|items| - 1];
      assert items == init + [t];
      PlaceExact(kind, init);
      SplitSnoc(init, false, t);
      if IsComma(t) {
        CommaPlace(kind, Split(init, false), t);
      } else {
        ItemPlace(kind, Split(init, false), t);
      }
    }
  }

  lemma {:induction false} LeadPlace(kind: Kind)
    ensures PlaceOf(kind, Split([], false)) == Lead
  {
  }

  lemma {:induction false} NewPiece(kind: Kind, t: Item)
    requires IsComma(t)
    ensures NextPlace(kind, Lost, t) == Lost && NextPlace(kind, Other, t) == Start
    ensures PlaceIn(kind, false, []) == Start && !HasFold([])
  {
  }

  lemma {:induction false} OldPiece(kind: Kind, t: Item)
    requires !IsComma(t)
    ensures NextPlace(kind, Lost, t) == Lost && NextPlace(kind, Other, t) == if t.Fold? then Lost else Other
  {
  }

  lemma {:induction false} CountsPrefix(kind: Kind, a: seq<seq<Item>>, b: seq<seq<Item>>, k: nat, w: Word)
    requires k < |a| && k < |b| && a[..k + 1] == b[..k + 1] && kind == Options
    ensures Counts(kind, a, k, w) == Counts(kind, b, k, w)
  {
    hide SightOf, Names, Stripped;
    assert a[..k + 1][..k] == a[..k] && b[..k + 1][..k] == b[..k];
    assert a[..k + 1][k] == a[k] && b[..k + 1][k] == b[k];
    SightPrefix(kind, a, b, k);
  }

  /** The last element counts exactly when the parser stands behind it. */
  lemma {:induction false} LastCounts(kind: Kind, items: seq<Item>, w: Word)
    ensures var ps := Split(items, false);
            PlaceAfter(kind, items) == Whole(w) <==> Counts(kind, ps, |ps| - 1, w)
  {
    hide PlaceAfter, PlaceIn, SightOf, Names, Stripped, Split, HasFold;
    PlaceExact(kind, items);
    var ps := Split(items, false);
    WholeExactly(kind, |ps| == 1, ps[|ps| - 1], w);
  }

  lemma {:induction false} PassedExact(kind: Kind, items: seq<Item>, w: Word)
    ensures w in Passed(kind, items) <==>
            kind == Options && exists k :: 0 <= k < |Split(items, false)| - 1 && Counts(kind, Split(items, false), k, w)
    decreases |items|
  {
    hide Counts, PlaceAfter, Split;
    if items == [] {
      NoPieces();
    } else {
      var init, t := items[..|items| - 1], items[|items| - 1];
      assert items == init + [t];
      PassedExact(kind, init, w);
      LastCounts(kind, init, w);
      SplitSnoc(init, false, t);
      var ps, qs := Split(init, false), Split(items, false);
      if kind == Options {
        forall k | 0 <= k < |qs| - 1 ensures Counts(kind, qs, k, w) == Counts(kind, ps, k, w) {
          assert ps[..k + 1] == qs[..k + 1];
          CountsPrefix(kind, ps, qs, k, w);
        }
      }
    }
  }

  lemma {:induction false} NoPieces()
    ensures |Split([], false)| == 1
  {
  }

  /** A header line sets the flag of a word exactly when a seen element of it is that word. */
  lemma {:induction false} RecognisedExact(kind: Kind, items: seq<Item>, w: Word)
    ensures w in Recognised(kind, items) <==> Found(kind, items, w)
  {
    hide Split, PlaceAfter, Passed, Names, SightOf, Stripped;
    PassedExact(kind, items, w);
    LastCounts(kind, items, w);
  }

  lemma {:induction false} RecognisedKind(kind: Kind, items: seq<Item>, w: Word)
    ensures w in Recognised(kind, items) ==> KindOf(w) == kind
  {
    hide Split, PlaceAfter, Passed, Recognised;
    RecognisedExact(kind, items, w);
  }

  // ----- what RFC 7230 says -----

  function TrimEnd(e: seq<Item>): (r: seq<Item>)
    ensures r != [] ==> !Blank(r[|r| - 1])
  {
    if e == [] || !Blank(e[|e| - 1]) then e else TrimEnd(e[..|e| - 1])
  }

  /** An element without the optional white space around it; a fold counts as white space. */
  function Trim(e: seq<Item>): seq<Item> {
    TrimEnd(Stripped(true, e))
  }

  predicate Denotes(e: seq<Item>, w: Word) {
    |Trim(e)| == |Spelling(w)| && Begins(Trim(e), w)
  }

  /** Empty elements do not count (section 7). */
  function NonEmpty(pieces: seq<seq<Item>>): seq<seq<Item>> {
    if pieces == [] then []
    else
      var last := pieces[|pieces| - 1];
      NonEmpty(pieces[..|pieces| - 1]) + if Trim(last) == [] then [] else [last]
  }

  /** The elements of several header lines of one name, in order (section 3.2.2). */
  function Listed(values: seq<seq<Item>>): seq<seq<Item>> {
    if values == [] then []
    else Listed(values[..|values| - 1]) + NonEmpty(Split(values[|values| - 1], true))
  }

  /** Section 3.3.3: chunked is the final transfer coding. */
  predicate FinallyChunked(values: seq<seq<Item>>) {
    var l := Listed(values);
    l != [] && Denotes(l[|l| - 1], Chunked)
  }

  /** Section 6.1: one of the connection options is w. */
  predicate HasOption(values: seq<seq<Item>>, w: Word) {
    exists i, k :: 0 <= i < |values| && 0 <= k < |Split(values[i], false)| && Denotes(Split(values[i], false)[k], w)
  }

  // ----- ordinary values -----

  /** Characters other than tabs and quotes. */
  predicate Simple(e: seq<Item>) {
    forall k :: 0 <= k < |e| ==> e[k].Char? && e[k].b != HT && e[k].b != Chr('"')
  }

  /** A simple element that starts like a token and is no beginning of a keyword. */
  predicate Ordinary(kind: Kind, piece: seq<Item>) {
    var e := Stripped(true, piece);
    Simple(piece) && e != [] && Opens(e[0].b) && !CutShort(kind, e)
  }

  lemma {:induction false} SimpleStrip(first: bool, e: seq<Item>)
    requires Simple(e)
    ensures Stripped(first, e) == Stripped(true, e) && Simple(Stripped(true, e))
    decreases |e|
  {
    if e != [] {
      SimpleStrip(first, e[1..]);
    }
  }

  /** Without tabs and folds, the word with spaces behind it is the word with white space behind it. */
  lemma {:induction false} SimpleNames(e: seq<Item>, w: Word)
    requires Simple(e)
    ensures Names(e, w) <==> |TrimEnd(e)| == |Spelling(w)| && Begins(TrimEnd(e), w)
    decreases |e|
  {
    hide Spelling, At, Lower;
    if e == [] {
      FirstLetter(KindOf(w), 0, w);
    } else {
      var init, t := e[..|e| - 1], e[|e| - 1];
      assert e == init + [t];
      NamesSnoc(init, t, w);
      if Blank(t) {
        SimpleNames(init, w);
        BeginsSnoc(init, t, w);
        NoSpaces(w);
      } else {
        NamesWhole(init, w);
        NamesWhole(e, w);
      }
    }
  }

  lemma {:induction false} NoSpaces(w: Word)
    ensures forall n: nat :: n < |Spelling(w)| ==> At(Spelling(w), n) != Lower(SP)
  {
    match w
    case Chunked =>
    case KeepAlive =>
    case Close =>
    case UpgradeWord =>
  }

  lemma {:induction false} SimpleNoFold(e: seq<Item>)
    requires Simple(e)
    ensures !HasFold(e)
  {
  }

  lemma {:induction false} OrdinarySight(kind: Kind, pieces: seq<seq<Item>>, k: nat)
    requires k < |pieces|
    requires forall i :: 0 <= i < k ==> Ordinary(kind, pieces[i]) && (kind == Codings ==> !Denotes(pieces[i], Chunked))
    ensures SightOf(kind, pieces, k) == Seen
    decreases k
  {
    hide Ordinary, Denotes, SightAfter;
    if k > 0 {
      OrdinarySight(kind, pieces, k - 1);
      OrdinaryAfter(kind, k == 1, pieces[k - 1]);
    }
  }

  lemma {:induction false} OrdinaryAfter(kind: Kind, first: bool, piece: seq<Item>)
    requires Ordinary(kind, piece) && (kind == Codings ==> !Denotes(piece, Chunked))
    ensures SightAfter(kind, first, piece).Seen?
  {
    hide Stripped, TrimEnd, CutShort, Names, HasFold, Begins, Spelling;
    SimpleStrip(first, piece);
    var e := Stripped(true, piece);
    SimpleNames(e, Chunked);
    SimpleNoFold(e);
    assert !(kind == Codings && Names(e, Chunked));
    assert !(CutShort(kind, e) || (kind == Codings && Names(e, Chunked)));
  }

  lemma {:induction false} OrdinaryNames(first: bool, piece: seq<Item>, w: Word)
    requires Simple(piece)
    ensures Names(Stripped(first, piece), w) <==> Denotes(piece, w)
  {
    hide Stripped, TrimEnd, Names, Begins, Spelling;
    SimpleStrip(first, piece);
    SimpleNames(Stripped(true, piece), w);
  }

  lemma {:induction false} OneLine(items: seq<Item>, w: Word)
    ensures HasOption([items], w) <==> exists k :: 0 <= k < |Split(items, false)| && Denotes(Split(items, false)[k], w)
  {
    hide Split, Denotes;
    var values := [items];
    forall k | 0 <= k < |Split(items, false)| && Denotes(Split(items, false)[k], w) ensures HasOption(values, w) {
      assert values[0] == items && Denotes(Split(values[0], false)[k], w);
    }
  }

  lemma {:induction false} FoundBy(kind: Kind, items: seq<Item>, k: nat, w: Word)
    requires k < |Split(items, false)| && Counts(kind, Split(items, false), k, w)
    ensures Found(kind, items, w)
  {
  }

  /** On ordinary elements the parser recognises exactly the options that the line lists. */
  lemma {:induction false} OrdinaryOptions(items: seq<Item>, w: Word)
    requires KindOf(w) == Options
    requires forall k :: 0 <= k < |Split(items, false)| ==> Ordinary(Options, Split(items, false)[k])
    ensures w in Recognised(Options, items) <==> HasOption([items], w)
  {
    hide Split, Recognised, Stripped, CutShort, Names, Denotes, SightOf, HasOption;
    RecognisedExact(Options, items, w);
    OneLine(items, w);
    var ps := Split(items, false);
    forall k | 0 <= k < |ps| ensures Counts(Options, ps, k, w) <==> Denotes(ps[k], w) {
      OrdinarySight(Options, ps, k);
      OrdinaryNames(k == 0, ps[k], w);
    }
    if Found(Options, items, w) {
      var k: nat :| k < |ps| && Counts(Options, ps, k, w);
      assert Denotes(ps[k], w);
    }
    if k: nat :| k < |ps| && Denotes(ps[k], w) {
      FoundBy(Options, items, k, w);
    }
  }

  lemma {:induction false} NoQuotes(items: seq<Item>)
    requires forall k :: 0 <= k < |items| ==> items[k].Char? ==> items[k].b != Chr('"')
    ensures QuotingAfter(items) == Outside && Split(items, true) == Split(items, false)
    decreases |items|
  {
    if items != [] {
      NoQuotes(items[..|items| - 1]);
    }
  }

  /** The characters of the elements are those of the value, except commas. */
  lemma {:induction false} SplitSimple(items: seq<Item>)
    requires forall k :: 0 <= k < |Split(items, false)| ==> Simple(Split(items, false)[k])
    ensures forall k :: 0 <= k < |items| ==> items[k].Char? && items[k].b != Chr('"')
    decreases |items|
  {
    hide Split;
    if items != [] {
      var init, t := items[..|items| - 1], items[|items| - 1];
      assert items == init + [t];
      SplitSnoc(init, false, t);
      var ps, qs := Split(init, false), Split(items, false);
      var l := |ps| - 1;
      forall k | 0 <= k < |ps| ensures Simple(ps[k]) {
        assert Simple(qs[k]);
        if k < l {
          assert ps[..l][k] == qs[..l][k];
        } else if !IsComma(t) {
          assert qs[l] == ps[l] + [t];
          assert forall i :: 0 <= i < |ps[l]| ==> ps[l][i] == qs[l][i];
        }
      }
      SplitSimple(init);
      if !IsComma(t) {
        assert qs[l] == ps[l] + [t] && Simple(qs[l]);
        assert qs[l][|ps[l]|] == t;
      }
    }
  }

  lemma {:induction false} AllNonEmpty(pieces: seq<seq<Item>>)
    requires forall k :: 0 <= k < |pieces| ==> Trim(pieces[k]) != []
    ensures NonEmpty(pieces) == pieces
    decreases |pieces|
  {
    hide Trim;
    if pieces != [] {
      AllNonEmpty(pieces[..|pieces| - 1]);
    }
  }

  lemma {:induction false} TrimKeeps(piece: seq<Item>)
    requires Stripped(true, piece) != []
    ensures Trim(piece) != []
  {
    hide Stripped;
    TrimEndKeeps(Stripped(true, piece));
  }

  lemma {:induction false} TrimEndKeeps(e: seq<Item>)
    requires e != [] && !Blank(e[0])
    ensures TrimEnd(e) != []
    decreases |e|
  {
    if Blank(e[|e| - 1]) {
      TrimEndKeeps(e[..|e| - 1]);
    }
  }

  /** On ordinary elements, with chunked at most as the last one, the parser agrees on the final coding. */
  lemma {:induction false} OrdinaryCodings(items: seq<Item>)
    requires forall k :: 0 <= k < |Split(items, false)| ==> Ordinary(Codings, Split(items, false)[k])
    requires forall k :: 0 <= k < |Split(items, false)| - 1 ==> !Denotes(Split(items, false)[k], Chunked)
    ensures Chunked in Recognised(Codings, items) <==> FinallyChunked([items])
  {
    hide Split, Recognised, Stripped, CutShort, Names, Denotes, SightOf, Trim, NonEmpty, QuotingAfter, Simple;
    RecognisedExact(Codings, items, Chunked);
    var ps := Split(items, false);
    SplitSimple(items);
    NoQuotes(items);
    forall k | 0 <= k < |ps| ensures Trim(ps[k]) != [] {
      TrimKeeps(ps[k]);
    }
    AllNonEmpty(ps);
    assert [items][..0] == [] && Listed([items]) == [] + ps;
    OrdinarySight(Codings, ps, |ps| - 1);
    OrdinaryNames(|ps| == 1, ps[|ps| - 1], Chunked);
    assert Listed([items]) == ps;
    assert Counts(Codings, ps, |ps| - 1, Chunked) <==> Denotes(ps[|ps| - 1], Chunked);
  }
}
