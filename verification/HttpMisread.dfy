/** Blocks of headers that the parser reads otherwise than RFC 7230 does. */
module HttpMisread {
  import opened Basics
  import opened HttpSyntax
  import opened HttpMachine
  import opened HttpValues
  import opened HttpNames
  import opened HttpLists
  import opened HttpHeaders
  import opened HttpFraming

  predicate Ascii(s: string) {
    forall i :: 0 <= i < |s| ==> s[i] < 128 as char
  }

  function NameOf(s: string): (name: seq<byte>)
    requires Ascii(s)
    ensures |name| == |s| && forall i :: 0 <= i < |s| ==> name[i] == s[i] as int
  {
    seq(|s|, i requires 0 <= i < |s| => s[i] as int)
  }

  function ValueOf(s: string): (v: seq<Item>)
    requires Ascii(s)
    ensures |v| == |s| && forall i :: 0 <= i < |s| ==> v[i] == Char(s[i] as int)
  {
    seq(|s|, i requires 0 <= i < |s| => Char(s[i] as int))
  }

  predicate LowerCase(s: string) {
    s != [] && forall i :: 0 <= i < |s| ==> 'a' <= s[i] <= 'z' || s[i] == '-'
  }

  lemma {:induction false} LowerWords()
    ensures LowerCase(CONNECTION) && LowerCase(TRANSFER_ENCODING) && LowerCase("identity")
    ensures forall w :: LowerCase(Spelling(w))
  {
    forall w ensures LowerCase(Spelling(w)) {
      match w
      case Chunked =>
      case KeepAlive =>
      case Close =>
      case UpgradeWord =>
    }
  }

  lemma {:induction false} LowerAscii(s: string)
    requires LowerCase(s)
    ensures Ascii(s)
  {
  }

  lemma {:induction false} NameIs(s: string)
    requires LowerCase(s) && Ascii(s)
    ensures Name(NameOf(s)) && Named(NameOf(s), s)
  {
    forall i | 0 <= i < |s| ensures Token(NameOf(s)[i]) == At(s, i) && Token(NameOf(s)[i]) != 0 {
      LowerToken(NameOf(s)[i]);
    }
  }

  lemma {:induction false} LowerToken(b: byte)
    requires Chr('a') <= b <= Chr('z') || b == Chr('-')
    ensures Token(b) == b && Lower(b) == b
  {
    assert "!#$%&'*+-.^_`|~"[8] == '-';
  }

  lemma {:induction false} ValueIs(s: string)
    requires LowerCase(s) && Ascii(s)
    ensures Printable(ValueOf(s)) && forall i :: 0 <= i < |s| ==> !IsComma(ValueOf(s)[i]) && !Blank(ValueOf(s)[i])
  {
  }

  lemma {:induction false} SpellsItself(w: Word)
    requires Ascii(Spelling(w)) && LowerCase(Spelling(w))
    ensures Begins(ValueOf(Spelling(w)), w)
  {
    hide Spelling, Lower;
    var v := ValueOf(Spelling(w));
    forall k | 0 <= k < |v| ensures v[k].Char? && Lower(v[k].b) == At(Spelling(w), k) {
      LowerToken(v[k].b);
    }
  }

  // ----- one element -----

  lemma {:induction false} OnePiece(items: seq<Item>, quotes: bool)
    requires forall i :: 0 <= i < |items| ==> !IsComma(items[i])
    ensures Split(items, quotes) == [items]
    decreases |items|
  {
    hide QuotingAfter;
    if items != [] {
      var init, t := items[..|items| - 1], items[|items| - 1];
      OnePiece(init, quotes);
      assert items == init + [t];
      SplitSnoc(init, quotes, t);
      assert Longer([init], t) == [items];
    }
  }

  lemma {:induction false} NotStripped(first: bool, e: seq<Item>)
    requires e != [] && !Blank(e[0])
    ensures Stripped(first, e) == e
  {
  }

  /** A single element counts for the parser when nothing but spaces follows the word. */
  lemma {:induction false} OneCounts(kind: Kind, items: seq<Item>, w: Word)
    requires (forall i :: 0 <= i < |items| ==> !IsComma(items[i])) && items != [] && !Blank(items[0])
    ensures Found(kind, items, w) <==> KindOf(w) == kind && Names(items, w)
  {
    hide Names;
    OnePiece(items, false);
    NotStripped(true, items);
    if KindOf(w) == kind && Names(items, w) {
      assert Counts(kind, Split(items, false), 0, w);
    }
  }

  /** It is the word for the RFC when nothing but blanks follows. */
  lemma {:induction false} OneDenotes(word: seq<Item>, rest: seq<Item>, w: Word)
    requires word != [] && (forall i :: 0 <= i < |word| ==> !Blank(word[i])) && forall i :: 0 <= i < |rest| ==> Blank(rest[i])
    ensures Denotes(word + rest, w) <==> |word| == |Spelling(w)| && Begins(word, w)
  {
    hide Spelling, Begins;
    NotStripped(true, word + rest);
    EndTrimmed(word, rest);
  }

  lemma {:induction false} EndTrimmed(word: seq<Item>, rest: seq<Item>)
    requires word != [] && (forall i :: 0 <= i < |word| ==> !Blank(word[i])) && forall i :: 0 <= i < |rest| ==> Blank(rest[i])
    ensures TrimEnd(word + rest) == word
    decreases |rest|
  {
    if rest == [] {
      assert word + rest == word;
    } else {
      assert (word + rest)[..|word + rest| - 1] == word + rest[..|rest| - 1];
      EndTrimmed(word, rest[..|rest| - 1]);
    }
  }

  // ----- blocks of one or two lines -----

  const ENCODING_NAME: seq<byte> := EncodingName()
  const CONNECTION_NAME: seq<byte> := ConnectionName()

  function EncodingName(): seq<byte> {
    LowerWords(); LowerAscii(TRANSFER_ENCODING); NameOf(TRANSFER_ENCODING)
  }

  function ConnectionName(): seq<byte> {
    LowerWords(); LowerAscii(CONNECTION); NameOf(CONNECTION)
  }

  function WordValue(w: Word): seq<Item> {
    LowerWords(); LowerAscii(Spelling(w)); ValueOf(Spelling(w))
  }

  function IdentityValue(): seq<Item> {
    LowerWords(); LowerAscii("identity"); ValueOf("identity")
  }

  /** A block without Content-Length and Upgrade headers. */
  lemma {:induction false} NoLength(hs: seq<Header>)
    requires forall i :: 0 <= i < |hs| ==> |hs[i].name| != 14 && |hs[i].name| != 7
    ensures LengthsFine(hs) && Announced(hs).None? && !AnyUpgrade(hs)
  {
    hide NameBegins, Acceptable, Number;
    AnnouncedIs(hs);
  }

  predicate PlainRequest(c: Conn) {
    Starts(c) && c.parser.kind == Request && c.parser.method_ != CONNECT && !c.parser.lenient
  }

  /** For such a message the outcome and the rule depend on the encoding headers only. */
  lemma {:induction false} RequestOutcome(c: Conn, hs: seq<Header>, cr: bool)
    requires PlainRequest(c) && AllWellFormed(hs) && LengthsFine(hs) && Announced(hs).None? && !AnyUpgrade(hs)
    requires c.nread + |Block(hs)| + |Break(cr)| <= MAX_HEADER_SIZE
    ensures Outcome(Run(c, Block(hs) + Break(cr))) ==
            Some(if AnySets(hs, Chunked) then Chunks else if AnyExtends(hs) then Refusal else NoBody)
  {
    hide Run, Block, AnySets, AnyExtends, AnyUpgrade, Announced, LengthsFine, AllWellFormed, Outcome;
    Conclusion(c, hs, cr);
  }

  lemma {:induction false} WordIs(w: Word)
    ensures Ascii(Spelling(w)) && WordValue(w) == ValueOf(Spelling(w)) && Begins(WordValue(w), w) && WordValue(w) != []
    ensures forall i :: 0 <= i < |WordValue(w)| ==> !IsComma(WordValue(w)[i]) && !Blank(WordValue(w)[i])
    ensures Printable(WordValue(w)) && |WordValue(w)| == |Spelling(w)|
  {
    hide Spelling;
    LowerWords();
    LowerAscii(Spelling(w));
    SpellsItself(w);
    ValueIs(Spelling(w));
  }

  lemma {:induction false} EncodingNamed()
    ensures Name(ENCODING_NAME) && Named(ENCODING_NAME, TRANSFER_ENCODING) && |ENCODING_NAME| == 17
    ensures !Named(ENCODING_NAME, CONNECTION) && !Named(ENCODING_NAME, PROXY_CONNECTION)
  {
    LowerWords();
    LowerAscii(TRANSFER_ENCODING);
    NameIs(TRANSFER_ENCODING);
  }

  lemma {:induction false} ConnectionNamed()
    ensures Name(CONNECTION_NAME) && Named(CONNECTION_NAME, CONNECTION) && |CONNECTION_NAME| == 10
    ensures !Named(CONNECTION_NAME, TRANSFER_ENCODING) && !Extends(CONNECTION_NAME, TRANSFER_ENCODING)
  {
    LowerWords();
    LowerAscii(CONNECTION);
    NameIs(CONNECTION);
  }

  lemma {:induction false} ExtendsItself(name: seq<byte>)
    requires Named(name, TRANSFER_ENCODING)
    ensures Extends(name, TRANSFER_ENCODING)
  {
    assert name[..17] == name;
  }

  /** The values of a name in one line, and in two. */
  lemma {:induction false} FewValues(hs: seq<Header>, word: string)
    requires 1 <= |hs| <= 2 && forall i :: 0 <= i < |hs| ==> Named(hs[i].name, word)
    ensures Values(hs, word) == if |hs| == 1 then [hs[0].value] else [hs[0].value, hs[1].value]
  {
    hide Named;
    assert Values([], word) == [];
    assert hs[..1][..0] == [];
    assert Values(hs[..1], word) == [hs[0].value];
    if |hs| == 2 {
      assert hs[..|hs| - 1] == hs[..1];
    } else {
      assert hs[..1] == hs;
    }
  }

  lemma {:induction false} WordNames(w: Word, t: Item)
    requires Blank(t)
    ensures Names(WordValue(w), w)
    ensures t != Char(SP) ==> !Names(WordValue(w) + [t], w)
    ensures Denotes(WordValue(w), w) && Denotes(WordValue(w) + [t], w)
  {
    hide WordValue, Spelling, Begins, Denotes;
    WordIs(w);
    var v := WordValue(w);
    NamesWhole(v, w);
    NamesSnoc(v, t, w);
    BeginsSnoc(v, t, w);
    OneDenotes(v, [t], w);
    OneDenotes(v, [], w);
    assert v + [] == v;
  }

  /** A line with one element that means a word for the RFC. */
  lemma {:induction false} OneElement(items: seq<Item>, w: Word)
    requires items != [] && forall i :: 0 <= i < |items| ==> !IsComma(items[i])
    requires Denotes(items, w)
    ensures HasOption([items], w) && (w == Chunked ==> FinallyChunked([items]))
    ensures NonEmpty(Split(items, true)) == [items]
  {
    hide Trim, Begins, Spelling;
    OnePiece(items, true);
    OnePiece(items, false);
    OneLine(items, w);
    assert Denotes(Split(items, false)[0], w);
    TrimSome(items, w);
    assert [items][..0] == [] && NonEmpty([items]) == [items];
    assert Listed([items]) == [items];
  }

  lemma {:induction false} TrimSome(items: seq<Item>, w: Word)
    requires Denotes(items, w)
    ensures Trim(items) != []
  {
  }

  // ----- blocks that are misread -----

  function EncodingLine(value: seq<Item>): Header {
    Header(ENCODING_NAME, value, true)
  }

  lemma {:induction false} EncodingLines(hs: seq<Header>)
    requires forall i :: 0 <= i < |hs| ==> hs[i].name == ENCODING_NAME && Printable(hs[i].value)
    ensures AllWellFormed(hs) && LengthsFine(hs) && Announced(hs).None? && !AnyUpgrade(hs)
    ensures hs != [] ==> AnyExtends(hs) && HasHeader(hs, TRANSFER_ENCODING)
    ensures AnySets(hs, Chunked) <==> exists i :: 0 <= i < |hs| && Found(Codings, hs[i].value, Chunked)
  {
    hide Printable, Name, Named, Extends, Found, LengthsFine, Announced, AnyUpgrade;
    EncodingNamed();
    ExtendsItself(ENCODING_NAME);
    NoLength(hs);
    if hs != [] {
      assert Named(hs[0].name, TRANSFER_ENCODING) && Extends(hs[0].name, TRANSFER_ENCODING);
    }
    forall i | 0 <= i < |hs| ensures Sets(hs[i], Chunked) <==> Found(Codings, hs[i].value, Chunked) {
    }
  }

  lemma {:induction false} IdentityIs()
    ensures Printable(IdentityValue()) && !Denotes(IdentityValue(), Chunked) && IdentityValue() != []
    ensures NonEmpty(Split(IdentityValue(), true)) == [IdentityValue()]
  {
    hide Spelling, Trim, Begins;
    LowerWords();
    LowerAscii("identity");
    ValueIs("identity");
    var v := IdentityValue();
    assert |v| == 8;
    OneDenotes(v, [], Chunked);
    assert v + [] == v;
    ChunkedLength();
    OnePiece(v, true);
    assert [v][..0] == [];
    NotStripped(true, v);
    TrimEndKeeps(v);
    TrimIs(v);
  }

  lemma {:induction false} TrimIs(v: seq<Item>)
    ensures Trim(v) == TrimEnd(Stripped(true, v))
  {
  }

  lemma {:induction false} ChunkedLength()
    ensures |Spelling(Chunked)| == 7
  {
  }

  /** Chunked, and then identity in a second line: chunks are read where a request must be refused. */
  lemma {:induction false} SecondLineMisread(c: Conn, cr: bool)
    requires PlainRequest(c)
    requires c.nread + |Block([EncodingLine(WordValue(Chunked)), EncodingLine(IdentityValue())])| + |Break(cr)| <= MAX_HEADER_SIZE
    ensures var hs := [EncodingLine(WordValue(Chunked)), EncodingLine(IdentityValue())];
            && AllWellFormed(hs) && LengthsFine(hs)
            && Outcome(Run(c, Block(hs) + Break(cr))) == Some(Chunks) && Rfc(c.parser, hs) == Refusal
  {
    hide Run, Block, Names, Denotes, WordValue, IdentityValue, AnySets, AnyUpgrade, AnyExtends, HasHeader, LengthsFine, Announced, Outcome,
         AllWellFormed, Named, Printable, NonEmpty, Split, Spelling, Begins, Found;
    var v, u := WordValue(Chunked), IdentityValue();
    var hs := [EncodingLine(v), EncodingLine(u)];
    WordIs(Chunked);
    IdentityIs();
    WordNames(Chunked, Char(SP));
    OneCounts(Codings, v, Chunked);
    EncodingLines(hs);
    assert Found(Codings, hs[0].value, Chunked);
    RequestOutcome(c, hs, cr);
    EncodingNamed();
    FewValues(hs, TRANSFER_ENCODING);
    LastListed([v], u);
    assert [v] + [u] == [v, u];
  }

  /** The last element of the last line is the last of all. */
  lemma {:induction false} LastListed(values: seq<seq<Item>>, u: seq<Item>)
    requires NonEmpty(Split(u, true)) == [u]
    ensures FinallyChunked(values + [u]) <==> Denotes(u, Chunked)
  {
    hide NonEmpty, Split, Denotes;
    assert (values + [u])[..|values|] == values;
  }

  /** Chunked with a tab or a blank line fold after it: a request is refused where chunks must be read. */
  lemma {:induction false} TabMisread(c: Conn, t: Item, cr: bool)
    requires PlainRequest(c) && Text([t]) && Blank(t) && t != Char(SP)
    requires c.nread + |Block([EncodingLine(WordValue(Chunked) + [t])])| + |Break(cr)| <= MAX_HEADER_SIZE
    ensures var hs := [EncodingLine(WordValue(Chunked) + [t])];
            && AllWellFormed(hs) && LengthsFine(hs)
            && Outcome(Run(c, Block(hs) + Break(cr))) == Some(Refusal) && Rfc(c.parser, hs) == Chunks
  {
    hide Run, Block, Names, Denotes, WordValue, AnySets, AnyUpgrade, AnyExtends, HasHeader, LengthsFine, Announced, Outcome,
         AllWellFormed, Named, NonEmpty, Split, Spelling, Begins, Found, FinallyChunked, HasOption;
    var v := WordValue(Chunked) + [t];
    var hs := [EncodingLine(v)];
    WordIs(Chunked);
    WordNames(Chunked, t);
    assert [t][0] == t;
    OneCounts(Codings, v, Chunked);
    EncodingLines(hs);
    RequestOutcome(c, hs, cr);
    EncodingNamed();
    FewValues(hs, TRANSFER_ENCODING);
    OneElement(v, Chunked);
  }

  /** A name that only begins with Transfer-Encoding: a request without a body is refused. */
  lemma {:induction false} LongerNameMisread(c: Conn, value: seq<Item>, cr: bool)
    requires PlainRequest(c) && Printable(value)
    requires c.nread + |Block([Header(ENCODING_NAME + [Chr('x')], value, true)])| + |Break(cr)| <= MAX_HEADER_SIZE
    ensures var hs := [Header(ENCODING_NAME + [Chr('x')], value, true)];
            && AllWellFormed(hs) && LengthsFine(hs)
            && Outcome(Run(c, Block(hs) + Break(cr))) == Some(Refusal) && Rfc(c.parser, hs) == NoBody
  {
    hide Run, Block, AnyUpgrade, LengthsFine, Announced, Outcome, Printable, NameBegins, Token, Found, FinallyChunked;
    var name := ENCODING_NAME + [Chr('x')];
    var hs := [Header(name, value, true)];
    EncodingNamed();
    LetterName();
    assert forall k :: 0 <= k < 17 ==> name[k] == ENCODING_NAME[k];
    assert name[17] == Chr('x');
    assert name[..17] == ENCODING_NAME;
    NoLength(hs);
    assert Extends(hs[0].name, TRANSFER_ENCODING);
    RequestOutcome(c, hs, cr);
  }

  lemma {:induction false} LetterName()
    ensures Token(Chr('x')) != 0
  {
  }

  function ConnectionLine(value: seq<Item>): Header {
    Header(CONNECTION_NAME, value, true)
  }

  lemma {:induction false} ConnectionLines(value: seq<Item>)
    requires Printable(value)
    ensures var hs := [ConnectionLine(value)];
            && AllWellFormed(hs) && LengthsFine(hs) && Announced(hs).None? && !AnyExtends(hs) && !HasHeader(hs, TRANSFER_ENCODING)
            && Values(hs, CONNECTION) == [value]
            && (AnySets(hs, Close) <==> Found(Options, value, Close))
  {
    hide Printable, Name, Named, Extends, Found, LengthsFine, Announced, AnyUpgrade;
    var hs := [ConnectionLine(value)];
    ConnectionNamed();
    NoLength(hs);
    FewValues(hs, CONNECTION);
    assert hs[0] == ConnectionLine(value);
    assert Sets(hs[0], Close) <==> Found(Options, value, Close);
  }

  /** A value that lists close for the RFC, but in which the parser does not see it. */
  lemma {:induction false} UnseenClose(c: Conn, value: seq<Item>, cr: bool)
    requires Starts(c) && c.parser.kind == Request && c.parser.httpMajor == 1 && c.parser.httpMinor == 1
    requires Printable(value) && HasOption([value], Close) && !Found(Options, value, Close)
    requires c.nread + |Block([ConnectionLine(value)])| + |Break(cr)| <= MAX_HEADER_SIZE
    ensures var hs := [ConnectionLine(value)];
            && AllWellFormed(hs) && LengthsFine(hs)
            && ShouldKeepAlive(Run(c, Block(hs) + Break(cr)).parser) && !Persists(c.parser, hs)
  {
    hide Run, Block, AnySets, AnyUpgrade, AnyExtends, HasHeader, LengthsFine, Announced, Outcome, AllWellFormed, Values, Found, HasOption;
    var hs := [ConnectionLine(value)];
    ConnectionLines(value);
    Conclusion(c, hs, cr);
  }

  /** close with a tab or a blank line fold after it: the connection is kept. */
  lemma {:induction false} CloseTabMisread(c: Conn, t: Item, cr: bool)
    requires Starts(c) && c.parser.kind == Request && c.parser.httpMajor == 1 && c.parser.httpMinor == 1
    requires Text([t]) && Blank(t) && t != Char(SP)
    requires c.nread + |Block([ConnectionLine(WordValue(Close) + [t])])| + |Break(cr)| <= MAX_HEADER_SIZE
    ensures var hs := [ConnectionLine(WordValue(Close) + [t])];
            && AllWellFormed(hs) && LengthsFine(hs)
            && ShouldKeepAlive(Run(c, Block(hs) + Break(cr)).parser) && !Persists(c.parser, hs)
  {
    hide Run, Block, Names, Denotes, WordValue, LengthsFine, AllWellFormed, Spelling, Begins, Found, HasOption, Persists,
         ShouldKeepAlive;
    var v := WordValue(Close) + [t];
    WordIs(Close);
    WordNames(Close, t);
    assert [t][0] == t;
    OneCounts(Options, v, Close);
    OneElement(v, Close);
    UnseenClose(c, v, cr);
  }

  /** close after an empty element: the connection is kept. */
  lemma {:induction false} EmptyElementMisread(c: Conn, cr: bool)
    requires Starts(c) && c.parser.kind == Request && c.parser.httpMajor == 1 && c.parser.httpMinor == 1
    requires c.nread + |Block([ConnectionLine([Char(Chr(','))] + WordValue(Close))])| + |Break(cr)| <= MAX_HEADER_SIZE
    ensures var hs := [ConnectionLine([Char(Chr(','))] + WordValue(Close))];
            && AllWellFormed(hs) && LengthsFine(hs)
            && ShouldKeepAlive(Run(c, Block(hs) + Break(cr)).parser) && !Persists(c.parser, hs)
  {
    hide Run, Block, Names, Denotes, WordValue, LengthsFine, AllWellFormed, Spelling, Begins, Found, HasOption, Persists,
         ShouldKeepAlive, Split;
    var comma := Char(Chr(','));
    var v := [comma] + WordValue(Close);
    WordIs(Close);
    WordNames(Close, Char(SP));
    AfterComma(comma, WordValue(Close));
    assert v[0] == comma;
    HiddenSecond(v, WordValue(Close));
    OneLine(v, Close);
    assert Denotes(Split(v, false)[1], Close);
    UnseenClose(c, v, cr);
  }

  lemma {:induction false} AfterComma(comma: Item, items: seq<Item>)
    requires IsComma(comma) && forall i :: 0 <= i < |items| ==> !IsComma(items[i])
    ensures Split([comma] + items, false) == [[], items]
    decreases |items|
  {
    hide QuotingAfter, Split, Longer;
    if items == [] {
      SplitSnoc([], false, comma);
      assert [] + [comma] == [comma] + items;
      NothingSplit();
    } else {
      var init, t := items[..|items| - 1], items[|items| - 1];
      assert items == init + [t];
      assert [comma] + items == ([comma] + init) + [t];
      AfterComma(comma, init);
      SplitSnoc([comma] + init, false, t);
      LongerSecond(init, t);
    }
  }

  lemma {:induction false} NothingSplit()
    ensures Split([], false) + [[]] == [[], []]
  {
  }

  lemma {:induction false} LongerSecond(init: seq<Item>, t: Item)
    ensures Longer([[], init], t) == [[], init + [t]]
  {
  }

  /** After an empty first element the second one is passed over. */
  lemma {:induction false} HiddenSecond(v: seq<Item>, e: seq<Item>)
    requires Split(v, false) == [[], e]
    ensures !Found(Options, v, Close)
  {
    hide Split, Names, HasFold, CutShort;
    var ps := Split(v, false);
    assert Stripped(true, []) == [];
    assert SightOf(Options, ps, 1) == Hidden;
    forall k | 0 <= k < |ps| ensures !Counts(Options, ps, k, Close) {
      if k == 0 {
        NamesWhole([], Close);
      }
    }
  }
}
