/** Header names: which header the parser takes a name for, in any case, after any number of characters. */
module HttpNames {
  import opened Basics
  import opened HttpSyntax
  import opened HttpMachine
  import opened HttpScan
  import opened HttpValues

  predicate Name(name: seq<byte>) {
    name != [] && forall k :: 0 <= k < |name| ==> Token(name[k]) != 0
  }

  /** The name is a beginning of the word, in any case. */
  predicate NameBegins(name: seq<byte>, word: string) {
    |name| <= |word| && forall k :: 0 <= k < |name| ==> Token(name[k]) == At(word, k)
  }

  predicate Named(name: seq<byte>, word: string) {
    |name| == |word| && NameBegins(name, word)
  }

  /** The word is a beginning of the name, in any case. */
  predicate Extends(name: seq<byte>, word: string) {
    |word| <= |name| && NameBegins(name[..|word|], word)
  }

  const CONNECTION := "connection"
  const CONTENT_LENGTH := "content-length"
  const PROXY_CONNECTION := "proxy-connection"
  const TRANSFER_ENCODING := "transfer-encoding"
  const UPGRADE := "upgrade"

  /** What the parser takes a name for. */
  function HeaderOf(name: seq<byte>): HeaderState {
    if name == [] then General
    else if NameBegins(name, CONNECTION) then
      if |name| == 1 then HeaderState.C else if |name| == 2 then CO else if |name| == 3 then CON
      else if |name| == 10 then Connection else MatchingConnection
    else if NameBegins(name, CONTENT_LENGTH) then if |name| == 14 then ContentLength else MatchingContentLength
    else if NameBegins(name, PROXY_CONNECTION) then if |name| == 16 then Connection else MatchingProxyConnection
    else if NameBegins(name, TRANSFER_ENCODING) then if |name| == 17 then TransferEncoding else MatchingTransferEncoding
    else if NameBegins(name, UPGRADE) then if |name| == 7 then Upgrade else MatchingUpgrade
    else General
  }

  /** Only whole names are recognised; Proxy-Connection is taken for Connection. */
  lemma {:induction false} HeaderOfExact(name: seq<byte>)
    ensures HeaderOf(name) == Connection <==> Named(name, CONNECTION) || Named(name, PROXY_CONNECTION)
    ensures HeaderOf(name) == ContentLength <==> Named(name, CONTENT_LENGTH)
    ensures HeaderOf(name) == TransferEncoding <==> Named(name, TRANSFER_ENCODING)
    ensures HeaderOf(name) == Upgrade <==> Named(name, UPGRADE)
  {
    hide NameBegins, Token;
    if name != [] {
      Apart(name);
    }
  }

  /** No name is a beginning of two of the words, except for the first three letters of the first two. */
  lemma {:induction false} Apart(name: seq<byte>)
    requires name != []
    ensures NameBegins(name, CONNECTION) && NameBegins(name, CONTENT_LENGTH) ==> |name| <= 3
    ensures !NameBegins(name, PROXY_CONNECTION) || !(NameBegins(name, CONNECTION) || NameBegins(name, CONTENT_LENGTH))
    ensures !NameBegins(name, TRANSFER_ENCODING) || !(NameBegins(name, CONNECTION) || NameBegins(name, CONTENT_LENGTH)
                                                      || NameBegins(name, PROXY_CONNECTION))
    ensures !NameBegins(name, UPGRADE) || !(NameBegins(name, CONNECTION) || NameBegins(name, CONTENT_LENGTH)
                                            || NameBegins(name, PROXY_CONNECTION) || NameBegins(name, TRANSFER_ENCODING))
  {
    hide Token;
    var t := Token(name[0]);
    assert NameBegins(name, CONNECTION) || NameBegins(name, CONTENT_LENGTH) ==> t == Chr('c');
    assert NameBegins(name, PROXY_CONNECTION) ==> t == Chr('p');
    assert NameBegins(name, TRANSFER_ENCODING) ==> t == Chr('t');
    assert NameBegins(name, UPGRADE) ==> t == Chr('u');
    if |name| > 3 {
      assert NameBegins(name, CONNECTION) ==> Token(name[3]) == Chr('n');
      assert NameBegins(name, CONTENT_LENGTH) ==> Token(name[3]) == Chr('t');
    }
  }

  lemma {:induction false} NameSnoc(name: seq<byte>, ch: byte, word: string)
    ensures NameBegins(name + [ch], word) <==> NameBegins(name, word) && |name| < |word| && Token(ch) == At(word, |name|)
  {
    hide Token, At;
    var longer := name + [ch];
    assert longer[|name|] == ch && forall k :: 0 <= k < |name| ==> longer[k] == name[k];
    if NameBegins(longer, word) {
      forall k | 0 <= k < |name| ensures Token(name[k]) == At(word, k) {
        assert longer[k] == name[k];
      }
    }
  }

  // ----- one character -----

  predicate Matching(h: HeaderState) {
    h.MatchingConnection? || h.MatchingContentLength? || h.MatchingProxyConnection? || h.MatchingTransferEncoding?
    || h.MatchingUpgrade? || h.C? || h.CO? || h.CON?
  }

  /** The parser has read the name; the index is kept only while it matches. */
  predicate Spelt(p: Parser, name: seq<byte>) {
    && p.headerState == HeaderOf(name) && name != []
    && (Matching(p.headerState) ==> p.index == |name| - 1)
  }

  lemma {:induction false} FirstChar(p: Parser, ch: byte)
    ensures Spelt(FieldStart(p, Token(ch)), [ch])
    ensures FieldStart(p, Token(ch)) == p.(index := 0, headerState := FieldStart(p, Token(ch)).headerState)
    ensures !Extends([ch], TRANSFER_ENCODING)
  {
    hide Token;
    var t := Token(ch);
    NameSnoc([], ch, CONNECTION);
    NameSnoc([], ch, CONTENT_LENGTH);
    NameSnoc([], ch, PROXY_CONNECTION);
    NameSnoc([], ch, TRANSFER_ENCODING);
    NameSnoc([], ch, UPGRADE);
    assert [] + [ch] == [ch];
  }

  /** Everything but the words that this state is matching is out. */
  lemma {:induction false} OnlyWord(name: seq<byte>, ch: byte)
    requires name != []
    ensures NameBegins(name + [ch], CONNECTION) <==> NameBegins(name, CONNECTION) && |name| < 10 && Token(ch) == At(CONNECTION, |name|)
    ensures NameBegins(name + [ch], CONTENT_LENGTH) <==>
            NameBegins(name, CONTENT_LENGTH) && |name| < 14 && Token(ch) == At(CONTENT_LENGTH, |name|)
    ensures NameBegins(name + [ch], PROXY_CONNECTION) <==>
            NameBegins(name, PROXY_CONNECTION) && |name| < 16 && Token(ch) == At(PROXY_CONNECTION, |name|)
    ensures NameBegins(name + [ch], TRANSFER_ENCODING) <==>
            NameBegins(name, TRANSFER_ENCODING) && |name| < 17 && Token(ch) == At(TRANSFER_ENCODING, |name|)
    ensures NameBegins(name + [ch], UPGRADE) <==> NameBegins(name, UPGRADE) && |name| < 7 && Token(ch) == At(UPGRADE, |name|)
  {
    hide NameBegins, At, Token;
    NameSnoc(name, ch, CONNECTION);
    NameSnoc(name, ch, CONTENT_LENGTH);
    NameSnoc(name, ch, PROXY_CONNECTION);
    NameSnoc(name, ch, TRANSFER_ENCODING);
    NameSnoc(name, ch, UPGRADE);
  }

  /** The three letters that two of the words share. */
  lemma {:induction false} Shared(name: seq<byte>)
    requires name != [] && NameBegins(name, CONNECTION) && |name| <= 3
    ensures NameBegins(name, CONTENT_LENGTH)
  {
    hide Token;
  }

  /** What one more character makes of a name, word by word. */
  lemma {:induction false} NextHeader(name: seq<byte>, ch: byte)
    requires name != []
    ensures var h, g, t, n := HeaderOf(name), HeaderOf(name + [ch]), Token(ch), |name|;
            match h
            case C => g == if t == Chr('o') then CO else General
            case CO => g == if t == Chr('n') then CON else General
            case CON => g == if t == Chr('n') then MatchingConnection else if t == Chr('t') then MatchingContentLength else General
            case MatchingConnection =>
              n < 10 && g == if t != At(CONNECTION, n) then General else if n == 9 then Connection else h
            case MatchingContentLength =>
              n < 14 && g == if t != At(CONTENT_LENGTH, n) then General else if n == 13 then ContentLength else h
            case MatchingProxyConnection =>
              n < 16 && g == if t != At(PROXY_CONNECTION, n) then General else if n == 15 then Connection else h
            case MatchingTransferEncoding =>
              n < 17 && g == if t != At(TRANSFER_ENCODING, n) then General else if n == 16 then TransferEncoding else h
            case MatchingUpgrade => n < 7 && g == if t != At(UPGRADE, n) then General else if n == 6 then Upgrade else h
            case _ => g == General
  {
    hide NameBegins, Token;
    OnlyWord(name, ch);
    Apart(name);
    Apart(name + [ch]);
    Short(name);
    if NameBegins(name, CONNECTION) && |name| <= 3 {
      Shared(name);
    }
  }

  lemma {:induction false} Short(name: seq<byte>)
    ensures NameBegins(name, CONNECTION) ==> |name| <= 10
    ensures NameBegins(name, CONTENT_LENGTH) ==> |name| <= 14
    ensures NameBegins(name, PROXY_CONNECTION) ==> |name| <= 16
    ensures NameBegins(name, TRANSFER_ENCODING) ==> |name| <= 17
    ensures NameBegins(name, UPGRADE) ==> |name| <= 7
  {
  }

  lemma {:induction false} ShortLength(name: seq<byte>)
    ensures HeaderOf(name) == HeaderState.C ==> |name| == 1
    ensures HeaderOf(name) == CO ==> |name| == 2
    ensures HeaderOf(name) == CON ==> |name| == 3
  {
    hide NameBegins;
  }

  lemma {:induction false} HeaderRange(name: seq<byte>)
    ensures var h := HeaderOf(name);
            h.General? || Matching(h) || h.Connection? || h.ContentLength? || h.TransferEncoding? || h.Upgrade?
  {
    hide NameBegins;
  }

  lemma {:induction false} NextChar(p: Parser, name: seq<byte>, ch: byte)
    requires Spelt(p, name)
    ensures var q := FieldChar(p, Token(ch));
            && Spelt(q, name + [ch])
            && q == p.(index := q.index, headerState := q.headerState,
                       usesTransferEncoding := p.usesTransferEncoding || q.headerState == TransferEncoding)
  {
    hide HeaderOf, Token, At, Match;
    NextHeader(name, ch);
    ShortLength(name);
    HeaderRange(name);
    var t, n := Token(ch), |name|;
    match p.headerState
    case MatchingConnection => MatchOne(p, t, CONNECTION, n, MatchingConnection, Connection);
    case MatchingProxyConnection => MatchOne(p, t, PROXY_CONNECTION, n, MatchingProxyConnection, Connection);
    case MatchingContentLength => MatchOne(p, t, CONTENT_LENGTH, n, MatchingContentLength, ContentLength);
    case MatchingTransferEncoding => MatchOne(p, t, TRANSFER_ENCODING, n, MatchingTransferEncoding, TransferEncoding);
    case MatchingUpgrade => MatchOne(p, t, UPGRADE, n, MatchingUpgrade, Upgrade);
    case _ =>
  }

  lemma {:induction false} MatchOne(p: Parser, c: byte, word: string, n: nat, during: HeaderState, found: HeaderState)
    requires p.index == n - 1 && n < |word| <= 17
    ensures Match(p, c, word, during, found, General) ==
            p.(index := n, headerState := if c != At(word, n) then General else if n == |word| - 1 then found else during)
  {
    hide At;
  }

  /** The flag is set for every name that begins with Transfer-Encoding. */
  lemma {:induction false} ExtendsSnoc(name: seq<byte>, ch: byte)
    requires name != []
    ensures Extends(name + [ch], TRANSFER_ENCODING) <==>
            Extends(name, TRANSFER_ENCODING) || HeaderOf(name + [ch]) == TransferEncoding
  {
    hide NameBegins, Token;
    HeaderOfExact(name + [ch]);
    if |name| >= 17 {
      assert (name + [ch])[..17] == name[..17];
    } else if |name| == 16 {
      assert (name + [ch])[..17] == name + [ch];
    }
  }

  // ----- whole names -----

  /** The parser after a name: its header, the Transfer-Encoding flag, and nothing else. */
  predicate NameRead(r: Conn, c: Conn, name: seq<byte>) {
    && Spelt(r.parser, name)
    && r == Conn(c.parser.(state := HeaderField, headerState := HeaderOf(name), index := r.parser.index,
                           usesTransferEncoding := c.parser.usesTransferEncoding || Extends(name, TRANSFER_ENCODING)),
                 c.nread + |name|, Add(c.log, Data(Field, name)), false)
  }

  lemma {:induction false} FirstCharStep(c: Conn, ch: byte)
    requires c.Live() && c.parser.state.HeaderFieldStart? && c.nread < MAX_HEADER_SIZE && Token(ch) != 0
    ensures NameRead(Step(c, ch), c, [ch])
  {
    hide Switch, Step, Finish, Token, FieldStart, Add, HeaderOf, Extends;
    NotBreak(ch);
    OnField(c.parser, ch);
    FirstChar(c.parser, ch);
    StartsNothing(c.parser.state);
    PlainAdvance(c, ch, SwitchField(c.parser, ch));
  }

  lemma {:induction false} NotBreak(ch: byte)
    ensures Token(ch) != 0 ==> ch != CR && ch != LF && ch != SP && ch != HT && ch != Chr(':')
  {
  }

  lemma {:induction false} ColonToken()
    ensures Token(Chr(':')) == 0
  {
  }

  lemma {:induction false} CharStep(c: Conn, ch: byte)
    requires c.Live() && c.parser.state.HeaderField? && c.nread < MAX_HEADER_SIZE && Token(ch) != 0
    ensures Step(c, ch) == Conn(FieldChar(c.parser, Token(ch)), c.nread + 1, Add(c.log, Data(Field, [ch])), false)
  {
    hide Finish, Token, FieldChar, Add;
    FieldFinish(c.parser, c.nread + 1, c.log, ch);
  }

  lemma {:induction false} ColonStep(c: Conn)
    requires c.Live() && c.parser.state.HeaderField? && c.nread < MAX_HEADER_SIZE
    ensures Step(c, Chr(':')) ==
            Conn(c.parser.(state := HeaderValueDiscardWs), c.nread + 1, Add(c.log, Data(Field, [])), false)
  {
    hide Finish, Token, FieldChar, Add;
    ColonToken();
    FieldFinish(c.parser, c.nread + 1, c.log, Chr(':'));
  }

  lemma {:induction false} NameRun(c: Conn, name: seq<byte>)
    requires c.Live() && c.parser.state.HeaderFieldStart? && Name(name) && c.nread + |name| <= MAX_HEADER_SIZE
    ensures NameRead(Run(c, name), c, name)
    decreases |name|
  {
    hide Step, Run, Token, Add, HeaderOf, Extends, FieldChar, Spelt;
    var n := |name| - 1;
    var init := name[..n];
    assert name == init + [name[n]];
    RunOnOne(c, init, name[n]);
    if n == 0 {
      assert init == [] && name == [name[0]];
      RunNone(c);
      FirstCharStep(c, name[0]);
    } else {
      NameRun(c, init);
      var d := Run(c, init);
      CharStep(d, name[n]);
      NextChar(d.parser, init, name[n]);
      ExtendsSnoc(init, name[n]);
      SpeltHeader(FieldChar(d.parser, Token(name[n])), name);
      AddTwice(c.log, DataKind.Field, init, [name[n]]);
    }
  }

  lemma {:induction false} RunNone(c: Conn)
    ensures Run(c, []) == c
  {
  }

  lemma {:induction false} SpeltHeader(p: Parser, name: seq<byte>)
    requires Spelt(p, name)
    ensures p.headerState == HeaderOf(name)
  {
  }
}
