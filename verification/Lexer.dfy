/** The quote-aware lexer of the command line: src/commands/catalog.ts. */
module Lexer {
  import opened Prelude
  import opened JsText

  /** A piece of the input, its decoded value, and whether its quotes close. */
  datatype Token = Token(value: Text, start: nat, end: nat, closed: bool)

  /** The quote that is open, and whether a backslash was just read. */
  datatype Mode = Mode(quote: Option<Unit>, escaping: bool)

  const PLAIN: Mode := Mode(None, false)

  predicate IsQuote(u: Unit) {
    u == QUOTE || u == APOSTROPHE
  }

  function Step(mode: Mode, u: Unit): Mode {
    if mode.escaping then mode.(escaping := false)
    else if u == BACKSLASH then mode.(escaping := true)
    else if mode.quote.Some? then if u == mode.quote.value then PLAIN else mode
    else if IsQuote(u) then Mode(Some(u), false)
    else mode
  }

  /** The mode at `i`, when the text is read from `start` in plain mode. */
  function ModeAt(t: Text, start: nat, i: nat): Mode
    requires start <= i <= |t|
    decreases i
  {
    if i == start then PLAIN else Step(ModeAt(t, start, i - 1), t[i - 1])
  }

  /** The part of the value that one unit contributes. */
  function Contributes(mode: Mode, u: Unit): Text {
    if mode.escaping then [u]
    else if u == BACKSLASH then []
    else if mode.quote.Some? then if u == mode.quote.value then [] else [u]
    else if IsQuote(u) then []
    else [u]
  }

  function Contribution(t: Text, i: nat): Text
    requires i <= |t|
  {
    if i == 0 then [] else Contribution(t, i - 1) + Contributes(ModeAt(t, 0, i - 1), t[i - 1])
  }

  /** The value of a token's text; a backslash at the very end stays. */
  function Decoded(source: Text): Text {
    Contribution(source, |source|) + if ModeAt(source, 0, |source|).escaping then [BACKSLASH] else []
  }

  method DecodeToken(source: Text) returns (value: Text, closed: bool)
    ensures value == Decoded(source)
    ensures closed <==> ModeAt(source, 0, |source|).quote.None?
  {
    value := [];
    var quote: Option<Unit> := None;
    var escaping := false;
    var i := 0;
    while i < |source|
      invariant 0 <= i <= |source|
      invariant value == Contribution(source, i)
      invariant Mode(quote, escaping) == ModeAt(source, 0, i)
    {
      var unit := source[i];
      i := i + 1;
      if escaping {
        value := value + [unit];
        escaping := false;
        continue;
      }
      if unit == BACKSLASH {
        escaping := true;
        continue;
      }
      if quote.Some? {
        if unit == quote.value { quote := None; } else { value := value + [unit]; }
        continue;
      }
      if IsQuote(unit) {
        quote := Some(unit);
        continue;
      }
      value := value + [unit];
    }
    if escaping { value := value + [BACKSLASH]; }
    closed := quote.None?;
  }

  /** Reading a token's slice alone goes through the modes the lexer was in. */
  lemma {:induction false} SliceAgrees(input: Text, start: nat, end: nat, n: nat)
    requires start <= end <= |input| && n <= end - start
    ensures ModeAt(input[start..end], 0, n) == ModeAt(input, start, start + n)
    decreases n
  {
    if n > 0 {
      SliceAgrees(input, start, end, n - 1);
    }
  }

  // --------------------------------------------------------------- grammar

  /** A unit as it is written: by itself, or after a backslash. */
  datatype Symbol = Bare(u: Unit) | Slashed(u: Unit)

  /** Text is made of units outside quotes and of quotations. */
  datatype Piece = Outside(symbol: Symbol) | Quotation(quote: Unit, inside: seq<Symbol>)

  /** How a text ends: complete, or within a quotation, with a backslash that
      has nothing behind it or without. */
  datatype Ending = Complete(slash: bool) | Within(quote: Unit, inside: seq<Symbol>, slash: bool)

  function SpelledSymbol(c: Symbol): Text {
    match c
    case Bare(u) => [u]
    case Slashed(u) => ['\\' as int, u]
  }

  function Spelled(cs: seq<Symbol>): Text {
    if cs == [] then [] else Spelled(cs[..|cs| - 1]) + SpelledSymbol(cs[|cs| - 1])
  }

  function Units(cs: seq<Symbol>): Text {
    seq(|cs|, k requires 0 <= k < |cs| => cs[k].u)
  }

  /** No bare backslash, and bare quotes only where they do not count. */
  predicate IsSymbol(c: Symbol, quote: Option<Unit>) {
    c.Bare? ==>
      && c.u != '\\' as int
      && if quote.Some? then c.u != quote.value else c.u != '"' as int && c.u != '\'' as int
  }

  predicate AreSymbols(cs: seq<Symbol>, quote: Option<Unit>) {
    forall k :: 0 <= k < |cs| ==> IsSymbol(cs[k], quote)
  }

  predicate IsQuotation(quote: Unit, inside: seq<Symbol>) {
    (quote == '"' as int || quote == '\'' as int) && AreSymbols(inside, Some(quote))
  }

  predicate IsPiece(piece: Piece) {
    match piece
    case Outside(c) => IsSymbol(c, None)
    case Quotation(quote, inside) => IsQuotation(quote, inside)
  }

  function SpelledPieces(pieces: seq<Piece>): Text {
    if pieces == [] then []
    else
      SpelledPieces(pieces[..|pieces| - 1])
      + match pieces[|pieces| - 1]
        case Outside(c) => SpelledSymbol(c)
        case Quotation(quote, inside) => [quote] + Spelled(inside) + [quote]
  }

  function Meaning(pieces: seq<Piece>): Text {
    if pieces == [] then []
    else
      Meaning(pieces[..|pieces| - 1])
      + match pieces[|pieces| - 1]
        case Outside(c) => [c.u]
        case Quotation(_, inside) => Units(inside)
  }

  /** The text is spelled by these pieces and this ending. */
  ghost predicate IsSpelled(t: Text, pieces: seq<Piece>, ending: Ending) {
    && (forall k :: 0 <= k < |pieces| ==> IsPiece(pieces[k]))
    && match ending
       case Complete(slash) => t == SpelledPieces(pieces) + if slash then ['\\' as int] else []
       case Within(quote, inside, slash) =>
         && IsQuotation(quote, inside)
         && t == SpelledPieces(pieces) + [quote] + Spelled(inside) + if slash then ['\\' as int] else []
  }

  ghost predicate Reads(t: Text, mode: Mode, value: Text) {
    ModeAt(t, 0, |t|) == mode && Contribution(t, |t|) == value
  }

  lemma {:induction false} PrefixReads(t: Text, u: Unit, i: nat)
    requires i <= |t|
    ensures ModeAt(t + [u], 0, i) == ModeAt(t, 0, i) && Contribution(t + [u], i) == Contribution(t, i)
    decreases i
  {
    if i > 0 {
      PrefixReads(t, u, i - 1);
    }
  }

  lemma ReadsOn(t: Text, mode: Mode, value: Text, u: Unit)
    requires Reads(t, mode, value)
    ensures Reads(t + [u], Step(mode, u), value + Contributes(mode, u))
  {
    PrefixReads(t, u, |t|);
  }

  lemma ReadsSymbol(t: Text, quote: Option<Unit>, value: Text, c: Symbol)
    requires Reads(t, Mode(quote, false), value) && IsSymbol(c, quote)
    ensures Reads(t + SpelledSymbol(c), Mode(quote, false), value + [c.u])
  {
    match c
    case Bare(u) => ReadsOn(t, Mode(quote, false), value, u);
    case Slashed(u) =>
      ReadsOn(t, Mode(quote, false), value, BACKSLASH);
      assert value + [] == value;
      ReadsOn(t + [BACKSLASH], Mode(quote, true), value, u);
      assert t + SpelledSymbol(c) == t + [BACKSLASH] + [u];
  }

  lemma UnitsAppend(cs: seq<Symbol>, c: Symbol)
    ensures Units(cs + [c]) == Units(cs) + [c.u]
  {
  }

  lemma {:induction false} ReadsSymbols(t: Text, quote: Option<Unit>, value: Text, cs: seq<Symbol>)
    requires Reads(t, Mode(quote, false), value) && AreSymbols(cs, quote)
    ensures Reads(t + Spelled(cs), Mode(quote, false), value + Units(cs))
    decreases |cs|
  {
    if cs == [] {
      assert t + Spelled(cs) == t && value + Units(cs) == value;
    } else {
      var init, c := cs[..|cs| - 1], cs[|cs| - 1];
      ReadsSymbols(t, quote, value, init);
      ReadsSymbol(t + Spelled(init), quote, value + Units(init), c);
      Regroup(t, Spelled(init), SpelledSymbol(c));
      UnitsAppend(init, c);
      assert init + [c] == cs;
      Regroup(value, Units(init), [c.u]);
    }
  }

  lemma ReadsOpening(t: Text, value: Text, quote: Unit, inside: seq<Symbol>)
    requires Reads(t, PLAIN, value) && IsQuotation(quote, inside)
    ensures Reads(t + [quote] + Spelled(inside), Mode(Some(quote), false), value + Units(inside))
  {
    ReadsOn(t, PLAIN, value, quote);
    assert value + [] == value;
    ReadsSymbols(t + [quote], Some(quote), value, inside);
  }

  lemma {:induction false} ReadsPieces(pieces: seq<Piece>)
    requires forall k :: 0 <= k < |pieces| ==> IsPiece(pieces[k])
    ensures Reads(SpelledPieces(pieces), PLAIN, Meaning(pieces))
    decreases |pieces|
  {
    if pieces != [] {
      var init, last := pieces[..|pieces| - 1], pieces[|pieces| - 1];
      var t, value := SpelledPieces(init), Meaning(init);
      ReadsPieces(init);
      match last
      case Outside(c) => ReadsSymbol(t, None, value, c);
      case Quotation(quote, inside) =>
        ReadsOpening(t, value, quote, inside);
        ReadsOn(t + [quote] + Spelled(inside), Mode(Some(quote), false), value + Units(inside), quote);
        assert value + Units(inside) + [] == value + Units(inside);
        Regroup(t, [quote] + Spelled(inside), [quote]);
        Regroup(t, [quote], Spelled(inside));
    }
  }

  /** The mode behind a text, and its value, are those of its grammar. */
  lemma SpelledIsDecoded(t: Text, pieces: seq<Piece>, ending: Ending)
    requires IsSpelled(t, pieces, ending)
    ensures ModeAt(t, 0, |t|)
            == match ending
               case Complete(slash) => Mode(None, slash)
               case Within(quote, _, slash) => Mode(Some(quote), slash)
    ensures Decoded(t)
            == Meaning(pieces) + (if ending.Within? then Units(ending.inside) else [])
               + if ending.slash then ['\\' as int] else []
  {
    ReadsPieces(pieces);
    var whole, value, quote := SpelledPieces(pieces), Meaning(pieces), None;
    if ending.Within? {
      ReadsOpening(whole, value, ending.quote, ending.inside);
      whole, value := whole + [ending.quote] + Spelled(ending.inside), value + Units(ending.inside);
      quote := Some(ending.quote);
    }
    if ending.slash {
      ReadsOn(whole, Mode(quote, false), value, BACKSLASH);
      assert value + [] == value;
    } else {
      assert whole + [] == whole;
    }
  }

  /** The ending when one more unit follows, and the piece that it completes. */
  function Continued(ending: Ending, u: Unit): (seq<Piece>, Ending) {
    match ending
    case Complete(true) => ([Outside(Slashed(u))], Complete(false))
    case Complete(false) =>
      if u == '\\' as int then ([], Complete(true))
      else if u == '"' as int || u == '\'' as int then ([], Within(u, [], false))
      else ([Outside(Bare(u))], Complete(false))
    case Within(quote, inside, true) => ([], Within(quote, inside + [Slashed(u)], false))
    case Within(quote, inside, false) =>
      if u == '\\' as int then ([], Within(quote, inside, true))
      else if u == quote then ([Quotation(quote, inside)], Complete(false))
      else ([], Within(quote, inside + [Bare(u)], false))
  }

  lemma PieceSpelled(pieces: seq<Piece>, piece: Piece)
    ensures SpelledPieces(pieces + [piece])
            == SpelledPieces(pieces)
               + match piece
                 case Outside(c) => SpelledSymbol(c)
                 case Quotation(quote, inside) => [quote] + Spelled(inside) + [quote]
  {
    assert (pieces + [piece])[..|pieces|] == pieces;
  }

  lemma NothingAdded(t: Text)
    ensures t + [] == t
  {
  }

  lemma CompleteOn(t: Text, pieces: seq<Piece>, slash: bool, u: Unit)
    requires IsSpelled(t, pieces, Complete(slash))
    ensures var (more, next) := Continued(Complete(slash), u); IsSpelled(t + [u], pieces + more, next)
  {
    var (more, next) := Continued(Complete(slash), u);
    var base := SpelledPieces(pieces);
    if slash {
      PieceSpelled(pieces, more[0]);
      Regroup(base, [BACKSLASH], [u]);
      assert [BACKSLASH] + [u] == SpelledSymbol(Slashed(u));
      NothingAdded(t + [u]);
    } else {
      NothingAdded(base);
      if more == [] {
        assert pieces + more == pieces;
        NothingAdded(t + [u]);
      } else {
        PieceSpelled(pieces, more[0]);
        NothingAdded(t + [u]);
      }
    }
  }

  lemma {:induction false} SymbolSpelled(cs: seq<Symbol>, c: Symbol)
    ensures Spelled(cs + [c]) == Spelled(cs) + SpelledSymbol(c)
  {
    assert (cs + [c])[..|cs|] == cs;
  }

  /** Behind a backslash any unit is one more symbol. */
  lemma SlashedOn(front: Text, inside: seq<Symbol>, u: Unit)
    ensures front + Spelled(inside) + [BACKSLASH] + [u] == front + Spelled(inside + [Slashed(u)]) + []
  {
    SymbolSpelled(inside, Slashed(u));
    Regroup(front + Spelled(inside), [BACKSLASH], [u]);
    assert [BACKSLASH] + [u] == SpelledSymbol(Slashed(u));
    Regroup(front, Spelled(inside), SpelledSymbol(Slashed(u)));
    NothingAdded(front + Spelled(inside + [Slashed(u)]));
  }

  lemma BareOn(front: Text, inside: seq<Symbol>, u: Unit)
    ensures front + Spelled(inside) + [] + [u] == front + Spelled(inside + [Bare(u)]) + []
  {
    SymbolSpelled(inside, Bare(u));
    NothingAdded(front + Spelled(inside));
    Regroup(front, Spelled(inside), [u]);
    NothingAdded(front + Spelled(inside + [Bare(u)]));
  }

  lemma QuotationEnds(pieces: seq<Piece>, quote: Unit, inside: seq<Symbol>)
    ensures SpelledPieces(pieces) + [quote] + Spelled(inside) + [] + [quote]
            == SpelledPieces(pieces + [Quotation(quote, inside)]) + []
  {
    PieceSpelled(pieces, Quotation(quote, inside));
    NothingAdded(SpelledPieces(pieces) + [quote] + Spelled(inside));
    Regroup(SpelledPieces(pieces), [quote], Spelled(inside));
    Regroup(SpelledPieces(pieces), [quote] + Spelled(inside), [quote]);
    NothingAdded(SpelledPieces(pieces + [Quotation(quote, inside)]));
  }

  lemma WithinOn(t: Text, pieces: seq<Piece>, quote: Unit, inside: seq<Symbol>, slash: bool, u: Unit)
    requires IsSpelled(t, pieces, Within(quote, inside, slash))
    ensures var (more, next) := Continued(Within(quote, inside, slash), u); IsSpelled(t + [u], pieces + more, next)
  {
    assert pieces + [] == pieces;
    if slash {
      SlashedOn(SpelledPieces(pieces) + [quote], inside, u);
    } else if u == BACKSLASH {
      NothingAdded(t);
    } else if u == quote {
      QuotationEnds(pieces, quote, inside);
    } else {
      BareOn(SpelledPieces(pieces) + [quote], inside, u);
    }
  }

  lemma SpelledOn(t: Text, pieces: seq<Piece>, ending: Ending, u: Unit)
    requires IsSpelled(t, pieces, ending)
    ensures var (more, next) := Continued(ending, u); IsSpelled(t + [u], pieces + more, next)
  {
    match ending
    case Complete(slash) => CompleteOn(t, pieces, slash, u);
    case Within(quote, inside, slash) => WithinOn(t, pieces, quote, inside, slash, u);
  }

  /** Every text has such a grammar. */
  lemma {:induction false} EveryTextIsSpelled(t: Text) returns (pieces: seq<Piece>, ending: Ending)
    ensures IsSpelled(t, pieces, ending)
    decreases |t|
  {
    if t == [] {
      pieces, ending := [], Complete(false);
    } else {
      var init := t[..|t| - 1];
      pieces, ending := EveryTextIsSpelled(init);
      SpelledOn(init, pieces, ending, t[|t| - 1]);
      var (more, next) := Continued(ending, t[|t| - 1]);
      assert t == init + [t[|t| - 1]];
      pieces, ending := pieces + more, next;
    }
  }

  // -------------------------------------------------------- specification

  /** Space at `p` belongs to the token: it is quoted or escaped. */
  predicate Shielded(input: Text, start: nat, p: nat)
    requires start <= p < |input|
  {
    IsSpace(input[p]) ==> ModeAt(input, start, p) != PLAIN
  }

  /** A token: it starts outside space, holds space only in quotes or after a
      backslash, and ends at the end of the input or at plain space. */
  ghost predicate IsToken(input: Text, token: Token) {
    && token.start < token.end <= |input|
    && !IsSpace(input[token.start])
    && (forall p :: token.start < p < token.end ==> Shielded(input, token.start, p))
    && (token.end < |input| ==> IsSpace(input[token.end]) && ModeAt(input, token.start, token.end) == PLAIN)
    && token.value == Decoded(input[token.start..token.end])
    && (token.closed <==> ModeAt(input, token.start, token.end).quote.None?)
  }

  predicate Inside(tokens: seq<Token>, p: nat) {
    exists k :: 0 <= k < |tokens| && tokens[k].start <= p < tokens[k].end
  }

  /** In order, and nothing but space between them, between `from` and `to`. */
  ghost predicate Layout(input: Text, from: nat, to: nat, tokens: seq<Token>) {
    && to <= |input|
    && (forall k :: 0 <= k < |tokens| ==> from <= tokens[k].start < tokens[k].end <= to)
    && (forall j, k :: 0 <= j < k < |tokens| ==> tokens[j].end <= tokens[k].start)
    && (forall p {:trigger Inside(tokens, p)} :: from <= p < to && !Inside(tokens, p) ==> IsSpace(input[p]))
  }

  ghost predicate AreTokens(input: Text, tokens: seq<Token>)
    decreases |tokens|
  {
    tokens == [] || (IsToken(input, tokens[0]) && AreTokens(input, tokens[1..]))
  }

  lemma {:induction false} TokenAt(input: Text, tokens: seq<Token>, k: nat)
    requires AreTokens(input, tokens) && k < |tokens|
    ensures IsToken(input, tokens[k])
    decreases k
  {
    if k > 0 {
      TokenAt(input, tokens[1..], k - 1);
    }
  }

  lemma {:induction false} TokensAppend(input: Text, tokens: seq<Token>, token: Token)
    requires AreTokens(input, tokens) && IsToken(input, token)
    ensures AreTokens(input, tokens + [token])
    decreases |tokens|
  {
    if tokens != [] {
      assert (tokens + [token])[1..] == tokens[1..] + [token];
      TokensAppend(input, tokens[1..], token);
    } else {
      assert (tokens + [token])[1..] == [];
    }
  }

  /** The tokens of the input from a position on. */
  ghost predicate Tokenizes(input: Text, from: nat, tokens: seq<Token>) {
    Layout(input, from, |input|, tokens) && AreTokens(input, tokens)
  }

  lemma NotShorter(input: Text, a: Token, b: Token)
    requires IsToken(input, a) && IsToken(input, b) && a.start == b.start
    ensures a.end >= b.end
  {
    assert a.start < a.end < b.end ==> Shielded(input, b.start, a.end);
  }

  lemma SameEnd(input: Text, a: Token, b: Token)
    requires IsToken(input, a) && IsToken(input, b) && a.start == b.start
    ensures a == b
  {
    NotShorter(input, a, b);
    NotShorter(input, b, a);
  }

  lemma FirstStart(input: Text, from: nat, a: seq<Token>, b: seq<Token>)
    requires Layout(input, from, |input|, a) && Layout(input, from, |input|, b) && a != []
    requires !IsSpace(input[a[0].start])
    ensures b != [] && b[0].start <= a[0].start
  {
    assert Inside(b, a[0].start);
    var k :| 0 <= k < |b| && b[k].start <= a[0].start < b[k].end;
  }

  lemma LayoutTail(input: Text, from: nat, tokens: seq<Token>)
    requires Layout(input, from, |input|, tokens) && tokens != []
    ensures Layout(input, tokens[0].end, |input|, tokens[1..])
  {
    forall p | tokens[0].end <= p < |input| && !IsSpace(input[p])
      ensures Inside(tokens[1..], p)
    {
      assert Inside(tokens, p);
      var k :| 0 <= k < |tokens| && tokens[k].start <= p < tokens[k].end;
      assert tokens[1..][k - 1] == tokens[k];
    }
  }

  lemma FirstSame(input: Text, from: nat, a: seq<Token>, b: seq<Token>)
    requires Tokenizes(input, from, a) && Tokenizes(input, from, b) && a != []
    ensures b != [] && a[0] == b[0]
  {
    assert IsToken(input, a[0]);
    FirstStart(input, from, a, b);
    assert IsToken(input, b[0]);
    FirstStart(input, from, b, a);
    SameEnd(input, a[0], b[0]);
  }

  lemma NoTokens(input: Text, from: nat, tokens: seq<Token>)
    requires Tokenizes(input, from, []) && Tokenizes(input, from, tokens)
    ensures tokens == []
  {
    forall p | from <= p < |input|
      ensures IsSpace(input[p])
    {
      assert !Inside([], p);
    }
    assert |tokens| > 0 ==> IsToken(input, tokens[0]);
  }

  /** An input is cut into tokens in one way only. */
  lemma {:induction false} OneTokenization(input: Text, from: nat, a: seq<Token>, b: seq<Token>)
    requires Tokenizes(input, from, a) && Tokenizes(input, from, b)
    ensures a == b
    decreases |a|
  {
    if a == [] {
      NoTokens(input, from, b);
    } else {
      FirstSame(input, from, a, b);
      LayoutTail(input, from, a);
      LayoutTail(input, from, b);
      OneTokenization(input, a[0].end, a[1..], b[1..]);
      assert a == [a[0]] + a[1..] && b == [b[0]] + b[1..];
    }
  }

  // --------------------------------------------------------------- lexing

  lemma LayoutAdds(input: Text, from: nat, tokens: seq<Token>, token: Token)
    requires Layout(input, from, token.start, tokens) && from <= token.start < token.end <= |input|
    ensures Layout(input, from, token.end, tokens + [token])
  {
    var more := tokens + [token];
    assert more[|tokens|] == token;
    forall p | from <= p < token.end && !IsSpace(input[p])
      ensures Inside(more, p)
    {
      if p < token.start {
        assert Inside(tokens, p);
        var k :| 0 <= k < |tokens| && tokens[k].start <= p < tokens[k].end;
        assert more[k] == tokens[k];
      }
    }
  }

  /** A token that started at `start` and is not complete at `i`. */
  ghost predicate Open(input: Text, start: nat, i: nat, mode: Mode) {
    && start <= i <= |input| && start < |input|
    && !IsSpace(input[start]) && mode == ModeAt(input, start, i)
    && forall p :: start < p < i ==> Shielded(input, start, p)
  }

  lemma OpenStarts(input: Text, start: nat)
    requires start < |input| && !IsSpace(input[start])
    ensures Open(input, start, start, PLAIN)
  {
  }

  lemma OpenGrows(input: Text, start: nat, i: nat, mode: Mode)
    requires Open(input, start, i, mode) && i < |input|
    requires !IsSpace(input[i]) || mode != PLAIN
    ensures Open(input, start, i + 1, Step(mode, input[i]))
  {
  }

  /** Ends the token that is open. */
  method Push(input: Text, tokens: seq<Token>, start: nat, end: nat, ghost mode: Mode)
    returns (more: seq<Token>)
    requires Layout(input, 0, start, tokens) && AreTokens(input, tokens)
    requires Open(input, start, end, mode) && start < end
    requires end < |input| ==> IsSpace(input[end]) && mode == PLAIN
    ensures Layout(input, 0, end, more) && AreTokens(input, more)
  {
    var value, closed := DecodeToken(input[start..end]);
    var token := Token(value, start, end, closed);
    SliceAgrees(input, start, end, end - start);
    assert IsToken(input, token);
    LayoutAdds(input, 0, tokens, token);
    TokensAppend(input, tokens, token);
    more := tokens + [token];
  }

  /** Cuts the input into its tokens. */
  method LexCommand(input: Text) returns (tokens: seq<Token>)
    ensures Tokenizes(input, 0, tokens)
  {
    tokens := [];
    var start: int := -1;
    var quote: Option<Unit> := None;
    var escaping := false;
    var i := 0;
    while i < |input|
      invariant 0 <= i <= |input| && AreTokens(input, tokens)
      invariant start < 0 ==> Layout(input, 0, i, tokens) && Mode(quote, escaping) == PLAIN
      invariant start >= 0 ==>
        start < i && Layout(input, 0, start, tokens) && Open(input, start, i, Mode(quote, escaping))
    {
      var index := i;
      var unit := input[index];
      i := i + 1;
      if start < 0 && !IsSpace(unit) {
        start := index;
        OpenStarts(input, start);
      }
      if start < 0 { continue; }
      if !IsSpace(unit) || Mode(quote, escaping) != PLAIN {
        OpenGrows(input, start, index, Mode(quote, escaping));
      }
      if escaping {
        escaping := false;
        continue;
      }
      if unit == BACKSLASH {
        escaping := true;
        continue;
      }
      if quote.Some? {
        if unit == quote.value { quote := None; }
        continue;
      }
      if IsQuote(unit) {
        quote := Some(unit);
        continue;
      }
      if IsSpace(unit) {
        tokens := Push(input, tokens, start, index, PLAIN);
        start := -1;
      }
    }
    if start >= 0 {
      tokens := Push(input, tokens, start, |input|, Mode(quote, escaping));
    }
  }

  /** Every token but the last closes its quotes, reaches plain mode, and is
      followed by space. */
  lemma OnlyLastIsOpen(input: Text, tokens: seq<Token>, k: nat)
    requires Tokenizes(input, 0, tokens) && k < |tokens| - 1
    ensures tokens[k].closed && ModeAt(input, tokens[k].start, tokens[k].end) == PLAIN
    ensures tokens[k].end < tokens[k + 1].start
  {
    TokenAt(input, tokens, k);
    TokenAt(input, tokens, k + 1);
  }

  // ----------------------------------------------------------- round trip

  predicate NeedsEscape(u: Unit) {
    IsSpace(u) || IsQuote(u) || u == BACKSLASH
  }

  /** Backslash escapes where they are needed, and for the units in `extra`,
      in the first `n` units. */
  function EscapedUnits(s: Text, n: nat, extra: set<Unit>): Text
    requires n <= |s|
  {
    if n == 0 then []
    else
      EscapedUnits(s, n - 1, extra)
      + if NeedsEscape(s[n - 1]) || s[n - 1] in extra then [BACKSLASH, s[n - 1]] else [s[n - 1]]
  }

  function Rendered(s: Text, extra: set<Unit>): Text {
    if s == [] then [QUOTE] + s + [QUOTE] else EscapedUnits(s, |s|, extra)
  }

  function Joined(texts: seq<Text>): Text {
    if texts == [] then []
    else if |texts| == 1 then texts[0]
    else texts[0] + [SPACE] + Joined(texts[1..])
  }

  /** Whole by itself: plain at the end, and no space in plain mode. */
  predicate Whole(t: Text) {
    && ModeAt(t, 0, |t|) == PLAIN
    && forall p :: 0 <= p < |t| ==> Shielded(t, 0, p)
  }

  lemma {:induction false} PrefixContributes(t: Text, more: Text, i: nat)
    requires i <= |t|
    ensures ModeAt(t + more, 0, i) == ModeAt(t, 0, i)
    ensures Contribution(t + more, i) == Contribution(t, i)
    decreases i
  {
    if i > 0 {
      PrefixContributes(t, more, i - 1);
    }
  }

  /** Appending units that take a whole text from plain mode to plain mode. */
  lemma WholePlus(t: Text, more: Text, u: Unit)
    requires Whole(t)
    requires (more == [u] && !NeedsEscape(u)) || more == [BACKSLASH, u]
    ensures Whole(t + more) && Contribution(t + more, |t + more|) == Contribution(t, |t|) + [u]
  {
    var all := t + more;
    PrefixContributes(t, more, |t|);
    assert all[|t|] == more[0];
    if |more| == 2 {
      assert all[|t| + 1] == u;
      assert ModeAt(all, 0, |t| + 1) == Mode(None, true);
      assert Contribution(all, |t| + 1) == Contribution(t, |t|);
    }
    forall p | 0 <= p < |all|
      ensures Shielded(all, 0, p)
    {
      if p < |t| {
        PrefixContributes(t, more, p);
        assert Shielded(t, 0, p);
      }
    }
  }

  /** A text without open quote or escape, and what it is decoded to. */
  ghost predicate DecodesTo(t: Text, value: Text) {
    Whole(t) && Contribution(t, |t|) == value && (|value| > 0 ==> |t| > 0 && !IsSpace(t[0]))
  }

  lemma DecodesPlus(t: Text, value: Text, more: Text, u: Unit)
    requires DecodesTo(t, value) && (|value| == 0 ==> |t| == 0)
    requires (more == [u] && !NeedsEscape(u)) || more == [BACKSLASH, u]
    ensures DecodesTo(t + more, value + [u])
  {
    WholePlus(t, more, u);
    assert (t + more)[0] == if |t| > 0 then t[0] else more[0];
  }

  lemma {:induction false} EscapedUnitsDecode(s: Text, n: nat, extra: set<Unit>)
    requires n <= |s|
    ensures DecodesTo(EscapedUnits(s, n, extra), s[..n])
    decreases n
  {
    if n > 0 {
      var u := s[n - 1];
      EscapedUnitsDecode(s, n - 1, extra);
      DecodesPlus(EscapedUnits(s, n - 1, extra), s[..n - 1],
                  if NeedsEscape(u) || u in extra then [BACKSLASH, u] else [u], u);
      assert s[..n] == s[..n - 1] + [u];
    }
  }

  /** A text that stands for the string, as a token of its own. */
  predicate Renders(t: Text, s: Text) {
    Whole(t) && Decoded(t) == s && t != [] && !IsSpace(t[0])
  }

  lemma QuotesDecode(t: Text)
    requires |t| == 2 && t[0] == t[1] == QUOTE
    ensures Renders(t, [])
  {
    assert ModeAt(t, 0, 1) == Mode(Some(QUOTE), false);
    assert Contribution(t, 1) == [];
  }

  lemma RenderedDecodes(s: Text, extra: set<Unit>)
    ensures Renders(Rendered(s, extra), s)
  {
    if s == [] {
      QuotesDecode(Rendered(s, extra));
    } else {
      EscapedUnitsDecode(s, |s|, extra);
      assert s[..|s|] == s;
    }
  }

  lemma WholeIsToken(input: Text, start: nat, t: Text)
    requires start + |t| <= |input| && input[start..start + |t|] == t
    requires Whole(t) && t != [] && !IsSpace(t[0])
    requires start + |t| < |input| ==> IsSpace(input[start + |t|])
    ensures IsToken(input, Token(Decoded(t), start, start + |t|, true))
  {
    SliceAgrees(input, start, start + |t|, |t|);
    forall p | start < p < start + |t|
      ensures Shielded(input, start, p)
    {
      SliceAgrees(input, start, start + |t|, p - start);
      assert t[p - start] == input[p] && Shielded(t, 0, p - start);
    }
  }

  lemma LayoutPrepends(input: Text, token: Token, next: nat, tokens: seq<Token>)
    requires token.start < token.end <= next <= |input|
    requires next == token.end || (next == token.end + 1 && IsSpace(input[token.end]))
    requires Layout(input, next, |input|, tokens)
    ensures Layout(input, token.start, |input|, [token] + tokens)
  {
    var all := [token] + tokens;
    forall p | token.start <= p < |input| && !IsSpace(input[p])
      ensures Inside(all, p)
    {
      if p < token.end {
        assert all[0] == token;
      } else {
        assert Inside(tokens, p);
        var k :| 0 <= k < |tokens| && tokens[k].start <= p < tokens[k].end;
        assert all[k + 1] == tokens[k];
      }
    }
  }

  lemma TokenizesPrepends(input: Text, token: Token, next: nat, tokens: seq<Token>)
    requires IsToken(input, token) && next <= |input|
    requires next == token.end || (next == token.end + 1 && IsSpace(input[token.end]))
    requires Tokenizes(input, next, tokens)
    ensures Tokenizes(input, token.start, [token] + tokens)
  {
    LayoutPrepends(input, token, next, tokens);
    assert ([token] + tokens)[1..] == tokens;
  }

  lemma TextIsToken(input: Text, from: nat, t: Text, s: Text, after: Text)
    requires Renders(t, s) && from <= |input| && input[from..] == t + after
    requires after != [] ==> after[0] == SPACE
    ensures var end := from + |t|;
            && IsToken(input, Token(s, from, end, true)) && input[end..] == after
            && (after != [] ==> input[end] == SPACE)
  {
    assert input[from..from + |t|] == input[from..][..|t|] == t;
    assert input[from + |t|..] == input[from..][|t|..] == after;
    WholeIsToken(input, from, t);
  }

  /** The tokens a joined list of texts is cut into. */
  function TokensOf(from: nat, texts: seq<Text>, list: seq<Text>): (tokens: seq<Token>)
    requires |texts| == |list|
    ensures |tokens| == |list|
    ensures forall k :: 0 <= k < |list| ==> tokens[k].value == list[k] && tokens[k].closed
    decreases |list|
  {
    if list == [] then []
    else
      [Token(list[0], from, from + |texts[0]|, true)] + TokensOf(from + |texts[0]| + 1, texts[1..], list[1..])
  }

  lemma NothingLeft(input: Text)
    ensures Tokenizes(input, |input|, [])
  {
  }

  lemma LastText(input: Text, from: nat, t: Text, s: Text)
    requires Renders(t, s) && from <= |input| && input[from..] == t
    ensures Tokenizes(input, from, [Token(s, from, |input|, true)])
  {
    assert t + [] == t;
    TextIsToken(input, from, t, s, []);
    var token := Token(s, from, |input|, true);
    NothingLeft(input);
    TokenizesPrepends(input, token, |input|, []);
    assert [token] + [] == [token];
  }

  lemma FirstText(input: Text, from: nat, t: Text, s: Text, rest: Text)
    requires Renders(t, s) && from <= |input| && input[from..] == t + [SPACE] + rest
    ensures var end := from + |t|;
            && end < |input| && IsSpace(input[end]) && input[end + 1..] == rest
            && IsToken(input, Token(s, from, end, true))
  {
    var end := from + |t|;
    assert t + [SPACE] + rest == t + ([SPACE] + rest);
    TextIsToken(input, from, t, s, [SPACE] + rest);
    assert input[end + 1..] == input[end..][1..] == rest;
  }

  lemma {:induction false} JoinedTokens(input: Text, from: nat, texts: seq<Text>, list: seq<Text>)
    requires |texts| == |list| && forall k :: 0 <= k < |list| ==> Renders(texts[k], list[k])
    requires from <= |input| && input[from..] == Joined(texts)
    ensures Tokenizes(input, from, TokensOf(from, texts, list))
    decreases |list|
  {
    if list == [] {
      NothingLeft(input);
    } else if |list| == 1 {
      LastText(input, from, texts[0], list[0]);
      assert TokensOf(from, texts, list) == [Token(list[0], from, |input|, true)];
    } else {
      var end := from + |texts[0]|;
      FirstText(input, from, texts[0], list[0], Joined(texts[1..]));
      JoinedTokens(input, end + 1, texts[1..], list[1..]);
      TokenizesPrepends(input, Token(list[0], from, end, true), end + 1,
                        TokensOf(end + 1, texts[1..], list[1..]));
    }
  }

  function RenderedAll(list: seq<Text>, extra: set<Unit>): (texts: seq<Text>)
    ensures |texts| == |list|
    ensures forall k :: 0 <= k < |list| ==> texts[k] == Rendered(list[k], extra)
  {
    if list == [] then [] else [Rendered(list[0], extra)] + RenderedAll(list[1..], extra)
  }

  /** Any list of strings, rendered with backslash escapes (and `""` for the
      empty string) and joined by spaces, is lexed back to that list. */
  lemma LexingInvertsRendering(list: seq<Text>, extra: set<Unit>, tokens: seq<Token>)
    requires Tokenizes(Joined(RenderedAll(list, extra)), 0, tokens)
    ensures |tokens| == |list|
    ensures forall k :: 0 <= k < |list| ==> tokens[k].value == list[k] && tokens[k].closed
  {
    var texts := RenderedAll(list, extra);
    var input := Joined(texts);
    forall k | 0 <= k < |list|
      ensures Renders(texts[k], list[k])
    {
      RenderedDecodes(list[k], extra);
    }
    assert input[0..] == input;
    JoinedTokens(input, 0, texts, list);
    OneTokenization(input, 0, tokens, TokensOf(0, texts, list));
  }
}
