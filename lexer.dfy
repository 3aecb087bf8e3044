/**
  The lexer of main.py (`tokenize`). `Tokenize` is the one-pass scan with a
  word accumulator; it is proved equal to `Lex`, a reference definition that
  first cuts the input into maximal words and single symbols (`Scan`) and then
  classifies each piece (`Classify`).
*/
module Lexer {
  import opened Tokens

  /** A piece of the input before classification. */
  datatype Lexeme = Word(text: string) | Symbol(c: char)

  /** A word is non-empty and holds no symbol and no whitespace. */
  predicate CleanWord(w: string) {
    w != [] && forall i :: 0 <= i < |w| ==> !IsSeparator(w[i])
  }

  predicate WellFormedLexeme(l: Lexeme) {
    match l
    case Word(w) => CleanWord(w)
    case Symbol(c) => IsSymbol(c)
  }

  /** Length of the longest prefix of `s` free of separators. */
  function WordLength(s: string): (n: nat)
    ensures n <= |s|
    ensures forall i :: 0 <= i < n ==> !IsSeparator(s[i])
    ensures n < |s| ==> IsSeparator(s[n])
  {
    if s == [] || IsSeparator(s[0]) then 0 else 1 + WordLength(s[1..])
  }

  /**
    Maximal munch: a symbol stands alone, whitespace separates and is dropped,
    and every other run of characters is one word.
  */
  function Scan(s: string): seq<Lexeme>
    decreases |s|
  {
    if s == [] then []
    else if IsSymbol(s[0]) then [Symbol(s[0])] + Scan(s[1..])
    else if IsSpace(s[0]) then Scan(s[1..])
    else
      var n := WordLength(s);
      [Word(s[..n])] + Scan(s[n..])
  }

  /**
    The classification of a flushed word: NUM when all digits, else TYPE for a
    type name, else KEY for a keyword, else VAR. Only NUM changes the text.
  */
  function ClassifyWord(w: string): (t: Token)
    ensures t.kind != Sym
    ensures t.kind == Num <==> AllDigits(w)
    ensures t.kind == Type <==> !AllDigits(w) && IsTypeName(w)
    ensures t.kind == Key <==> !AllDigits(w) && !IsTypeName(w) && IsKeyword(w)
    ensures t.kind == Num ==> t.val == Int(DecimalValue(w))
    ensures t.kind != Num ==> t.val == Text(w)
  {
    if AllDigits(w) then Token(Num, Int(DecimalValue(w)))
    else if IsTypeName(w) then Token(Type, Text(w))
    else if IsKeyword(w) then Token(Key, Text(w))
    else Token(Var, Text(w))
  }

  function Classify(l: Lexeme): Token
  {
    match l
    case Word(w) => ClassifyWord(w)
    case Symbol(c) => Token(Sym, Text([c]))
  }

  function ClassifyAll(ls: seq<Lexeme>): seq<Token>
  {
    if ls == [] then [] else [Classify(ls[0])] + ClassifyAll(ls[1..])
  }

  /** The token sequence `tokenize` returns for `s`. */
  function Lex(s: string): seq<Token> {
    ClassifyAll(Scan(s))
  }

  /** What a token sequence produced by the lexer looks like, token by token. */
  predicate WellFormedToken(t: Token) {
    match t.kind
    case Sym => t.val.Text? && |t.val.s| == 1 && IsSymbol(t.val.s[0])
    case Num => t.val.Int?
    case _ => t.val.Text? && CleanWord(t.val.s) && !AllDigits(t.val.s)
  }

  // ---------------------------------------------------------------------------
  // The one-pass lexer

  /** `tokenize`: one scan, flushing the accumulator at symbols, whitespace and the end. */
  method Tokenize(input: string) returns (toks: seq<Token>)
    ensures toks == Lex(input)
  {
    toks := [];
    var current := "";
    assert current + input[0..] == input;
    for i := 0 to |input|
      invariant current == [] || CleanWord(current)
      invariant toks + Pending(current, input[i..]) == Lex(input)
    {
      assert input[i..] == [input[i]] + input[i + 1..];
      ReadStep(toks, current, input[i], input[i + 1..]);
      toks, current := Read(toks, current, input[i]);
    }
    FlushAtEnd(current);
    toks := Flush(toks, current);
  }

  /** The body of the scan for one character `ch`. */
  method Read(toks: seq<Token>, current: string, ch: char) returns (toks': seq<Token>, current': string)
    ensures IsSeparator(ch) ==> toks' == toks + Flushed(current) + SymbolPart(ch) && current' == []
    ensures !IsSeparator(ch) ==> toks' == toks && current' == current + [ch]
  {
    toks', current' := toks, current;
    if IsSymbol(ch) {
      toks' := Flush(toks', current');
      current' := "";
      toks' := toks' + [Token(Sym, Text([ch]))];
    } else if IsSpace(ch) {
      toks' := Flush(toks', current');
      current' := "";
    } else {
      current' := current' + [ch];
    }
  }

  function SymbolPart(ch: char): seq<Token> {
    if IsSymbol(ch) then [Token(Sym, Text([ch]))] else []
  }

  lemma ReadStep(toks: seq<Token>, current: string, ch: char, rest: string)
    requires current == [] || CleanWord(current)
    ensures IsSeparator(ch) ==> toks + Pending(current, [ch] + rest) == toks + Flushed(current) + SymbolPart(ch) + Pending([], rest)
    ensures !IsSeparator(ch) ==> CleanWord(current + [ch]) && Pending(current, [ch] + rest) == Pending(current + [ch], rest)
  {
    if IsSeparator(ch) {
      FlushAtSeparator(current, ch, rest);
      AppendAssoc(toks, Flushed(current), SymbolPart(ch), Pending([], rest));
    } else {
      WordCharStep(current, ch, rest);
    }
  }

  /** Reading a word character extends the pending word. */
  lemma WordCharStep(current: string, ch: char, rest: string)
    requires current == [] || CleanWord(current)
    requires !IsSeparator(ch)
    ensures CleanWord(current + [ch])
    ensures Pending(current, [ch] + rest) == Pending(current + [ch], rest)
  {
    assert current + ([ch] + rest) == (current + [ch]) + rest;
  }

  /** The flush block repeated at the three flush sites: classify a non-empty pending word. */
  method Flush(toks: seq<Token>, current: string) returns (toks': seq<Token>)
    ensures toks' == toks + Flushed(current)
  {
    toks' := toks;
    if current != [] {
      toks' := toks' + [ClassifyWord(current)];
    }
  }

  /** The tokens still to come while `current` is pending and `rest` is unread. */
  function Pending(current: string, rest: string): seq<Token> {
    ClassifyAll(Scan(current + rest))
  }

  /** The tokens a pending word yields when it is flushed: none when it is empty. */
  function Flushed(current: string): seq<Token> {
    if current == [] then [] else [ClassifyWord(current)]
  }

  // ---------------------------------------------------------------------------
  // Lemmas

  /** Flushing at a separator: the pending word, then the symbol if it is one, then the rest. */
  lemma FlushAtSeparator(current: string, ch: char, rest: string)
    requires current == [] || CleanWord(current)
    requires IsSeparator(ch)
    ensures Pending(current, [ch] + rest)
         == Flushed(current) + SymbolPart(ch) + Pending([], rest)
  {
    LexSeparator(ch, rest);
    if current == [] {
      assert current + ([ch] + rest) == [ch] + rest;
    } else {
      ScanAfterWord(current, [ch] + rest);
      ClassifyAllCons(Word(current), Scan([ch] + rest));
    }
  }

  /** A separator contributes its symbol token, if any, ahead of the tokens of the rest. */
  lemma LexSeparator(ch: char, rest: string)
    requires IsSeparator(ch)
    ensures ClassifyAll(Scan([ch] + rest)) == SymbolPart(ch) + Pending([], rest)
  {
    assert ([ch] + rest)[1..] == rest;
    assert [] + rest == rest;
    ScanSeparator([ch] + rest);
    ClassifyAllAppend(SeparatorPart(ch), Scan(rest));
    assert ClassifyAll(SeparatorPart(ch)) == SymbolPart(ch);
  }

  lemma ClassifyAllCons(l: Lexeme, ls: seq<Lexeme>)
    ensures ClassifyAll([l] + ls) == [Classify(l)] + ClassifyAll(ls)
  {
    assert ([l] + ls)[1..] == ls;
  }

  /** Flushing at the end of the input. */
  lemma FlushAtEnd(current: string)
    requires current == [] || CleanWord(current)
    ensures Pending(current, []) == Flushed(current)
  {
    assert current + [] == current;
    if current != [] {
      ScanAfterWord(current, []);
      assert Scan(current + []) == [Word(current)] + [];
      ClassifyAllCons(Word(current), []);
    }
  }

  lemma AppendAssoc<T>(a: seq<T>, b: seq<T>, c: seq<T>, d: seq<T>)
    ensures a + b + c + d == a + (b + c + d)
  {
  }

  /** A pending word followed by a separator (or nothing) is scanned as one word. */
  lemma {:induction false} ScanAfterWord(w: string, rest: string)
    requires CleanWord(w)
    requires rest == [] || IsSeparator(rest[0])
    ensures Scan(w + rest) == [Word(w)] + Scan(rest)
  {
    WordLengthAfterWord(w, rest);
    assert (w + rest)[..|w|] == w;
    assert (w + rest)[|w|..] == rest;
  }

  lemma {:induction false} WordLengthAfterWord(w: string, rest: string)
    requires forall i :: 0 <= i < |w| ==> !IsSeparator(w[i])
    requires rest == [] || IsSeparator(rest[0])
    ensures WordLength(w + rest) == |w|
  {
    if w == [] {
      assert w + rest == rest;
    } else {
      assert (w + rest)[1..] == w[1..] + rest;
      WordLengthAfterWord(w[1..], rest);
    }
  }

  // ---------------------------------------------------------------------------
  // Properties of the lexer

  /** The characters of `s` that satisfy `p`, in order. */
  function Filter<T>(s: seq<T>, p: T -> bool): (r: seq<T>)
    ensures |r| <= |s|
  {
    if s == [] then [] else (if p(s[0]) then [s[0]] else []) + Filter(s[1..], p)
  }

  predicate NotSpace(c: char) {
    !IsSpace(c)
  }

  /** The text a lexeme was cut from. */
  function LexemeText(l: Lexeme): string {
    match l
    case Word(w) => w
    case Symbol(c) => [c]
  }

  /** The lexemes' texts, concatenated in order. */
  function Spelling(ls: seq<Lexeme>): string {
    if ls == [] then [] else LexemeText(ls[0]) + Spelling(ls[1..])
  }

  /** The characters of the SYM tokens, in order. */
  function SymbolsOf(toks: seq<Token>): string {
    if toks == [] then []
    else (if toks[0].kind == Sym && toks[0].val.Text? then toks[0].val.s else []) + SymbolsOf(toks[1..])
  }

  lemma {:induction false} FilterAppend<T>(a: seq<T>, b: seq<T>, p: T -> bool)
    ensures Filter(a + b, p) == Filter(a, p) + Filter(b, p)
  {
    if a == [] {
      assert a + b == b;
    } else {
      var head := if p(a[0]) then [a[0]] else [];
      assert (a + b)[0] == a[0];
      assert (a + b)[1..] == a[1..] + b;
      FilterAppend(a[1..], b, p);
      calc {
        Filter(a + b, p);
        head + Filter(a[1..] + b, p);
        head + (Filter(a[1..], p) + Filter(b, p));
        (head + Filter(a[1..], p)) + Filter(b, p);
      }
    }
  }

  /** Filtering keeps everything when every element passes and nothing when none does. */
  lemma {:induction false} FilterAllOrNone<T>(s: seq<T>, p: T -> bool)
    ensures (forall i :: 0 <= i < |s| ==> p(s[i])) ==> Filter(s, p) == s
    ensures (forall i :: 0 <= i < |s| ==> !p(s[i])) ==> Filter(s, p) == []
  {
    if s != [] {
      FilterAllOrNone(s[1..], p);
      assert forall i :: 0 <= i < |s| - 1 ==> s[1..][i] == s[i + 1];
    }
  }

  /** Every word the scan cuts is non-empty and free of symbols and whitespace. */
  lemma {:induction false} ScanWellFormed(s: string)
    ensures forall i :: 0 <= i < |Scan(s)| ==> WellFormedLexeme(Scan(s)[i])
    decreases |s|
  {
    if s == [] {
    } else if IsSymbol(s[0]) {
      ScanWellFormed(s[1..]);
    } else if IsSpace(s[0]) {
      ScanWellFormed(s[1..]);
    } else {
      var n := WordLength(s);
      ScanWellFormed(s[n..]);
      assert CleanWord(s[..n]);
    }
  }

  /** Classification works lexeme by lexeme: the i-th token is the i-th lexeme classified. */
  lemma {:induction false} ClassifyAllPointwise(ls: seq<Lexeme>)
    ensures |ClassifyAll(ls)| == |ls|
    ensures forall i :: 0 <= i < |ls| ==> ClassifyAll(ls)[i] == Classify(ls[i])
  {
    if ls != [] {
      ClassifyAllPointwise(ls[1..]);
    }
  }

  /**
    Every token of `Lex(s)` comes from the lexeme at the same place: a SYM token
    holds one symbol character, a NUM token an integer, and every other token a
    clean word that is not all digits.
  */
  lemma {:induction false} LexWellFormed(s: string)
    ensures |Lex(s)| == |Scan(s)|
    ensures forall i :: 0 <= i < |Lex(s)| ==> Lex(s)[i] == Classify(Scan(s)[i]) && WellFormedToken(Lex(s)[i])
  {
    ScanWellFormed(s);
    ClassifyAllPointwise(Scan(s));
  }

  /**
    Order and content: concatenating the lexemes gives back the input without its
    whitespace, so nothing is dropped, duplicated or reordered.
  */
  lemma {:induction false} ScanSpelling(s: string)
    ensures Spelling(Scan(s)) == Filter(s, NotSpace)
    decreases |s|
  {
    if s == [] {
    } else {
      assert s == [s[0]] + s[1..];
      FilterAppend([s[0]], s[1..], NotSpace);
      if IsSymbol(s[0]) {
        ScanSpelling(s[1..]);
        assert Scan(s)[1..] == Scan(s[1..]);
      } else if IsSpace(s[0]) {
        ScanSpelling(s[1..]);
      } else {
        var n := WordLength(s);
        assert s == s[..n] + s[n..];
        FilterAppend(s[..n], s[n..], NotSpace);
        FilterAllOrNone(s[..n], NotSpace);
        ScanSpelling(s[n..]);
        assert Scan(s)[1..] == Scan(s[n..]);
      }
    }
  }

  /**
    Each symbol of the input yields one SYM token carrying it, in input order:
    the SYM tokens' characters are exactly the input's symbol characters.
  */
  lemma {:induction false} LexSymbols(s: string)
    ensures SymbolsOf(Lex(s)) == Filter(s, IsSymbol)
    decreases |s|
  {
    if s == [] {
    } else {
      assert s == [s[0]] + s[1..];
      FilterAppend([s[0]], s[1..], IsSymbol);
      if IsSymbol(s[0]) {
        LexSymbols(s[1..]);
        ClassifyAllCons(Symbol(s[0]), Scan(s[1..]));
        assert Lex(s)[1..] == Lex(s[1..]);
      } else if IsSpace(s[0]) {
        LexSymbols(s[1..]);
      } else {
        var n := WordLength(s);
        assert s == s[..n] + s[n..];
        FilterAppend(s[..n], s[n..], IsSymbol);
        FilterAllOrNone(s[..n], IsSymbol);
        LexSymbols(s[n..]);
        ClassifyAllCons(Word(s[..n]), Scan(s[n..]));
        assert Lex(s)[1..] == Lex(s[n..]);
      }
    }
  }

  /** A NUM token keeps the number, not the spelling: leading zeros are lost. */
  lemma {:induction false} LeadingZeroLost(w: string)
    requires forall i :: 0 <= i < |w| ==> IsDigit(w[i])
    ensures DecimalValue(['0'] + w) == DecimalValue(w)
    decreases |w|
  {
    if w != [] {
      var w' := w[..|w| - 1];
      assert (['0'] + w)[..|w|] == ['0'] + w';
      LeadingZeroLost(w');
    }
  }

  /** A word cut short by a separator inside `a` is not lengthened by what follows `a`. */
  lemma {:induction false} WordLengthPrefix(a: string, b: string)
    requires WordLength(a) < |a|
    ensures WordLength(a + b) == WordLength(a)
  {
    assert (a + b)[0] == a[0];
    if !IsSeparator(a[0]) {
      assert (a + b)[1..] == a[1..] + b;
      WordLengthPrefix(a[1..], b);
    }
  }

  /** Where a separator stands between two texts, they are scanned independently. */
  lemma {:induction false} ScanAppend(a: string, b: string)
    requires a == [] || b == [] || IsSeparator(a[|a| - 1]) || IsSeparator(b[0])
    ensures Scan(a + b) == Scan(a) + Scan(b)
    decreases |a|
  {
    if a == [] {
      assert a + b == b;
    } else if IsSeparator(a[0]) {
      assert a[1..] == [] || a[1..][|a[1..]| - 1] == a[|a| - 1];
      ScanAppend(a[1..], b);
      ScanAppendAtSeparator(a, b);
    } else if WordLength(a) < |a| {
      var n := WordLength(a);
      assert a[n..][|a[n..]| - 1] == a[|a| - 1];
      ScanAppend(a[n..], b);
      ScanAppendAfterWord(a, b);
    } else {
      assert CleanWord(a);
      ScanAfterWord(a, b);
      ScanAfterWord(a, []);
      assert a + [] == a;
    }
  }

  /** The separator step of `ScanAppend`: a leading separator is scanned alike in `a` and `a + b`. */
  lemma ScanAppendAtSeparator(a: string, b: string)
    requires a != [] && IsSeparator(a[0])
    requires Scan(a[1..] + b) == Scan(a[1..]) + Scan(b)
    ensures Scan(a + b) == Scan(a) + Scan(b)
  {
    ScanSeparator(a);
    ScanSeparatorThen(a, b);
    Rejoin(SeparatorPart(a[0]), Scan(a[1..]), Scan(a[1..] + b), Scan(b));
  }

  /** Scanning `a + b` where `a` starts with a separator. */
  lemma ScanSeparatorThen(a: string, b: string)
    requires a != [] && IsSeparator(a[0])
    ensures Scan(a + b) == SeparatorPart(a[0]) + Scan(a[1..] + b)
  {
    assert (a + b)[0] == a[0] && (a + b)[1..] == a[1..] + b;
    ScanSeparator(a + b);
  }

  /** The lexemes a separator character contributes: itself if a symbol, nothing if whitespace. */
  function SeparatorPart(c: char): seq<Lexeme> {
    if IsSymbol(c) then [Symbol(c)] else []
  }

  lemma ScanSeparator(s: string)
    requires s != [] && IsSeparator(s[0])
    ensures Scan(s) == SeparatorPart(s[0]) + Scan(s[1..])
  {
  }

  /** The word step of `ScanAppend`: a word that ends inside `a` is scanned alike in `a` and `a + b`. */
  lemma ScanAppendAfterWord(a: string, b: string)
    requires a != [] && !IsSeparator(a[0]) && WordLength(a) < |a|
    requires Scan(a[WordLength(a)..] + b) == Scan(a[WordLength(a)..]) + Scan(b)
    ensures Scan(a + b) == Scan(a) + Scan(b)
  {
    var n := WordLength(a);
    ScanWord(a);
    ScanWordThen(a, b);
    Rejoin([Word(a[..n])], Scan(a[n..]), Scan(a[n..] + b), Scan(b));
  }

  /** Scanning `a + b` where the first word of `a` ends inside `a`. */
  lemma ScanWordThen(a: string, b: string)
    requires a != [] && !IsSeparator(a[0]) && WordLength(a) < |a|
    ensures Scan(a + b) == [Word(a[..WordLength(a)])] + Scan(a[WordLength(a)..] + b)
  {
    var n := WordLength(a);
    WordLengthPrefix(a, b);
    assert (a + b)[..n] == a[..n] && (a + b)[n..] == a[n..] + b;
    ScanWord(a + b);
  }

  lemma Rejoin<T>(h: seq<T>, x: seq<T>, xy: seq<T>, y: seq<T>)
    requires xy == x + y
    ensures h + xy == (h + x) + y
  {
  }

  lemma ScanWord(s: string)
    requires s != [] && !IsSeparator(s[0])
    ensures Scan(s) == [Word(s[..WordLength(s)])] + Scan(s[WordLength(s)..])
  {
  }

  lemma {:induction false} ClassifyAllAppend(a: seq<Lexeme>, b: seq<Lexeme>)
    ensures ClassifyAll(a + b) == ClassifyAll(a) + ClassifyAll(b)
  {
    if a == [] {
      assert a + b == b;
    } else {
      assert (a + b)[0] == a[0] && (a + b)[1..] == a[1..] + b;
      ClassifyAllAppend(a[1..], b);
    }
  }

  /** Lexing is compositional: texts split at a separator are lexed independently. */
  lemma LexAppend(a: string, b: string)
    requires a == [] || b == [] || IsSeparator(a[|a| - 1]) || IsSeparator(b[0])
    ensures Lex(a + b) == Lex(a) + Lex(b)
  {
    ScanAppend(a, b);
    ClassifyAllAppend(Scan(a), Scan(b));
  }
}
