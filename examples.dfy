/**
 * Worked examples: facts proved on small inputs to the lexer and parser
 * specifications, showing the behaviour the general lemmas describe.
 */
module Examples {
  import opened Wrappers
  import opened Tokens
  import opened Lexer
  import opened Ast
  import opened Grammar

  /** A lone word lexes to exactly one classified token. */
  lemma LexWord(w: string)
    requires CleanWord(w)
    ensures Lex(w) == [ClassifyWord(w)]
  {
    ScanAfterWord(w, []);
    assert w + [] == w;
    ClassifyAllCons(Word(w), []);
    assert [Word(w)] + [] == [Word(w)];
  }

  /** A lone symbol character lexes to one SYM token spelling it. */
  lemma LexSymbol(c: char)
    requires IsSymbol(c)
    ensures Lex([c]) == [Token(Sym, Text([c]))]
  {
    assert [c][1..] == [];
  }

  /** A lone whitespace character lexes to nothing. */
  lemma LexSpace(c: char)
    requires IsSpace(c)
    ensures Lex([c]) == []
  {
    assert [c][1..] == [];
    assert Scan([c]) == [];
  }

  /** Leading zeros vanish: the NUM token keeps only the integer value. */
  lemma LeadingZeros()
    ensures Lex("007") == [Token(Num, Int(7))]
  {
    LexWord("007");
    assert "007"[..2] == "00" && "00"[..1] == "0" && "0"[..0] == "";
  }

  /**
   * The tokens of the program `main::i32{return 42;}`, written out by hand
   * from the lexing rules (one per word and symbol, none for the space); the
   * lemmas below start from this list, not from the text.
   */
  const ReturnTokens := [
      MainToken, Token(Sym, Text(":")), Token(Sym, Text(":")), Token(Type, Text("i32")),
      Token(Sym, Text("{")), ReturnToken, Token(Num, Int(42)), Token(Sym, Text(";")),
      Token(Sym, Text("}"))]

  /** The smallest complete program parses to a `main` function returning a number. */
  lemma ReturnLiteralParses()
    ensures ParseFunctionAt(ReturnTokens, 0) == Ok((Function(Some(MainToken), [Return(Number(Int(42), "NUM"))]), 9))
  {
    var t := ReturnTokens;
    assert ParseRetAt(t, 5) == Ok((Return(Number(Int(42), "NUM")), 8));
    assert ParseStatementAt(t, 5) == Ok((Return(Number(Int(42), "NUM")), 8));
    assert ParseBlockAt(t, 8) == Ok(([], 8));
    assert [Return(Number(Int(42), "NUM"))] + [] == [Return(Number(Int(42), "NUM"))];
    assert ParseBlockAt(t, 5) == Ok(([Return(Number(Int(42), "NUM"))], 8));
    assert t[0..5] == Header;
    HeaderPresent(t, 0);
    FunctionIsHeaderThenBlock(t, 0);
  }

  /**
   * A mismatched expectation is skipped, not reported: a header without
   * `::i32` parses just as well.
   */
  lemma ShortHeader()
    ensures ParseFunctionAt(ReturnTokens[..1] + ReturnTokens[4..], 0)
         == Ok((Function(Some(MainToken), [Return(Number(Int(42), "NUM"))]), 6))
  {
    var t := ReturnTokens[..1] + ReturnTokens[4..];
    assert t == [MainToken, Token(Sym, Text("{")), ReturnToken, Token(Num, Int(42)),
                 Token(Sym, Text(";")), Token(Sym, Text("}"))];
    assert ParseRetAt(t, 2) == Ok((Return(Number(Int(42), "NUM")), 5));
    assert ParseStatementAt(t, 2) == Ok((Return(Number(Int(42), "NUM")), 5));
    assert ParseBlockAt(t, 5) == Ok(([], 5));
    assert [Return(Number(Int(42), "NUM"))] + [] == [Return(Number(Int(42), "NUM"))];
    assert ParseBlockAt(t, 2) == Ok(([Return(Number(Int(42), "NUM"))], 5));
  }

  /** `x : = 5 ;` has no type: it is read to the end and then rejected. */
  lemma DeclWithoutType()
    ensures ParseDeclAt([Token(Var, Text("x")), Colon, Equals, Token(Num, Int(5)), Semicolon], 0) == Err(MissingType)
  {
    DeclLayout([Token(Var, Text("x")), Colon, Equals, Token(Num, Int(5)), Semicolon], 0);
  }

  /** `x i32 = 5 ;` lacks its `:`, which is skipped over. */
  lemma DeclWithoutColon()
    ensures ParseDeclAt([Token(Var, Text("x")), Token(Type, Text("i32")), Equals, Token(Num, Int(5)), Semicolon], 0)
         == Ok((VarDecl(Text("x"), Text("i32"), Number(Int(5), "NUM")), 5))
  {
    DeclLayout([Token(Var, Text("x")), Token(Type, Text("i32")), Equals, Token(Num, Int(5)), Semicolon], 0);
  }

  /** A body that never reaches `}` runs off the end of the tokens. */
  lemma UnclosedBody()
    ensures ParseFunctionAt(ReturnTokens[..8], 0) == Err(EndOfInput)
  {
    var t := ReturnTokens[..8];
    assert ParseRetAt(t, 5) == Ok((Return(Number(Int(42), "NUM")), 8));
    assert ParseStatementAt(t, 5) == Ok((Return(Number(Int(42), "NUM")), 8));
    assert ParseBlockAt(t, 8) == Err(EndOfInput);
    assert ParseBlockAt(t, 5) == Err(EndOfInput);
  }
}
