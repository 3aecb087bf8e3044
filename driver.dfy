/**
  The front end as a whole (`parse_file`): tokenize the file's text, stop with
  a diagnostic when there is no entry point, else parse one function from the
  first token.
*/
module Driver {
  import opened Wrappers
  import opened Tokens
  import opened Lexer
  import opened Entry
  import opened Ast
  import opened Grammar
  import opened Parsing

  /**
    How `parse_file` ends: `exit(1)` after the entry diagnostic, an uncaught
    exception while parsing, or the syntax tree.
  */
  datatype Outcome =
    | Exit(diagnostic: Diagnostic)
    | Crash(error: ParseError)
    | Compiled(ast: Function)

  /** `parse_file` on the text `content` of the file at `path` (reading the file is left out). */
  method ParseFile(path: string, content: string) returns (r: Outcome)
    ensures r.Exit? <==> MainToken !in Lex(content)
    ensures r.Exit? ==> r.diagnostic == Diagnostic(path, 0, "Could not find entry point main")
    ensures !r.Exit? ==> (r.Crash? <==> ParseFunctionAt(Lex(content), 0).Err?)
    ensures r.Crash? ==> r.error == ParseFunctionAt(Lex(content), 0).error
    ensures r.Compiled? ==>
              && r.ast == ParseFunctionAt(Lex(content), 0).value.0
              && (r.ast.name == Some(MainToken) <==> Lex(content)[0] == MainToken)
  {
    var toks := Tokenize(content);
    var check := FindEntry(toks, path);
    if check.Missing? {
      return Exit(check.diagnostic);
    }
    var parser := new Parser(toks);
    var ast := parser.ParseFunction();
    if ast.Err? {
      return Crash(ast.error);
    }
    return Compiled(ast.value);
  }

  /**
    On the lexer's output the closing `consume('SYM', '}')` of `parse_function`
    always finds its `}`: a block ends only at a token spelling `}`, and the
    lexer gives that spelling to SYM tokens alone. A missing `}` therefore is
    never skipped; the block runs off the end of the tokens instead.
  */
  lemma ClosingBraceFound(s: string, q: nat)
    requires q <= |Lex(s)|
    ensures ParseBlockAt(Lex(s), q).Ok? ==>
              var c := ParseBlockAt(Lex(s), q).value.1;
              ConsumeAt(Lex(s), c, Some(Sym), Some(CloseBrace)) == Ok((Some(Lex(s)[c]), c + 1))
  {
    var toks := Lex(s);
    var b := ParseBlockAt(toks, q);
    if b.Ok? {
      var t := toks[b.value.1];
      LexWellFormed(s);
      assert WellFormedToken(t);
      assert t.val == Text("}") && IsSeparator(t.val.s[0]);
    }
  }
}
