/**
  The recursive-descent parser of main.py as functions of the token sequence
  and the cursor position. Each function returns the node it builds and the
  position after it, or the error that aborts parsing; the `Parser` class in
  parser.dfy is proved to compute exactly these.
*/
module Grammar {
  import opened Wrappers
  import opened Tokens
  import opened Ast

  /** A node and the cursor after it, or the error that stopped the parse. */
  type Parsed<T> = Result<(T, nat), ParseError>

  /**
    `consume`'s test: the expected kind and value must both match, and an absent
    (or falsy) expectation matches anything.
  */
  predicate Matches(t: Token, kind: Option<Kind>, val: Option<Value>) {
    && (kind.None? || t.kind == kind.value)
    && (val.None? || Falsy(val.value) || t.val == val.value)
  }

  /**
    `consume`: past the last token it fails (the source reads `.typ` of `None`);
    on a match it returns the token and advances by one; on a mismatch it
    returns `None` and stays put.
  */
  function ConsumeAt(toks: seq<Token>, p: nat, kind: Option<Kind>, val: Option<Value>): (r: Parsed<Option<Token>>)
    requires p <= |toks|
    ensures r.Err? <==> p == |toks|
    ensures r.Err? ==> r.error == EndOfInput
    ensures r.Ok? ==> (r.value.0.Some? <==> Matches(toks[p], kind, val))
    ensures r.Ok? && r.value.0.Some? ==> r.value == (Some(toks[p]), p + 1)
    ensures r.Ok? && r.value.0.None? ==> r.value.1 == p
  {
    if p == |toks| then Err(EndOfInput)
    else if Matches(toks[p], kind, val) then Ok((Some(toks[p]), p + 1))
    else Ok((None, p))
  }

  /**
    `parse_expr`: a VAR token becomes a Variable of type "i32", a NUM token a
    Number whose type is the token kind; anything else fails.
  */
  function ParseExprAt(toks: seq<Token>, p: nat): (r: Parsed<Expr>)
    requires p <= |toks|
    ensures r.Ok? <==> p < |toks| && (toks[p].kind == Var || toks[p].kind == Num)
    ensures r.Ok? ==> r.value.1 == p + 1
    ensures r.Ok? && toks[p].kind == Var ==> r.value.0 == Variable(toks[p].val, "i32")
    ensures r.Ok? && toks[p].kind == Num ==> r.value.0 == Number(toks[p].val, "NUM")
    ensures p == |toks| ==> r == Err(EndOfInput)
    ensures r.Err? && p < |toks| ==> r == Err(Unreachable(toks[p]))
  {
    if p == |toks| then Err(EndOfInput)
    else
      var t := toks[p];
      if t.kind == Var then
        var c := ConsumeAt(toks, p, Some(Var), None).value;
        Ok((Variable(t.val, "i32"), c.1))
      else if t.kind == Num then
        var c := ConsumeAt(toks, p, Some(Num), None).value;
        Ok((Number(t.val, KindName(t.kind)), c.1))
      else Err(Unreachable(t))
  }

  /**
    The cursor after an optional token `t` at `q`: one further on when `t` is
    there, unchanged otherwise (a `consume` whose expectation is not falsy).
  */
  function After(toks: seq<Token>, q: nat, t: Token): nat
    requires q < |toks|
  {
    if toks[q] == t then q + 1 else q
  }

  /** The separators of a declaration. */
  const Colon := Token(Sym, Text(":"))
  const Equals := Token(Sym, Text("="))

  /**
    `parse_decl`: name, `:`, type, `=`, expression, `;`. A missing `:`, `=` or
    `;` is skipped over; a missing name or type is an error, raised only once the
    whole declaration has been read.
  */
  function ParseDeclAt(toks: seq<Token>, p: nat): (r: Parsed<Stmt>)
    requires p <= |toks|
    ensures r.Ok? ==> p < r.value.1 <= |toks|
    ensures r.Ok? ==> toks[p].kind == Var && r.value.0.VarDecl? && r.value.0.val == toks[p].val
    ensures r.Ok? ==> exists i :: p < i < r.value.1 && toks[i] == Token(Type, r.value.0.typ)
    ensures r.Ok? ==> exists q :: p < q < r.value.1 && ParseExprAt(toks, q).Ok? && ParseExprAt(toks, q).value.0 == r.value.0.expr
    ensures p < |toks| && toks[p].kind != Var ==> r.Err?
  {
    var name :- ConsumeAt(toks, p, Some(Var), None);
    var colon :- ConsumeAt(toks, name.1, Some(Sym), Some(Text(":")));
    var typ :- ConsumeAt(toks, colon.1, Some(Type), None);
    var eq :- ConsumeAt(toks, typ.1, Some(Sym), Some(Text("=")));
    var expr :- ParseExprAt(toks, eq.1);
    var semi :- ConsumeAt(toks, expr.1, Some(Sym), Some(Text(";")));
    if name.0.None? then Err(MissingName)
    else if typ.0.None? then Err(MissingType)
    else
      assert toks[colon.1] == Token(Type, typ.0.value.val);
      assert ParseExprAt(toks, eq.1).value.0 == expr.0;
      Ok((VarDecl(name.0.value.val, typ.0.value.val, expr.0), semi.1))
  }

  /** The token that starts a return statement. */
  const ReturnToken := Token(Key, Text("return"))

  /** The token that ends a statement. */
  const Semicolon := Token(Sym, Text(";"))

  /**
    `parse_ret`: `return`, expression, `;`. After `return` it succeeds exactly
    when an expression follows and a token follows that; a missing `;` is
    skipped over.
  */
  function ParseRetAt(toks: seq<Token>, p: nat): (r: Parsed<Stmt>)
    requires p <= |toks|
    ensures r.Ok? ==> p < r.value.1 <= |toks| && r.value.0.Return?
    ensures p < |toks| && toks[p] == ReturnToken ==>
              (r.Ok? <==> ParseExprAt(toks, p + 1).Ok? && p + 2 < |toks|)
    ensures p < |toks| && toks[p] == ReturnToken && r.Ok? ==>
              && r.value.0 == Return(ParseExprAt(toks, p + 1).value.0)
              && r.value.1 == (if toks[p + 2] == Semicolon then p + 3 else p + 2)
    ensures p < |toks| && toks[p] == ReturnToken && r.Err? ==>
              r.error == (if ParseExprAt(toks, p + 1).Err? then ParseExprAt(toks, p + 1).error else EndOfInput)
  {
    var ret :- ConsumeAt(toks, p, Some(Key), Some(Text("return")));
    var expr :- ParseExprAt(toks, ret.1);
    var semi :- ConsumeAt(toks, expr.1, Some(Sym), Some(Text(";")));
    Ok((Return(expr.0), semi.1))
  }


  /**
    `parse_statement`: a VAR token starts a declaration, KEY `return` a return
    statement; any other token is rejected. A statement that parses consumes at
    least one token.
  */
  function ParseStatementAt(toks: seq<Token>, p: nat): (r: Parsed<Stmt>)
    requires p <= |toks|
    ensures r.Ok? ==> p < r.value.1 <= |toks|
    ensures r.Ok? ==> (r.value.0.VarDecl? <==> toks[p].kind == Var)
    ensures r.Ok? && r.value.0.Return? ==> toks[p] == ReturnToken
    ensures p == |toks| ==> r == Err(EndOfInput)
    ensures p < |toks| && toks[p].kind != Var && toks[p] != ReturnToken ==> r == Err(NotImplemented(toks[p]))
  {
    if p == |toks| then Err(EndOfInput)
    else if toks[p].kind == Var then ParseDeclAt(toks, p)
    else if toks[p].kind == Key && toks[p].val == Text("return") then ParseRetAt(toks, p)
    else Err(NotImplemented(toks[p]))
  }

  /** The value that ends a block. */
  const CloseBrace := Text("}")

  /**
    `parse_block`: statements up to the first token whose value is `}` at a
    statement boundary; running out of tokens first is an error.
  */
  function ParseBlockAt(toks: seq<Token>, p: nat): (r: Parsed<seq<Stmt>>)
    requires p <= |toks|
    ensures r.Ok? ==> p <= r.value.1 < |toks| && toks[r.value.1].val == CloseBrace
    decreases |toks| - p
  {
    if p == |toks| then Err(EndOfInput)
    else if toks[p].val == CloseBrace then Ok(([], p))
    else
      var stmt :- ParseStatementAt(toks, p);
      var rest :- ParseBlockAt(toks, stmt.1);
      Ok(([stmt.0] + rest.0, rest.1))
  }

  /** The entry point's name token. */
  const MainToken := Token(Key, Text("main"))

  /** The five header `consume` calls of `parse_function`: the name and the cursor after them. */
  function HeaderAt(toks: seq<Token>, p: nat): (r: Parsed<Option<Token>>)
    requires p <= |toks|
    ensures p == |toks| ==> r == Err(EndOfInput)
    ensures r.Ok? ==> p <= r.value.1 <= |toks| && p < |toks|
    ensures r.Ok? ==> r.value.0 == (if toks[p] == MainToken then Some(toks[p]) else None)
  {
    var name :- ConsumeAt(toks, p, Some(Key), Some(Text("main")));
    var c1 :- ConsumeAt(toks, name.1, Some(Sym), Some(Text(":")));
    var c2 :- ConsumeAt(toks, c1.1, Some(Sym), Some(Text(":")));
    var ty :- ConsumeAt(toks, c2.1, Some(Type), Some(Text("i32")));
    var open :- ConsumeAt(toks, ty.1, Some(Sym), Some(Text("{")));
    Ok((name.0, open.1))
  }

  /**
    `parse_function`: `main : : i32 {` block `}`. Only running out of tokens and
    the errors of the block abort it; a header token that does not match is
    skipped over, and the name is absent when the first token is not KEY main.
  */
  function ParseFunctionAt(toks: seq<Token>, p: nat): (r: Parsed<Function>)
    requires p <= |toks|
    ensures p == |toks| ==> r == Err(EndOfInput)
    ensures r.Ok? ==> p <= r.value.1 <= |toks|
    ensures r.Ok? ==> r.value.0.name == (if toks[p] == MainToken then Some(toks[p]) else None)
  {
    var header :- HeaderAt(toks, p);
    var body :- ParseBlockAt(toks, header.1);
    var close := ConsumeAt(toks, body.1, Some(Sym), Some(CloseBrace)).value;
    Ok((Function(header.0, body.0), close.1))
  }

  // ---------------------------------------------------------------------------
  // Blocks are chains of statements

  /**
    `stmts` are parsed one after another from the positions `bounds`, none of
    which holds a `}`: statement i starts at bounds[i] and ends at bounds[i + 1].
  */
  ghost predicate StatementChain(toks: seq<Token>, bounds: seq<nat>, stmts: seq<Stmt>) {
    && |bounds| == |stmts| + 1
    && forall i :: 0 <= i < |stmts| ==>
         && bounds[i] < |toks|
         && toks[bounds[i]].val != CloseBrace
         && ParseStatementAt(toks, bounds[i]) == Ok((stmts[i], bounds[i + 1]))
  }

  /** A parsed block is its statements in source order, each starting where the last ended. */
  lemma {:induction false} BlockIsChain(toks: seq<Token>, p: nat)
    requires p <= |toks|
    requires ParseBlockAt(toks, p).Ok?
    ensures exists bounds :: && StatementChain(toks, bounds, ParseBlockAt(toks, p).value.0)
                             && bounds[0] == p
                             && bounds[|bounds| - 1] == ParseBlockAt(toks, p).value.1
    decreases |toks| - p
  {
    var r := ParseBlockAt(toks, p).value;
    if toks[p].val == CloseBrace {
      assert StatementChain(toks, [p], r.0);
    } else {
      BlockStep(toks, p);
      var stmt := ParseStatementAt(toks, p).value;
      BlockIsChain(toks, stmt.1);
      var rest := ParseBlockAt(toks, stmt.1).value;
      var bounds' :| && StatementChain(toks, bounds', rest.0)
                     && bounds'[0] == stmt.1
                     && bounds'[|bounds'| - 1] == rest.1;
      ChainCons(toks, p, stmt.0, bounds', rest.0);
      var bounds := [p] + bounds';
      assert bounds[0] == p && bounds[|bounds| - 1] == r.1;
    }
  }

  /** One round of the block loop: a statement, then the rest of the block. */
  lemma BlockStep(toks: seq<Token>, p: nat)
    requires p < |toks| && toks[p].val != CloseBrace
    requires ParseBlockAt(toks, p).Ok?
    ensures ParseStatementAt(toks, p).Ok?
    ensures var stmt := ParseStatementAt(toks, p).value;
            && ParseBlockAt(toks, stmt.1).Ok?
            && ParseBlockAt(toks, p).value
               == ([stmt.0] + ParseBlockAt(toks, stmt.1).value.0, ParseBlockAt(toks, stmt.1).value.1)
  {
  }

  /** A statement parsed at `p` that ends where a chain starts extends the chain at the front. */
  lemma ChainCons(toks: seq<Token>, p: nat, stmt: Stmt, bounds: seq<nat>, stmts: seq<Stmt>)
    requires StatementChain(toks, bounds, stmts)
    requires p < |toks| && toks[p].val != CloseBrace
    requires ParseStatementAt(toks, p) == Ok((stmt, bounds[0]))
    ensures StatementChain(toks, [p] + bounds, [stmt] + stmts)
  {
    var bounds', stmts' := [p] + bounds, [stmt] + stmts;
    forall i | 0 <= i < |stmts'|
      ensures && bounds'[i] < |toks|
              && toks[bounds'[i]].val != CloseBrace
              && ParseStatementAt(toks, bounds'[i]) == Ok((stmts'[i], bounds'[i + 1]))
    {
      if i > 0 {
        assert bounds'[i] == bounds[i - 1] && bounds'[i + 1] == bounds[i] && stmts'[i] == stmts[i - 1];
      }
    }
  }

  /**
    Conversely, a chain of statements followed by a `}` is exactly what the block
    parser returns: it stops at the first `}` at a statement boundary.
  */
  lemma {:induction false} ChainIsBlock(toks: seq<Token>, bounds: seq<nat>, stmts: seq<Stmt>)
    requires StatementChain(toks, bounds, stmts)
    requires bounds[|stmts|] < |toks| && toks[bounds[|stmts|]].val == CloseBrace
    ensures ParseBlockAt(toks, bounds[0]) == Ok((stmts, bounds[|stmts|]))
    decreases |stmts|
  {
    if stmts != [] {
      assert StatementChain(toks, bounds[1..], stmts[1..]) by {
        forall i | 0 <= i < |stmts| - 1
          ensures && bounds[1..][i] < |toks|
                  && toks[bounds[1..][i]].val != CloseBrace
                  && ParseStatementAt(toks, bounds[1..][i]) == Ok((stmts[1..][i], bounds[1..][i + 1]))
        {
          assert bounds[1..][i] == bounds[i + 1] && bounds[1..][i + 1] == bounds[i + 2];
        }
      }
      ChainIsBlock(toks, bounds[1..], stmts[1..]);
      assert stmts == [stmts[0]] + stmts[1..];
    }
  }

  // ---------------------------------------------------------------------------
  // Declarations and the function as a whole

  /**
    `parse_decl` on every input that starts with a VAR token. The `:`, `=` and
    `;` are each taken when present and passed over otherwise. A TYPE token is
    taken when it is next; when it is not, nothing is consumed for it and the
    declaration fails with `MissingType`, but only once the expression and the
    token after it have been read. Running out of tokens at any step is the
    end-of-input failure.
  */
  lemma DeclLayout(toks: seq<Token>, p: nat)
    requires p < |toks| && toks[p].kind == Var
    ensures var r := ParseDeclAt(toks, p);
            if p + 1 == |toks| then r == Err(EndOfInput) else
            var c := After(toks, p + 1, Colon);
            if c == |toks| then r == Err(EndOfInput) else
            var y := if toks[c].kind == Type then c + 1 else c;
            if y == |toks| then r == Err(EndOfInput) else
            var e := After(toks, y, Equals);
            if ParseExprAt(toks, e).Err? then r == Err(ParseExprAt(toks, e).error) else
            if e + 1 == |toks| then r == Err(EndOfInput) else
            if toks[c].kind != Type then r == Err(MissingType) else
            r == Ok((VarDecl(toks[p].val, toks[c].val, ParseExprAt(toks, e).value.0), After(toks, e + 1, Semicolon)))
  {
  }

  /** The layout `name : type = e ;` with a one-token expression `e` parses to the declaration it spells. */
  lemma CanonicalDecl(toks: seq<Token>, p: nat)
    requires p + 6 <= |toks|
    requires toks[p].kind == Var && toks[p + 1] == Token(Sym, Text(":")) && toks[p + 2].kind == Type
    requires toks[p + 3] == Token(Sym, Text("=")) && (toks[p + 4].kind == Var || toks[p + 4].kind == Num)
    requires toks[p + 5] == Semicolon
    ensures ParseExprAt(toks, p + 4).Ok?
    ensures ParseDeclAt(toks, p) == Ok((VarDecl(toks[p].val, toks[p + 2].val, ParseExprAt(toks, p + 4).value.0), p + 6))
  {
  }

  /** The function header `main : : i32 {`. */
  const Header := [MainToken, Token(Sym, Text(":")), Token(Sym, Text(":")), Token(Type, Text("i32")), Token(Sym, Text("{"))]

  /**
    The cursor after reading `expected` from `p`: each expected token is taken
    when it is the next token and skipped over otherwise; running out of tokens
    while something is still expected is an error.
  */
  function SkipOptional(toks: seq<Token>, p: nat, expected: seq<Token>): (r: Result<nat, ParseError>)
    requires p <= |toks|
    ensures r.Ok? ==> p <= r.value <= |toks| && r.value <= p + |expected|
    ensures r.Ok? && expected != [] ==> p < |toks|
    ensures r.Err? ==> r.error == EndOfInput
    decreases |expected|
  {
    if expected == [] then Ok(p)
    else if p == |toks| then Err(EndOfInput)
    else SkipOptional(toks, if toks[p] == expected[0] then p + 1 else p, expected[1..])
  }

  /**
    `parse_function` for every input: the header tokens are optional, then the
    block follows, then its closing `}`. The name is the first token when that
    is KEY main; only running out of tokens and the block's errors abort.
  */
  lemma FunctionIsHeaderThenBlock(toks: seq<Token>, p: nat)
    requires p <= |toks|
    ensures var r, h := ParseFunctionAt(toks, p), SkipOptional(toks, p, Header);
            && (h.Err? ==> r == Err(h.error))
            && (h.Ok? && ParseBlockAt(toks, h.value).Err? ==> r == Err(ParseBlockAt(toks, h.value).error))
            && (h.Ok? && ParseBlockAt(toks, h.value).Ok? ==>
                  var b := ParseBlockAt(toks, h.value).value;
                  r == Ok((Function(if toks[p] == MainToken then Some(MainToken) else None, b.0), After(toks, b.1, Token(Sym, CloseBrace)))))
  {
    HeaderIsOptional(toks, p);
    var h := HeaderAt(toks, p);
    if h.Ok? {
      var b := ParseBlockAt(toks, h.value.1);
      if b.Ok? {
        CloseStep(toks, b.value.1);
      }
    }
  }

  /** The final `consume` of `}` never fails after a block, and advances exactly over a SYM `}`. */
  lemma CloseStep(toks: seq<Token>, c: nat)
    requires c < |toks|
    ensures ConsumeAt(toks, c, Some(Sym), Some(CloseBrace)).Ok?
    ensures ConsumeAt(toks, c, Some(Sym), Some(CloseBrace)).value.1 == After(toks, c, Token(Sym, CloseBrace))
  {
  }

  /** One optional token: taken when it is next, skipped over otherwise. */
  lemma OptionalStep(toks: seq<Token>, p: nat, expected: seq<Token>)
    requires p < |toks| && expected != [] && !Falsy(expected[0].val)
    ensures var q := if toks[p] == expected[0] then p + 1 else p;
            && ConsumeAt(toks, p, Some(expected[0].kind), Some(expected[0].val))
               == Ok((if toks[p] == expected[0] then Some(toks[p]) else None, q))
            && SkipOptional(toks, p, expected) == SkipOptional(toks, q, expected[1..])
  {
  }

  lemma HeaderIsOptional(toks: seq<Token>, p: nat)
    requires p <= |toks|
    ensures var h := HeaderAt(toks, p);
            && (h.Err? ==> SkipOptional(toks, p, Header) == Err(h.error))
            && (h.Ok? ==> SkipOptional(toks, p, Header) == Ok(h.value.1)
                          && h.value.0 == (if toks[p] == MainToken then Some(MainToken) else None))
  {
    var h := Header;
    if p < |toks| {
      OptionalStep(toks, p, h);
      var q1 := if toks[p] == h[0] then p + 1 else p;
      if q1 < |toks| {
        OptionalStep(toks, q1, h[1..]);
        var q2 := if toks[q1] == h[1] then q1 + 1 else q1;
        if q2 < |toks| {
          OptionalStep(toks, q2, h[2..]);
          var q3 := if toks[q2] == h[2] then q2 + 1 else q2;
          if q3 < |toks| {
            OptionalStep(toks, q3, h[3..]);
            var q4 := if toks[q3] == h[3] then q3 + 1 else q3;
            if q4 < |toks| {
              OptionalStep(toks, q4, h[4..]);
            }
          }
        }
      }
    }
  }

  /** With the full header `main : : i32 {`, the function is `main` with the block that follows as its body. */
  lemma CanonicalFunction(toks: seq<Token>, p: nat)
    requires p + 5 <= |toks| && toks[p..p + 5] == Header
    ensures ParseFunctionAt(toks, p).Ok? <==> ParseBlockAt(toks, p + 5).Ok?
    ensures ParseFunctionAt(toks, p).Ok? ==>
              ParseFunctionAt(toks, p).value.0 == Function(Some(MainToken), ParseBlockAt(toks, p + 5).value.0)
    ensures ParseFunctionAt(toks, p).Err? ==> ParseFunctionAt(toks, p).error == ParseBlockAt(toks, p + 5).error
  {
    HeaderPresent(toks, p);
    FunctionIsHeaderThenBlock(toks, p);
  }

  /** The full header is read token by token, and nothing of it is skipped. */
  lemma HeaderPresent(toks: seq<Token>, p: nat)
    requires p + 5 <= |toks| && toks[p..p + 5] == Header
    ensures SkipOptional(toks, p, Header) == Ok(p + 5)
    ensures toks[p] == MainToken
  {
    var h := Header;
    assert toks[p] == h[0] && toks[p + 1] == h[1] && toks[p + 2] == h[2] && toks[p + 3] == h[3] && toks[p + 4] == h[4];
    assert h[1..][1..][1..][1..][1..] == [];
    assert SkipOptional(toks, p + 4, h[4..]) == Ok(p + 5);
    assert SkipOptional(toks, p + 2, h[2..]) == Ok(p + 5);
  }
}
