/**
  The `Parser` class of main.py: the token list and a cursor `pos` that only
  moves forward. Each method is proved to return what the matching function of
  module Grammar returns and to leave `pos` where that function says.
*/
module Parsing {
  import opened Wrappers
  import opened Tokens
  import opened Ast
  import opened Grammar

  /** The statements parsed so far in front of what the rest of the block yields. */
  function Prepend(stmts: seq<Stmt>, r: Parsed<seq<Stmt>>): Parsed<seq<Stmt>> {
    match r
    case Ok((rest, q)) => Ok((stmts + rest, q))
    case Err(e) => Err(e)
  }

  lemma PrependNothing(r: Parsed<seq<Stmt>>)
    ensures Prepend([], r) == r
  {
    if r.Ok? {
      assert [] + r.value.0 == r.value.0;
    }
  }

  lemma PrependTwice(a: seq<Stmt>, b: seq<Stmt>, r: Parsed<seq<Stmt>>)
    ensures Prepend(a, Prepend(b, r)) == Prepend(a + b, r)
  {
    if r.Ok? {
      assert a + (b + r.value.0) == (a + b) + r.value.0;
    }
  }

  class Parser {
    const tokens: seq<Token>
    var pos: nat

    ghost predicate Valid()
      reads this
    {
      pos <= |tokens|
    }

    constructor (tokens: seq<Token>)
      ensures Valid() && this.tokens == tokens && pos == 0
    {
      this.tokens := tokens;
      pos := 0;
    }

    /** The method's result and the new cursor are those `spec` gives; after an error only the error is given. */
    ghost predicate Follows<T>(r: Result<T, ParseError>, spec: Parsed<T>)
      reads this
    {
      match spec
      case Ok((v, q)) => r == Ok(v) && pos == q
      case Err(e) => r == Err(e)
    }

    /** `peek`: the token under the cursor, or none past the end. */
    function Peek(): (r: Option<Token>)
      reads this
      ensures r.Some? <==> pos < |tokens|
      ensures r.Some? ==> r.value == tokens[pos]
    {
      if pos < |tokens| then Some(tokens[pos]) else None
    }

    /** `get_current_token`: the same as `peek`. */
    function GetCurrentToken(): (r: Option<Token>)
      reads this
      ensures r == Peek()
    {
      if pos < |tokens| then Some(tokens[pos]) else None
    }

    method Consume(kind: Option<Kind>, val: Option<Value>) returns (r: Result<Option<Token>, ParseError>)
      requires Valid()
      modifies this
      ensures Valid() && old(pos) <= pos
      ensures Follows(r, ConsumeAt(tokens, old(pos), kind, val))
    {
      var tok := Peek();
      if tok.None? {
        return Err(EndOfInput);
      }
      if kind.Some? && tok.value.kind != kind.value {
        return Ok(None);
      } else if val.Some? && !Falsy(val.value) && tok.value.val != val.value {
        return Ok(None);
      }
      pos := pos + 1;
      return Ok(tok);
    }

    method ParseStatement() returns (r: Result<Stmt, ParseError>)
      requires Valid()
      modifies this
      ensures Valid() && old(pos) <= pos
      ensures Follows(r, ParseStatementAt(tokens, old(pos)))
    {
      var tk := GetCurrentToken();
      if tk.None? {
        return Err(EndOfInput);
      }
      if tk.value.kind == Var {
        r := ParseDecl();
      } else if tk.value.kind == Key && tk.value.val == Text("return") {
        r := ParseRet();
      } else {
        r := Err(NotImplemented(tk.value));
      }
    }

    method ParseDecl() returns (r: Result<Stmt, ParseError>)
      requires Valid()
      modifies this
      ensures Valid() && old(pos) <= pos
      ensures Follows(r, ParseDeclAt(tokens, old(pos)))
    {
      var name :- Consume(Some(Var), None);
      var colon :- Consume(Some(Sym), Some(Text(":")));
      var typ :- Consume(Some(Type), None);
      var eq :- Consume(Some(Sym), Some(Text("=")));
      var expr :- ParseExpr();
      var semi :- Consume(Some(Sym), Some(Text(";")));
      if name.None? {
        return Err(MissingName);
      }
      if typ.None? {
        return Err(MissingType);
      }
      return Ok(VarDecl(name.value.val, typ.value.val, expr));
    }

    method ParseRet() returns (r: Result<Stmt, ParseError>)
      requires Valid()
      modifies this
      ensures Valid() && old(pos) <= pos
      ensures Follows(r, ParseRetAt(tokens, old(pos)))
    {
      var ret :- Consume(Some(Key), Some(Text("return")));
      var expr :- ParseExpr();
      var semi :- Consume(Some(Sym), Some(Text(";")));
      return Ok(Return(expr));
    }

    method ParseFunction() returns (r: Result<Function, ParseError>)
      requires Valid()
      modifies this
      ensures Valid() && old(pos) <= pos
      ensures Follows(r, ParseFunctionAt(tokens, old(pos)))
    {
      var name :- Consume(Some(Key), Some(Text("main")));
      var c1 :- Consume(Some(Sym), Some(Text(":")));
      var c2 :- Consume(Some(Sym), Some(Text(":")));
      var ty :- Consume(Some(Type), Some(Text("i32")));
      var open :- Consume(Some(Sym), Some(Text("{")));
      var body :- ParseBlock();
      var close :- Consume(Some(Sym), Some(CloseBrace));
      return Ok(Function(name, body));
    }

    method ParseExpr() returns (r: Result<Expr, ParseError>)
      requires Valid()
      modifies this
      ensures Valid() && old(pos) <= pos
      ensures Follows(r, ParseExprAt(tokens, old(pos)))
    {
      var tok := GetCurrentToken();
      if tok.None? {
        return Err(EndOfInput);
      }
      var t := tok.value;
      if t.kind == Var {
        var consumed := Consume(Some(Var), None);
        return Ok(Variable(t.val, "i32"));
      } else if t.kind == Num {
        var consumed := Consume(Some(Num), None);
        return Ok(Number(t.val, KindName(t.kind)));
      } else {
        return Err(Unreachable(t));
      }
    }

    method ParseBlock() returns (r: Result<seq<Stmt>, ParseError>)
      requires Valid()
      modifies this
      ensures Valid() && old(pos) <= pos
      ensures Follows(r, ParseBlockAt(tokens, old(pos)))
    {
      var statements := [];
      PrependNothing(ParseBlockAt(tokens, pos));
      while true
        invariant Valid() && old(pos) <= pos
        invariant ParseBlockAt(tokens, old(pos)) == Prepend(statements, ParseBlockAt(tokens, pos))
        decreases |tokens| - pos
      {
        var tok := GetCurrentToken();
        if tok.None? {
          return Err(EndOfInput);
        }
        if tok.value.val == CloseBrace {
          break;
        }
        ghost var before := pos;
        var stmt :- ParseStatement();
        assert ParseBlockAt(tokens, before) == Prepend([stmt], ParseBlockAt(tokens, pos));
        PrependTwice(statements, [stmt], ParseBlockAt(tokens, pos));
        statements := statements + [stmt];
      }
      assert statements + [] == statements;
      return Ok(statements);
    }
  }
}
