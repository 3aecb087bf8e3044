/**
  The parser only looks forward: what each parse function returns depends on
  the tokens from the cursor on, and not on what lies before it. As a
  consequence, a header token that is missing changes nothing but positions.
*/
module Locality {
  import opened Wrappers
  import opened Tokens
  import opened Ast
  import opened Grammar

  /** Two cursors that see the same tokens from where they stand to the end. */
  predicate SameAhead(t: seq<Token>, i: nat, u: seq<Token>, j: nat) {
    i <= |t| && j <= |u| && t[i..] == u[j..]
  }

  /**
    Two results of parsing from `i` and from `j`: the same error, or the same
    node having advanced by the same number of tokens.
  */
  predicate SameResult<T(==)>(r: Parsed<T>, i: nat, r': Parsed<T>, j: nat) {
    if r.Ok? then r'.Ok? && r'.value.0 == r.value.0 && r.value.1 + j == r'.value.1 + i
    else r' == r
  }

  /** Moving both cursors forward by the same amount keeps them seeing the same tokens. */
  lemma Advance(t: seq<Token>, i: nat, u: seq<Token>, j: nat, i': nat, j': nat)
    requires SameAhead(t, i, u, j)
    requires i <= i' <= |t| && i' + j == j' + i
    ensures SameAhead(t, i', u, j')
  {
    assert |t| - i == |u| - j;
    assert t[i'..] == t[i..][i' - i..];
    assert u[j'..] == u[j..][j' - j..];
  }

  lemma ConsumeLocal(t: seq<Token>, i: nat, u: seq<Token>, j: nat, kind: Option<Kind>, val: Option<Value>)
    requires SameAhead(t, i, u, j)
    ensures SameResult(ConsumeAt(t, i, kind, val), i, ConsumeAt(u, j, kind, val), j)
  {
    assert |t| - i == |u| - j;
    if i < |t| {
      assert t[i] == t[i..][0] == u[j..][0] == u[j];
    }
  }

  lemma ExprLocal(t: seq<Token>, i: nat, u: seq<Token>, j: nat)
    requires SameAhead(t, i, u, j)
    ensures SameResult(ParseExprAt(t, i), i, ParseExprAt(u, j), j)
  {
    assert |t| - i == |u| - j;
    if i < |t| {
      assert t[i] == t[i..][0] == u[j..][0] == u[j];
    }
  }

  /** Consuming one expected token from two cursors that see the same tokens. */
  lemma ConsumeThen(t: seq<Token>, i: nat, u: seq<Token>, j: nat, kind: Option<Kind>, val: Option<Value>)
    requires SameAhead(t, i, u, j)
    ensures var a, b := ConsumeAt(t, i, kind, val), ConsumeAt(u, j, kind, val);
            && SameResult(a, i, b, j)
            && (a.Ok? ==> SameAhead(t, a.value.1, u, b.value.1))
  {
    ConsumeLocal(t, i, u, j, kind, val);
    var a, b := ConsumeAt(t, i, kind, val), ConsumeAt(u, j, kind, val);
    if a.Ok? {
      Advance(t, i, u, j, a.value.1, b.value.1);
    }
  }

  lemma ExprThen(t: seq<Token>, i: nat, u: seq<Token>, j: nat)
    requires SameAhead(t, i, u, j)
    ensures var a, b := ParseExprAt(t, i), ParseExprAt(u, j);
            && SameResult(a, i, b, j)
            && (a.Ok? ==> SameAhead(t, a.value.1, u, b.value.1))
  {
    ExprLocal(t, i, u, j);
    var a, b := ParseExprAt(t, i), ParseExprAt(u, j);
    if a.Ok? {
      Advance(t, i, u, j, a.value.1, b.value.1);
    }
  }

  lemma DeclLocal(t: seq<Token>, i: nat, u: seq<Token>, j: nat)
    requires SameAhead(t, i, u, j)
    ensures SameResult(ParseDeclAt(t, i), i, ParseDeclAt(u, j), j)
  {
    ConsumeThen(t, i, u, j, Some(Var), None);
    var n, n' := ConsumeAt(t, i, Some(Var), None), ConsumeAt(u, j, Some(Var), None);
    if n.Ok? {
      ConsumeThen(t, n.value.1, u, n'.value.1, Some(Sym), Some(Text(":")));
      var c, c' := ConsumeAt(t, n.value.1, Some(Sym), Some(Text(":"))), ConsumeAt(u, n'.value.1, Some(Sym), Some(Text(":")));
      if c.Ok? {
        ConsumeThen(t, c.value.1, u, c'.value.1, Some(Type), None);
        var y, y' := ConsumeAt(t, c.value.1, Some(Type), None), ConsumeAt(u, c'.value.1, Some(Type), None);
        if y.Ok? {
          ConsumeThen(t, y.value.1, u, y'.value.1, Some(Sym), Some(Text("=")));
          var e, e' := ConsumeAt(t, y.value.1, Some(Sym), Some(Text("="))), ConsumeAt(u, y'.value.1, Some(Sym), Some(Text("=")));
          if e.Ok? {
            ExprThen(t, e.value.1, u, e'.value.1);
            var x, x' := ParseExprAt(t, e.value.1), ParseExprAt(u, e'.value.1);
            if x.Ok? {
              ConsumeThen(t, x.value.1, u, x'.value.1, Some(Sym), Some(Text(";")));
            }
          }
        }
      }
    }
  }

  lemma RetLocal(t: seq<Token>, i: nat, u: seq<Token>, j: nat)
    requires SameAhead(t, i, u, j)
    ensures SameResult(ParseRetAt(t, i), i, ParseRetAt(u, j), j)
  {
    ConsumeThen(t, i, u, j, Some(Key), Some(Text("return")));
    var k, k' := ConsumeAt(t, i, Some(Key), Some(Text("return"))), ConsumeAt(u, j, Some(Key), Some(Text("return")));
    if k.Ok? {
      ExprThen(t, k.value.1, u, k'.value.1);
      var x, x' := ParseExprAt(t, k.value.1), ParseExprAt(u, k'.value.1);
      if x.Ok? {
        ConsumeThen(t, x.value.1, u, x'.value.1, Some(Sym), Some(Text(";")));
      }
    }
  }

  lemma StatementLocal(t: seq<Token>, i: nat, u: seq<Token>, j: nat)
    requires SameAhead(t, i, u, j)
    ensures SameResult(ParseStatementAt(t, i), i, ParseStatementAt(u, j), j)
  {
    assert |t| - i == |u| - j;
    if i < |t| {
      assert t[i] == t[i..][0] == u[j..][0] == u[j];
      DeclLocal(t, i, u, j);
      RetLocal(t, i, u, j);
    }
  }

  /** A block parsed from two cursors that see the same tokens is the same block. */
  lemma {:induction false} BlockLocal(t: seq<Token>, i: nat, u: seq<Token>, j: nat)
    requires SameAhead(t, i, u, j)
    ensures SameResult(ParseBlockAt(t, i), i, ParseBlockAt(u, j), j)
    decreases |t| - i
  {
    assert |t| - i == |u| - j;
    if i < |t| {
      assert t[i] == t[i..][0] == u[j..][0] == u[j];
      if t[i].val != CloseBrace {
        StatementLocal(t, i, u, j);
        var s, s' := ParseStatementAt(t, i), ParseStatementAt(u, j);
        if s.Ok? {
          Advance(t, i, u, j, s.value.1, s'.value.1);
          BlockLocal(t, s.value.1, u, s'.value.1);
        }
      }
    }
  }

  /**
    A header that lacks one of its four tokens after `main` is still accepted:
    the missing token is skipped and the header ends one token early.
  */
  lemma HeaderMissing(u: seq<Token>, p: nat, i: nat)
    requires 1 <= i <= 4 && p + 4 <= |u| && u[p..p + 4] == Header[..i] + Header[i + 1..]
    requires i == 4 && p + 4 < |u| ==> u[p + 4] != Header[4]
    ensures u[p] == MainToken
    ensures SkipOptional(u, p, Header) == if i == 4 && p + 4 == |u| then Err(EndOfInput) else Ok(p + 4)
  {
    var h := Header;
    assert u[p] == h[0];
    assert h[4..][1..] == [];
    if i < 3 {
      assert u[p + 1] == h[1] && u[p + 2] == h[3] && u[p + 3] == h[4];
      assert SkipOptional(u, p + 3, h[4..]) == Ok(p + 4);
      assert SkipOptional(u, p + 2, h[2..]) == Ok(p + 4);
    } else if i == 3 {
      assert u[p + 1] == h[1] && u[p + 2] == h[2] && u[p + 3] == h[4];
      assert SkipOptional(u, p + 3, h[4..]) == Ok(p + 4);
      assert SkipOptional(u, p + 3, h[3..]) == Ok(p + 4);
      assert SkipOptional(u, p + 2, h[2..]) == Ok(p + 4);
    } else {
      assert u[p + 1] == h[1] && u[p + 2] == h[2] && u[p + 3] == h[3];
      assert SkipOptional(u, p + 4, h[4..]) == if p + 4 == |u| then Err(EndOfInput) else Ok(p + 4);
      assert SkipOptional(u, p + 2, h[2..]) == SkipOptional(u, p + 4, h[4..]);
    }
  }

  /** Once the header is known to end at `e`, the function is the block that starts there. */
  lemma FunctionAfterHeader(t: seq<Token>, p: nat, e: nat)
    requires p < |t| && t[p] == MainToken && SkipOptional(t, p, Header) == Ok(e)
    ensures e <= |t|
    ensures ParseBlockAt(t, e).Err? ==> ParseFunctionAt(t, p) == Err(ParseBlockAt(t, e).error)
    ensures ParseBlockAt(t, e).Ok? ==>
              ParseFunctionAt(t, p) == Ok((Function(Some(MainToken), ParseBlockAt(t, e).value.0), After(t, ParseBlockAt(t, e).value.1, Token(Sym, CloseBrace))))
  {
    FunctionIsHeaderThenBlock(t, p);
  }

  /** The token list with the header's `i`-th token taken out. */
  lemma DropOne(toks: seq<Token>, p: nat, i: nat)
    requires p + 5 <= |toks| && toks[p..p + 5] == Header && 1 <= i <= 4
    ensures var u := toks[..p + i] + toks[p + i + 1..];
            && |u| + 1 == |toks|
            && u[p..p + 4] == Header[..i] + Header[i + 1..]
            && u[p + 4..] == toks[p + 5..]
            && (p + 4 < |u| ==> u[p + 4] == toks[p + 5])
  {
    var u := toks[..p + i] + toks[p + i + 1..];
    assert u[p..p + 4] == toks[p..p + i] + toks[p + i + 1..p + 5];
    assert toks[p..p + i] == toks[p..p + 5][..i];
    assert toks[p + i + 1..p + 5] == toks[p..p + 5][i + 1..];
    assert u[p + 4..] == toks[p + 5..];
    if p + 4 < |u| {
      assert u[p + 4] == u[p + 4..][0];
    }
  }

  /** `d` is the outcome `r` moved back by one token: the same function or the same error. */
  predicate ShiftedBack(r: Parsed<Function>, d: Parsed<Function>) {
    && (r.Ok? <==> d.Ok?)
    && (r.Ok? ==> d.value == (r.value.0, r.value.1 - 1))
    && (r.Err? ==> d.error == r.error)
  }

  /** Two functions built from the same block outcome, with ends `k` and `k'` one token apart. */
  lemma ShiftedOutcome(r: Parsed<Function>, d: Parsed<Function>, b: Parsed<seq<Stmt>>, k: nat, k': nat)
    requires b.Err? ==> r == Err(b.error) && d == Err(b.error)
    requires b.Ok? ==> r == Ok((Function(Some(MainToken), b.value.0), k)) && d == Ok((Function(Some(MainToken), b.value.0), k'))
    requires k' + 1 == k
    ensures ShiftedBack(r, d)
  {
  }

  /**
    Two lists whose headers both start with `main`, end one token apart, and
    are followed by the same tokens, give the same function, one token apart.
  */
  lemma ShiftedFunction(t: seq<Token>, u: seq<Token>, p: nat)
    requires p < |u| && p + 5 <= |t| && t[p] == MainToken && u[p] == MainToken
    requires SkipOptional(t, p, Header) == Ok(p + 5) && SkipOptional(u, p, Header) == Ok(p + 4)
    requires u[p + 4..] == t[p + 5..]
    ensures ShiftedBack(ParseFunctionAt(t, p), ParseFunctionAt(u, p))
  {
    FunctionAfterHeader(t, p, p + 5);
    FunctionAfterHeader(u, p, p + 4);
    BlockLocal(t, p + 5, u, p + 4);
    var b, b' := ParseBlockAt(t, p + 5), ParseBlockAt(u, p + 4);
    if b.Ok? {
      Advance(t, p + 5, u, p + 4, b.value.1, b.value.1 - 1);
      assert u[b.value.1 - 1] == u[b.value.1 - 1..][0] == t[b.value.1..][0];
      var k, k' := After(t, b.value.1, Token(Sym, CloseBrace)), After(u, b'.value.1, Token(Sym, CloseBrace));
      ShiftedOutcome(ParseFunctionAt(t, p), ParseFunctionAt(u, p), b, k, k');
    } else {
      ShiftedOutcome(ParseFunctionAt(t, p), ParseFunctionAt(u, p), b, 1, 0);
    }
  }

  /**
    Dropping any one of the header tokens after `main` leaves the parse of
    the function unchanged, except that it ends one token earlier. (When the
    dropped token is `{`, the token after the header must not itself be `{`,
    which would then be taken as the header's.)
  */
  lemma HeaderTokenDropped(toks: seq<Token>, p: nat, i: nat)
    requires p + 5 <= |toks| && toks[p..p + 5] == Header && 1 <= i <= 4
    requires i == 4 && p + 5 < |toks| ==> toks[p + 5] != Header[4]
    ensures var r, d := ParseFunctionAt(toks, p), ParseFunctionAt(toks[..p + i] + toks[p + i + 1..], p);
            && (r.Ok? <==> d.Ok?)
            && (r.Ok? ==> d.value == (r.value.0, r.value.1 - 1))
            && (r.Err? ==> d.error == r.error)
  {
    var u := toks[..p + i] + toks[p + i + 1..];
    DropOne(toks, p, i);
    HeaderMissing(u, p, i);
    HeaderPresent(toks, p);
    if i == 4 && p + 4 == |u| {
      FunctionAfterHeader(toks, p, p + 5);
      FunctionIsHeaderThenBlock(u, p);
    } else {
      ShiftedFunction(toks, u, p);
    }
  }
}
