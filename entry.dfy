/** Token filtering (`extract_token`) and the entry-point check (`find_entry`). */
module Entry {
  import opened Tokens

  /**
    The tokens whose kind and value both match. Tokens are values, so the result
    is as many copies of `Token(kind, val)` as the input holds.
  */
  function ExtractToken(toks: seq<Token>, kind: Kind, val: Value): (r: seq<Token>)
    ensures forall i :: 0 <= i < |r| ==> r[i] == Token(kind, val)
    ensures |r| == multiset(toks)[Token(kind, val)]
  {
    if toks == [] then []
    else
      assert toks == [toks[0]] + toks[1..];
      (if toks[0].kind == kind && toks[0].val == val then [toks[0]] else []) + ExtractToken(toks[1..], kind, val)
  }

  /** `a` is `b` with some elements left out and the rest kept in order. */
  predicate IsSubsequence<T(==)>(a: seq<T>, b: seq<T>)
    decreases |b|
  {
    if a == [] then true
    else if b == [] then false
    else (a[0] == b[0] && IsSubsequence(a[1..], b[1..])) || IsSubsequence(a, b[1..])
  }

  /** The filter keeps tokens in their original order. */
  lemma {:induction false} ExtractIsSubsequence(toks: seq<Token>, kind: Kind, val: Value)
    ensures IsSubsequence(ExtractToken(toks, kind, val), toks)
  {
    if toks != [] {
      ExtractIsSubsequence(toks[1..], kind, val);
      var r := ExtractToken(toks, kind, val);
      if toks[0].kind == kind && toks[0].val == val {
        assert r[0] == toks[0] && r[1..] == ExtractToken(toks[1..], kind, val);
      } else {
        assert r == ExtractToken(toks[1..], kind, val);
      }
    }
  }

  /** A diagnostic as main.py prints it: `<path>:<line>: ERROR: <message>`. */
  datatype Diagnostic = Diagnostic(path: string, line: nat, message: string)

  datatype EntryCheck = EntryFound | Missing(diagnostic: Diagnostic)

  /**
    The decision of `find_entry`: compilation goes on only if a KEY token `main`
    exists anywhere; otherwise the error is reported at line 0 of the file.
  */
  function FindEntry(toks: seq<Token>, path: string): (r: EntryCheck)
    ensures r.EntryFound? <==> Token(Key, Text("main")) in toks
    ensures r.Missing? ==> r.diagnostic == Diagnostic(path, 0, "Could not find entry point main")
  {
    var entry := ExtractToken(toks, Key, Text("main"));
    if |entry| == 0 then Missing(Diagnostic(path, 0, "Could not find entry point " + "main"))
    else EntryFound
  }
}
