/**
  Tokens of the dl front end: a kind tag and a value, as main.py builds them
  with `Token(typ, val)`. The value is text for every kind but NUM, whose value
  is the integer the digits denote.
*/
module Tokens {

  /** The five token kinds: 'SYM', 'TYPE', 'KEY', 'NUM' and 'VAR'. */
  datatype Kind = Sym | Type | Key | Num | Var

  /** A token's value: a string, or the integer of a NUM token. */
  datatype Value = Text(s: string) | Int(n: nat)

  datatype Token = Token(kind: Kind, val: Value)

  /** The kind's name as the source spells it (the parser stores it in Number nodes). */
  function KindName(k: Kind): string {
    match k
    case Sym => "SYM"
    case Type => "TYPE"
    case Key => "KEY"
    case Num => "NUM"
    case Var => "VAR"
  }

  /** SYM_TOK: the one-character symbols + - * / ( ) > < = : ; { }. */
  predicate IsSymbol(c: char) {
    || c == '+' || c == '-' || c == '*' || c == '/' || c == '(' || c == ')' || c == '>'
    || c == '<' || c == '=' || c == ':' || c == ';' || c == '{' || c == '}'
  }

  /** TYPE_TOK: the only type name. */
  predicate IsTypeName(w: string) {
    w == "i32"
  }

  /** KEY_TOK: the keywords. */
  predicate IsKeyword(w: string) {
    w == "main" || w == "return"
  }

  /** Python's `str.isspace` on the ASCII range: space, tab to carriage return, and 0x1C to 0x1F. */
  predicate IsSpace(c: char) {
    c == ' ' || 9 <= c as int <= 13 || 28 <= c as int <= 31
  }

  /** A character that ends a word: a symbol or whitespace. */
  predicate IsSeparator(c: char) {
    IsSymbol(c) || IsSpace(c)
  }

  predicate IsDigit(c: char) {
    '0' <= c <= '9'
  }

  /** Python's `str.isdigit` on ASCII: non-empty and every character a digit. */
  predicate AllDigits(w: string) {
    w != [] && forall i :: 0 <= i < |w| ==> IsDigit(w[i])
  }

  /** Python's `int` on a string of decimal digits. */
  function DecimalValue(w: string): nat
    requires forall i :: 0 <= i < |w| ==> IsDigit(w[i])
  {
    if w == [] then 0
    else
      assert IsDigit(w[|w| - 1]);
      DecimalValue(w[..|w| - 1]) * 10 + (w[|w| - 1] as int - '0' as int)
  }

  /** Python truthiness of a value: '' and 0 are falsy. */
  predicate Falsy(v: Value) {
    v == Text("") || v == Int(0)
  }
}
