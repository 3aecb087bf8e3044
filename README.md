# dl front end — a Dafny model

This project models the front end of `dl`, a toy compiler written in Python (`main.py`). The front end does three things:

- **Lexer** (`tokenize`). It makes one left-to-right pass with a word accumulator.
  - A symbol from `SYM_TOK` flushes the pending word and becomes a `SYM` token.
  - Whitespace flushes the pending word and produces nothing.
  - Any other character grows the pending word.
  - A flushed word becomes `NUM` (all digits, holding the integer value), else `TYPE` (`i32`), else `KEY` (`main`, `return`), else `VAR`.
- **Entry check** (`extract_token`, `find_entry`). A filter keeps the tokens with a given kind and value. Compilation goes on only if a `KEY main` token exists. Otherwise the diagnostic is reported at line 0.
- **Parser** (`Parser`). This is recursive descent over the token list, with a cursor `pos` that only moves forward. It builds one `Function` whose body is a sequence of `VarDecl` and `Return` statements over `Variable` and `Number` expressions.

Modules:

- `Wrappers`: `Option`, and a `Result` that works with `:-`.
- `Tokens`: token kinds and values, plus the character and word classes as ASCII predicates.
- `Lexer`: the one-pass `Tokenize` method, proved equal to `Lex`. `Lex` is a reference definition: maximal-munch cutting into words and symbols (`Scan`), then classification of each piece. The module also holds the lemmas about `Lex`.
- `Entry`: `ExtractToken` and the `FindEntry` decision.
- `Ast`: the syntax tree as datatypes, and `ParseError` for the ways the Python parser crashes.
- `Grammar`: each parser method as a function of the token list and a start position. Each function returns the node and the new position, or an error.
- `Parsing`: the `Parser` class. It has `tokens`, a mutable `pos`, and one method per Python method. Each method is proved to return what its `Grammar` function returns and to move `pos` to where that function says.
- `Locality`: the parser only looks forward from its cursor, and a missing header token changes nothing but positions.
- `Driver`: `parse_file`, the front end as a whole.
- `Examples`: small worked inputs.

Where the Python program crashes, the model returns an explicit `ParseError`:

- reading an attribute of the `None` that `peek` or `get_current_token` returns past the last token gives `EndOfInput`;
- the two `assert False` statements give `NotImplemented` and `Unreachable`;
- reading `.val` of a failed `consume` in `parse_decl` gives `MissingName` or `MissingType`.

Two behaviours of the code are easy to miss. The model follows the code:

- A mismatched `consume` does not fail. It returns `None` and leaves `pos` where it was, so a missing `:`, `::i32` or `{` in the header, or `:`, `=` or `;` in a statement, is silently skipped. A missing closing `}` is not skipped. `parse_block` stops only at a token spelling `}`, so without one it reads past the last token, which is end-of-input. On the lexer's output, the final `consume` of `}` always finds its token.
- Every whitespace character, newline included, only flushes the pending word. No line numbers are kept.

## Model

| member | source | states |
|---|---|---|
| Lexer.ClassifyWord | main.py:22-30 | A flushed word is NUM exactly when it is all digits. Otherwise it is TYPE exactly when it is `i32`, otherwise KEY exactly when it is `main` or `return`, otherwise VAR. It is never SYM. NUM holds the decimal value; every other kind holds the word's text unchanged. |
| Lexer.WordLength | main.py:44-45 | The accumulator takes the longest prefix free of symbols and whitespace: every character before the cut is a word character, and the cut falls at a separator or at the end. |
| Lexer.Tokenize | main.py:17-57 | The one-pass scan with a pending word returns exactly `Lex(input)`, the maximal-munch reference tokenization. |
| Lexer.Read | main.py:20-45 | One character of the scan. At a separator, the pending word is flushed, then the SYM token follows if the character is a symbol, and the accumulator is emptied. Any other character is appended to the accumulator and emits nothing. |
| Lexer.Flush | main.py:22-31 | A flush appends the classified pending word, or nothing when the accumulator is empty. |
| Lexer.FlushAtSeparator | main.py:21-43 | At a separator, the tokens still to come are the flushed word, then the symbol's token if any, then the tokens of the rest of the input. |
| Lexer.FlushAtEnd | main.py:47-55 | At the end of the input, the tokens still to come are exactly the flushed pending word. |
| Lexer.ScanWellFormed | main.py:44-45 | Every word cut from the input is non-empty and contains no symbol and no whitespace. |
| Lexer.LexWellFormed | main.py:17-57 | The i-th token is the i-th lexeme classified. A SYM token holds one symbol character, a NUM token an integer, and a TYPE, KEY or VAR token a non-empty word with no separator that is not all digits. |
| Lexer.ScanSpelling | main.py:17-57 | Concatenating the lexemes in order gives back the input with its whitespace removed: nothing is dropped, duplicated or reordered. |
| Lexer.LexSymbols | main.py:21-32 | The characters of the SYM tokens, in order, are exactly the input's symbol characters, in order. |
| Lexer.LeadingZeroLost | main.py:24 | `int` ignores a leading zero, so a NUM token does not keep its spelling. |
| Lexer.ScanAppend | main.py:20-45 | Cutting is compositional: when the two texts meet at a separator, or one of them is empty, cutting their concatenation gives the two cuts concatenated. |
| Lexer.LexAppend | main.py:17-57 | Tokenizing is compositional in the same way: `Lex(a + b) == Lex(a) + Lex(b)` when the texts meet at a separator. |
| Entry.ExtractToken | main.py:59-60 | Every token returned has the requested kind and value, and there are as many of them as the input holds. |
| Entry.ExtractIsSubsequence | main.py:60 | The filter's result is a subsequence of the input: the kept tokens stay in their original order. |
| Entry.FindEntry | main.py:66-73 | The entry is found exactly when a `KEY main` token occurs in the token list. Otherwise the diagnostic names the file, line 0 and "Could not find entry point main". |
| Grammar.ConsumeAt | main.py:113-125 | At the end of the tokens, the result is the end-of-input failure. A token matching the expected kind and value returns that token and advances by exactly one; an absent or falsy expectation is a wildcard. A mismatch returns nothing and stays put. |
| Grammar.ParseExprAt | main.py:169-178 | Succeeds exactly on a VAR or NUM token. It consumes that one token. VAR gives a variable of type `i32`; NUM gives a number whose type is the kind name `NUM`. Anything else is the "Unreachable" failure. |
| Grammar.ParseDeclAt | main.py:141-148 | A successful declaration starts at a VAR token, takes that token's value as its name and a TYPE token's value as its type, and consumes at least one token without running past the end. Its expression is what `ParseExprAt` parses at a position strictly inside the consumed span. A statement not starting with VAR fails. |
| Grammar.DeclLayout | main.py:141-148 | For every input starting with a VAR token, the exact result. The `:`, `=` and `;` are each taken when present and passed over otherwise. The type is the TYPE token after the name and optional `:`. If that token is not TYPE, nothing is consumed for it, and once the expression and the token after it have been read the declaration fails with `MissingType`. Running out of tokens at any step is end-of-input, and an expression error is passed on. On success the result is the name, that type, the expression parsed after the optional `=`, and the position after the optional `;`. |
| Grammar.CanonicalDecl | main.py:141-148 | On the layout `VAR : TYPE = e ;`, with `e` a VAR or NUM token, the declaration is exactly the name, the type and the expression parsed at `e`, and it ends after the `;`. |
| Grammar.ParseRetAt | main.py:150-154 | A successful return statement consumes at least one token and yields a `Return` node. At a `KEY return` token it succeeds exactly when an expression follows and a further token exists. The node is `Return` of that expression, and the `;` is consumed when it is next and skipped otherwise. A failure is the expression's own error, or end-of-input. |
| Grammar.ParseStatementAt | main.py:132-139 | Every successful statement consumes at least one token. It is a declaration exactly when it starts with VAR; a return starts with `KEY return`. Any other first token is the "Not implemented" failure, and the end of the tokens is end-of-input. |
| Grammar.ParseBlockAt | main.py:180-184 | A parsed block ends at a `}` token that is still inside the token list, at or after where the block started. |
| Grammar.BlockIsChain | main.py:180-184 | A parsed block is a chain of statements in source order: each starts where the last ended and at a token that is not `}`, and the chain runs from the block's start to its closing `}`. |
| Grammar.ChainIsBlock | main.py:180-184 | Conversely, any such chain followed by `}` is exactly what the block parser returns: it stops at the first `}` at a statement boundary. |
| Grammar.ParseFunctionAt | main.py:156-167 | With no tokens left it is the end-of-input failure. A successful parse ends within the tokens, and the function's name is the first token when that is `KEY main`, and absent otherwise. |
| Grammar.HeaderAt | main.py:157-162 | The five header consumes. With no tokens left they fail with end-of-input. On success the name is the first token when that is `KEY main`, and absent otherwise. |
| Grammar.SkipOptional | main.py:113-125 | Skipping a list of optional tokens never moves back, advances at most one token per expectation, and fails only by running off the end. |
| Grammar.HeaderIsOptional | main.py:157-162 | The header consumes are exactly `SkipOptional` over `main : : i32 {`: each expected token is taken when it is next and passed over otherwise. |
| Grammar.FunctionIsHeaderThenBlock | main.py:156-167 | For every token list, the function is the optional header, then the block after it as the body, then an optional `}`. An error in the header or the block is the function's error. |
| Grammar.CanonicalFunction | main.py:156-167 | After the header `main : : i32 {`, parsing succeeds exactly when the block after it does. The function is then `main` with that block as its body, and otherwise fails with the block's error. |
| Locality.ConsumeLocal | main.py:113-125 | Two cursors that see the same tokens to the end get the same `consume` result and advance equally. |
| Locality.ExprLocal | main.py:169-178 | The same holds for `parse_expr`. |
| Locality.DeclLocal | main.py:141-148 | The same holds for `parse_decl`. |
| Locality.RetLocal | main.py:150-154 | The same holds for `parse_ret`. |
| Locality.StatementLocal | main.py:132-139 | The same holds for `parse_statement`. |
| Locality.BlockLocal | main.py:180-184 | The same holds for `parse_block`: a block depends only on the tokens from its start on. |
| Locality.HeaderMissing | main.py:157-162 | A header lacking one of the tokens after `main` still ends right after the four tokens present. If the missing `{` was the last token, the header fails with end-of-input. |
| Locality.HeaderTokenDropped | main.py:156-167 | Dropping any one of `: : i32 {` from a complete header leaves the parsed function, or the error, unchanged. Only the end position moves back by one. When the dropped token is `{`, this holds provided the token after the header is not also `{`, which would otherwise be taken as the header's. |
| Driver.ClosingBraceFound | main.py:164-166 | On the lexer's output, after any successful block the closing `consume('SYM', '}')` finds the `}` the block stopped at and advances past it. The lexer spells `}` only as a SYM token. |
| Parsing.Parser.constructor | main.py:104-106 | A new parser holds the given tokens with the cursor at 0. |
| Parsing.Parser.Peek | main.py:108-111 | Returns the token under the cursor, and nothing exactly when the cursor is past the last token. |
| Parsing.Parser.GetCurrentToken | main.py:127-130 | Returns the same as `peek`. |
| Parsing.Parser.Consume | main.py:113-125 | The cursor never moves back and never passes the end. The result and the new cursor are those of `ConsumeAt`. |
| Parsing.Parser.ParseExpr | main.py:169-178 | The result and the new cursor are those of `ParseExprAt`, and the cursor only moves forward. |
| Parsing.Parser.ParseDecl | main.py:141-148 | The result and the new cursor are those of `ParseDeclAt`, and the cursor only moves forward. |
| Parsing.Parser.ParseRet | main.py:150-154 | The result and the new cursor are those of `ParseRetAt`, and the cursor only moves forward. |
| Parsing.Parser.ParseStatement | main.py:132-139 | The result and the new cursor are those of `ParseStatementAt`, and the cursor only moves forward. |
| Parsing.Parser.ParseBlock | main.py:180-184 | The statement loop returns what `ParseBlockAt` returns and leaves the cursor on the closing `}`. Its invariant is that the statements collected so far, followed by what the rest of the block yields, make up the whole block. |
| Parsing.Parser.ParseFunction | main.py:156-167 | The result and the new cursor are those of `ParseFunctionAt`, and the cursor only moves forward. |
| Driver.ParseFile | main.py:76-82 | Stops with the entry diagnostic exactly when the tokens hold no `KEY main`. Otherwise it crashes exactly when parsing a function from the first token fails, with that error. Else it returns that function, named `main` exactly when `main` is the first token. |
| Examples.LexWord | main.py:44-55 | A lone non-empty word free of symbols and whitespace lexes to exactly its one classified token. |
| Examples.LexSymbol | main.py:21-32 | A lone symbol lexes to one SYM token spelling it. |
| Examples.LexSpace | main.py:33-43 | A lone whitespace character lexes to nothing. |
| Examples.LeadingZeros | main.py:23-24 | `007` lexes to the single token NUM 7. |
| Examples.ReturnLiteralParses | main.py:156-167 | The tokens of `main::i32{return 42;}` parse to the function `main` with the single statement `return 42`, ending after the last token. |
| Examples.ShortHeader | main.py:156-167 | The same program without `::i32` parses to the same function, because a mismatched `consume` is skipped. |
| Examples.DeclWithoutType | main.py:141-148 | `x : = 5 ;` fails with `MissingType`. |
| Examples.DeclWithoutColon | main.py:141-148 | `x i32 = 5 ;` parses to the declaration of `x` as `i32` equal to 5, ending after the `;`. |
| Examples.UnclosedBody | main.py:180-184 | A body that never reaches `}` fails with end-of-input. |

## Left out

- `read_file` and the command-line block are file and process I/O, so `ParseFile` takes the file's text as a parameter. The `print` calls in `find_entry` and `consume` are console output. `find_entry`'s `exit(1)` is modelled as the `Missing` outcome carrying its diagnostic.
- `print_ast` is console output only. `Binop` is never constructed.
- `Function.param`: the source always passes `None`, so the `Function` datatype has no parameter field.
- Python's `str.isdigit` and `str.isspace` are Unicode-aware. The model uses ASCII: digits `0`-`9`, and whitespace is space, 0x09-0x0D and 0x1C-0x1F. Those are the ASCII characters Python treats as whitespace.
- Object identity: `extract_token` returns the very token objects of its input, while the model's tokens are values, so `ExtractToken` returns equal values.
- The three identical flush blocks in `tokenize` are one `Flush` method and one `ClassifyWord` function.
- Parsing.Parser.ParseExpr, Parsing.Parser.ParseDecl, Parsing.Parser.ParseRet, Parsing.Parser.ParseStatement, Parsing.Parser.ParseBlock, Parsing.Parser.ParseFunction: after a failure the cursor position is left unspecified, because in the source a failure is an uncaught exception and the parser is not used again.
- Lexer.ClassifyWord: a word of more than 4300 digits makes CPython's `int()` raise `ValueError` (its default limit on converting digit strings, main.py:24, 36 and 49). The model converts a word of any length and does not have this error path.
- Integer widths: apart from that limit, NUM values are unbounded naturals, as Python integers are. No code generation, symbol table, line numbers or other integer types exist in this front end.
