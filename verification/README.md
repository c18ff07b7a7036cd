# cmonster preprocessor core, modelled in Dafny

cmonster wraps Clang's preprocessor for Python. It lets Python code define
macros from strings, define macros whose expansion is computed by a Python
callable, register pragmas, lex strings into tokens, iterate over the
preprocessed token stream and print tokens back at their original positions.
This project models the logic that `src/cmonster/core/preprocessor.cpp` adds on
top of Clang. Each part is a pure function or a method over immutable data, and
the project proves what the wrapper promises about each part.

Clang itself is abstracted:

- The preprocessor's token output is a `seq<Token>`. Inside a directive,
  running out of tokens reads as `eod`. At the end of the input, lexing keeps
  returning `eof`.
- The macro table is a `map<string, MacroInfo>`. A fresh preprocessor's
  builtin macros are a parameter of the initial state.
- The pragma-handler table is a `map<PragmaKey, Handler>`, keyed by namespace
  and name. Clang's tree of handlers (a top-level name holds a handler or a
  namespace, not both) is kept as an invariant of that map.
- A host callback (`FunctionMacro`) is an opaque `CallbackId`. What it
  computes is a parameter `Host`: a function from the id and the argument
  tokens to result tokens or an error.
- Entering a buffer into Clang is a parameter: the file-change events it
  reports, the events reported while lexing it, and the token stream it
  produces from then on.

Modules, one per part of the source:

| module | file | what it models |
|---|---|---|
| `Outcomes` | outcomes.dfy | `Option`, `Result` and the exceptions the wrapper throws, as values |
| `Tokens` | tokens.dfy | tokens: kind, spelling, length, location, LeadingSpace/StartOfLine flags |
| `MacroName` | macro_name.dfy | the parameter-list parser of `define(name, value)` |
| `FileDepth` | file_depth.dfy | `FileChangePPCallback`, the unsigned include-depth counter |
| `Engine` | engine.dfy | the macro and pragma tables, `add_macro_definition`, `define`, `add_pragma`, `add_macro_function` |
| `Trampoline` | trampoline.dfy | `TokenSaverPragmaHandler` and `DynamicPragmaHandler` |
| `Tokenize` | tokenize.dfy | the lexing loop of `tokenize` |
| `TokenIterator` | token_iterator.dfy | `TokenIteratorImpl`, the one-token-lookahead iterator |
| `Format` | format.dfy | `format`, the position-preserving printer |

The parser has two readings, and both are proved:

- `ParseName` is a declarative definition.
- `ParseMacroName` and `ScanArgs` are the source's index loop, proved to return the same result.

The wrapper's callback-macro mechanism is proved end to end:

1. `add_macro_function` installs a nine-token body.
2. That body's first pragma goes to the token saver.
3. Its second pragma goes to exactly the handler just registered for the
   callback.
4. Running those two pragmas hands the tokens of the `cmonster_pragma`
   directive to the host and continues with the host's result tokens.

## Model

| member | source | states |
|---|---|---|
| `MacroName.ParseMacroName` | src/cmonster/core/preprocessor.cpp:502-548 | `define`'s reading of the name, index loop included, returns for every name the signature or the `invalid_argument` error that the declarative parse gives. |
| `MacroName.ScanArgs` | src/cmonster/core/preprocessor.cpp:509-541 | The parameter loop, run on the text between the first `(` and the final `)`, collects exactly the names the declarative split gives, or throws at exactly its stray-comma offset. |
| `MacroName.NextArg` | src/cmonster/core/preprocessor.cpp:511-540 | One pass of the loop consumes one comma-terminated piece. It yields either that piece's name, trimmed of `' '`, or the stray comma's column. The pieces left to parse then give the rest of the parameter list. |
| `MacroName.FunctionLikeName` | src/cmonster/core/preprocessor.cpp:502-543 | A name ending in `)` whose first `(` is at `l` is accepted exactly when no non-final comma-separated piece of the list is blank. The macro name is the text before `(`. The parameters are the pieces, trimmed of `' '`, less a final empty piece. A rejection reports the column of the comma that ends the first blank piece. |
| `MacroName.ObjectLikeName` | src/cmonster/core/preprocessor.cpp:545-548 | A name not ending in `)` defines an object-like macro named by the whole string, with no parameters. |
| `MacroName.UnmatchedParen` | src/cmonster/core/preprocessor.cpp:504-507 | A name ending in `)` that contains no `(` is rejected with "no matching '('". |
| `MacroName.ArgsAreTrimmedPieces` | src/cmonster/core/preprocessor.cpp:524-540 | Accepted parameter names are the comma-separated pieces, each trimmed of leading and trailing `' '`, with a final empty piece dropped. |
| `MacroName.StrayCommaIffBlankPiece` | src/cmonster/core/preprocessor.cpp:513-522 | The list is rejected if and only if some piece before the last comma is blank, since only then does a `,` stand where a name should begin. |
| `MacroName.StrayCommaColumn` | src/cmonster/core/preprocessor.cpp:515-521 | The reported column is the offset of the comma that ends the first blank piece. |
| `MacroName.EmptyAndTrailingComma` | src/cmonster/core/preprocessor.cpp:509-539 | `F()` has no parameters. `F(a,)` has exactly `a`, because the trailing comma ends the loop. |
| `MacroName.BlankList` | src/cmonster/core/preprocessor.cpp:513-531 | `F( )` has one parameter, the empty name. |
| `MacroName.PaddedNames` | src/cmonster/core/preprocessor.cpp:513-539 | `F( a , b )` has parameters `a` and `b`. |
| `MacroName.EllipsisName` | src/cmonster/core/preprocessor.cpp:524-531 | `F(a, ...)` has parameters `a` and `...`; the parser gives `...` no special treatment. |
| `MacroName.StrayCommas` | src/cmonster/core/preprocessor.cpp:513-522 | `F(a,,b)` is rejected at column 4 and `F(,a)` at column 2, both positions in the whole name. |
| `FileDepth.FileChanged` | src/cmonster/core/preprocessor.cpp:74-85 | EnterFile adds 1 and ExitFile subtracts 1, both modulo 2^32. Every other reason leaves the depth unchanged. |
| `FileDepth.EnterThenExit` | src/cmonster/core/preprocessor.cpp:79-82 | Entering a file and then leaving it restores the depth, and so does the reverse order, wrap-around included. |
| `FileDepth.ReplayAppend` | src/cmonster/core/preprocessor.cpp:74-85 | Feeding the counter two batches of events one after the other gives the same depth as feeding it their concatenation. |
| `FileDepth.ReplayCounts` | src/cmonster/core/preprocessor.cpp:74-85 | After any sequence of events, the depth is the start depth plus the number of entries minus the number of exits, modulo 2^32. |
| `FileDepth.EnterRaises` | src/cmonster/core/preprocessor.cpp:79 | Entering a file raises the counter exactly when it is below its maximum. At the maximum it wraps to 0. |
| `Engine.Initial` | src/cmonster/core/preprocessor.cpp:223-232 | A new wrapper holds the preprocessor's builtin pragma handlers plus the token saver, registered at top level as `cmonster_pragma`. The handler table is a tree, the depth is 0, and the macro table is the preprocessor's builtin macros, no more. |
| `Trampoline.InitialDispatch` | src/cmonster/core/preprocessor.cpp:223-228 | On a new wrapper, `cmonster_pragma` reaches the token saver, and every builtin pragma, namespaced or not, reaches the handler Clang registered for it. |
| `Engine.MacroShape` | src/cmonster/core/preprocessor.cpp:248-282 | The macro built from a signature and value tokens is described as follows. The body is the value tokens. An end location exists exactly when the body is non-empty, and it is the last token's location. A function-like macro with arguments has one parameter per argument, and it is variadic exactly when the last argument is `...`, which becomes `__VA_ARGS__`. Otherwise there are no parameters. |
| `Engine.DefinitionRule` | src/cmonster/core/preprocessor.cpp:284-295 | If the name is taken, the whole engine is unchanged and the result says whether the new definition is identical to the existing one; an incompatible definition gives false, not an error. If the name is free, it is bound to the new macro and true is returned. No other macro, handler, buffer or depth changes. |
| `Engine.DefineIdempotent` | src/cmonster/core/preprocessor.cpp:284-292 | Repeating a successful `define` with a body that compares the same succeeds and leaves the engine unchanged. |
| `Engine.ConflictKeepsFirst` | src/cmonster/core/preprocessor.cpp:284-292 | Redefining an object-like name with a body that does not compare the same returns false and keeps the first body. Bodies compare the same when they have equal token kinds and spellings, and equal flags on every token but the first. |
| `Engine.FirstTokenFlagsIgnored` | src/cmonster/core/preprocessor.cpp:284-292 | Redefining an object-like name with only the first body token's LeadingSpace and StartOfLine flags changed is accepted as identical: true, and nothing changes. |
| `Engine.LaterTokenFlagsCount` | src/cmonster/core/preprocessor.cpp:284-292 | A flag difference on any later body token makes the bodies different. |
| `Engine.DefineVariadic` | src/cmonster/core/preprocessor.cpp:252-270 | `define("F(a, ...)", v)` installs a function-like variadic macro `F` with parameters `a` and `__VA_ARGS__` and body `v`. |
| `Engine.AddPragma` | src/cmonster/core/preprocessor.cpp:406-426 | A null callback registers nothing and gives false. A namespaced handler cannot be added while a top-level handler is named `cmonster`; the call stops with that clash and changes nothing. Otherwise a dynamic handler for the callback is registered under the name, in namespace `cmonster` or at top level as requested, and true is returned. A top-level handler also replaces the whole namespace of its name. Every other handler stays, and macros, buffer and depth are untouched. |
| `Engine.MacroFunctionOutcomes` | src/cmonster/core/preprocessor.cpp:302-317 | `add_macro_function` has four outcomes. A null callback gives false and changes nothing. A `cmonster` name held by a top-level handler stops the call and changes nothing. An already-defined name throws, but the pragma handler has already been registered and the macros are unchanged. A free name gets the callback macro and true. |
| `Engine.CallbackMacroDispatches` | src/cmonster/core/preprocessor.cpp:318-397 | The installed macro is function-like and variadic with the single parameter `__VA_ARGS__`. Its body is `_CMONSTER_PRAGMA ( cmonster_pragma __VA_ARGS__ ) _Pragma ( "cmonster NAME" )`, and only `__VA_ARGS__` has a leading space. Its third token names the token saver. Its string literal dispatches to `cmonster`/NAME, where the callback's handler now sits. |
| `Engine.InstallersKeepSaver` | src/cmonster/core/preprocessor.cpp:406-426 | `define`, `add_macro_function` and namespaced `add_pragma` keep the token saver registered. A top-level `add_pragma` named `cmonster_pragma` replaces it. |
| `Engine.InstallersKeepCoherent` | src/cmonster/core/preprocessor.cpp:406-426 | `define`, `add_macro_function` and `add_pragma` keep the handler table a tree: no name is both a top-level handler and a namespace. |
| `Engine.TopLevelTakesNamespace` | src/cmonster/core/preprocessor.cpp:406-426 | A top-level `add_pragma("cmonster", cb)` removes every handler in the `cmonster` namespace. A later `add_macro_function` then stops at the clash. |
| `Trampoline.SaveDirective` | src/cmonster/core/preprocessor.cpp:103-111 | The saver loop's buffer is exactly the directive's tokens before the first `eod`, and lexing resumes after that `eod`. |
| `Trampoline.SaverReplacesBuffer` | src/cmonster/core/preprocessor.cpp:103-111 | Handling `#pragma cmonster_pragma ARGS` leaves ARGS in the buffer. Whatever the buffer held before is gone, and nothing else in the engine changes. |
| `Trampoline.DirectiveSplit` | src/cmonster/core/preprocessor.cpp:137-139 | The input is the directive's tokens, its `eod`, then what the preprocessor reads after discarding the directive. |
| `Trampoline.Injected` | src/cmonster/core/preprocessor.cpp:143-161 | The tokens entered for a callback result keep the result's count and order. The first token is unchanged, and every later token differs only in having LeadingSpace set. |
| `Trampoline.InjectTokens` | src/cmonster/core/preprocessor.cpp:145-153 | The copy loop that builds the entered token array produces exactly those tokens. |
| `Trampoline.TopLevelCapturesCallback` | src/cmonster/core/preprocessor.cpp:302-426 | After `add_macro_function(NAME, cb)`, a top-level `add_pragma("cmonster", cb')` captures the macro's dispatch: its `_Pragma("cmonster NAME")` runs `cb'`. |
| `Trampoline.DynamicInjects` | src/cmonster/core/preprocessor.cpp:137-161 | The dynamic handler calls the host with the saved buffer, and three outcomes follow. A host error propagates. Otherwise the entered tokens are read before the rest of the input. An empty result enters nothing. |
| `Trampoline.CallbackRoundTrip` | src/cmonster/core/preprocessor.cpp:302-397 | After `add_macro_function(NAME, cb)`, an expansion runs the two pragmas in the macro's body. They pass exactly the tokens of the `cmonster_pragma` directive to `cb` and leave those tokens in the saver's buffer. They then continue with the injected result, or stop with the host's error. |
| `Tokenize.Tokenize` | src/cmonster/core/preprocessor.cpp:584-657 | A null or empty string gives no tokens. So does a running preprocessor whose depth did not rise on entering the buffer, compared as unsigned. Otherwise the result is the longest run of lookahead tokens that are neither `eof` nor from another file, and the stopping token is not consumed. The depth counter moves only on the running preprocessor. There it sees the entry events, and, unless the call bails, also the events reported while the loop lexes, including the ExitFile from the lookahead past the buffer. |
| `Tokenize.BalancedSession` | src/cmonster/core/preprocessor.cpp:621-640 | When the entry and loop events hold as many EnterFile as ExitFile, the running preprocessor's counter ends where it started. |
| `Tokenize.TypicalSession` | src/cmonster/core/preprocessor.cpp:621-640 | With one EnterFile on entry and one ExitFile on leaving, and the counter below its maximum, `tokenize` does not bail and the counter is restored. |
| `Tokenize.SessionPrefix` | src/cmonster/core/preprocessor.cpp:638-655 | The tokens collected are a prefix of the stream, each from the new buffer and not `eof`, and the next lookahead is not such a token. |
| `Tokenize.SessionPrefixMaximal` | src/cmonster/core/preprocessor.cpp:638-640 | The collected run is maximal: the token after it, if any, is `eof` or comes from a different file. |
| `Tokenize.SessionStopsAtOther` | src/cmonster/core/preprocessor.cpp:638-655 | Buffer tokens followed by any other token give exactly those buffer tokens. |
| `Tokenize.BailsOnlyOnWrap` | src/cmonster/core/preprocessor.cpp:621-626 | When the running preprocessor enters the buffer with one EnterFile, `tokenize` bails out exactly when the counter was at its maximum and wrapped. |
| `TokenIterator.NextAdvances` | src/cmonster/core/preprocessor.cpp:454-470 | From position `k` of the output, `has_next` holds exactly when token `k` is not `eof`. `next` returns token `k` and leaves the iterator at position `k + 1`. |
| `TokenIterator.ExhaustedStaysAtEof` | src/cmonster/core/preprocessor.cpp:459-470 | On exhausted output `has_next` is false, and `next` keeps returning `eof` without changing the iterator. |
| `TokenIterator.Drain` | src/cmonster/core/preprocessor.cpp:451-476 | Calling `next` while `has_next` yields the output up to, but not including, the first `eof`. |
| `Format.FormatTokens` | src/cmonster/core/preprocessor.cpp:674-712 | The source's loop, with its two cursor variables, writes what the fold over `Emit` defines. |
| `Format.InvalidIgnored` | src/cmonster/core/preprocessor.cpp:684-686 | Tokens without a valid presumed location write nothing and do not move the cursor, so dropping them leaves the output unchanged. |
| `Format.NothingToFormat` | src/cmonster/core/preprocessor.cpp:678-710 | An empty list, or one with no located token, formats to the empty string. |
| `Format.CursorLineIsMax` | src/cmonster/core/preprocessor.cpp:690-700 | The cursor line never decreases. It ends at the largest of its start and the located tokens' lines. |
| `Format.NewlinesCountLines` | src/cmonster/core/preprocessor.cpp:690-700 | Once a line has been written, the output holds one newline per line the cursor moves down, provided spellings hold no newline. |
| `Format.FormatNewlines` | src/cmonster/core/preprocessor.cpp:690-700 | Over a whole call, the newline count is the final cursor line minus the first located token's line. No newline precedes the first token. |
| `Format.EmitOnLine` | src/cmonster/core/preprocessor.cpp:701-708 | A token on the cursor's line, at or right of the cursor, writes blanks up to its column and then its spelling. The cursor moves to the token's end. |
| `Format.LineRoundTrip` | src/cmonster/core/preprocessor.cpp:678-709 | Tokens lexed from one line of text, each spelling at its column with blanks between, format back to exactly that line. |

## Left out

- `PreprocessorImpl` constructor (lines 180-233). It sets up diagnostics, the target, language options, header search paths and file and source managers, and appends the `_CMONSTER_PRAGMA` predefine; this is configuration of Clang. Only its outcome is modelled: the token saver is added to the preprocessor's builtin pragma handlers, and the depth starts at 0 (`Engine.Initial`). The builtin macros and pragma handlers are parameters.
- `preprocess` (lines 564-575) writes through Clang's `DoPrintPreprocessedInput` to a file descriptor. This is I/O and a foreign call.
- Clang's lexer, `LookAhead`, `EnterSourceFile`, `EnterTokenStream`, `_Pragma` destringising and macro expansion. Lexing is a given token sequence. Entering a buffer is a given event list and stream. Expansion of a callback macro is given as the two pragma directives it produces (`Trampoline.CallbackRoundTrip`).
- Unknown pragmas: Clang, not the wrapper, decides what happens to them. The model only discards the directive.
- Duplicate pragma registration: Clang asserts against it in debug builds. The model follows release builds, where the new handler replaces the old one. Adding a namespaced handler while a top-level handler holds the namespace's name asserts in debug builds and dereferences a null namespace in release builds. The model stops there with the `NotANamespace` error.
- Swapping in a fresh preprocessor when the depth is 0, `PreprocessorResetter`, and re-interning identifiers into the original preprocessor (lines 60-69, 594-600, 641-653). This is ownership plumbing, and interning is the identity on names. The temporary preprocessor's own state is not modelled.
- The buffer's content: `tokenize` only tests whether its string is null or empty. The tokens Clang lexes from it are the given stream.
- `define(name, value)` first calls `tokenize(value)`. `Engine.Define` takes the resulting tokens as input rather than running `tokenize` itself.
- `new[]`/`delete[]` around the entered token array (lines 143-160) is memory management. The array becomes a sequence.
- `next(expand)` and `create_token` (lines 659-668, 714-719) are thin wrappers over Clang.
- `src/cmonster/python/token_predicate.hpp` only holds a Python callable and has no logic.
- Locations of synthesised tokens: `CreateString` puts spellings in Clang's scratch buffer. The model gives such tokens the scratch file id and no presumed position.
- Format.FormatTokens: the cursor and counts are `unsigned int` in the source, but the model's are unbounded. The 2^32 wrap of `current_column += length` on absurdly long lines is not modelled. Writing a token is assumed to write its spelling, via `operator<<` on `Token` in `token.hpp`, which is not part of this model.
- Pragma dispatch: which handler a `#pragma` reaches is modelled from its first word and the rest (`Trampoline.Resolve`). A top-level handler named by the first word takes the directive. Clang's lexing of the pragma's words is not modelled.
- Clang's own pragma handlers (`once`, `push_macro`, the `GCC` namespace, ...) are opaque `Native` handlers. Handling one only discards its directive; its effect on Clang's state is not modelled.
- Trampoline.CallbackRoundTrip: the path from the macro's arguments to the `cmonster_pragma` directive is not modelled. `__VA_ARGS__` is a plain parameter in the synthesised body (lines 353-356), so the arguments are macro-expanded before substitution. `_CMONSTER_PRAGMA(...) _Pragma(#__VA_ARGS__)` (lines 218-219) then turns them into a string, and `_Pragma` lexes that string again. The LeadingSpace and StartOfLine flags the saver records are those of the re-lexed tokens, not the arguments' (lines 107-109). The lemma starts from the directive's tokens, so with `#define X 1` the host of `NAME(X)` gets `1`, not `X`.
- Re-entrancy of callbacks: `Host` is a pure function of the callback and its arguments. A callback that re-enters the preprocessor, through a nested `tokenize` or a callback-macro expansion, is not modelled. The source passes the saver's own buffer to the callback by reference (line 142). A nested `cmonster_pragma` during the call would clear and refill that buffer (line 103); the model hands the callback a copy.
- `TokenIteratorImpl::next` returns a reference to its `m_current` member (lines 465-470), which the following `next()` overwrites. The model returns token values, so this aliasing is not modelled.
- MacroName.ParseName: names are sequences of characters, but `std::string` indexes bytes. For a name with multi-byte UTF-8 characters before a stray comma, the model's `UnexpectedComma` column counts characters where the program counts bytes.
- Engine.IdenticalTo: `MacroInfo::isIdenticalTo` is Clang's. The model compares the flags, the parameters and the bodies (`Engine.SameBody`). It does not model Clang's GNU-varargs flag, which the wrapper never sets.
- The Python bindings, exception translation and everything outside `preprocessor.cpp`.

A conflicting redefinition is not an error. When the name is already defined, `add_macro_definition` keeps the existing macro and returns whether the new definition is identical to it (lines 284-291). For a conflicting definition that is false. The model does the same (`Engine.DefinitionRule`, `Engine.ConflictKeepsFirst`).
