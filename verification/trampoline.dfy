/**
 * The pragma trampoline that carries a callback macro's arguments, once
 * expanded and lexed again from `_Pragma`'s string, to the host:
 * `TokenSaverPragmaHandler` captures the tokens of a `#pragma cmonster_pragma`
 * directive into a one-slot buffer, and `DynamicPragmaHandler` hands that
 * buffer to its callback and enters the callback's result tokens back into
 * the preprocessor.
 *
 * The preprocessor's input is a token sequence. Inside a directive, running
 * out of tokens reads as the end of the directive (`eod`).
 */
module Trampoline {
  import opened Outcomes
  import opened Tokens
  import opened Engine

  /** The host side of a `FunctionMacro`: called with the saved arguments, it returns tokens or raises. */
  type Host = (CallbackId, seq<Token>) -> Result<seq<Token>>

  /** The token `Lex` returns at position `i` of a directive. */
  function LexAt(s: seq<Token>, i: nat): (t: Token)
    ensures i < |s| ==> t == s[i]
    ensures i >= |s| ==> t.kind == Eod
  {
    if i < |s| then s[i] else EodToken
  }

  /** What follows the directive's `eod`: the input after the first `eod`, or nothing if there is none. */
  function AfterDirective(s: seq<Token>): seq<Token>
  {
    if s == [] then []
    else if s[0].kind == Eod then s[1..]
    else AfterDirective(s[1..])
  }

  /** A directive is the tokens before its `eod`, then that `eod`, then the rest of the input. */
  lemma {:induction false} DirectiveSplit(s: seq<Token>)
    ensures var d := Before(s, Eod);
            && (|d| < |s| ==> s == d + [s[|d|]] + AfterDirective(s))
            && (|d| == |s| ==> AfterDirective(s) == [])
  {
    if s != [] && s[0].kind != Eod {
      DirectiveSplit(s[1..]);
      assert s == [s[0]] + s[1..];
    }
  }

  /**
   * `TokenSaverPragmaHandler::HandlePragma`: clear the buffer, then append
   * every token lexed until `eod`. Returns the new buffer and the input after
   * the directive.
   */
  method SaveDirective(stream: seq<Token>) returns (saved: seq<Token>, rest: seq<Token>)
    ensures saved == Before(stream, Eod)
    ensures rest == AfterDirective(stream)
  {
    saved := [];
    var i := 0;
    var token := LexAt(stream, i);
    while token.kind != Eod
      invariant i <= |stream|
      invariant saved == stream[..i]
      invariant forall j :: 0 <= j < i ==> stream[j].kind != Eod
      invariant token == LexAt(stream, i)
      decreases |stream| - i
    {
      saved := saved + [token];
      i := i + 1;
      token := LexAt(stream, i);
    }
    BeforeFirst(stream, Eod, i);
    DirectiveSplit(stream);
    rest := if i < |stream| then stream[i + 1..] else [];
  }

  /** The saver handler as a state change: the buffer becomes this directive's arguments. */
  function SaverStep(e: Engine, stream: seq<Token>): (Engine, seq<Token>)
  {
    (e.(saved := Before(stream, Eod)), AfterDirective(stream))
  }

  /**
   * The tokens `DynamicPragmaHandler` enters into the preprocessor for a
   * callback result: the result in order, every token after the first marked
   * as preceded by a space.
   */
  function Injected(result: seq<Token>): (r: seq<Token>)
    ensures |r| == |result|
    ensures |r| > 0 ==> r[0] == result[0]
    ensures forall i :: 1 <= i < |r| ==> r[i] == WithLeadingSpace(result[i])
  {
    if |result| <= 1 then result
    else Injected(result[..|result| - 1]) + [WithLeadingSpace(result[|result| - 1])]
  }

  /** The copy loop of `DynamicPragmaHandler::HandlePragma`, building the token array it enters. */
  method InjectTokens(result: seq<Token>) returns (tokens: seq<Token>)
    requires |result| > 0
    ensures tokens == Injected(result)
  {
    tokens := [result[0]];
    var i := 1;
    assert result[..1] == [result[0]];
    while i < |result|
      invariant 1 <= i <= |result|
      invariant tokens == Injected(result[..i])
    {
      assert result[..i + 1][..i] == result[..i];
      tokens := tokens + [WithLeadingSpace(result[i])];
      i := i + 1;
    }
    assert result[..i] == result;
  }

  /**
   * `DynamicPragmaHandler::HandlePragma`: discard the rest of the directive,
   * call the host with the saved buffer, and put the injected result in front
   * of the remaining input. A host error propagates.
   */
  function DynamicStep(e: Engine, cb: CallbackId, stream: seq<Token>, host: Host): Result<seq<Token>>
  {
    match host(cb, e.saved)
    case Err(err) => Err(err)
    case Ok(result) => Ok(Injected(result) + AfterDirective(stream))
  }

  /**
   * The handler Clang runs for a `#pragma` whose first word and rest read as
   * `key`: a top-level handler named by the first word takes the whole
   * directive; otherwise the handler registered under the namespace and name.
   */
  function Resolve(e: Engine, key: PragmaKey): (r: Option<Handler>)
    ensures key.namespace.None? ==> r == (if key in e.pragmas then Some(e.pragmas[key]) else None)
  {
    match key.namespace
    case None => if key in e.pragmas then Some(e.pragmas[key]) else None
    case Some(ns) =>
      if PragmaKey(None, ns) in e.pragmas then Some(e.pragmas[PragmaKey(None, ns)])
      else if key in e.pragmas then Some(e.pragmas[key])
      else None
  }

  /**
   * Handling `#pragma` read as `key`; a key with no handler, or with one of
   * Clang's own handlers, only discards the directive as far as the wrapper's
   * state goes. Returns the engine and the input the preprocessor reads next.
   */
  function HandlePragma(e: Engine, key: PragmaKey, stream: seq<Token>, host: Host): Result<(Engine, seq<Token>)>
  {
    match Resolve(e, key)
    case None => Ok((e, AfterDirective(stream)))
    case Some(handler) =>
      match handler
      case TokenSaver => Ok(SaverStep(e, stream))
      case Native(_) => Ok((e, AfterDirective(stream)))
      case Dynamic(cb) =>
        match DynamicStep(e, cb, stream, host)
        case Err(err) => Err(err)
        case Ok(next) => Ok((e, next))
  }

  /**
   * The saver's buffer holds exactly the directive's tokens before `eod`, what
   * it held before is gone, and nothing else in the engine changes.
   */
  lemma SaverReplacesBuffer(e: Engine, args: seq<Token>, rest: seq<Token>, host: Host)
    requires SaverRegistered(e)
    requires forall i :: 0 <= i < |args| ==> args[i].kind != Eod
    ensures var out := HandlePragma(e, SaverKey, args + [EodToken] + rest, host);
            && out.Ok?
            && out.value.0 == e.(saved := args)
            && out.value.1 == rest
  {
    var s := args + [EodToken] + rest;
    BeforeFirst(s, Eod, |args|);
    DirectiveSplit(s);
    assert s[..|args|] == args;
    assert s[|args| + 1..] == rest;
  }

  /**
   * A callback result enters the preprocessor as `Injected(result)` ahead of
   * the remaining input; an empty result enters nothing; a host error stops
   * the expansion with that error.
   */
  lemma DynamicInjects(e: Engine, key: PragmaKey, cb: CallbackId, rest: seq<Token>, host: Host)
    requires Resolve(e, key) == Some(Dynamic(cb))
    ensures var out := HandlePragma(e, key, [EodToken] + rest, host);
            && (host(cb, e.saved).Err? ==> out == Err(host(cb, e.saved).error))
            && (host(cb, e.saved).Ok? ==> out == Ok((e, Injected(host(cb, e.saved).value) + rest)))
            && (host(cb, e.saved) == Ok([]) ==> out == Ok((e, rest)))
  {
    assert ([EodToken] + rest)[1..] == rest;
    assert Injected([]) + rest == rest;
  }

  /**
   * The whole round trip of a callback macro: after `add_macro_function`
   * installed NAME for `cb`, the two pragmas its expansion produces pass
   * exactly the tokens of the `cmonster_pragma` directive (`args`) to the
   * host and continue with the injected result, leaving those tokens in the
   * saver's buffer.
   */
  lemma {:induction false} CallbackRoundTrip(e: Engine, name: string, cb: CallbackId,
                                            args: seq<Token>, rest: seq<Token>, host: Host)
    requires SaverRegistered(e) && name !in e.macros && PragmaKey(None, CallbackNamespace) !in e.pragmas
    requires forall i :: 0 <= i < |args| ==> args[i].kind != Eod
    ensures var e1 := AddMacroFunction(e, name, Some(cb)).0;
            var key := PragmaKeyOf(e1.macros[name].body[7].spelling).value;
            var saved := HandlePragma(e1, PragmaKey(None, e1.macros[name].body[2].spelling),
                                      args + [EodToken] + [EodToken] + rest, host);
            && saved.Ok?
            && saved.value.0.saved == args
            && HandlePragma(saved.value.0, key, saved.value.1, host)
               == match host(cb, args)
                  case Err(err) => Err(err)
                  case Ok(result) => Ok((saved.value.0, Injected(result) + rest))
  {
    var e1 := AddMacroFunction(e, name, Some(cb)).0;
    CallbackMacroDispatches(e, name, cb);
    var key := PragmaKey(Some(CallbackNamespace), name);
    assert args + [EodToken] + [EodToken] + rest == args + [EodToken] + ([EodToken] + rest);
    SaverReplacesBuffer(e1, args, [EodToken] + rest, host);
    var e2 := e1.(saved := args);
    assert HandlePragma(e1, SaverKey, args + [EodToken] + [EodToken] + rest, host)
        == Ok((e2, [EodToken] + rest));
    DynamicInjects(e2, key, cb, rest, host);
  }

  /**
   * A top-level `add_pragma("cmonster", cb')` after `add_macro_function(NAME,
   * cb)` captures the macro's dispatch: its `_Pragma("cmonster NAME")` now
   * runs `cb'`, not `cb`.
   */
  lemma {:induction false} TopLevelCapturesCallback(e: Engine, name: string, cb: CallbackId, cb': CallbackId,
                                                    rest: seq<Token>, host: Host)
    requires SaverRegistered(e) && name !in e.macros && PragmaKey(None, CallbackNamespace) !in e.pragmas
    ensures var e1 := AddMacroFunction(e, name, Some(cb)).0;
            var e2 := AddPragma(e1, CallbackNamespace, Some(cb'), false).0;
            var key := PragmaKeyOf(e2.macros[name].body[7].spelling).value;
            HandlePragma(e2, key, [EodToken] + rest, host)
              == match host(cb', e2.saved)
                 case Err(err) => Err(err)
                 case Ok(result) => Ok((e2, Injected(result) + rest))
  {
    CallbackMacroDispatches(e, name, cb);
    var e1 := AddMacroFunction(e, name, Some(cb)).0;
    var e2 := AddPragma(e1, CallbackNamespace, Some(cb'), false).0;
    assert e2.macros == e1.macros;
    var key := PragmaKey(Some(CallbackNamespace), name);
    assert Resolve(e2, key) == Some(Dynamic(cb'));
    DynamicInjects(e2, key, cb', rest, host);
  }

  /**
   * A fresh wrapper dispatches every builtin pragma (`#pragma once`, `#pragma
   * GCC poison`, ...) to Clang's handler for it, and `cmonster_pragma` to the
   * token saver.
   */
  lemma InitialDispatch(builtins: map<string, MacroInfo>, builtinPragmas: map<PragmaKey, Handler>, key: PragmaKey)
    requires CoherentTable(builtinPragmas)
    requires forall k :: k in builtinPragmas ==> k.namespace != Some(SaverKey.name)
    ensures var e := Initial(builtins, builtinPragmas);
            && Resolve(e, SaverKey) == Some(TokenSaver)
            && (key in builtinPragmas && key != SaverKey ==> Resolve(e, key) == Some(builtinPragmas[key]))
  {
    var e := Initial(builtins, builtinPragmas);
    if key in builtinPragmas && key != SaverKey && key.namespace.Some? {
      var top := PragmaKey(None, key.namespace.value);
      assert top !in builtinPragmas;
      assert top != SaverKey;
    }
  }
}
