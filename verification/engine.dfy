/**
 * The state the wrapper keeps in, or installs into, the Clang preprocessor:
 * the macro table, the pragma-handler table, the token-saver buffer and the
 * include-depth counter; and the operations that install macros and pragma
 * handlers (`define`, `add_macro_definition`, `add_macro_function`,
 * `add_pragma`).
 */
module Engine {
  import opened Outcomes
  import opened Tokens
  import opened FileDepth
  import MacroName

  /** An opaque handle on a host-supplied callback (`FunctionMacro`); a null pointer is `None`. */
  type CallbackId = nat

  datatype MacroInfo = MacroInfo(
    functionLike: bool,
    variadic: bool,
    params: seq<string>,
    body: seq<Token>,
    endLoc: Option<SourceLoc>)

  /**
   * Two macro bodies `MacroInfo::isIdenticalTo` accepts: as many tokens, each
   * of the same kind and spelling as its partner; the LeadingSpace and
   * StartOfLine flags must agree on every token but the first. Where either
   * body was written does not matter.
   */
  predicate SameBody(a: seq<Token>, b: seq<Token>)
  {
    |a| == |b|
    && forall i :: 0 <= i < |a| ==>
         && a[i].kind == b[i].kind && a[i].spelling == b[i].spelling
         && (i != 0 ==> a[i].leadingSpace == b[i].leadingSpace && a[i].startOfLine == b[i].startOfLine)
  }

  /** `MacroInfo::isIdenticalTo`: same shape, same parameters and the same body. */
  predicate IdenticalTo(a: MacroInfo, b: MacroInfo)
  {
    a.functionLike == b.functionLike && a.variadic == b.variadic
    && a.params == b.params && SameBody(a.body, b.body)
  }

  /** A pragma handler is found by its namespace (`None` at top level) and its name. */
  datatype PragmaKey = PragmaKey(namespace: Option<string>, name: string)

  /**
   * The wrapper's two handler kinds, and the handlers Clang registers itself
   * (`once`, `push_macro`, the `GCC` and `STDC` namespaces, ...), whose effect
   * is Clang's business.
   */
  datatype Handler = TokenSaver | Dynamic(callback: CallbackId) | Native(id: nat)

  datatype Engine = Engine(
    macros: map<string, MacroInfo>,
    pragmas: map<PragmaKey, Handler>,
    saved: seq<Token>,    // the token saver's buffer
    depth: Depth)         // the file-change counter

  const VaArgs: string := "__VA_ARGS__"
  const Ellipsis: string := "..."
  const SaverKey: PragmaKey := PragmaKey(None, "cmonster_pragma")
  const CallbackNamespace: string := "cmonster"
  /** The helper macro the predefines declare: `_CMONSTER_PRAGMA(...) _Pragma(#__VA_ARGS__)`. */
  const PragmaMacroName: string := "_CMONSTER_PRAGMA"

  /**
   * A fresh wrapper: what Clang's new preprocessor already holds (its builtin
   * macros such as `__LINE__` and `__FILE__`, and its builtin pragma handlers
   * such as `once` and the `GCC` namespace), the token saver added at top
   * level, depth 0. Clang's builtin table is a tree with no `cmonster_pragma`
   * namespace.
   */
  function Initial(builtins: map<string, MacroInfo>, builtinPragmas: map<PragmaKey, Handler>): (e: Engine)
    requires CoherentTable(builtinPragmas)
    requires forall k :: k in builtinPragmas ==> k.namespace != Some(SaverKey.name)
    ensures SaverRegistered(e) && Coherent(e) && e.depth == 0 && e.saved == []
    ensures e.macros == builtins
    ensures forall k :: k != SaverKey ==> (k in e.pragmas <==> k in builtinPragmas)
    ensures forall k :: k != SaverKey && k in builtinPragmas ==> e.pragmas[k] == builtinPragmas[k]
  {
    Engine(builtins, builtinPragmas[SaverKey := TokenSaver], [], 0)
  }

  predicate SaverRegistered(e: Engine)
  {
    SaverKey in e.pragmas && e.pragmas[SaverKey] == TokenSaver
  }

  /**
   * Clang keeps pragma handlers in a tree: a top-level name holds either a
   * handler or a namespace of handlers, never both. In the flat table, no
   * namespaced key shares its namespace with a top-level handler.
   */
  predicate CoherentTable(pragmas: map<PragmaKey, Handler>)
  {
    forall k :: k in pragmas && k.namespace.Some? ==> PragmaKey(None, k.namespace.value) !in pragmas
  }

  predicate Coherent(e: Engine)
  {
    CoherentTable(e.pragmas)
  }

  // ---------------------------------------------------------------------------
  // add_macro_definition
  // ---------------------------------------------------------------------------

  /**
   * The parameter list of a macro: none for an object-like macro or an empty
   * list; otherwise one per argument, the last becoming `__VA_ARGS__` (and the
   * macro variadic) when it is `...`.
   */
  function Params(isFunction: bool, args: seq<string>): (r: (bool, seq<string>))
  {
    if isFunction && args != [] then
      var variadic := args[|args| - 1] == Ellipsis;
      (variadic, if variadic then args[..|args| - 1] + [VaArgs] else args)
    else
      (false, [])
  }

  /** The `MacroInfo` that `add_macro_definition` allocates before looking at the table. */
  function BuildMacro(isFunction: bool, args: seq<string>, value: seq<Token>): MacroInfo
  {
    var (variadic, params) := Params(isFunction, args);
    MacroInfo(isFunction, variadic, params, value,
              if value == [] then None else Some(value[|value| - 1].loc))
  }

  /** `add_macro_definition`: install unless the name is taken; report whether it was installed or identical. */
  function AddMacroDefinition(e: Engine, name: string, value: seq<Token>,
                              args: seq<string>, isFunction: bool): (Engine, bool)
  {
    var m := BuildMacro(isFunction, args, value);
    if name in e.macros then (e, IdenticalTo(m, e.macros[name]))
    else (e.(macros := e.macros[name := m]), true)
  }

  /** `Preprocessor::define(name, value)`, given the tokens `tokenize(value)` produced. */
  function Define(e: Engine, name: string, value: seq<Token>): Result<(Engine, bool)>
  {
    match MacroName.ParseName(name)
    case Err(err) => Err(err)
    case Ok(sig) => Ok(AddMacroDefinition(e, sig.name, value, sig.args, sig.isFunction))
  }

  /** What `add_macro_definition` builds from a parameter list and a body. */
  lemma MacroShape(isFunction: bool, args: seq<string>, value: seq<Token>)
    ensures var m := BuildMacro(isFunction, args, value);
            && m.functionLike == isFunction
            && m.body == value
            && (value == [] <==> m.endLoc.None?)
            && (value != [] ==> m.endLoc == Some(value[|value| - 1].loc))
            && (!isFunction || args == [] ==> m.params == [] && !m.variadic)
            && (isFunction && args != [] ==>
                  && |m.params| == |args|
                  && (m.variadic <==> args[|args| - 1] == Ellipsis)
                  && (forall i :: 0 <= i < |args| - 1 ==> m.params[i] == args[i])
                  && m.params[|args| - 1] == (if m.variadic then VaArgs else args[|args| - 1]))
  {
  }

  /**
   * The definition rule: a taken name leaves the whole engine unchanged and
   * reports whether the new definition is identical to the existing one (an
   * incompatible one gives false, not an error); a free name is bound to the
   * new macro, nothing else changes, and the result is true.
   */
  lemma DefinitionRule(e: Engine, name: string, value: seq<Token>, args: seq<string>, isFunction: bool)
    ensures var (e', ok) := AddMacroDefinition(e, name, value, args, isFunction);
            && (name in e.macros ==>
                  e' == e && (ok <==> IdenticalTo(BuildMacro(isFunction, args, value), e.macros[name])))
            && (name !in e.macros ==>
                  && ok
                  && e'.macros.Keys == e.macros.Keys + {name}
                  && e'.macros[name] == BuildMacro(isFunction, args, value)
                  && (forall n :: n in e.macros ==> e'.macros[n] == e.macros[n])
                  && e'.pragmas == e.pragmas && e'.saved == e.saved && e'.depth == e.depth)
  {
  }

  /** Defining the same macro again, with a body that compares the same, succeeds and changes nothing. */
  lemma DefineIdempotent(e: Engine, name: string, value: seq<Token>, value': seq<Token>)
    requires Define(e, name, value).Ok? && Define(e, name, value).value.1
    requires SameBody(value, value')
    ensures var e1 := Define(e, name, value).value.0;
            Define(e1, name, value') == Ok((e1, true))
  {
    var sig := MacroName.ParseName(name).value;
    var m := BuildMacro(sig.isFunction, sig.args, value);
    var m' := BuildMacro(sig.isFunction, sig.args, value');
    assert IdenticalTo(m', m);
    if sig.name in e.macros {
      var existing := e.macros[sig.name];
      assert IdenticalTo(m, existing);
      SameBodyTransitive(value', value, existing.body);
    }
  }

  /** Redefining a name with a different body is refused and the first definition stays. */
  lemma ConflictKeepsFirst(e: Engine, name: string, v1: seq<Token>, v2: seq<Token>)
    requires !(|name| > 0 && name[|name| - 1] == ')')
    requires name !in e.macros
    requires !SameBody(v1, v2)
    ensures var e1 := Define(e, name, v1).value.0;
            && e1.macros[name].body == v1
            && Define(e1, name, v2) == Ok((e1, false))
  {
  }

  /** `define("F(a, ...)", value)` installs a variadic macro F whose parameters are `a` and `__VA_ARGS__`. */
  lemma DefineVariadic(e: Engine, value: seq<Token>)
    requires "F" !in e.macros
    ensures Define(e, "F(a, ...)", value).Ok?
    ensures var (e', ok) := Define(e, "F(a, ...)", value).value;
            && ok
            && "F" in e'.macros
            && e'.macros["F"] == MacroInfo(true, true, ["a", VaArgs], value,
                                           if value == [] then None else Some(value[|value| - 1].loc))
  {
    MacroName.EllipsisName();
    assert ["a", "..."][..1] + [VaArgs] == ["a", VaArgs];
  }

  lemma SameBodyTransitive(a: seq<Token>, b: seq<Token>, c: seq<Token>)
    requires SameBody(a, b) && SameBody(b, c)
    ensures SameBody(a, c)
  {
  }

  /**
   * The first body token's whitespace flags do not matter: redefining an
   * object-like macro with only those flags changed is accepted as identical.
   */
  lemma FirstTokenFlagsIgnored(e: Engine, name: string, t: Token, rest: seq<Token>, ls: bool, sol: bool)
    requires !(|name| > 0 && name[|name| - 1] == ')')
    requires name !in e.macros
    ensures var e1 := Define(e, name, [t] + rest).value.0;
            Define(e1, name, [t.(leadingSpace := ls, startOfLine := sol)] + rest) == Ok((e1, true))
  {
    var v1 := [t] + rest;
    var v2 := [t.(leadingSpace := ls, startOfLine := sol)] + rest;
    assert forall i :: 1 <= i < |v1| ==> v1[i] == v2[i];
    assert SameBody(v2, v1);
  }

  /** A later body token whose flags differ makes the bodies different. */
  lemma LaterTokenFlagsCount(a: seq<Token>, b: seq<Token>, i: nat)
    requires |a| == |b| && 0 < i < |a|
    requires a[i].leadingSpace != b[i].leadingSpace || a[i].startOfLine != b[i].startOfLine
    ensures !SameBody(a, b)
  {
  }

  // ---------------------------------------------------------------------------
  // add_pragma / add_macro_function
  // ---------------------------------------------------------------------------

  /** Where `add_pragma` registers a handler: under `cmonster` for callback macros, at top level otherwise. */
  function HandlerKey(name: string, withNamespace: bool): PragmaKey
  {
    PragmaKey(if withNamespace then Some(CallbackNamespace) else None, name)
  }

  /** The table without namespace `ns`: what is left once a top-level handler named `ns` replaces it. */
  function WithoutNamespace(pragmas: map<PragmaKey, Handler>, ns: string): map<PragmaKey, Handler>
  {
    map k | k in pragmas && k.namespace != Some(ns) :: pragmas[k]
  }

  /**
   * `add_pragma`: a null callback registers nothing and gives false. Otherwise
   * a `DynamicPragmaHandler` for the callback is registered and the result is
   * true. Clang's `AddPragmaHandler` (release build) replaces a handler of the
   * same name; a top-level handler also replaces a namespace of that name with
   * all its handlers; a namespaced handler cannot be added while a top-level
   * handler holds the namespace's name.
   */
  function AddPragma(e: Engine, name: string, callback: Option<CallbackId>, withNamespace: bool)
    : (r: (Engine, Result<bool>))
    ensures callback.None? ==> r == (e, Ok(false))
    ensures callback.Some? && withNamespace && PragmaKey(None, CallbackNamespace) in e.pragmas ==>
              r == (e, Err(NotANamespace))
    ensures callback.Some? && !(withNamespace && PragmaKey(None, CallbackNamespace) in e.pragmas) ==>
              var key := HandlerKey(name, withNamespace);
              && r.1 == Ok(true)
              && key in r.0.pragmas && r.0.pragmas[key] == Dynamic(callback.value)
              && (forall k :: k != key ==>
                    (k in r.0.pragmas <==> k in e.pragmas && (withNamespace || k.namespace != Some(name))))
              && (forall k :: k != key && k in r.0.pragmas ==> r.0.pragmas[k] == e.pragmas[k])
              && r.0.macros == e.macros && r.0.saved == e.saved && r.0.depth == e.depth
  {
    match callback
    case None => (e, Ok(false))
    case Some(cb) =>
      if withNamespace then
        if PragmaKey(None, CallbackNamespace) in e.pragmas then (e, Err(NotANamespace))
        else (e.(pragmas := e.pragmas[HandlerKey(name, true) := Dynamic(cb)]), Ok(true))
      else
        (e.(pragmas := WithoutNamespace(e.pragmas, name)[HandlerKey(name, false) := Dynamic(cb)]), Ok(true))
  }

  /** The string literal that names the per-callback pragma: `"cmonster NAME"`. */
  function QualifiedName(name: string): string
  {
    "\"" + CallbackNamespace + " " + name + "\""
  }

  /**
   * The body `add_macro_function` synthesises:
   * `_CMONSTER_PRAGMA ( cmonster_pragma __VA_ARGS__ ) _Pragma ( "cmonster NAME" )`,
   * only `__VA_ARGS__` carrying a leading space.
   */
  function CallbackBody(name: string): seq<Token>
  {
    [ Synthesised(Identifier, PragmaMacroName),
      Synthesised(LParen, "("),
      Synthesised(Identifier, SaverKey.name),
      Synthesised(Identifier, VaArgs).(leadingSpace := true),
      Synthesised(RParen, ")"),
      Synthesised(Identifier, "_Pragma"),
      Synthesised(LParen, "("),
      Synthesised(StringLiteral, QualifiedName(name)),
      Synthesised(RParen, ")") ]
  }

  /** The variadic macro `add_macro_function` installs under NAME. */
  function CallbackMacro(name: string): MacroInfo
  {
    var body := CallbackBody(name);
    MacroInfo(true, true, [VaArgs], body, Some(body[|body| - 1].loc))
  }

  /**
   * `add_macro_function`: with a null callback, false and nothing registered.
   * Otherwise the pragma handler is registered in the `cmonster` namespace
   * first; then an already defined name throws (leaving the handler
   * registered), and a free name gets the callback macro.
   */
  function AddMacroFunction(e: Engine, name: string, callback: Option<CallbackId>): (Engine, Result<bool>)
  {
    var (e1, registered) := AddPragma(e, name, callback, true);
    if registered.Err? then (e, Err(registered.error))
    else if !registered.value then (e, Ok(false))
    else if name in e1.macros then (e1, Err(MacroAlreadyDefined))
    else (e1.(macros := e1.macros[name := CallbackMacro(name)]), Ok(true))
  }

  /**
   * The outcomes of `add_macro_function`: a null callback, a `cmonster`
   * namespace taken by a top-level handler, an already defined name (the
   * handler stays registered), and success.
   */
  lemma MacroFunctionOutcomes(e: Engine, name: string, callback: Option<CallbackId>)
    ensures var (e', r) := AddMacroFunction(e, name, callback);
            && (callback.None? ==> e' == e && r == Ok(false))
            && (callback.Some? && PragmaKey(None, CallbackNamespace) in e.pragmas ==>
                  e' == e && r == Err(NotANamespace))
            && (callback.Some? && PragmaKey(None, CallbackNamespace) !in e.pragmas ==>
                  && e'.pragmas == e.pragmas[PragmaKey(Some(CallbackNamespace), name) := Dynamic(callback.value)]
                  && e'.saved == e.saved && e'.depth == e.depth
                  && (name in e.macros ==> r == Err(MacroAlreadyDefined) && e'.macros == e.macros)
                  && (name !in e.macros ==> r == Ok(true) && e'.macros == e.macros[name := CallbackMacro(name)]))
  {
  }

  /** Where a `_Pragma("NS NAME")` string literal dispatches: namespace before the first space, name after. */
  function PragmaKeyOf(literal: string): Option<PragmaKey>
  {
    if |literal| >= 2 && literal[0] == '"' && literal[|literal| - 1] == '"' then
      var text := literal[1..|literal| - 1];
      match MacroName.FirstIndex(text, ' ')
      case None => Some(PragmaKey(None, text))
      case Some(i) => Some(PragmaKey(Some(text[..i]), text[i + 1..]))
    else None
  }

  /**
   * The installed macro really chains the two handlers: its body is nine
   * tokens with a leading space only on `__VA_ARGS__`; its capture step names
   * the token saver, and its string literal dispatches to exactly the key
   * under which the callback's handler was just registered.
   */
  lemma CallbackMacroDispatches(e: Engine, name: string, cb: CallbackId)
    requires SaverRegistered(e) && name !in e.macros && PragmaKey(None, CallbackNamespace) !in e.pragmas
    ensures var (e', r) := AddMacroFunction(e, name, Some(cb));
            var body := e'.macros[name].body;
            && r == Ok(true)
            && e'.macros[name].functionLike && e'.macros[name].variadic
            && e'.macros[name].params == [VaArgs]
            && |body| == 9
            && (forall i :: 0 <= i < 9 ==> (body[i].leadingSpace <==> i == 3))
            && body[0].spelling == PragmaMacroName && body[3].spelling == VaArgs
            && SaverRegistered(e') && PragmaKey(None, body[2].spelling) == SaverKey
            && PragmaKeyOf(body[7].spelling) == Some(PragmaKey(Some(CallbackNamespace), name))
            && e'.pragmas[PragmaKey(Some(CallbackNamespace), name)] == Dynamic(cb)
  {
    var lit := QualifiedName(name);
    var text := lit[1..|lit| - 1];
    assert text == CallbackNamespace + " " + name;
    assert text[8] == ' ';
    assert MacroName.Lacks(text[..8], ' ') by {
      assert text[..8] == CallbackNamespace;
    }
    MacroName.FirstIndexIs(text, ' ', 8);
    assert text[..8] == CallbackNamespace;
    assert text[9..] == name;
  }

  /**
   * Every installer keeps the token saver registered, except a top-level
   * `add_pragma` named `cmonster_pragma`, which replaces it.
   */
  lemma InstallersKeepSaver(e: Engine, name: string, value: seq<Token>, cb: Option<CallbackId>, withNamespace: bool)
    requires SaverRegistered(e)
    ensures Define(e, name, value).Ok? ==> SaverRegistered(Define(e, name, value).value.0)
    ensures SaverRegistered(AddMacroFunction(e, name, cb).0)
    ensures withNamespace || name != SaverKey.name ==> SaverRegistered(AddPragma(e, name, cb, withNamespace).0)
    ensures cb.Some? && !withNamespace && name == SaverKey.name ==>
              !SaverRegistered(AddPragma(e, name, cb, withNamespace).0)
  {
  }

  /** Every installer keeps the handler table a tree: no name is both a handler and a namespace. */
  lemma InstallersKeepCoherent(e: Engine, name: string, value: seq<Token>, cb: Option<CallbackId>, withNamespace: bool)
    requires Coherent(e)
    ensures Define(e, name, value).Ok? ==> Coherent(Define(e, name, value).value.0)
    ensures Coherent(AddMacroFunction(e, name, cb).0)
    ensures Coherent(AddPragma(e, name, cb, withNamespace).0)
  {
    AddPragmaKeepsCoherent(e, name, cb, withNamespace);
    AddPragmaKeepsCoherent(e, name, cb, true);
  }

  lemma AddPragmaKeepsCoherent(e: Engine, name: string, cb: Option<CallbackId>, withNamespace: bool)
    requires Coherent(e)
    ensures Coherent(AddPragma(e, name, cb, withNamespace).0)
  {
    var e' := AddPragma(e, name, cb, withNamespace).0;
    if cb.Some? && !withNamespace {
      forall k | k in e'.pragmas && k.namespace.Some?
        ensures PragmaKey(None, k.namespace.value) !in e'.pragmas
      {
        assert k in e.pragmas && k.namespace != Some(name);
      }
    }
  }

  /**
   * A top-level `add_pragma("cmonster", cb)` takes over the whole `cmonster`
   * namespace: every callback-macro handler is gone, and a later
   * `add_macro_function` stops at the clash.
   */
  lemma TopLevelTakesNamespace(e: Engine, cb: CallbackId, later: string, cb': Option<CallbackId>)
    ensures var e' := AddPragma(e, CallbackNamespace, Some(cb), false).0;
            && e'.pragmas[PragmaKey(None, CallbackNamespace)] == Dynamic(cb)
            && (forall k :: k in e'.pragmas ==> k.namespace != Some(CallbackNamespace))
            && (cb'.Some? ==> AddMacroFunction(e', later, cb') == (e', Err(NotANamespace)))
  {
  }
}
