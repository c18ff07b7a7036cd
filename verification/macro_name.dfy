/**
 * The parameter-list parser of `Preprocessor::define(name, value)`.
 *
 * A name ending in ')' is a function-like macro: the macro name is the text
 * before the first '(', and the text between that '(' and the final ')' is
 * split on commas into parameter names trimmed of ' '. A name not ending in
 * ')' is an object-like macro named by the whole string.
 *
 * `ParseName` is the declarative reading; `ParseMacroName` is the index loop
 * of the source, proved to compute the same thing.
 */
module MacroName {
  import opened Outcomes
  import opened Text

  datatype Signature = Signature(name: string, isFunction: bool, args: seq<string>)

  predicate Lacks(s: string, ch: char)
  {
    forall i :: 0 <= i < |s| ==> s[i] != ch
  }

  /** `std::string::find(ch)`: the index of the first `ch` in `s`, if any (see `FirstIndexSpec`). */
  function FirstIndex(s: string, ch: char): (r: Option<nat>)
    ensures r.Some? ==> r.value < |s|
  {
    if s == [] then None
    else if s[0] == ch then Some(0)
    else match FirstIndex(s[1..], ch)
      case None => None
      case Some(k) => Some(k + 1)
  }

  function TrimLeft(s: string): string
  {
    if |s| > 0 && s[0] == ' ' then TrimLeft(s[1..]) else s
  }

  function TrimRight(s: string): string
  {
    if |s| > 0 && s[|s| - 1] == ' ' then TrimRight(s[..|s| - 1]) else s
  }

  /** `s` without its leading and trailing ' ' (tabs and other white space are kept). */
  function Trim(s: string): string
  {
    TrimRight(TrimLeft(s))
  }

  /** The comma-separated pieces of `s`, in order, commas removed. */
  function Split(s: string): (ps: seq<string>)
    ensures |ps| >= 1
    decreases |s|
  {
    match FirstIndex(s, ',')
    case None => [s]
    case Some(c) => [s[..c]] + Split(s[c + 1..])
  }

  function TrimAll(ps: seq<string>): (r: seq<string>)
    ensures |r| == |ps| && forall i :: 0 <= i < |ps| ==> r[i] == Trim(ps[i])
  {
    if ps == [] then [] else [Trim(ps[0])] + TrimAll(ps[1..])
  }

  /** `ps` without its last piece when that piece is the empty string. */
  function DropEmptyLast(ps: seq<string>): seq<string>
    requires |ps| >= 1
  {
    if ps[|ps| - 1] == [] then ps[..|ps| - 1] else ps
  }

  /** The offset, in the comma-joined text, of the comma that ends piece `i`. */
  function PieceEnd(ps: seq<string>, i: nat): nat
    requires i < |ps|
  {
    if i == 0 then |ps[0]| else |ps[0]| + 1 + PieceEnd(ps[1..], i - 1)
  }

  /** What splitting a parameter list yields: the names, or the offset of a stray comma. */
  datatype Args = Names(names: seq<string>) | CommaAt(offset: nat)

  /** `r` preceded by the names `acc`, its comma offset shifted by `shift`. */
  function Prefixed(acc: seq<string>, shift: nat, r: Args): Args
  {
    match r
    case Names(ns) => Names(acc + ns)
    case CommaAt(o) => CommaAt(shift + o)
  }

  /**
   * The parameter names written in `s` (the text between the parentheses):
   * each comma-terminated piece must hold a non-blank name, and the text
   * after the last comma is a final name unless it is empty.
   */
  function ArgsOf(s: string): Args
    decreases |s|
  {
    if s == [] then Names([])
    else match FirstIndex(s, ',')
      case None => Names([Trim(s)])
      case Some(c) =>
        if IsBlank(s[..c]) then CommaAt(c)
        else Prefixed([Trim(s[..c])], c + 1, ArgsOf(s[c + 1..]))
  }

  /** The signature `define` reads from a macro name, or the `invalid_argument` it raises. */
  function ParseName(name: string): Result<Signature>
  {
    if |name| > 0 && name[|name| - 1] == ')' then
      match FirstIndex(name, '(')
      case None => Err(NoMatchingParen)
      case Some(l) =>
        // the first '(' comes before the final ')'
        FirstIndexSpec(name, '(');
        Bracketed(name, l, ArgsOf(name[l + 1..|name| - 1]))
    else
      Ok(Signature(name, false, []))
  }

  /** The signature of a function-like name whose first '(' is at `l` and whose parameter list splits as `a`. */
  function Bracketed(name: string, l: nat, a: Args): Result<Signature>
    requires l <= |name|
  {
    match a
    case Names(ns) => Ok(Signature(name[..l], true, ns))
    case CommaAt(o) => Err(UnexpectedComma(l + 1 + o))
  }

  // ---------------------------------------------------------------------------
  // What a parsed name means.
  // ---------------------------------------------------------------------------

  /**
   * A name ending in ')' is function-like. With no '(' it is rejected;
   * otherwise the macro name is the text before the first '(' and the
   * parameter list is the text up to the final ')'. The parameters are its
   * comma-separated pieces trimmed of ' ', less a final empty piece; a
   * non-final piece that is blank is rejected, reporting the column of the
   * comma that ends the first such piece.
   */
  lemma FunctionLikeName(name: string, l: nat)
    requires |name| > 0 && name[|name| - 1] == ')'
    requires l < |name| && name[l] == '(' && Lacks(name[..l], '(')
    ensures l + 1 <= |name| - 1
    ensures var ps := Split(name[l + 1..|name| - 1]);
            && (ParseName(name).Ok? <==> forall i :: 0 <= i < |ps| - 1 ==> !IsBlank(ps[i]))
            && (ParseName(name).Ok? ==>
                  ParseName(name).value == Signature(name[..l], true, TrimAll(DropEmptyLast(ps))))
            && (ParseName(name).Err? ==>
                  exists i :: 0 <= i < |ps| - 1 && IsBlank(ps[i])
                    && (forall j :: 0 <= j < i ==> !IsBlank(ps[j]))
                    && ParseName(name).error == UnexpectedComma(l + 1 + PieceEnd(ps, i)))
  {
    FirstIndexIs(name, '(', l);
    var inner := name[l + 1..|name| - 1];
    ParseNameOfArgs(name, l, ArgsOf(inner));
    ArgsAreTrimmedPieces(inner);
    StrayCommaIffBlankPiece(inner);
    StrayCommaColumn(inner);
  }

  /** A name not ending in ')' is an object-like macro named by the whole string. */
  lemma ObjectLikeName(name: string)
    requires name == [] || name[|name| - 1] != ')'
    ensures ParseName(name) == Ok(Signature(name, false, []))
  {
  }

  /** An empty parameter list gives no parameters; a trailing comma is dropped. */
  lemma EmptyAndTrailingComma()
    ensures ParseName("F()") == Ok(Signature("F", true, []))
    ensures ParseName("F(a,)") == Ok(Signature("F", true, ["a"]))
  {
    FunctionLikeOpen("F()");
    FunctionLikeOpen("F(a,)");
    assert "F(a,)"[2..4] == "a,";
    ArgsStep("a,", 1);
    assert "a,"[..1] == "a" && "a,"[2..] == "";
    assert Trim("a") == "a";
    assert ArgsOf("a,") == Names(["a"] + []);
    assert ["a"] + [] == ["a"];
  }

  /** A blank parameter list gives one empty name. */
  lemma BlankList()
    ensures ParseName("F( )") == Ok(Signature("F", true, [""]))
  {
    FunctionLikeOpen("F( )");
    assert "F( )"[2..3] == " ";
    ArgsLast(" ");
    assert TrimLeft(" ") == TrimLeft(" "[1..]);
  }

  /** Spaces around each name are trimmed. */
  lemma PaddedNames()
    ensures ParseName("F( a , b )") == Ok(Signature("F", true, ["a", "b"]))
  {
    FunctionLikeOpen("F( a , b )");
    assert "F( a , b )"[2..9] == " a , b ";
    PaddedArgs();
  }

  lemma PaddedArgs()
    ensures ArgsOf(" a , b ") == Names(["a", "b"])
  {
    assert " a , b "[..3] == " a " && " a , b "[4..] == " b ";
    assert " a "[1] == 'a';
    ArgsStep(" a , b ", 3);
    ArgsLast(" b ");
    TrimPadded();
    assert ["a"] + ["b"] == ["a", "b"];
  }

  lemma TrimPadded()
    ensures Trim(" a ") == "a" && Trim(" b ") == "b"
  {
    assert TrimLeft(" a ") == TrimLeft(" a "[1..]) && " a "[1..] == "a ";
    assert TrimRight("a ") == TrimRight("a "[..1]) && "a "[..1] == "a";
    assert TrimLeft(" b ") == TrimLeft(" b "[1..]) && " b "[1..] == "b ";
    assert TrimRight("b ") == TrimRight("b "[..1]) && "b "[..1] == "b";
  }

  /** A final `...` is read as a name like any other; `define` turns it into a variadic parameter. */
  lemma EllipsisName()
    ensures ParseName("F(a, ...)") == Ok(Signature("F", true, ["a", "..."]))
  {
    FunctionLikeOpen("F(a, ...)");
    assert "F(a, ...)"[2..8] == "a, ...";
    EllipsisArgs();
  }

  lemma EllipsisArgs()
    ensures ArgsOf("a, ...") == Names(["a", "..."])
  {
    assert "a, ..."[..1] == "a" && "a, ..."[2..] == " ...";
    assert "a"[0] == 'a';
    ArgsStep("a, ...", 1);
    ArgsLast(" ...");
    assert TrimLeft(" ...") == TrimLeft(" ..."[1..]) && " ..."[1..] == "...";
    assert Trim("a") == "a" && Trim(" ...") == "...";
    assert ["a"] + ["..."] == ["a", "..."];
  }

  /** A comma where a name should begin is rejected at that comma's column in the whole name. */
  lemma StrayCommas()
    ensures ParseName("F(a,,b)") == Err(UnexpectedComma(4))
    ensures ParseName("F(,a)") == Err(UnexpectedComma(2))
  {
    DoubleComma();
    LeadingComma();
  }

  lemma DoubleComma()
    ensures ParseName("F(a,,b)") == Err(UnexpectedComma(4))
  {
    FunctionLikeOpen("F(a,,b)");
    assert "F(a,,b)"[2..6] == "a,,b";
    ArgsStep("a,,b", 1);
    assert "a,,b"[..1] == "a" && "a,,b"[2..] == ",b";
    FirstIndexIs(",b", ',', 0);
    assert ",b"[..0] == "";
  }

  lemma LeadingComma()
    ensures ParseName("F(,a)") == Err(UnexpectedComma(2))
  {
    FunctionLikeOpen("F(,a)");
    assert "F(,a)"[2..4] == ",a";
    FirstIndexIs(",a", ',', 0);
    assert ",a"[..0] == "";
  }

  /** `F(...)`-shaped names in the quirks above: the first '(' is at index 1. */
  lemma FunctionLikeOpen(name: string)
    requires |name| >= 3 && name[0] == 'F' && name[1] == '(' && name[|name| - 1] == ')'
    ensures ParseName(name) == match ArgsOf(name[2..|name| - 1])
                               case Names(a) => Ok(Signature("F", true, a))
                               case CommaAt(o) => Err(UnexpectedComma(2 + o))
  {
    FirstIndexIs(name, '(', 1);
    assert name[..1] == "F";
  }

  /** A parameter list whose first piece ends at comma `c` and is not blank. */
  lemma ArgsStep(s: string, c: nat)
    requires c < |s| && s[c] == ',' && Lacks(s[..c], ',') && !IsBlank(s[..c])
    ensures ArgsOf(s) == Prefixed([Trim(s[..c])], c + 1, ArgsOf(s[c + 1..]))
  {
    FirstIndexIs(s, ',', c);
    ArgsAtComma(s, c);
  }

  /** One unfolding of `ArgsOf` at its first comma. */
  lemma ArgsAtComma(s: string, c: nat)
    requires FirstIndex(s, ',') == Some(c)
    ensures ArgsOf(s) == if IsBlank(s[..c]) then CommaAt(c)
                         else Prefixed([Trim(s[..c])], c + 1, ArgsOf(s[c + 1..]))
  {
  }

  /** One unfolding of `Split` at its first comma. */
  lemma SplitAtComma(s: string, c: nat)
    requires FirstIndex(s, ',') == Some(c)
    ensures Split(s) == [s[..c]] + Split(s[c + 1..])
  {
  }

  /** A parameter list with no comma is one name. */
  lemma ArgsLast(s: string)
    requires s != [] && Lacks(s, ',')
    ensures ArgsOf(s) == Names([Trim(s)])
  {
    FirstIndexNone(s, ',');
  }

  /** A name ending in ')' that holds no '(' is rejected. */
  lemma UnmatchedParen(name: string)
    requires |name| > 0 && name[|name| - 1] == ')' && Lacks(name, '(')
    ensures ParseName(name) == Err(NoMatchingParen)
  {
    FirstIndexNone(name, '(');
  }

  /** The names `ArgsOf` accepts are the trimmed pieces, less a final empty one. */
  lemma {:induction false} ArgsAreTrimmedPieces(s: string)
    ensures ArgsOf(s).Names? ==> ArgsOf(s).names == TrimAll(DropEmptyLast(Split(s)))
    decreases |s|
  {
    if s != [] {
      match FirstIndex(s, ',')
      case None =>
      case Some(c) =>
        ArgsAtComma(s, c);
        SplitAtComma(s, c);
        if !IsBlank(s[..c]) {
          var rest := s[c + 1..];
          ArgsAreTrimmedPieces(rest);
          var ps := Split(rest);
          assert Split(s) == [s[..c]] + ps;
          assert DropEmptyLast([s[..c]] + ps) == [s[..c]] + DropEmptyLast(ps) by {
            if ps[|ps| - 1] == [] {
              assert ([s[..c]] + ps)[..|ps|] == [s[..c]] + ps[..|ps| - 1];
            }
          }
          assert ([s[..c]] + DropEmptyLast(ps))[1..] == DropEmptyLast(ps);
        }
    }
  }

  /** `ArgsOf` rejects exactly the lists with a blank piece before some comma. */
  lemma {:induction false} StrayCommaIffBlankPiece(s: string)
    ensures ArgsOf(s).CommaAt? <==> exists i :: 0 <= i < |Split(s)| - 1 && IsBlank(Split(s)[i])
    decreases |s|
  {
    if s != [] {
      match FirstIndex(s, ',')
      case None =>
      case Some(c) =>
        ArgsAtComma(s, c);
        SplitAtComma(s, c);
        var rest := s[c + 1..];
        var ps := Split(rest);
        assert Split(s) == [s[..c]] + ps;
        if IsBlank(s[..c]) {
          assert Split(s)[0] == s[..c];
        } else {
          StrayCommaIffBlankPiece(rest);
          if ArgsOf(rest).CommaAt? {
            var j :| 0 <= j < |ps| - 1 && IsBlank(ps[j]);
            assert Split(s)[j + 1] == ps[j];
          }
          if exists i :: 0 <= i < |Split(s)| - 1 && IsBlank(Split(s)[i]) {
            var i :| 0 <= i < |Split(s)| - 1 && IsBlank(Split(s)[i]);
            assert i != 0;
            assert ps[i - 1] == Split(s)[i];
          }
        }
    }
  }

  /** A stray comma is reported at the comma that ends the first blank piece. */
  lemma {:induction false} StrayCommaColumn(s: string)
    ensures ArgsOf(s).CommaAt? ==>
              exists i :: 0 <= i < |Split(s)| - 1 && IsBlank(Split(s)[i])
                && (forall j :: 0 <= j < i ==> !IsBlank(Split(s)[j]))
                && ArgsOf(s).offset == PieceEnd(Split(s), i)
    decreases |s|
  {
    if s != [] {
      match FirstIndex(s, ',')
      case None =>
      case Some(c) =>
        ArgsAtComma(s, c);
        SplitAtComma(s, c);
        var rest := s[c + 1..];
        var ps := Split(rest);
        assert Split(s) == [s[..c]] + ps;
        assert Split(s)[1..] == ps;
        if IsBlank(s[..c]) {
          assert Split(s)[0] == s[..c];
          assert PieceEnd(Split(s), 0) == c;
        } else if ArgsOf(rest).CommaAt? {
          StrayCommaColumn(rest);
          var i :| 0 <= i < |ps| - 1 && IsBlank(ps[i])
                   && (forall j :: 0 <= j < i ==> !IsBlank(ps[j]))
                   && ArgsOf(rest).offset == PieceEnd(ps, i);
          assert Split(s)[i + 1] == ps[i];
          assert PieceEnd(Split(s), i + 1) == c + 1 + PieceEnd(ps, i);
          forall j | 0 <= j < i + 1 ensures !IsBlank(Split(s)[j]) {
            if j > 0 { assert Split(s)[j] == ps[j - 1]; }
          }
        }
    }
  }

  // ---------------------------------------------------------------------------
  // The parser as the source writes it: index arithmetic over the name.
  // ---------------------------------------------------------------------------

  /** `define(name, value)`'s reading of the name, with its parameter loop in `ScanArgs`. */
  method ParseMacroName(name: string) returns (r: Result<Signature>)
    ensures r == ParseName(name)
  {
    if !(|name| > 0 && name[|name| - 1] == ')') {
      return Ok(Signature(name, false, []));
    }
    var found := FirstIndex(name, '(');
    if found.None? {
      return Err(NoMatchingParen);
    }
    var lparen := found.value;
    FirstIndexSpec(name, '(');
    var a := ScanArgs(name, lparen);
    ParseNameOfArgs(name, lparen, a);
    match a
    case CommaAt(o) =>
      return Err(UnexpectedComma(lparen + 1 + o));
    case Names(args) =>
      return Ok(Signature(name[..lparen], true, args));
  }

  /**
   * The loop of `define(name, value)` that splits the parameter list between
   * the first '(' at `lparen` and the final ')': the names it collects, or
   * the offset of the stray comma it throws at.
   */
  method ScanArgs(name: string, lparen: nat) returns (a: Args)
    requires |name| > 0 && name[|name| - 1] == ')' && lparen + 1 <= |name| - 1
    ensures a == ArgsOf(name[lparen + 1..|name| - 1])
  {
    var args: seq<string> := [];
    var start := lparen + 1;
    var rparen := |name| - 1;
    PrefixedEmpty(ArgsOf(name[start..rparen]));
    while start < rparen
      invariant lparen + 1 <= start <= rparen
      invariant ArgsOf(name[lparen + 1..rparen])
             == Prefixed(args, start - (lparen + 1), ArgsOf(name[start..rparen]))
    {
      var step := NextArg(name, start, rparen);
      if step.Stray? {
        return CommaAt(step.column - (lparen + 1));
      }
      PrefixedCompose(args, [step.text], start - (lparen + 1), step.next - start,
                      ArgsOf(name[step.next..rparen]));
      args := args + [step.text];
      start := step.next;
    }
    assert name[start..rparen] == [];
    return Names(args);
  }

  /** One pass of the loop body: the next parameter name and where the scan resumes, or a stray comma. */
  datatype ArgStep = Arg(text: string, next: nat) | Stray(column: nat)

  method NextArg(name: string, start: nat, rparen: nat) returns (step: ArgStep)
    requires start < rparen == |name| - 1 && name[rparen] == ')'
    ensures step.Arg? ==>
              && start < step.next <= rparen
              && ArgsOf(name[start..rparen])
                 == Prefixed([step.text], step.next - start, ArgsOf(name[step.next..rparen]))
    ensures step.Stray? ==>
              && start <= step.column < rparen
              && ArgsOf(name[start..rparen]) == CommaAt(step.column - start)
  {
    var p := SkipSpaces(name, start, rparen);
    if name[p] == ',' {
      BlankPieceIsStrayComma(name, start, p, rparen);
      return Stray(p);
    }
    var comma := FindFrom(name, ',', p + 1);
    if comma.None? {
      var q := TrimEnd(name, p, rparen);
      LastPiece(name, start, p, q, rparen);
      LastPieceStep(name[p..q], ArgsOf(name[rparen..rparen]), rparen - start);
      return Arg(name[p..q], rparen);
    }
    var c := comma.value;
    var q := TrimEnd(name, p, c);
    NamedPiece(name, start, p, q, c, rparen);
    return Arg(name[p..q], c + 1);
  }

  /** `std::string::find(ch, from)`: the first index at or after `from` holding `ch`, if any. */
  method FindFrom(s: string, ch: char, from: nat) returns (r: Option<nat>)
    ensures r.Some? ==> from <= r.value < |s| && s[r.value] == ch && Lacks(s[from..r.value], ch)
    ensures r.None? ==> from >= |s| || Lacks(s[from..], ch)
  {
    if from >= |s| {
      return None;
    }
    FirstIndexSpec(s[from..], ch);
    match FirstIndex(s[from..], ch)
    case None =>
      return None;
    case Some(k) =>
      assert s[from..from + k] == s[from..][..k];
      return Some(from + k);
  }

  /** The first index at or after `from` that is `e` or does not hold a ' ': the start of the next name. */
  method SkipSpaces(name: string, from: nat, e: nat) returns (p: nat)
    requires from <= e < |name|
    ensures from <= p <= e && IsBlank(name[from..p])
    ensures p < e ==> name[p] != ' '
  {
    p := from;
    while p < e && name[p] == ' '
      invariant from <= p <= e
      invariant IsBlank(name[from..p])
    {
      assert name[from..p + 1] == name[from..p] + [name[p]];
      p := p + 1;
    }
  }

  /**
   * The exclusive end of `name[start..e]` with its trailing ' ' dropped,
   * scanning back from `e - 1`; `start` when that text is empty. Its first
   * character, which is not ' ', is never dropped.
   */
  method TrimEnd(name: string, start: nat, e: nat) returns (q: nat)
    requires 1 <= e < |name| && start <= e
    requires start < e ==> name[start] != ' '
    ensures start <= q <= e && IsBlank(name[q..e])
    ensures start < e ==> start < q && name[q - 1] != ' '
  {
    var end := e - 1;
    while end > start && name[end] == ' '
      invariant start <= end + 1 <= e
      invariant start < e ==> start <= end
      invariant IsBlank(name[end + 1..e])
    {
      end := end - 1;
    }
    q := end + 1;
  }

  // ---------------------------------------------------------------------------
  // Lemmas connecting the index loop to `ArgsOf`.
  // ---------------------------------------------------------------------------

  lemma {:induction false} FirstIndexSpec(s: string, ch: char)
    ensures FirstIndex(s, ch).Some? ==>
              var k := FirstIndex(s, ch).value;
              s[k] == ch && Lacks(s[..k], ch)
    ensures FirstIndex(s, ch).None? ==> Lacks(s, ch)
    decreases |s|
  {
    if s != [] && s[0] != ch {
      FirstIndexSpec(s[1..], ch);
      if FirstIndex(s[1..], ch).Some? {
        var k := FirstIndex(s[1..], ch).value;
        assert s[..k + 1] == [s[0]] + s[1..][..k];
      }
    }
  }

  lemma {:induction false} FirstIndexIs(s: string, ch: char, k: nat)
    requires k < |s| && s[k] == ch && Lacks(s[..k], ch)
    ensures FirstIndex(s, ch) == Some(k)
    decreases k
  {
    if k > 0 {
      assert s[0] == s[..k][0];
      assert s[1..][..k - 1] == s[1..k];
      assert Lacks(s[1..k], ch) by {
        forall i | 0 <= i < k - 1 ensures s[1..k][i] != ch {
          assert s[1..k][i] == s[..k][i + 1];
        }
      }
      FirstIndexIs(s[1..], ch, k - 1);
    }
  }

  lemma FirstIndexNone(s: string, ch: char)
    requires Lacks(s, ch)
    ensures FirstIndex(s, ch) == None
  {
    FirstIndexSpec(s, ch);
  }

  lemma PrefixedEmpty(r: Args)
    ensures Prefixed([], 0, r) == r
  {
    if r.Names? { assert [] + r.names == r.names; }
  }

  lemma PrefixedCompose(a: seq<string>, b: seq<string>, m: nat, n: nat, r: Args)
    ensures Prefixed(a, m, Prefixed(b, n, r)) == Prefixed(a + b, m + n, r)
  {
    if r.Names? {
      assert a + (b + r.names) == (a + b) + r.names;
    }
  }

  lemma LastPieceStep(x: string, rest: Args, n: nat)
    requires rest == ArgsOf([])
    ensures Prefixed([x], n, rest) == Names([x])
  {
    assert [x] + [] == [x];
  }

  /** How `ParseName` reports the split of a parameter list that follows the first '(' at `lparen`. */
  lemma ParseNameOfArgs(name: string, lparen: nat, a: Args)
    requires |name| > 0 && name[|name| - 1] == ')'
    requires FirstIndex(name, '(') == Some(lparen) && lparen + 1 <= |name| - 1
    requires ArgsOf(name[lparen + 1..|name| - 1]) == a
    ensures a.Names? ==> ParseName(name) == Ok(Signature(name[..lparen], true, a.names))
    ensures a.CommaAt? ==> ParseName(name) == Err(UnexpectedComma(lparen + 1 + a.offset))
  {
    assert ParseName(name) == Bracketed(name, lparen, a);
  }

  lemma {:induction false} TrimLeftSkip(s: string, k: nat)
    requires k <= |s| && IsBlank(s[..k])
    ensures TrimLeft(s) == TrimLeft(s[k..])
    decreases k
  {
    if k > 0 {
      assert s[0] == s[..k][0];
      assert s[1..][..k - 1] == s[1..k];
      assert s[1..][k - 1..] == s[k..];
      TrimLeftSkip(s[1..], k - 1);
    }
  }

  lemma {:induction false} TrimRightSkip(s: string, k: nat)
    requires k <= |s| && IsBlank(s[k..])
    ensures TrimRight(s) == TrimRight(s[..k])
    decreases |s| - k
  {
    if k < |s| {
      var t := s[..|s| - 1];
      assert s[|s| - 1] == s[k..][|s| - 1 - k];
      assert TrimRight(s) == TrimRight(t);
      assert IsBlank(t[k..]) by {
        forall i | 0 <= i < |t| - k ensures t[k..][i] == ' ' {
          assert t[k..][i] == s[k..][i];
        }
      }
      TrimRightSkip(t, k);
      assert t[..k] == s[..k];
    } else {
      assert s[..k] == s;
    }
  }

  /** Trimming a slice whose blank margins are known gives the text between the margins. */
  lemma TrimSlice(s: string, a: nat, p: nat, q: nat, b: nat)
    requires a <= p <= q <= b <= |s|
    requires IsBlank(s[a..p]) && IsBlank(s[q..b])
    requires p < q ==> s[p] != ' ' && s[q - 1] != ' '
    ensures Trim(s[a..b]) == s[p..q]
  {
    var t := s[a..b];
    assert t[..p - a] == s[a..p];
    assert t[p - a..] == s[p..b];
    TrimLeftSkip(t, p - a);
    if p < q {
      TrimUnpadded(s, p, q, b);
    } else {
      TrimBlank(s[q..b]);
    }
  }

  lemma TrimBlank(u: string)
    requires IsBlank(u)
    ensures TrimRight(TrimLeft(u)) == []
  {
    assert u[..|u|] == u;
    TrimLeftSkip(u, |u|);
    assert u[|u|..] == [];
  }

  lemma TrimUnpadded(s: string, p: nat, q: nat, b: nat)
    requires p < q <= b <= |s|
    requires IsBlank(s[q..b]) && s[p] != ' ' && s[q - 1] != ' '
    ensures TrimRight(TrimLeft(s[p..b])) == s[p..q]
  {
    var u := s[p..b];
    assert u[0] == s[p];
    assert TrimLeft(u) == u;
    assert u[q - p..] == s[q..b];
    TrimRightSkip(u, q - p);
    var v := s[p..q];
    assert u[..q - p] == v;
    assert v[|v| - 1] == s[q - 1];
  }

  /** A blank run ending at a ',' is a stray comma at that offset. */
  lemma BlankPieceIsStrayComma(name: string, first: nat, p: nat, e: nat)
    requires first <= p < e <= |name|
    requires IsBlank(name[first..p]) && name[p] == ','
    ensures ArgsOf(name[first..e]) == CommaAt(p - first)
  {
    var s := name[first..e];
    var k := p - first;
    assert s[k] == ',';
    assert s[..k] == name[first..p];
    assert Lacks(s[..k], ',') by {
      forall i | 0 <= i < k ensures s[..k][i] != ',' {
        assert s[..k][i] == name[first..p][i];
      }
    }
    FirstIndexIs(s, ',', k);
    ArgsAtComma(s, k);
  }

  /** The piece after the last comma, trimmed, is the last parameter name. */
  lemma LastPiece(name: string, first: nat, p: nat, q: nat, e: nat)
    requires first <= p <= q <= e < |name| && first < e
    requires IsBlank(name[first..p]) && IsBlank(name[q..e])
    requires p < e ==> name[p] != ',' && name[p] != ' ' && name[q - 1] != ' ' && p < q
    requires p < e ==> Lacks(name[p + 1..], ',')
    requires p == e ==> q == p
    ensures ArgsOf(name[first..e]) == Names([name[p..q]])
  {
    var s := name[first..e];
    assert Lacks(s, ',') by {
      forall i | 0 <= i < |s| ensures s[i] != ',' {
        assert s[i] == name[first + i];
        if first + i < p {
          assert name[first + i] == name[first..p][i];
        } else if first + i > p {
          assert name[first + i] == name[p + 1..][first + i - p - 1];
        }
      }
    }
    FirstIndexNone(s, ',');
    TrimSlice(name, first, p, q, e);
  }

  /** A comma-terminated piece holding a name contributes that name, trimmed. */
  lemma NamedPiece(name: string, first: nat, p: nat, q: nat, c: nat, e: nat)
    requires first <= p < q <= c < e < |name|
    requires IsBlank(name[first..p]) && IsBlank(name[q..c])
    requires name[p] != ',' && name[p] != ' ' && name[q - 1] != ' '
    requires name[c] == ',' && Lacks(name[p + 1..c], ',')
    ensures ArgsOf(name[first..e])
         == Prefixed([name[p..q]], c + 1 - first, ArgsOf(name[c + 1..e]))
  {
    var s := name[first..e];
    var k := c - first;
    PieceEndsAtComma(name, first, p, c, e);
    ArgsAtComma(s, k);
    assert !IsBlank(s[..k]) by {
      assert s[..k][p - first] == name[p];
    }
    assert s[..k] == name[first..c];
    assert s[k + 1..] == name[c + 1..e];
    TrimSlice(name, first, p, q, c);
  }

  lemma PieceEndsAtComma(name: string, first: nat, p: nat, c: nat, e: nat)
    requires first <= p < c < e <= |name|
    requires IsBlank(name[first..p]) && name[p] != ','
    requires name[c] == ',' && Lacks(name[p + 1..c], ',')
    ensures FirstIndex(name[first..e], ',') == Some(c - first)
  {
    var s := name[first..e];
    var k := c - first;
    assert s[k] == ',';
    assert Lacks(s[..k], ',') by {
      forall i | 0 <= i < k ensures s[..k][i] != ',' {
        assert s[..k][i] == name[first + i];
        if first + i < p {
          assert name[first + i] == name[first..p][i];
        } else if first + i > p {
          assert name[first + i] == name[p + 1..c][first + i - p - 1];
        }
      }
    }
    FirstIndexIs(s, ',', k);
  }
}
