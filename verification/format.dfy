/**
 * `Preprocessor::format`: print tokens so that each lands on its original
 * line and column, as far as a forward-only cursor allows. A token writes its
 * spelling; a token without a valid presumed location writes nothing.
 */
module Format {
  import opened Tokens
  import opened Text

  /** The output position: `line` 0 means nothing has been written yet. */
  datatype Cursor = Cursor(line: nat, column: nat)

  const Origin: Cursor := Cursor(0, 1)

  function Repeat(ch: char, n: nat): (r: string)
    ensures |r| == n && forall i :: 0 <= i < n ==> r[i] == ch
  {
    seq(n, _ => ch)
  }

  /** One iteration of the loop: the text written for `t` and the cursor after it. */
  function Emit(c: Cursor, t: Token): (string, Cursor)
  {
    match t.loc.presumed
    case Invalid => ("", c)
    case Presumed(line, column) =>
      var (breaks, c1) :=
        if line > c.line then
          if c.line > 0 then (Repeat('\n', line - c.line), Cursor(line, 1))
          else ("", Cursor(line, c.column))
        else ("", c);
      var (pad, c2) :=
        if column > c1.column then (Repeat(' ', column - c1.column), c1.(column := column))
        else ("", c1);
      (breaks + pad + t.spelling, c2.(column := c2.column + t.length))
  }

  /** The loop from cursor `c` over `ts`: the text written and the final cursor. */
  function FormatFrom(c: Cursor, ts: seq<Token>): (string, Cursor)
    decreases |ts|
  {
    if ts == [] then ("", c)
    else
      var (out, c') := Emit(c, ts[0]);
      var (more, c'') := FormatFrom(c', ts[1..]);
      (out + more, c'')
  }

  function Format(ts: seq<Token>): string
  {
    FormatFrom(Origin, ts).0
  }

  /** The loop of `format` as written, with its two cursor variables. */
  method FormatTokens(ts: seq<Token>) returns (out: string)
    ensures out == Format(ts)
  {
    out := "";
    var line: nat, column: nat := 0, 1;
    var i := 0;
    while i < |ts|
      invariant i <= |ts|
      invariant out + FormatFrom(Cursor(line, column), ts[i..]).0 == Format(ts)
    {
      FormatStep(Cursor(line, column), ts, i);
      var written;
      written, line, column := EmitToken(line, column, ts[i]);
      out := out + written;
      i := i + 1;
    }
  }

  /** The fold from position `i` is token `i`'s text followed by the fold from `i + 1`. */
  lemma FormatStep(c: Cursor, ts: seq<Token>, i: nat)
    requires i < |ts|
    ensures FormatFrom(c, ts[i..]).0 == Emit(c, ts[i]).0 + FormatFrom(Emit(c, ts[i]).1, ts[i + 1..]).0
  {
    assert ts[i..][0] == ts[i] && ts[i..][1..] == ts[i + 1..];
  }

  /** The body of the loop in `format`, for one token. */
  method EmitToken(line: nat, column: nat, t: Token) returns (written: string, line': nat, column': nat)
    ensures (written, Cursor(line', column')) == Emit(Cursor(line, column), t)
  {
    written, line', column' := "", line, column;
    if t.loc.presumed.Presumed? {
      var tl, tc := t.loc.presumed.line, t.loc.presumed.column;
      var breaks, pad := "", "";
      if tl > line' {
        if line' > 0 {
          breaks := Repeat('\n', tl - line');
          column' := 1;
        }
        line' := tl;
      }
      if tc > column' {
        pad := Repeat(' ', tc - column');
        column' := tc;
      }
      written := breaks + pad + t.spelling;
      column' := column' + t.length;
    }
  }

  // ---------------------------------------------------------------------------
  // Invalid locations
  // ---------------------------------------------------------------------------

  predicate Valid(t: Token)
  {
    t.loc.presumed.Presumed?
  }

  function ValidOnly(ts: seq<Token>): (r: seq<Token>)
    ensures forall i :: 0 <= i < |r| ==> Valid(r[i])
  {
    if ts == [] then []
    else if Valid(ts[0]) then [ts[0]] + ValidOnly(ts[1..])
    else ValidOnly(ts[1..])
  }

  /** Tokens without a valid location neither write nor move the cursor: dropping them changes nothing. */
  lemma {:induction false} InvalidIgnored(c: Cursor, ts: seq<Token>)
    ensures FormatFrom(c, ValidOnly(ts)) == FormatFrom(c, ts)
    decreases |ts|
  {
    if ts != [] {
      InvalidIgnored(Emit(c, ts[0]).1, ts[1..]);
      if Valid(ts[0]) {
        assert ([ts[0]] + ValidOnly(ts[1..]))[1..] == ValidOnly(ts[1..]);
      } else {
        assert Emit(c, ts[0]) == ("", c);
        var more := FormatFrom(c, ts[1..]);
        assert FormatFrom(c, ts) == ("" + more.0, more.1);
        assert "" + more.0 == more.0;
      }
    }
  }

  /** An empty list, or one whose tokens all lack a location, formats to nothing. */
  lemma NothingToFormat(ts: seq<Token>)
    requires forall i :: 0 <= i < |ts| ==> !Valid(ts[i])
    ensures Format(ts) == ""
  {
    InvalidIgnored(Origin, ts);
    NoValid(ts);
  }

  lemma {:induction false} NoValid(ts: seq<Token>)
    requires forall i :: 0 <= i < |ts| ==> !Valid(ts[i])
    ensures ValidOnly(ts) == []
  {
    if ts != [] {
      NoValid(ts[1..]);
    }
  }

  // ---------------------------------------------------------------------------
  // The cursor line
  // ---------------------------------------------------------------------------

  function LineOf(t: Token): nat
  {
    match t.loc.presumed
    case Invalid => 0
    case Presumed(line, _) => line
  }

  /** The largest line among `start` and the valid tokens' lines. */
  function MaxLine(start: nat, ts: seq<Token>): (m: nat)
    ensures m >= start
    ensures forall i :: 0 <= i < |ts| ==> m >= LineOf(ts[i])
    decreases |ts|
  {
    if ts == [] then start
    else MaxLine(if LineOf(ts[0]) > start then LineOf(ts[0]) else start, ts[1..])
  }

  /** The cursor line never moves back: it ends at the highest line seen. */
  lemma {:induction false} CursorLineIsMax(c: Cursor, ts: seq<Token>)
    ensures FormatFrom(c, ts).1.line == MaxLine(c.line, ts)
    decreases |ts|
  {
    if ts != [] {
      var c' := Emit(c, ts[0]).1;
      assert c'.line == (if LineOf(ts[0]) > c.line then LineOf(ts[0]) else c.line);
      CursorLineIsMax(c', ts[1..]);
    }
  }

  function Newlines(s: string): nat
  {
    if s == [] then 0 else (if s[0] == '\n' then 1 else 0) + Newlines(s[1..])
  }

  lemma {:induction false} NewlinesAppend(a: string, b: string)
    ensures Newlines(a + b) == Newlines(a) + Newlines(b)
  {
    if a != [] {
      assert (a + b)[1..] == a[1..] + b;
      NewlinesAppend(a[1..], b);
    } else {
      assert a + b == b;
    }
  }

  lemma {:induction false} NewlinesRepeat(ch: char, n: nat)
    ensures Newlines(Repeat(ch, n)) == if ch == '\n' then n else 0
  {
    if n > 0 {
      assert Repeat(ch, n)[1..] == Repeat(ch, n - 1);
      NewlinesRepeat(ch, n - 1);
    }
  }

  predicate SingleLineSpellings(ts: seq<Token>)
  {
    forall i, j :: 0 <= i < |ts| && 0 <= j < |ts[i].spelling| ==> ts[i].spelling[j] != '\n'
  }

  /**
   * Once a line has been written, the output holds exactly one newline per
   * line the cursor moved down (spellings themselves holding none).
   */
  lemma {:induction false} NewlinesCountLines(c: Cursor, ts: seq<Token>)
    requires c.line > 0
    requires SingleLineSpellings(ts)
    ensures Newlines(FormatFrom(c, ts).0) == FormatFrom(c, ts).1.line - c.line
    decreases |ts|
  {
    if ts != [] {
      var t := ts[0];
      var (out, c') := Emit(c, t);
      assert c'.line >= c.line;
      EmitNewlines(c, t);
      TailSingleLine(ts);
      NewlinesCountLines(c', ts[1..]);
      CursorLineIsMax(c', ts[1..]);
      NewlinesAppend(out, FormatFrom(c', ts[1..]).0);
    }
  }

  /**
   * The whole output holds one newline per line the cursor moved down from the
   * first located token's line: none before that token.
   */
  lemma FormatNewlines(ts: seq<Token>)
    requires SingleLineSpellings(ts)
    requires ValidOnly(ts) != [] && LineOf(ValidOnly(ts)[0]) > 0
    ensures Newlines(Format(ts)) == FormatFrom(Origin, ts).1.line - LineOf(ValidOnly(ts)[0])
  {
    var v := ValidOnly(ts);
    var c := Cursor(LineOf(v[0]), 1);
    InvalidIgnored(Origin, ts);
    FirstEmit(v[0]);
    assert FormatFrom(Origin, v) == FormatFrom(c, v);
    ValidOnlySingleLine(ts);
    NewlinesCountLines(c, v);
  }

  lemma {:induction false} ValidOnlySingleLine(ts: seq<Token>)
    requires SingleLineSpellings(ts)
    ensures SingleLineSpellings(ValidOnly(ts))
  {
    if ts != [] {
      TailSingleLine(ts);
      ValidOnlySingleLine(ts[1..]);
      if Valid(ts[0]) {
        var r := [ts[0]] + ValidOnly(ts[1..]);
        forall i, j | 0 <= i < |r| && 0 <= j < |r[i].spelling|
          ensures r[i].spelling[j] != '\n'
        {
          if i > 0 {
            assert r[i] == ValidOnly(ts[1..])[i - 1];
          }
        }
      }
    }
  }

  lemma TailSingleLine(ts: seq<Token>)
    requires ts != [] && SingleLineSpellings(ts)
    ensures SingleLineSpellings(ts[1..])
  {
    forall i, j | 0 <= i < |ts[1..]| && 0 <= j < |ts[1..][i].spelling|
      ensures ts[1..][i].spelling[j] != '\n'
    {
      assert ts[1..][i] == ts[i + 1];
    }
  }

  /** One token writes as many newlines as the cursor moves down. */
  lemma EmitNewlines(c: Cursor, t: Token)
    requires c.line > 0
    requires forall j :: 0 <= j < |t.spelling| ==> t.spelling[j] != '\n'
    ensures Emit(c, t).1.line >= c.line
    ensures Newlines(Emit(c, t).0) == Emit(c, t).1.line - c.line
  {
    NoNewlines(t.spelling);
    if t.loc.presumed.Presumed? {
      var line, column := t.loc.presumed.line, t.loc.presumed.column;
      var breaks := if line > c.line then Repeat('\n', line - c.line) else "";
      var c1 := if line > c.line then Cursor(line, 1) else c;
      var pad := if column > c1.column then Repeat(' ', column - c1.column) else "";
      assert Emit(c, t).0 == breaks + pad + t.spelling;
      NewlinesRepeat('\n', if line > c.line then line - c.line else 0);
      NewlinesRepeat(' ', if column > c1.column then column - c1.column else 0);
      assert Newlines(breaks) == (if line > c.line then line - c.line else 0) by {
        if line <= c.line { assert breaks == Repeat('\n', 0); }
      }
      assert Newlines(pad) == 0 by {
        if column <= c1.column { assert pad == Repeat(' ', 0); }
      }
      NewlinesAppend(breaks, pad);
      NewlinesAppend(breaks + pad, t.spelling);
    }
  }

  lemma {:induction false} NoNewlines(s: string)
    requires forall j :: 0 <= j < |s| ==> s[j] != '\n'
    ensures Newlines(s) == 0
  {
    if s != [] {
      NoNewlines(s[1..]);
    }
  }

  // ---------------------------------------------------------------------------
  // One line round trip
  // ---------------------------------------------------------------------------

  /** Where a token starts on its line; 0 for a token without a location. */
  function ColumnOf(t: Token): nat
  {
    match t.loc.presumed
    case Invalid => 0
    case Presumed(_, column) => column
  }

  function EndOf(t: Token): nat
  {
    ColumnOf(t) + t.length
  }

  /**
   * The column where the text before token `k` of a line starts: 1 for the
   * first token, else where token `k - 1` ends (for `k == |ts|`, the line's end).
   */
  function GapStart(ts: seq<Token>, k: nat): nat
    requires k <= |ts|
  {
    if k == 0 then 1 else EndOf(ts[k - 1])
  }

  /**
   * Token `i` was lexed from `text`, line `line` of a source file: its spelling
   * sits at its (1-based) column, after the blanks that follow the previous token.
   */
  predicate Placed(text: string, ts: seq<Token>, i: nat, line: nat)
    requires i < |ts|
  {
    && ts[i].loc.presumed == Presumed(line, ColumnOf(ts[i]))
    && ts[i].length == |ts[i].spelling|
    && 1 <= GapStart(ts, i) <= ColumnOf(ts[i])
    && EndOf(ts[i]) <= |text| + 1
    && text[ColumnOf(ts[i]) - 1..EndOf(ts[i]) - 1] == ts[i].spelling
    && IsBlank(text[GapStart(ts, i) - 1..ColumnOf(ts[i]) - 1])
  }

  /**
   * `ts` are the tokens lexed, left to right, from the line `text`: each
   * token's spelling sits at its column, the gaps before and between tokens
   * are blanks, and the text ends where the last token does.
   */
  predicate LexedLine(text: string, ts: seq<Token>, line: nat)
  {
    && |text| + 1 == GapStart(ts, |ts|)
    && forall i :: 0 <= i < |ts| ==> Placed(text, ts, i, line)
  }

  /** A token on the cursor's line, at or right of the cursor: blanks up to its column, then its spelling. */
  lemma EmitOnLine(line: nat, g: nat, t: Token)
    requires t.loc.presumed == Presumed(line, ColumnOf(t)) && g <= ColumnOf(t)
    ensures Emit(Cursor(line, g), t) == (Repeat(' ', ColumnOf(t) - g) + t.spelling, Cursor(line, EndOf(t)))
  {
    var pad := Repeat(' ', ColumnOf(t) - g);
    if ColumnOf(t) == g {
      assert pad == "";
      assert Emit(Cursor(line, g), t).0 == "" + "" + t.spelling;
    } else {
      assert Emit(Cursor(line, g), t).0 == "" + pad + t.spelling;
      assert "" + pad + t.spelling == pad + t.spelling;
    }
    assert Emit(Cursor(line, g), t).1 == Cursor(line, EndOf(t));
  }

  /** Before anything is written, a token's line becomes the cursor's line and the column stays 1. */
  lemma FirstEmit(t: Token)
    requires t.loc.presumed.Presumed?
    ensures Emit(Origin, t) == Emit(Cursor(LineOf(t), 1), t)
  {
  }

  lemma BlankIsRepeat(s: string)
    requires IsBlank(s)
    ensures s == Repeat(' ', |s|)
  {
  }

  lemma SplitThree(text: string, a: nat, b: nat, c: nat)
    requires a <= b <= c <= |text|
    ensures text[a..] == text[a..b] + text[b..c] + text[c..]
  {
  }

  /**
   * With the cursor on the line, just before the blanks that precede token
   * `k`, formatting the remaining tokens writes the rest of the line.
   */
  lemma {:induction false} RoundTripSuffix(text: string, ts: seq<Token>, line: nat, k: nat)
    requires LexedLine(text, ts, line)
    requires k <= |ts|
    requires 1 <= GapStart(ts, k) <= |text| + 1
    ensures FormatFrom(Cursor(line, GapStart(ts, k)), ts[k..]).0 == text[GapStart(ts, k) - 1..]
    decreases |ts| - k
  {
    var g := GapStart(ts, k);
    if k < |ts| {
      var t := ts[k];
      assert Placed(text, ts, k, line);
      var col, end := ColumnOf(t), EndOf(t);
      RoundTripSuffix(text, ts, line, k + 1);
      assert ts[k..] == [t] + ts[k + 1..];
      EmitOnLine(line, g, t);
      BlankIsRepeat(text[g - 1..col - 1]);
      SplitThree(text, g - 1, col - 1, end - 1);
    } else {
      assert text[g - 1..] == [];
    }
  }

  /**
   * The formatter's promise for a single line: the tokens lexed from a line
   * of text (starting at column 1) format back to that text.
   */
  lemma LineRoundTrip(text: string, ts: seq<Token>, line: nat)
    requires LexedLine(text, ts, line)
    ensures Format(ts) == text
  {
    RoundTripSuffix(text, ts, line, 0);
    assert ts[0..] == ts;
    if ts != [] {
      assert Placed(text, ts, 0, line);
      FirstEmit(ts[0]);
      assert FormatFrom(Origin, ts) == FormatFrom(Cursor(line, 1), ts);
    }
  }
}
