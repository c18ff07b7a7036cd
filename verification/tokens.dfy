/**
 * Tokens as the wrapper sees them: a kind, a spelling, a length, a source
 * location and the two formatting flags Clang keeps on every token.
 */
module Tokens {

  type FileId = nat

  /** The lexical categories the wrapper inspects or synthesises; all others are `Other`. */
  datatype TokenKind =
    | Identifier
    | LParen
    | RParen
    | StringLiteral
    | Eod   // end of a directive line
    | Eof   // end of input
    | Other

  /** A presumed (line, column) position, or none for tokens that have no file position. */
  datatype PresumedLoc = Invalid | Presumed(line: nat, column: nat)

  datatype SourceLoc = SourceLoc(file: FileId, presumed: PresumedLoc)

  datatype Token = Token(
    kind: TokenKind,
    spelling: string,
    length: nat,
    loc: SourceLoc,
    leadingSpace: bool,
    startOfLine: bool)

  /** File id of Clang's scratch buffer, where `CreateString` puts synthesised spellings. */
  const ScratchFile: FileId := 0

  /** A token synthesised from a spelling, as `startToken` + `CreateString` do: no flags set. */
  function Synthesised(kind: TokenKind, spelling: string): (t: Token)
    ensures t.kind == kind && t.spelling == spelling && t.length == |spelling|
    ensures !t.leadingSpace && !t.startOfLine
  {
    Token(kind, spelling, |spelling|, SourceLoc(ScratchFile, Invalid), false, false)
  }

  /** The token the lexer returns once a directive line is exhausted. */
  const EodToken: Token := Synthesised(Eod, "")

  /** The token the lexer keeps returning once the input is exhausted. */
  const EofToken: Token := Synthesised(Eof, "")

  function WithLeadingSpace(t: Token): Token
  {
    t.(leadingSpace := true)
  }

  /** The longest prefix of `ts` holding no token of kind `k`. */
  function Before(ts: seq<Token>, k: TokenKind): (r: seq<Token>)
    ensures |r| <= |ts| && r == ts[..|r|]
    ensures forall i :: 0 <= i < |r| ==> r[i].kind != k
    ensures |r| < |ts| ==> ts[|r|].kind == k
  {
    if ts == [] || ts[0].kind == k then [] else [ts[0]] + Before(ts[1..], k)
  }

  /** A prefix free of kind `k` that ends at a `k` (or at the end) is exactly `Before(ts, k)`. */
  lemma {:induction false} BeforeFirst(ts: seq<Token>, k: TokenKind, i: nat)
    requires i <= |ts|
    requires forall j :: 0 <= j < i ==> ts[j].kind != k
    requires i < |ts| ==> ts[i].kind == k
    ensures Before(ts, k) == ts[..i]
  {
    if i > 0 {
      BeforeFirst(ts[1..], k, i - 1);
      assert ts[..i] == [ts[0]] + ts[1..][..i - 1];
    }
  }
}
