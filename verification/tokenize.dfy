/**
 * `Preprocessor::tokenize`: lex a string by entering it as a new in-memory
 * file and collecting tokens while the lookahead still comes from that file.
 *
 * Entering the file is Clang's business; the model is given what it reports:
 * the file-change events entering produced, the events reported while the
 * loop lexes (among them the ExitFile that the lookahead past the buffer's
 * end triggers), and the token stream the preprocessor produces from then on.
 * Running out of that stream reads as `eof`, as Clang's lexer keeps returning
 * `eof`.
 */
module Tokenize {
  import opened Outcomes
  import opened Tokens
  import opened FileDepth

  /** The lookahead at position `i`: `eof` once the stream is exhausted. */
  function PeekAt(s: seq<Token>, i: nat): (t: Token)
    ensures i < |s| ==> t == s[i]
    ensures i >= |s| ==> t.kind == Eof
  {
    if i < |s| then s[i] else EofToken
  }

  /** A token the loop keeps: not `eof`, and lexed from the new buffer's file. */
  predicate InSession(t: Token, fid: FileId)
  {
    t.kind != Eof && t.loc.file == fid
  }

  /** The tokens `tokenize` returns for a lookahead stream: its longest run of session tokens. */
  function SessionPrefix(s: seq<Token>, fid: FileId): (r: seq<Token>)
    ensures |r| <= |s| && r == s[..|r|]
    ensures forall i :: 0 <= i < |r| ==> InSession(r[i], fid)
    ensures !InSession(PeekAt(s, |r|), fid)
  {
    if s == [] || !InSession(s[0], fid) then [] else [s[0]] + SessionPrefix(s[1..], fid)
  }

  /** The loop keeps a prefix of session tokens and stops at the first other lookahead; that is `SessionPrefix`. */
  lemma {:induction false} SessionPrefixUnique(s: seq<Token>, fid: FileId, i: nat)
    requires i <= |s|
    requires forall j :: 0 <= j < i ==> InSession(s[j], fid)
    requires !InSession(PeekAt(s, i), fid)
    ensures SessionPrefix(s, fid) == s[..i]
  {
    if i > 0 {
      SessionPrefixUnique(s[1..], fid, i - 1);
      assert s[..i] == [s[0]] + s[1..][..i - 1];
    }
  }

  /**
   * Whether the main preprocessor is already running. When the depth counter
   * is 0, `tokenize` lexes with a fresh preprocessor instead, which the counter
   * does not observe.
   */
  predicate Fresh(depth: Depth)
  {
    depth == 0
  }

  /**
   * Whether entering the buffer went wrong: only checked on the running
   * preprocessor, where the depth must have risen (an unsigned comparison, so
   * a wrap to 0 counts as not rising).
   */
  predicate Bails(depth: Depth, entry: seq<FileChangeReason>)
  {
    !Fresh(depth) && Replay(depth, entry) <= depth
  }

  /**
   * `tokenize(s, len)`. `text` is `None` for a null pointer; `fid` is the id
   * the source manager gives the buffer; `entry` are the file changes entering
   * it reports; `exit` are those reported while the loop lexes, up to and
   * including the lookahead that stops it; `stream` is the lookahead stream
   * from then on. Returns the tokens, the stream left for the preprocessor
   * (the stopping token is not consumed), and the depth counter afterwards.
   */
  method Tokenize(depth: Depth, text: Option<string>, fid: FileId,
                  entry: seq<FileChangeReason>, exit: seq<FileChangeReason>, stream: seq<Token>)
    returns (tokens: seq<Token>, rest: seq<Token>, depth': Depth)
    ensures text.None? || text.value == [] ==> tokens == [] && rest == stream && depth' == depth
    ensures text.Some? && text.value != [] && Fresh(depth) ==> depth' == depth
    ensures text.Some? && text.value != [] && Bails(depth, entry) ==>
              tokens == [] && rest == stream && depth' == Replay(depth, entry)
    ensures text.Some? && text.value != [] && !Fresh(depth) && !Bails(depth, entry) ==>
              depth' == Replay(depth, entry + exit)
    ensures text.Some? && text.value != [] && !Bails(depth, entry) ==>
              && tokens == SessionPrefix(stream, fid)
              && stream == tokens + rest
  {
    tokens := [];
    rest := stream;
    depth' := depth;
    if text.None? || text.value == [] {
      return;
    }
    if !Fresh(depth) {
      depth' := Replay(depth, entry);
      if depth' <= depth {
        return;
      }
    }
    var i := 0;
    while InSession(PeekAt(stream, i), fid)
      invariant i <= |stream|
      invariant tokens == stream[..i]
      invariant forall j :: 0 <= j < i ==> InSession(stream[j], fid)
      decreases |stream| - i
    {
      tokens := tokens + [stream[i]];
      i := i + 1;
    }
    SessionPrefixUnique(stream, fid, i);
    rest := stream[i..];
    assert stream == stream[..i] + stream[i..];
    if !Fresh(depth) {
      ReplayAppend(depth, entry, exit);
      depth' := Replay(depth', exit);
    }
  }

  /**
   * On the running preprocessor, a call whose file changes balance (as many
   * EnterFile as ExitFile, as entering the buffer and lexing past its end
   * report) leaves the depth counter where it was.
   */
  lemma {:induction false} BalancedSession(d: Depth, entry: seq<FileChangeReason>, exit: seq<FileChangeReason>)
    requires Count(entry + exit, EnterFile) == Count(entry + exit, ExitFile)
    ensures Replay(d, entry + exit) == d
  {
    ReplayCounts(d, entry + exit);
  }

  /**
   * What `tokenize` collects is maximal: every token is a session token, and
   * the token that follows, if any, is `eof` or from another file.
   */
  lemma SessionPrefixMaximal(s: seq<Token>, fid: FileId)
    ensures var r := SessionPrefix(s, fid);
            && (forall i :: 0 <= i < |r| ==> r[i].kind != Eof && r[i].loc.file == fid)
            && (|r| < |s| ==> s[|r|].kind == Eof || s[|r|].loc.file != fid)
  {
  }

  /** Session tokens followed by any other token: exactly those session tokens are collected. */
  lemma {:induction false} SessionStopsAtOther(s: seq<Token>, fid: FileId, more: seq<Token>)
    requires forall i :: 0 <= i < |s| ==> InSession(s[i], fid)
    requires more != [] && !InSession(more[0], fid)
    ensures SessionPrefix(s + more, fid) == s
  {
    SessionPrefixUnique(s + more, fid, |s|);
    assert (s + more)[..|s|] == s;
  }

  /**
   * When the running preprocessor is entered from depth `d` by one EnterFile,
   * `tokenize` bails out exactly when `d` is the counter's maximum.
   */
  lemma BailsOnlyOnWrap(d: Depth)
    requires d != 0
    ensures Bails(d, [EnterFile]) <==> d == DepthModulus - 1
  {
    assert Replay(d, [EnterFile]) == Replay(FileChanged(d, EnterFile), []);
  }

  /**
   * The usual call on the running preprocessor: entering the buffer reports
   * one EnterFile, lexing past it one ExitFile. Unless the counter is at its
   * maximum, `tokenize` does not bail and the counter ends where it started.
   */
  lemma TypicalSession(d: Depth)
    requires 0 < d < DepthModulus - 1
    ensures !Bails(d, [EnterFile])
    ensures Replay(d, [EnterFile] + [ExitFile]) == d
  {
    BailsOnlyOnWrap(d);
    var events := [EnterFile] + [ExitFile];
    assert events[1..] == [ExitFile] && [ExitFile][1..] == [];
    assert Count([ExitFile], EnterFile) == 0 && Count([ExitFile], ExitFile) == 1;
    assert Count(events, EnterFile) == 1 && Count(events, ExitFile) == 1;
    BalancedSession(d, [EnterFile], [ExitFile]);
  }
}
