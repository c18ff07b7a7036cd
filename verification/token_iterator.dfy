/**
 * `TokenIteratorImpl`: the one-token-lookahead iterator over the
 * preprocessor's output that `create_iterator` hands out. The preprocessor's
 * output is a token sequence; once it is exhausted, lexing keeps giving `eof`.
 */
module TokenIterator {
  import opened Tokens

  datatype Iterator = Iterator(lookahead: Token, rest: seq<Token>)

  /** One `Lex` call: the next token and what is left, or `eof` for good. */
  function Lex(s: seq<Token>): (r: (Token, seq<Token>))
    ensures s != [] ==> r == (s[0], s[1..])
    ensures s == [] ==> r.0.kind == Eof && r.1 == []
  {
    if s == [] then (EofToken, []) else (s[0], s[1..])
  }

  /** The constructor primes the lookahead with one `Lex`. */
  function Start(s: seq<Token>): Iterator
  {
    var (t, r) := Lex(s);
    Iterator(t, r)
  }

  /** `has_next`: the lookahead is not `eof`. */
  predicate HasNext(it: Iterator)
  {
    it.lookahead.kind != Eof
  }

  /** `next`: return the lookahead and lex a new one. */
  function Next(it: Iterator): (Token, Iterator)
  {
    (it.lookahead, Start(it.rest))
  }

  /** Iterating from position `k` of the output: `next` returns token `k` and moves on to `k + 1`. */
  lemma NextAdvances(s: seq<Token>, k: nat)
    requires k < |s|
    ensures Next(Start(s[k..])) == (s[k], Start(s[k + 1..]))
    ensures HasNext(Start(s[k..])) <==> s[k].kind != Eof
  {
    assert s[k..][1..] == s[k + 1..];
  }

  /** Once the output is exhausted the iterator reports no next token, and `next` keeps returning `eof`. */
  lemma ExhaustedStaysAtEof()
    ensures !HasNext(Start([]))
    ensures Next(Start([])).0.kind == Eof && Next(Start([])).1 == Start([])
  {
  }

  /**
   * The host-side loop `while it.has_next(): yield it.next()`: it yields the
   * preprocessor's output up to, not including, the first `eof`.
   */
  method Drain(s: seq<Token>) returns (out: seq<Token>)
    ensures out == Before(s, Eof)
  {
    out := [];
    var it := Start(s);
    var i := 0;
    while HasNext(it)
      invariant i <= |s|
      invariant out == s[..i]
      invariant forall j :: 0 <= j < i ==> s[j].kind != Eof
      invariant it == Start(s[i..])
      decreases |s| - i
    {
      NextAdvances(s, i);
      var t;
      t, it := Next(it).0, Next(it).1;
      out := out + [t];
      i := i + 1;
    }
    BeforeFirst(s, Eof, i);
  }
}
