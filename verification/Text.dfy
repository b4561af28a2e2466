/** g_strsplit on a one-character delimiter, and the joining it undoes. */
module Text {
  /** The pieces of s between the delimiters; always at least one piece. */
  function Split(s: string, c: char): (pieces: seq<string>)
    ensures |pieces| > 0
  {
    if s == [] then [""]
    else
      var rest := Split(s[1..], c);
      if s[0] == c then [""] + rest else [[s[0]] + rest[0]] + rest[1..]
  }

  function Join(pieces: seq<string>, c: char): string
    requires |pieces| > 0
  {
    if |pieces| == 1 then pieces[0] else pieces[0] + [c] + Join(pieces[1..], c)
  }

  /** No piece contains the delimiter. */
  ghost predicate Free(pieces: seq<string>, c: char) {
    forall i :: 0 <= i < |pieces| ==> c !in pieces[i]
  }

  lemma {:induction false} SplitPiece(p: string, t: string, c: char)
    requires c !in p
    ensures Split(p, c) == [p]
    ensures Split(p + [c] + t, c) == [p] + Split(t, c)
  {
    if p == [] {
      assert p + [c] + t == [c] + t;
    } else {
      SplitPiece(p[1..], t, c);
      assert (p + [c] + t)[1..] == p[1..] + [c] + t;
      assert [p[0]] + p[1..] == p;
    }
  }

  lemma {:induction false} SplitJoin(pieces: seq<string>, c: char)
    requires |pieces| > 0 && Free(pieces, c)
    ensures Split(Join(pieces, c), c) == pieces
  {
    if |pieces| == 1 {
      SplitPiece(pieces[0], "", c);
      assert pieces == [pieces[0]];
    } else {
      SplitPiece(pieces[0], Join(pieces[1..], c), c);
      SplitJoin(pieces[1..], c);
    }
  }

  lemma {:induction false} JoinInjective(a: seq<string>, b: seq<string>, c: char)
    requires |a| > 0 && Free(a, c) && |b| > 0 && Free(b, c)
    requires Join(a, c) == Join(b, c)
    ensures a == b
  {
    SplitJoin(a, c);
    SplitJoin(b, c);
  }

  /** Equal strings whose prefixes stop at the first delimiter have equal prefixes. */
  lemma {:induction false} PrefixInjective(p: string, q: string, s: string, t: string, c: char)
    requires c !in p && c !in q
    requires p + [c] + s == q + [c] + t
    ensures p == q && s == t
  {
    SplitPiece(p, s, c);
    SplitPiece(q, t, c);
    assert ([p] + Split(s, c))[0] == ([q] + Split(t, c))[0];
    assert s == (p + [c] + s)[|p| + 1..] && t == (q + [c] + t)[|p| + 1..];
  }
}
