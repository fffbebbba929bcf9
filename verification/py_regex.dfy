/** The fragment of Python's `re` that the backend's name validators use:
    a pattern `^P1P2...Pn$` where every `Pi` is a bracket expression with a
    repetition count `{lo,hi}`, matched with `re.match`. */
module PyRegex {
  /** A bracket expression `[...]`, as a list of inclusive code-point
      ranges; a single character `c` is the range `(c, c)`. */
  type CharClass = seq<(char, char)>

  predicate InClass(c: char, cls: CharClass)
    decreases |cls|
  {
    cls != [] && (cls[0].0 <= c <= cls[0].1 || InClass(c, cls[1..]))
  }

  /** `[cls]{lo,hi}`; `[cls]` alone is `{1,1}`. */
  datatype Piece = Piece(cls: CharClass, lo: nat, hi: nat)

  predicate AllIn(s: string, cls: CharClass) {
    forall i :: 0 <= i < |s| ==> InClass(s[i], cls)
  }

  /** `s` splits into consecutive runs, one per piece, each run as long as
      its piece allows and made of characters of its class. For patterns
      without alternation this is exactly the set of strings a
      backtracking matcher accepts. */
  ghost predicate Spans(ps: seq<Piece>, s: string)
    decreases |ps|
  {
    if ps == [] then s == ""
    else exists n :: 0 <= n <= |s| && ps[0].lo <= n <= ps[0].hi && AllIn(s[..n], ps[0].cls) && Spans(ps[1..], s[n..])
  }

  /** `re.match("^" + ps + "$", s)` finds a match. Python's `$` matches at
      the end of the string and also just before a newline that ends it. */
  ghost predicate Matches(ps: seq<Piece>, s: string) {
    Spans(ps, s) || (|s| > 0 && s[|s| - 1] == '\n' && Spans(ps, s[..|s| - 1]))
  }

  /** One piece spans `s` when `s` has an allowed length and lies in the class. */
  lemma SpansOne(p: Piece, s: string)
    ensures Spans([p], s) <==> p.lo <= |s| <= p.hi && AllIn(s, p.cls)
  {
    assert [p][1..] == [];
    if p.lo <= |s| <= p.hi && AllIn(s, p.cls) {
      assert s[..|s|] == s;
      assert Spans([p][1..], s[|s|..]);
    }
  }

  /** A leading piece of fixed width one consumes the first character. */
  lemma SpansSingleFirst(c: CharClass, ps: seq<Piece>, s: string)
    ensures Spans([Piece(c, 1, 1)] + ps, s) <==> |s| >= 1 && InClass(s[0], c) && Spans(ps, s[1..])
  {
    var qs := [Piece(c, 1, 1)] + ps;
    assert qs[0] == Piece(c, 1, 1) && qs[1..] == ps;
    if |s| >= 1 && InClass(s[0], c) && Spans(ps, s[1..]) {
      assert AllIn(s[..1], c);
    }
    if Spans(qs, s) {
      var n :| 0 <= n <= |s| && qs[0].lo <= n <= qs[0].hi && AllIn(s[..n], qs[0].cls) && Spans(qs[1..], s[n..]);
      assert n == 1 && s[..1][0] == s[0];
    }
  }

  /** A piece followed by one single character: the piece takes all but the
      last character. */
  lemma SpansThenLast(p: Piece, c: CharClass, u: string)
    ensures Spans([p, Piece(c, 1, 1)], u) <==>
      1 <= |u| && p.lo <= |u| - 1 <= p.hi && AllIn(u[..|u| - 1], p.cls) && InClass(u[|u| - 1], c)
  {
    if Spans([p, Piece(c, 1, 1)], u) {
      SpansThenLastSplit(p, c, u);
    }
    if 1 <= |u| && p.lo <= |u| - 1 <= p.hi && AllIn(u[..|u| - 1], p.cls) && InClass(u[|u| - 1], c) {
      SpansThenLastJoin(p, c, u);
    }
  }

  lemma SpansThenLastSplit(p: Piece, c: CharClass, u: string)
    requires Spans([p, Piece(c, 1, 1)], u)
    ensures 1 <= |u| && p.lo <= |u| - 1 <= p.hi && AllIn(u[..|u| - 1], p.cls) && InClass(u[|u| - 1], c)
  {
    var m := SpansHead([p, Piece(c, 1, 1)], u);
    assert [p, Piece(c, 1, 1)][1..] == [Piece(c, 1, 1)];
    SingleSpan(c, u[m..]);
    assert u[m..][0] == u[|u| - 1];
  }

  /** The length of the run the first piece takes. */
  lemma SpansHead(ps: seq<Piece>, s: string) returns (n: nat)
    requires ps != [] && Spans(ps, s)
    ensures n <= |s| && ps[0].lo <= n <= ps[0].hi && AllIn(s[..n], ps[0].cls) && Spans(ps[1..], s[n..])
  {
    n :| 0 <= n <= |s| && ps[0].lo <= n <= ps[0].hi && AllIn(s[..n], ps[0].cls) && Spans(ps[1..], s[n..]);
  }

  /** One single-character piece spans exactly one character of its class. */
  lemma SingleSpan(c: CharClass, v: string)
    requires Spans([Piece(c, 1, 1)], v)
    ensures |v| == 1 && InClass(v[0], c)
  {
    var q := [Piece(c, 1, 1)];
    assert q[1..] == [];
    var n :| 0 <= n <= |v| && q[0].lo <= n <= q[0].hi && AllIn(v[..n], q[0].cls) && Spans(q[1..], v[n..]);
    assert v[..n][0] == v[0];
  }

  lemma SpansThenLastJoin(p: Piece, c: CharClass, u: string)
    requires 1 <= |u| && p.lo <= |u| - 1 <= p.hi && AllIn(u[..|u| - 1], p.cls) && InClass(u[|u| - 1], c)
    ensures Spans([p, Piece(c, 1, 1)], u)
  {
    var ps := [p, Piece(c, 1, 1)];
    assert ps[0] == p && ps[1..] == [Piece(c, 1, 1)];
    var m := |u| - 1;
    assert u[m..] == [u[m]];
    SpansOne(Piece(c, 1, 1), u[m..]);
    assert Spans(ps[1..], u[m..]);
  }
}
