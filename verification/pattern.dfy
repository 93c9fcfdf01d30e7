/**
  An anchored matcher for the only regular-expression shape the three line
  patterns of classic/classic.go use: `^` followed by a sequence of greedy
  repetitions of single character classes, followed by `$`.

  A match is described by its cut vector: `cuts[k]` is the position where the
  span of piece `k` ends (piece 0 starts at the anchor).  Go's regexp package
  reports the submatches a backtracking engine would find first; with every
  repetition greedy, that is the match whose cut vector is lexicographically
  greatest among all full matches.  `Longest` computes exactly that match.
*/
module Pattern {
  import opened Wrappers
  import opened Seqs

  /** The character classes occurring in the patterns. */
  datatype CharClass =
    | Space                 // \s in RE2: tab, newline, form feed, carriage return, space
    | NotColonOrEol         // [^:\r\n]
    | NotParenOrEol         // [^\r\n\(\)]
    | NotParenDashOrEol     // [^\r\n\(\)\-]
    | NotNewline            // . without the s flag
    | Just(c: char)         // a literal character
    | Either(c1: char, c2: char)

  predicate IsSpace(ch: char) {
    ch == '\t' || ch == '\n' || ch == '\U{000C}' || ch == '\r' || ch == ' '
  }

  predicate InClass(k: CharClass, ch: char) {
    match k
    case Space => IsSpace(ch)
    case NotColonOrEol => ch != ':' && ch != '\r' && ch != '\n'
    case NotParenOrEol => ch != '(' && ch != ')' && ch != '\r' && ch != '\n'
    case NotParenDashOrEol => ch != '(' && ch != ')' && ch != '-' && ch != '\r' && ch != '\n'
    case NotNewline => ch != '\n'
    case Just(c) => ch == c
    case Either(c1, c2) => ch == c1 || ch == c2
  }

  datatype Bound = Unbounded | AtMost(n: nat)

  /** `cls{min,max}`, greedy: `*` is (0, Unbounded), `+` is (1, Unbounded), `?` is (0, AtMost(1)). */
  datatype Piece = Piece(cls: CharClass, min: nat, max: Bound)

  predicate AllIn(k: CharClass, s: string, i: nat, j: nat)
    requires i <= j <= |s|
  {
    forall t | i <= t < j :: InClass(k, s[t])
  }

  /** The span s[i..j] is matched by the piece `p`. */
  predicate SpanFits(p: Piece, s: string, i: nat, j: nat)
    requires i <= j <= |s|
  {
    && p.min <= j - i
    && (p.max.AtMost? ==> j - i <= p.max.n)
    && AllIn(p.cls, s, i, j)
  }

  /** Where the span of piece `k` starts. */
  function Start(from: nat, cuts: seq<nat>, k: nat): nat
    requires k <= |cuts|
  {
    if k == 0 then from else cuts[k - 1]
  }

  /** Piece k's span lies between its start and |s| and is matched by ps[k]. */
  predicate PieceOk(ps: seq<Piece>, s: string, from: nat, cuts: seq<nat>, k: nat)
    requires k < |cuts| == |ps|
  {
    Start(from, cuts, k) <= cuts[k] <= |s| && SpanFits(ps[k], s, Start(from, cuts, k), cuts[k])
  }

  /** `cuts` splits s[from..] into consecutive spans, the k-th matched by ps[k], ending at |s|. */
  predicate Fits(ps: seq<Piece>, s: string, from: nat, cuts: seq<nat>) {
    && |cuts| == |ps|
    && from <= |s|
    && (forall k | 0 <= k < |cuts| :: PieceOk(ps, s, from, cuts, k))
    && (if |cuts| == 0 then from == |s| else cuts[|cuts| - 1] == |s|)
  }

  /** Lexicographic order on cut vectors of equal length. */
  predicate LexLe(u: seq<nat>, v: seq<nat>)
    decreases |u|
  {
    |u| == 0 || (|v| > 0 && (u[0] < v[0] || (u[0] == v[0] && LexLe(u[1..], v[1..]))))
  }

  /** A full match whose cut vector is greatest: the match Go's regexp reports. */
  ghost predicate Preferred(ps: seq<Piece>, s: string, cuts: seq<nat>) {
    Fits(ps, s, 0, cuts) && forall w | Fits(ps, s, 0, w) :: LexLe(w, cuts)
  }

  lemma LexLeReflexive(u: seq<nat>)
    ensures LexLe(u, u)
  {
  }

  lemma {:induction false} LexLeTotal(u: seq<nat>, v: seq<nat>)
    requires |u| == |v|
    ensures LexLe(u, v) || LexLe(v, u)
    decreases |u|
  {
    if |u| > 0 && u[0] == v[0] {
      LexLeTotal(u[1..], v[1..]);
    }
  }

  lemma {:induction false} LexLeAntisymmetric(u: seq<nat>, v: seq<nat>)
    requires |u| == |v| && LexLe(u, v) && LexLe(v, u)
    ensures u == v
    decreases |u|
  {
    if |u| > 0 {
      LexLeAntisymmetric(u[1..], v[1..]);
      assert u == [u[0]] + u[1..] && v == [v[0]] + v[1..];
    }
  }

  lemma {:induction false} LexLeTransitive(u: seq<nat>, v: seq<nat>, w: seq<nat>)
    requires |u| == |v| == |w| && LexLe(u, v) && LexLe(v, w)
    ensures LexLe(u, w)
    decreases |u|
  {
    if |u| > 0 && u[0] == v[0] == w[0] {
      LexLeTransitive(u[1..], v[1..], w[1..]);
    }
  }

  /** Appending the same suffix to two vectors keeps their order. */
  lemma {:induction false} LexLeAppend(u: seq<nat>, v: seq<nat>, p: seq<nat>)
    requires |u| == |v| && LexLe(u, v)
    ensures LexLe(u + p, v + p)
    decreases |u|
  {
    if |u| == 0 {
      assert u + p == p && v + p == p;
      LexLeReflexive(p);
    } else {
      assert (u + p)[1..] == u[1..] + p && (v + p)[1..] == v[1..] + p;
      if u[0] == v[0] {
        LexLeAppend(u[1..], v[1..], p);
      }
    }
  }

  /** Fits peels off its first piece. */
  lemma FitsCons(ps: seq<Piece>, s: string, from: nat, cuts: seq<nat>)
    requires |ps| > 0
    ensures Fits(ps, s, from, cuts) <==>
      (&& |cuts| > 0 && from <= cuts[0] <= |s|
       && SpanFits(ps[0], s, from, cuts[0])
       && Fits(ps[1..], s, cuts[0], cuts[1..]))
  {
    if |cuts| > 0 && from <= cuts[0] <= |s| && |cuts| == |ps| {
      var tail := cuts[1..];
      assert PieceOk(ps, s, from, cuts, 0) <==> SpanFits(ps[0], s, from, cuts[0]);
      forall k | 1 <= k < |cuts|
        ensures PieceOk(ps, s, from, cuts, k) <==> PieceOk(ps[1..], s, cuts[0], tail, k - 1)
      {
        assert Start(from, cuts, k) == Start(cuts[0], tail, k - 1);
        assert cuts[k] == tail[k - 1] && ps[k] == ps[1..][k - 1];
      }
      var lastOk := cuts[|cuts| - 1] == |s|;
      var tailLastOk := if |tail| == 0 then cuts[0] == |s| else tail[|tail| - 1] == |s|;
      assert lastOk <==> tailLastOk;
      if Fits(ps[1..], s, cuts[0], tail) && SpanFits(ps[0], s, from, cuts[0]) {
        forall k | 0 <= k < |cuts|
          ensures PieceOk(ps, s, from, cuts, k)
        {
          if k > 0 {
            assert PieceOk(ps[1..], s, cuts[0], tail, k - 1);
          }
        }
        assert Fits(ps, s, from, cuts);
      }
      if Fits(ps, s, from, cuts) {
        forall k | 0 <= k < |tail|
          ensures PieceOk(ps[1..], s, cuts[0], tail, k)
        {
          assert PieceOk(ps, s, from, cuts, k + 1);
        }
        assert PieceOk(ps, s, from, cuts, 0);
        assert Fits(ps[1..], s, cuts[0], tail);
      }
    } else if |cuts| == |ps| {
      assert Fits(ps, s, from, cuts) ==> PieceOk(ps, s, from, cuts, 0);
    }
  }

  function MaxSpan(p: Piece, s: string, from: nat): (n: nat)
    requires from <= |s|
    ensures from + n <= |s|
    ensures forall j | from <= j <= |s| && SpanFits(p, s, from, j) :: j <= from + n
  {
    match p.max
    case Unbounded => |s| - from
    case AtMost(m) => if m < |s| - from then m else |s| - from
  }

  /**
    The backtracking search: the greedy match of ps against s[from..] to the end.
    None exactly when no split exists; otherwise the greatest split.
  */
  function Longest(ps: seq<Piece>, s: string, from: nat): (r: Option<seq<nat>>)
    requires from <= |s|
    ensures r.Some? ==> Fits(ps, s, from, r.value)
    ensures r.Some? ==> forall w | Fits(ps, s, from, w) :: LexLe(w, r.value)
    ensures r.None? ==> forall w :: !Fits(ps, s, from, w)
    decreases |ps|, 1, 0
  {
    if |ps| == 0 then
      if from == |s| then Some([]) else None
    else
      FitsConsAll(ps, s, from);
      TryFrom(ps, s, from, MaxSpan(ps[0], s, from))
  }

  lemma FitsConsAll(ps: seq<Piece>, s: string, from: nat)
    requires |ps| > 0
    ensures forall w | Fits(ps, s, from, w) ::
      && |w| > 0 && from <= w[0] <= |s|
      && SpanFits(ps[0], s, from, w[0])
      && Fits(ps[1..], s, w[0], w[1..])
  {
    forall w | Fits(ps, s, from, w)
      ensures |w| > 0 && from <= w[0] <= |s| && SpanFits(ps[0], s, from, w[0]) && Fits(ps[1..], s, w[0], w[1..])
    {
      FitsCons(ps, s, from, w);
    }
  }

  /** Tries the first piece with spans of length n, n-1, ..., its minimum, longest first. */
  function TryFrom(ps: seq<Piece>, s: string, from: nat, n: nat): (r: Option<seq<nat>>)
    requires |ps| > 0 && from + n <= |s|
    ensures r.Some? ==> Fits(ps, s, from, r.value)
    ensures r.Some? ==> forall w | Fits(ps, s, from, w) && w[0] <= from + n :: LexLe(w, r.value)
    ensures r.None? ==> forall w | Fits(ps, s, from, w) :: w[0] > from + n
    decreases |ps|, 0, n
  {
    var rest := if SpanFits(ps[0], s, from, from + n) then Longest(ps[1..], s, from + n) else None;
    if n >= ps[0].min && rest.Some? then
      TakeSpan(ps, s, from, n, rest.value);
      Some([from + n] + rest.value)
    else
      NoSpan(ps, s, from, n, rest.None?);
      if n == 0 || n < ps[0].min then None
      else TryFrom(ps, s, from, n - 1)
  }

  /** Taking a span of length n followed by the greatest split of the rest beats every split with a shorter first span. */
  lemma TakeSpan(ps: seq<Piece>, s: string, from: nat, n: nat, rest: seq<nat>)
    requires |ps| > 0 && from + n <= |s|
    requires SpanFits(ps[0], s, from, from + n)
    requires Fits(ps[1..], s, from + n, rest)
    requires forall w | Fits(ps[1..], s, from + n, w) :: LexLe(w, rest)
    ensures Fits(ps, s, from, [from + n] + rest)
    ensures forall w | Fits(ps, s, from, w) && w[0] <= from + n :: LexLe(w, [from + n] + rest)
  {
    var cuts := [from + n] + rest;
    assert cuts[0] == from + n && cuts[1..] == rest;
    FitsCons(ps, s, from, cuts);
    forall w | Fits(ps, s, from, w) && w[0] <= from + n
      ensures LexLe(w, cuts)
    {
      FitsCons(ps, s, from, w);
      TakeSpanOne(w, from + n, rest, w[0] == from + n && LexLe(w[1..], rest));
    }
  }

  lemma TakeSpanOne(w: seq<nat>, c: nat, rest: seq<nat>, tailLe: bool)
    requires |w| > 0 && w[0] <= c
    requires w[0] == c ==> tailLe
    requires tailLe ==> w[0] == c && LexLe(w[1..], rest)
    ensures LexLe(w, [c] + rest)
  {
    assert ([c] + rest)[0] == c && ([c] + rest)[1..] == rest;
  }

  ghost predicate NoFit(ps: seq<Piece>, s: string, from: nat) {
    forall w :: !Fits(ps, s, from, w)
  }

  /** When span length n does not lead to a match, no split has a first span of exactly that length. */
  lemma NoSpan(ps: seq<Piece>, s: string, from: nat, n: nat, restFails: bool)
    requires |ps| > 0 && from + n <= |s|
    requires restFails ==> !SpanFits(ps[0], s, from, from + n) || NoFit(ps[1..], s, from + n)
    requires n >= ps[0].min ==> restFails
    ensures forall w | Fits(ps, s, from, w) :: w[0] != from + n && w[0] >= from
    ensures n < ps[0].min ==> forall w | Fits(ps, s, from, w) :: w[0] > from + n
  {
    forall w | Fits(ps, s, from, w)
      ensures w[0] != from + n && w[0] >= from
      ensures n < ps[0].min ==> w[0] > from + n
    {
      FitsCons(ps, s, from, w);
    }
  }

  /** n copies of v: the cuts of an absent optional group all sit where the match ended. */
  function Pad(n: nat, v: nat): (r: seq<nat>)
    ensures |r| == n && forall k | 0 <= k < n :: r[k] == v
  {
    seq(n, _ => v)
  }

  /**
    Cut vectors of a match of `body(?:tail)?$`: either the whole of body+tail
    matches, or body alone matches and the group's cuts sit at |s|.
  */
  ghost predicate FitsOpt(body: seq<Piece>, tail: seq<Piece>, s: string, cuts: seq<nat>) {
    && |cuts| == |body| + |tail|
    && (|| Fits(body + tail, s, 0, cuts)
        || (Fits(body, s, 0, cuts[..|body|]) && cuts[|body|..] == Pad(|tail|, |s|)))
  }

  /** The match of `body(?:tail)?$` Go's regexp reports: the greatest one. */
  ghost predicate PreferredOpt(body: seq<Piece>, tail: seq<Piece>, s: string, cuts: seq<nat>) {
    FitsOpt(body, tail, s, cuts) && forall w | FitsOpt(body, tail, s, w) :: LexLe(w, cuts)
  }

  /**
    The greedy match of `^body(?:tail)?$` against s: the greater of the best
    match with the group and the best match without it.
  */
  function LongestOpt(body: seq<Piece>, tail: seq<Piece>, s: string): (r: Option<seq<nat>>)
    ensures r.Some? ==> PreferredOpt(body, tail, s, r.value)
    ensures r.None? ==> forall w :: !FitsOpt(body, tail, s, w)
  {
    var full := Longest(body + tail, s, 0);
    var short := Longest(body, s, 0);
    var pad := Pad(|tail|, |s|);
    OptChoice(body, tail, s, full, short);
    if full.None? && short.None? then None
    else if short.None? then full
    else if full.None? then Some(short.value + pad)
    else if LexLe(short.value + pad, full.value) then full
    else Some(short.value + pad)
  }

  lemma OptChoice(body: seq<Piece>, tail: seq<Piece>, s: string, full: Option<seq<nat>>, short: Option<seq<nat>>)
    requires full == Longest(body + tail, s, 0) && short == Longest(body, s, 0)
    ensures full.None? && short.None? ==> forall w :: !FitsOpt(body, tail, s, w)
    ensures full.Some? ==> FitsOpt(body, tail, s, full.value)
    ensures short.Some? ==> FitsOpt(body, tail, s, short.value + Pad(|tail|, |s|))
    ensures full.Some? && short.None? ==> forall w | FitsOpt(body, tail, s, w) :: LexLe(w, full.value)
    ensures short.Some? ==> forall w | FitsOpt(body, tail, s, w) && !Fits(body + tail, s, 0, w) ::
      LexLe(w, short.value + Pad(|tail|, |s|))
    ensures full.Some? && short.Some? ==>
      var b := short.value + Pad(|tail|, |s|);
      && (LexLe(b, full.value) ==> forall w | FitsOpt(body, tail, s, w) :: LexLe(w, full.value))
      && (!LexLe(b, full.value) ==> forall w | FitsOpt(body, tail, s, w) :: LexLe(w, b))
  {
    var pad := Pad(|tail|, |s|);
    if short.Some? {
      var b := short.value + pad;
      assert b[..|body|] == short.value && b[|body|..] == pad;
      forall w | FitsOpt(body, tail, s, w) && !Fits(body + tail, s, 0, w)
        ensures LexLe(w, b)
      {
        assert w == w[..|body|] + w[|body|..];
        LexLeAppend(w[..|body|], short.value, pad);
      }
    }
    if full.Some? && short.Some? {
      var b := short.value + pad;
      assert |b| == |full.value|;
      if LexLe(b, full.value) {
        forall w | FitsOpt(body, tail, s, w)
          ensures LexLe(w, full.value)
        {
          if !Fits(body + tail, s, 0, w) {
            LexLeTransitive(w, b, full.value);
          }
        }
      } else {
        LexLeTotal(b, full.value);
        forall w | FitsOpt(body, tail, s, w)
          ensures LexLe(w, b)
        {
          if Fits(body + tail, s, 0, w) {
            LexLeTransitive(w, full.value, b);
          }
        }
      }
    }
  }

  /** w and v agree before position i and w is smaller at i (or i is the end). */
  lemma {:induction false} LexLeAt(w: seq<nat>, v: seq<nat>, i: nat)
    requires |w| == |v| && i <= |w|
    requires forall j | 0 <= j < i :: w[j] == v[j]
    requires i < |w| ==> w[i] < v[i]
    ensures LexLe(w, v)
    decreases i
  {
    if i == 0 {
      if |w| > 0 {
        assert w[0] < v[0];
      }
    } else {
      assert w[0] == v[0];
      LexLeAt(w[1..], v[1..], i - 1);
    }
  }

  /** The cut vector of consecutive spans laid down from position `from`. */
  function CutsFrom(from: nat, spans: seq<string>): (r: seq<nat>)
    ensures |r| == |spans|
    decreases |spans|
  {
    if |spans| == 0 then [] else [from + |spans[0]|] + CutsFrom(from + |spans[0]|, spans[1..])
  }

  /** The string t taken as a whole is matched by the piece p. */
  predicate SpanMatches(p: Piece, t: string) {
    && p.min <= |t|
    && (p.max.AtMost? ==> |t| <= p.max.n)
    && forall i | 0 <= i < |t| :: InClass(p.cls, t[i])
  }

  /** The first span sits at s[from..n] and the rest follows it. */
  lemma SplitFirst(s: string, from: nat, spans: seq<string>)
    requires |spans| > 0 && from <= |s| && s[from..] == Flatten(spans)
    ensures from + |spans[0]| <= |s|
    ensures s[from..from + |spans[0]|] == spans[0]
    ensures s[from + |spans[0]|..] == Flatten(spans[1..])
  {
    var n := from + |spans[0]|;
    assert s[from..] == spans[0] + Flatten(spans[1..]);
    assert s[from..n] == s[from..][..|spans[0]|];
    assert s[n..] == s[from..][|spans[0]|..];
  }

  /** Spans each matched by their piece make a match. */
  lemma {:induction false} FitsOfSpans(ps: seq<Piece>, s: string, from: nat, spans: seq<string>)
    requires |ps| == |spans| && from <= |s| && s[from..] == Flatten(spans)
    requires forall k | 0 <= k < |ps| :: SpanMatches(ps[k], spans[k])
    ensures Fits(ps, s, from, CutsFrom(from, spans))
    decreases |ps|
  {
    var cuts := CutsFrom(from, spans);
    if |ps| == 0 {
      assert |s[from..]| == 0;
    } else {
      var n := from + |spans[0]|;
      SplitFirst(s, from, spans);
      assert cuts[0] == n && cuts[1..] == CutsFrom(n, spans[1..]);
      forall k | 0 <= k < |ps| - 1
        ensures SpanMatches(ps[1..][k], spans[1..][k])
      {
        assert ps[1..][k] == ps[k + 1] && spans[1..][k] == spans[k + 1];
      }
      FitsOfSpans(ps[1..], s, n, spans[1..]);
      assert SpanMatches(ps[0], spans[0]);
      assert AllIn(ps[0].cls, s, from, n) by {
        forall t | from <= t < n
          ensures InClass(ps[0].cls, s[t])
        {
          assert s[t] == s[from..n][t - from];
        }
      }
      FitsCons(ps, s, from, cuts);
    }
  }

  /** Each span is where its piece sits in the cut vector. */
  lemma {:induction false} SpansAt(s: string, from: nat, spans: seq<string>)
    requires from <= |s| && s[from..] == Flatten(spans)
    ensures forall k | 0 <= k < |spans| ::
      Start(from, CutsFrom(from, spans), k) <= CutsFrom(from, spans)[k] <= |s| &&
      s[Start(from, CutsFrom(from, spans), k)..CutsFrom(from, spans)[k]] == spans[k]
    decreases |spans|
  {
    var cuts := CutsFrom(from, spans);
    if |spans| > 0 {
      var n := from + |spans[0]|;
      SplitFirst(s, from, spans);
      assert cuts[0] == n && cuts[1..] == CutsFrom(n, spans[1..]);
      SpansAt(s, n, spans[1..]);
      forall k | 1 <= k < |spans|
        ensures Start(from, cuts, k) == Start(n, cuts[1..], k - 1) && cuts[k] == cuts[1..][k - 1]
        ensures spans[k] == spans[1..][k - 1]
      {
      }
    }
  }
}
