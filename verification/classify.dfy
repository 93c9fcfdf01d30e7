/**
  The three line classifiers of classic/classic.go (statusMatch, versionMatch,
  auditMatch) and the records the verbs build from their captures.

  Each pattern is written as a sequence of greedy pieces for the Pattern
  module; a capture group wraps exactly one piece, so a capture is the span of
  that piece in the match Go's regexp reports (the greatest one), and an
  optional group that did not take part captures "".
*/
module Classify {
  import opened Wrappers
  import opened Pattern

  const Ws0 := Piece(Space, 0, Unbounded)
  const Ws1 := Piece(Space, 1, Unbounded)

  /** The head all three patterns share (classic/classic.go:78-80): optional blanks, the app
      (no ':' or line break), blanks, a colon, blanks. */
  const Head := [Ws0, Piece(NotColonOrEol, 1, Unbounded), Ws1, Piece(Just(':'), 1, AtMost(1)), Ws1]

  /** statusMatch (classic/classic.go:78): the head, a status without parentheses or line breaks,
      then optionally blanks and a parenthesised reason that closes the line. */
  const StatusBody := Head + [Piece(NotParenOrEol, 1, Unbounded)]
  const StatusTail := [Ws1, Piece(Just('('), 1, AtMost(1)), Piece(NotNewline, 1, Unbounded), Piece(Just(')'), 1, AtMost(1))]

  /** versionMatch (classic/classic.go:79): the head, an optional '*' or '(' marker, a version
      without parentheses or line breaks, and an optional ')'. */
  const VersionPattern := Head + [Piece(Either('*', '('), 0, AtMost(1)), Piece(NotParenOrEol, 1, Unbounded), Piece(Just(')'), 0, AtMost(1))]

  /** auditMatch (classic/classic.go:80): the head, a status without parentheses, dashes or line
      breaks, then optionally a dash between blanks and a version running to the end. */
  const AuditBody := Head + [Piece(NotParenDashOrEol, 1, Unbounded)]
  const AuditTail := [Ws1, Piece(Just('-'), 1, AtMost(1)), Ws1, Piece(NotNewline, 1, Unbounded)]

  /** Index of each capture group's piece. */
  const AppIx := 1
  const StatusIx := 5
  const ReasonIx := 8
  const TypeIx := 5
  const VersionIx := 6
  const AuditVersionIx := 9

  /** The text a capture group around piece k captured. */
  function Capture(s: string, cuts: seq<nat>, k: nat): string {
    if k < |cuts| && Start(0, cuts, k) <= cuts[k] <= |s| then s[Start(0, cuts, k)..cuts[k]] else ""
  }

  /** The named submatches of statusMatch. */
  datatype StatusGroups = StatusGroups(app: string, status: string, reason: string)

  /** The named submatches of versionMatch. */
  datatype VersionGroups = VersionGroups(app: string, marker: string, version: string)

  /** The named submatches of auditMatch. */
  datatype AuditGroups = AuditGroups(app: string, status: string, version: string)

  predicate NoneOf(t: string, banned: string) {
    forall i | 0 <= i < |t| :: t[i] !in banned
  }

  predicate AllSpace(t: string) {
    forall i | 0 <= i < |t| :: IsSpace(t[i])
  }

  /** Every character of a piece's span is in the piece's class. */
  lemma CaptureInClass(ps: seq<Piece>, s: string, cuts: seq<nat>, k: nat)
    requires Fits(ps, s, 0, cuts) && k < |ps|
    ensures |Capture(s, cuts, k)| == cuts[k] - Start(0, cuts, k)
    ensures |Capture(s, cuts, k)| >= ps[k].min
    ensures ps[k].max.AtMost? ==> |Capture(s, cuts, k)| <= ps[k].max.n
    ensures forall i | 0 <= i < |Capture(s, cuts, k)| :: InClass(ps[k].cls, Capture(s, cuts, k)[i])
  {
    assert PieceOk(ps, s, 0, cuts, k);
    var a := Start(0, cuts, k);
    forall i | 0 <= i < |Capture(s, cuts, k)|
      ensures InClass(ps[k].cls, Capture(s, cuts, k)[i])
    {
      assert Capture(s, cuts, k)[i] == s[a + i];
    }
  }

  /** A blank piece's span. */
  lemma BlankSpan(ps: seq<Piece>, s: string, cuts: seq<nat>, k: nat)
    requires Fits(ps, s, 0, cuts) && k < |ps| && ps[k].cls == Space
    ensures Start(0, cuts, k) <= cuts[k] <= |s|
    ensures |s[Start(0, cuts, k)..cuts[k]]| >= ps[k].min && AllSpace(s[Start(0, cuts, k)..cuts[k]])
  {
    assert PieceOk(ps, s, 0, cuts, k);
    CaptureInClass(ps, s, cuts, k);
  }

  /** A literal piece's span. */
  lemma LiteralSpan(ps: seq<Piece>, s: string, cuts: seq<nat>, k: nat, c: char)
    requires Fits(ps, s, 0, cuts) && k < |ps| && ps[k] == Piece(Just(c), 1, AtMost(1))
    ensures Start(0, cuts, k) < |s| && cuts[k] == Start(0, cuts, k) + 1
    ensures s[Start(0, cuts, k)] == c && s[Start(0, cuts, k)..cuts[k]] == [c]
  {
    CaptureInClass(ps, s, cuts, k);
    assert s[Start(0, cuts, k)] == Capture(s, cuts, k)[0];
  }

  /** Runs the status pattern over one line. */
  function MatchStatus(line: string): (r: Option<StatusGroups>)
    ensures r.Some? <==> exists cuts :: FitsOpt(StatusBody, StatusTail, line, cuts)
    ensures r.Some? ==> exists cuts :: PreferredOpt(StatusBody, StatusTail, line, cuts) && r.value == StatusCaptures(line, cuts)
    ensures r.Some? ==> |r.value.app| > 0 && NoneOf(r.value.app, ":\r\n")
    ensures r.Some? ==> |r.value.status| > 0 && NoneOf(r.value.status, "()\r\n")
    ensures r.Some? ==> NoneOf(r.value.reason, "\n")
    ensures r.Some? ==> (r.value.reason != "" <==> line[|line| - 1] == ')')
    ensures r.Some? ==> exists lead, gap1, gap2, gap3 :: StatusLayout(line, lead, gap1, gap2, gap3, r.value)
  {
    var m := LongestOpt(StatusBody, StatusTail, line);
    if m.None? then None
    else
      StatusFacts(line, m.value);
      Some(StatusCaptures(line, m.value))
  }

  /**
    line is `lead app gap1 : gap2 status` followed, when there is a reason, by
    `gap3 ( reason )`; every lead and gap is blank and only lead may be empty.
  */
  ghost predicate StatusLayout(line: string, lead: string, gap1: string, gap2: string, gap3: string, g: StatusGroups) {
    && line == lead + g.app + gap1 + ":" + gap2 + g.status + (if g.reason == "" then "" else gap3 + "(" + g.reason + ")")
    && AllSpace(lead) && |gap1| > 0 && AllSpace(gap1) && |gap2| > 0 && AllSpace(gap2)
    && (g.reason != "" ==> |gap3| > 0 && AllSpace(gap3))
  }

  function StatusCaptures(line: string, cuts: seq<nat>): StatusGroups {
    StatusGroups(Capture(line, cuts, AppIx), Capture(line, cuts, StatusIx), Capture(line, cuts, ReasonIx))
  }

  lemma StatusFacts(line: string, cuts: seq<nat>)
    requires FitsOpt(StatusBody, StatusTail, line, cuts)
    ensures |line| > 0
    ensures var g := StatusCaptures(line, cuts);
      && |g.app| > 0 && NoneOf(g.app, ":\r\n")
      && |g.status| > 0 && NoneOf(g.status, "()\r\n")
      && NoneOf(g.reason, "\n")
      && (g.reason != "" <==> line[|line| - 1] == ')')
      && exists lead, gap1, gap2, gap3 :: StatusLayout(line, lead, gap1, gap2, gap3, g)
  {
    if Fits(StatusBody + StatusTail, line, 0, cuts) {
      StatusFactsWithReason(line, cuts);
    } else {
      StatusFactsWithoutReason(line, cuts);
    }
  }

  /** statusMatch with its optional group taking part, piece by piece. */
  const StatusFull := [Ws0, Piece(NotColonOrEol, 1, Unbounded), Ws1, Piece(Just(':'), 1, AtMost(1)), Ws1,
                       Piece(NotParenOrEol, 1, Unbounded),
                       Ws1, Piece(Just('('), 1, AtMost(1)), Piece(NotNewline, 1, Unbounded), Piece(Just(')'), 1, AtMost(1))]

  lemma StatusFullIs()
    ensures StatusBody + StatusTail == StatusFull && StatusFull[..5] == Head
  {
  }

  lemma StatusFactsWithReason(line: string, cuts: seq<nat>)
    requires Fits(StatusBody + StatusTail, line, 0, cuts)
    ensures |line| > 0
    ensures var g := StatusCaptures(line, cuts);
      && |g.app| > 0 && NoneOf(g.app, ":\r\n")
      && |g.status| > 0 && NoneOf(g.status, "()\r\n")
      && NoneOf(g.reason, "\n") && g.reason != "" && line[|line| - 1] == ')'
      && exists lead, gap1, gap2, gap3 :: StatusLayout(line, lead, gap1, gap2, gap3, g)
  {
    StatusFullIs();
    var full := StatusFull;
    CaptureInClass(full, line, cuts, AppIx);
    CaptureInClass(full, line, cuts, StatusIx);
    CaptureInClass(full, line, cuts, ReasonIx);
    CaptureInClass(full, line, cuts, 9);
    assert line[|line| - 1] == Capture(line, cuts, 9)[0];
    StatusLayoutWithReason(line, cuts);
  }

  lemma StatusLayoutWithReason(line: string, cuts: seq<nat>)
    requires Fits(StatusFull, line, 0, cuts)
    ensures exists lead, gap1, gap2, gap3 :: StatusLayout(line, lead, gap1, gap2, gap3, StatusCaptures(line, cuts))
  {
    var g := StatusCaptures(line, cuts);
    StatusFullIs();
    HeadLayout(StatusFull, line, cuts);
    StatusReasonTail(line, cuts);
    assert StatusLayout(line, line[..cuts[0]], line[cuts[1]..cuts[2]], line[cuts[3]..cuts[4]], line[cuts[5]..cuts[6]], g);
  }

  /** After the head: the status, blanks, and the reason in parentheses running to the end of the line. */
  lemma StatusReasonTail(line: string, cuts: seq<nat>)
    requires Fits(StatusFull, line, 0, cuts)
    ensures cuts[4] <= cuts[5] <= cuts[6] <= |line|
    ensures line[cuts[4]..] == Capture(line, cuts, StatusIx) + line[cuts[5]..cuts[6]] + "(" + Capture(line, cuts, ReasonIx) + ")"
    ensures |line[cuts[5]..cuts[6]]| > 0 && AllSpace(line[cuts[5]..cuts[6]])
    ensures |Capture(line, cuts, ReasonIx)| > 0
  {
    StatusParens(line, cuts);
    CaptureInClass(StatusFull, line, cuts, 5);
    CaptureInClass(StatusFull, line, cuts, 6);
    CaptureInClass(StatusFull, line, cuts, 8);
    Glue(line, cuts[4], cuts[5], |line|);
    Glue(line, cuts[5], cuts[6], |line|);
    Glue(line, cuts[6], cuts[7], |line|);
    Glue(line, cuts[7], cuts[8], |line|);
  }

  /** The optional group of statusMatch opens with one '(' and the line ends with one ')'. */
  lemma StatusParens(line: string, cuts: seq<nat>)
    requires Fits(StatusFull, line, 0, cuts)
    ensures cuts[6] + 1 == cuts[7] <= cuts[8] && cuts[8] + 1 == cuts[9] == |line|
    ensures line[cuts[6]..cuts[7]] == "(" && line[cuts[8]..cuts[9]] == ")"
  {
    LiteralSpan(StatusFull, line, cuts, 7, '(');
    LiteralSpan(StatusFull, line, cuts, 9, ')');
    assert PieceOk(StatusFull, line, 0, cuts, 8);
  }

  lemma StatusFactsWithoutReason(line: string, cuts: seq<nat>)
    requires FitsOpt(StatusBody, StatusTail, line, cuts) && !Fits(StatusBody + StatusTail, line, 0, cuts)
    ensures |line| > 0
    ensures var g := StatusCaptures(line, cuts);
      && |g.app| > 0 && NoneOf(g.app, ":\r\n")
      && |g.status| > 0 && NoneOf(g.status, "()\r\n")
      && g.reason == "" && line[|line| - 1] != ')'
      && exists lead, gap1, gap2, gap3 :: StatusLayout(line, lead, gap1, gap2, gap3, g)
  {
    var g := StatusCaptures(line, cuts);
    var b := cuts[..|StatusBody|];
    assert Fits(StatusBody, line, 0, b);
    CaptureInClass(StatusBody, line, b, AppIx);
    CaptureInClass(StatusBody, line, b, StatusIx);
    assert Capture(line, cuts, AppIx) == Capture(line, b, AppIx);
    assert Capture(line, cuts, StatusIx) == Capture(line, b, StatusIx);
    assert cuts[ReasonIx] == |line| && cuts[ReasonIx - 1] == |line|;
    assert g.reason == "";
    assert line[|line| - 1] == Capture(line, b, StatusIx)[|Capture(line, b, StatusIx)| - 1];
    HeadLayout(StatusBody, line, b);
    assert line[b[4]..] == g.status;
    assert StatusLayout(line, line[..b[0]], line[b[1]..b[2]], line[b[3]..b[4]], "", g);
  }

  /** Consecutive spans of a match put the line back together. */
  lemma Glue(s: string, i: nat, j: nat, k: nat)
    requires i <= j <= k <= |s|
    ensures s[i..k] == s[i..j] + s[j..k]
  {
  }

  /**
    The head of every pattern: leading blanks, the app, blanks, the first colon
    of the line, blanks.
  */
  lemma HeadLayout(ps: seq<Piece>, line: string, cuts: seq<nat>)
    requires |ps| > 5 && ps[..5] == Head && Fits(ps, line, 0, cuts)
    ensures cuts[0] < cuts[1] < cuts[2] < cuts[3] < cuts[4] <= |line| && cuts[3] == cuts[2] + 1
    ensures line == line[..cuts[0]] + Capture(line, cuts, AppIx) + line[cuts[1]..cuts[2]] + ":" + line[cuts[3]..cuts[4]] + line[cuts[4]..]
    ensures AllSpace(line[..cuts[0]])
    ensures |line[cuts[1]..cuts[2]]| > 0 && AllSpace(line[cuts[1]..cuts[2]])
    ensures |line[cuts[3]..cuts[4]]| > 0 && AllSpace(line[cuts[3]..cuts[4]])
    ensures line[cuts[2]] == ':' && ':' !in line[..cuts[2]]
  {
    forall k | 0 <= k < 5
      ensures ps[k] == Head[k]
    {
      assert ps[k] == ps[..5][k];
    }
    CaptureInClass(ps, line, cuts, 0);
    CaptureInClass(ps, line, cuts, 1);
    CaptureInClass(ps, line, cuts, 2);
    CaptureInClass(ps, line, cuts, 3);
    CaptureInClass(ps, line, cuts, 4);
    assert Capture(line, cuts, 0) == line[..cuts[0]];
    assert Capture(line, cuts, 2) == line[cuts[1]..cuts[2]];
    assert Capture(line, cuts, 3) == line[cuts[2]..cuts[3]];
    assert Capture(line, cuts, 4) == line[cuts[3]..cuts[4]];
    assert ps[3].max == AtMost(1) && ps[3].cls == Just(':');
    assert PieceOk(ps, line, 0, cuts, 3);
    assert cuts[3] == cuts[2] + 1;
    assert line[cuts[2]] == Capture(line, cuts, 3)[0] == ':';
    assert line[cuts[2]..cuts[3]] == [line[cuts[2]]];
    Glue(line, 0, cuts[0], cuts[1]);
    Glue(line, 0, cuts[1], cuts[2]);
    Glue(line, 0, cuts[2], cuts[3]);
    Glue(line, 0, cuts[3], cuts[4]);
    Glue(line, 0, cuts[4], |line|);
    forall i | 0 <= i < cuts[2]
      ensures line[i] != ':'
    {
      if i < cuts[0] {
        assert line[i] == Capture(line, cuts, 0)[i];
      } else if i < cuts[1] {
        assert line[i] == Capture(line, cuts, 1)[i - cuts[0]];
      } else {
        assert line[i] == Capture(line, cuts, 2)[i - cuts[1]];
      }
    }
  }

  /** Runs the version pattern over one line. */
  function MatchVersion(line: string): (r: Option<VersionGroups>)
    ensures r.Some? <==> exists cuts :: Fits(VersionPattern, line, 0, cuts)
    ensures r.Some? ==> exists cuts :: Preferred(VersionPattern, line, cuts) && r.value == VersionCaptures(line, cuts)
    ensures r.Some? ==> |r.value.app| > 0 && NoneOf(r.value.app, ":\r\n")
    ensures r.Some? ==> r.value.marker in {"", "*", "("}
    ensures r.Some? ==> |r.value.version| > 0 && NoneOf(r.value.version, "()\r\n")
    ensures r.Some? ==> exists lead, gap1, gap2, close :: VersionLayout(line, lead, gap1, gap2, close, r.value)
  {
    var m := Longest(VersionPattern, line, 0);
    if m.None? then None
    else
      VersionFacts(line, m.value);
      Some(VersionCaptures(line, m.value))
  }

  /** line is `lead app gap1 : gap2 marker version close`, close being nothing or `)`. */
  ghost predicate VersionLayout(line: string, lead: string, gap1: string, gap2: string, close: string, g: VersionGroups) {
    && line == lead + g.app + gap1 + ":" + gap2 + g.marker + g.version + close
    && AllSpace(lead) && |gap1| > 0 && AllSpace(gap1) && |gap2| > 0 && AllSpace(gap2)
    && (close == "" || close == ")")
  }

  function VersionCaptures(line: string, cuts: seq<nat>): VersionGroups {
    VersionGroups(Capture(line, cuts, AppIx), Capture(line, cuts, TypeIx), Capture(line, cuts, VersionIx))
  }

  lemma VersionFacts(line: string, cuts: seq<nat>)
    requires Fits(VersionPattern, line, 0, cuts)
    ensures var g := VersionCaptures(line, cuts);
      && |g.app| > 0 && NoneOf(g.app, ":\r\n")
      && g.marker in {"", "*", "("}
      && |g.version| > 0 && NoneOf(g.version, "()\r\n")
      && exists lead, gap1, gap2, close :: VersionLayout(line, lead, gap1, gap2, close, g)
  {
    var g := VersionCaptures(line, cuts);
    var ps := VersionPattern;
    CaptureInClass(ps, line, cuts, AppIx);
    CaptureInClass(ps, line, cuts, TypeIx);
    CaptureInClass(ps, line, cuts, VersionIx);
    assert |g.marker| == 0 || g.marker == [g.marker[0]];
    VersionLayoutHolds(line, cuts);
  }

  lemma VersionLayoutHolds(line: string, cuts: seq<nat>)
    requires Fits(VersionPattern, line, 0, cuts)
    ensures exists lead, gap1, gap2, close :: VersionLayout(line, lead, gap1, gap2, close, VersionCaptures(line, cuts))
  {
    var g := VersionCaptures(line, cuts);
    var ps := VersionPattern;
    CaptureInClass(ps, line, cuts, 5);
    CaptureInClass(ps, line, cuts, 6);
    CaptureInClass(ps, line, cuts, 7);
    var close := Capture(line, cuts, 7);
    assert close == "" || close == [close[0]] == ")";
    assert ps[..5] == Head;
    HeadLayout(ps, line, cuts);
    Glue(line, cuts[4], cuts[5], |line|);
    Glue(line, cuts[5], cuts[6], |line|);
    assert line[cuts[4]..] == g.marker + g.version + close;
    assert VersionLayout(line, line[..cuts[0]], line[cuts[1]..cuts[2]], line[cuts[3]..cuts[4]], close, g);
  }

  /** auditMatch with its optional group taking part, piece by piece. */
  const AuditFull := [Ws0, Piece(NotColonOrEol, 1, Unbounded), Ws1, Piece(Just(':'), 1, AtMost(1)), Ws1,
                      Piece(NotParenDashOrEol, 1, Unbounded),
                      Ws1, Piece(Just('-'), 1, AtMost(1)), Ws1, Piece(NotNewline, 1, Unbounded)]

  lemma AuditFullIs()
    ensures AuditBody + AuditTail == AuditFull && AuditFull[..5] == Head
  {
  }

  /** Runs the audit pattern over one line. */
  function MatchAudit(line: string): (r: Option<AuditGroups>)
    ensures r.Some? <==> exists cuts :: FitsOpt(AuditBody, AuditTail, line, cuts)
    ensures r.Some? ==> exists cuts :: PreferredOpt(AuditBody, AuditTail, line, cuts) && r.value == AuditCaptures(line, cuts)
    ensures r.Some? ==> |r.value.app| > 0 && NoneOf(r.value.app, ":\r\n")
    ensures r.Some? ==> |r.value.status| > 0 && NoneOf(r.value.status, "()-\r\n")
    ensures r.Some? ==> NoneOf(r.value.version, "\n")
    ensures r.Some? ==> exists lead, gap1, gap2, gap3, gap4 :: AuditLayout(line, lead, gap1, gap2, gap3, gap4, r.value)
  {
    var m := LongestOpt(AuditBody, AuditTail, line);
    if m.None? then None
    else
      AuditFacts(line, m.value);
      Some(AuditCaptures(line, m.value))
  }

  /**
    line is `lead app gap1 : gap2 status` followed, when there is a version, by
    `gap3 - gap4 version`; every lead and gap is blank and only lead may be empty.
  */
  ghost predicate AuditLayout(line: string, lead: string, gap1: string, gap2: string, gap3: string, gap4: string, g: AuditGroups) {
    && line == lead + g.app + gap1 + ":" + gap2 + g.status + (if g.version == "" then "" else gap3 + "-" + gap4 + g.version)
    && AllSpace(lead) && |gap1| > 0 && AllSpace(gap1) && |gap2| > 0 && AllSpace(gap2)
    && (g.version != "" ==> |gap3| > 0 && AllSpace(gap3) && |gap4| > 0 && AllSpace(gap4))
  }

  function AuditCaptures(line: string, cuts: seq<nat>): AuditGroups {
    AuditGroups(Capture(line, cuts, AppIx), Capture(line, cuts, StatusIx), Capture(line, cuts, AuditVersionIx))
  }

  lemma AuditFacts(line: string, cuts: seq<nat>)
    requires FitsOpt(AuditBody, AuditTail, line, cuts)
    ensures var g := AuditCaptures(line, cuts);
      && |g.app| > 0 && NoneOf(g.app, ":\r\n")
      && |g.status| > 0 && NoneOf(g.status, "()-\r\n")
      && NoneOf(g.version, "\n")
      && exists lead, gap1, gap2, gap3, gap4 :: AuditLayout(line, lead, gap1, gap2, gap3, gap4, g)
  {
    AuditFullIs();
    if Fits(AuditFull, line, 0, cuts) {
      AuditFactsWithVersion(line, cuts);
    } else {
      AuditFactsWithoutVersion(line, cuts);
    }
  }

  lemma AuditFactsWithVersion(line: string, cuts: seq<nat>)
    requires Fits(AuditFull, line, 0, cuts)
    ensures var g := AuditCaptures(line, cuts);
      && |g.app| > 0 && NoneOf(g.app, ":\r\n")
      && |g.status| > 0 && NoneOf(g.status, "()-\r\n")
      && |g.version| > 0 && NoneOf(g.version, "\n")
      && exists lead, gap1, gap2, gap3, gap4 :: AuditLayout(line, lead, gap1, gap2, gap3, gap4, g)
  {
    var ps := AuditFull;
    CaptureInClass(ps, line, cuts, AppIx);
    CaptureInClass(ps, line, cuts, StatusIx);
    CaptureInClass(ps, line, cuts, AuditVersionIx);
    AuditLayoutWithVersion(line, cuts);
  }

  lemma AuditLayoutWithVersion(line: string, cuts: seq<nat>)
    requires Fits(AuditFull, line, 0, cuts)
    ensures exists lead, gap1, gap2, gap3, gap4 :: AuditLayout(line, lead, gap1, gap2, gap3, gap4, AuditCaptures(line, cuts))
  {
    var g := AuditCaptures(line, cuts);
    AuditFullIs();
    HeadLayout(AuditFull, line, cuts);
    AuditTailLayout(line, cuts);
    assert AuditLayout(line, line[..cuts[0]], line[cuts[1]..cuts[2]], line[cuts[3]..cuts[4]],
                       line[cuts[5]..cuts[6]], line[cuts[7]..cuts[8]], g);
  }

  /** After the head: status, blanks, `-`, blanks, version. */
  lemma AuditTailLayout(line: string, cuts: seq<nat>)
    requires Fits(AuditFull, line, 0, cuts)
    ensures cuts[4] <= cuts[5] <= cuts[6] <= cuts[7] <= cuts[8] <= |line|
    ensures |line[cuts[5]..cuts[6]]| > 0 && AllSpace(line[cuts[5]..cuts[6]])
    ensures |line[cuts[7]..cuts[8]]| > 0 && AllSpace(line[cuts[7]..cuts[8]])
    ensures |AuditCaptures(line, cuts).version| > 0
    ensures line[cuts[4]..] == AuditCaptures(line, cuts).status + line[cuts[5]..cuts[6]] + "-" + line[cuts[7]..cuts[8]] + AuditCaptures(line, cuts).version
  {
    var ps := AuditFull;
    assert PieceOk(ps, line, 0, cuts, 5) && PieceOk(ps, line, 0, cuts, 9);
    BlankSpan(ps, line, cuts, 6);
    LiteralSpan(ps, line, cuts, 7, '-');
    BlankSpan(ps, line, cuts, 8);
    Glue(line, cuts[4], cuts[5], |line|);
    Glue(line, cuts[5], cuts[6], |line|);
    Glue(line, cuts[6], cuts[7], |line|);
    Glue(line, cuts[7], cuts[8], |line|);
  }

  lemma AuditFactsWithoutVersion(line: string, cuts: seq<nat>)
    requires FitsOpt(AuditBody, AuditTail, line, cuts) && !Fits(AuditBody + AuditTail, line, 0, cuts)
    ensures var g := AuditCaptures(line, cuts);
      && |g.app| > 0 && NoneOf(g.app, ":\r\n")
      && |g.status| > 0 && NoneOf(g.status, "()-\r\n")
      && g.version == ""
      && exists lead, gap1, gap2, gap3, gap4 :: AuditLayout(line, lead, gap1, gap2, gap3, gap4, g)
  {
    var g := AuditCaptures(line, cuts);
    var b := cuts[..|AuditBody|];
    assert Fits(AuditBody, line, 0, b);
    CaptureInClass(AuditBody, line, b, AppIx);
    CaptureInClass(AuditBody, line, b, StatusIx);
    assert Capture(line, cuts, AppIx) == Capture(line, b, AppIx);
    assert Capture(line, cuts, StatusIx) == Capture(line, b, StatusIx);
    assert cuts[AuditVersionIx] == |line| && cuts[AuditVersionIx - 1] == |line|;
    assert g.version == "";
    HeadLayout(AuditBody, line, b);
    assert line[b[4]..] == g.status;
    assert AuditLayout(line, line[..b[0]], line[b[1]..b[2]], line[b[3]..b[4]], "", "", g);
  }
}
