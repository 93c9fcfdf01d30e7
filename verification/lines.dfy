/**
  Lines as the deployment tool prints them, and the guarantee that each
  classifier gives back the fields a well-formed line was made from.  These
  round trips pin down where the greedy match puts its boundaries in the cases
  the verbs depend on: a single blank around the colon, the optional reason,
  the version marker and the audit version.
*/
module ToolLines {
  import opened Wrappers
  import opened Seqs
  import opened Pattern
  import opened Classify

  /** An app name as the tool prints it: no colon or line break, not starting blank. */
  predicate GoodApp(app: string) {
    |app| > 0 && NoneOf(app, ":\r\n") && !IsSpace(app[0])
  }

  /** A field that statusMatch's status class accepts and that does not start blank. */
  predicate GoodField(t: string) {
    |t| > 0 && NoneOf(t, "()\r\n") && !IsSpace(t[0])
  }

  /** The head of every match of a line `app : rest` sits at the single blanks around the colon. */
  lemma HeadPinned(ps: seq<Piece>, s: string, w: seq<nat>, app: string, rest: string)
    requires |ps| > 5 && ps[..5] == Head && Fits(ps, s, 0, w)
    requires s == app + " : " + rest && GoodApp(app) && |rest| > 0 && !IsSpace(rest[0])
    ensures w[0] == 0 && w[1] <= |app| && w[2] == |app| + 1 && w[3] == |app| + 2 && w[4] == |app| + 3
  {
    var a := |app|;
    HeadLayout(ps, s, w);
    assert s[0] == app[0] && !IsSpace(s[0]);
    assert forall i | 0 <= i < a :: s[i] == app[i];
    assert s[a] == ' ' && s[a + 1] == ':' && s[a + 3] == rest[0];
  }

  /** The status line the tool prints: `app : status`, then ` (reason)` when there is one. */
  function StatusLine(app: string, status: string, reason: string): string {
    app + " : " + status + (if reason == "" then "" else " (" + reason + ")")
  }

  function StatusSpans(app: string, status: string, reason: string): seq<string> {
    if reason == "" then ["", app, " ", ":", " ", status]
    else ["", app, " ", ":", " ", status, " ", "(", reason, ")"]
  }

  lemma StatusSpansConcat(app: string, status: string, reason: string)
    ensures Flatten(StatusSpans(app, status, reason)) == StatusLine(app, status, reason)
  {
    var sp := StatusSpans(app, status, reason);
    var head := ["", app, " ", ":", " ", status];
    HeadConcat(app, status);
    if reason == "" {
      assert sp == head;
    } else {
      var tail := [" ", "(", reason, ")"];
      assert sp == head + tail;
      assert sp[..6] == head && sp[6..] == tail;
      FlattenSplit(sp, 6);
      FlattenSplit(tail, 2);
      assert tail[..2] == [" ", "("] && tail[2..] == [reason, ")"];
      FlattenPair(" ", "(");
      FlattenPair(reason, ")");
    }
  }

  lemma HeadConcat(app: string, rest: string)
    ensures Flatten(["", app, " ", ":", " ", rest]) == app + " : " + rest
  {
    var sp := ["", app, " ", ":", " ", rest];
    FlattenSplit(sp, 2);
    assert sp[..2] == ["", app] && sp[2..] == [" ", ":", " ", rest];
    FlattenPair("", app);
    var t := sp[2..];
    FlattenSplit(t, 2);
    assert t[..2] == [" ", ":"] && t[2..] == [" ", rest];
    FlattenPair(" ", ":");
    FlattenPair(" ", rest);
  }

  lemma CutsFromCons(from: nat, x: string, rest: seq<string>)
    ensures CutsFrom(from, [x] + rest) == [from + |x|] + CutsFrom(from + |x|, rest)
  {
    assert ([x] + rest)[1..] == rest;
  }

  /** Where the pieces of `app : rest` end, rest being one span. */
  lemma HeadCuts(app: string, rest: string)
    ensures var a := |app|;
      CutsFrom(0, ["", app, " ", ":", " ", rest]) == [0, a, a + 1, a + 2, a + 3, a + 3 + |rest|]
  {
    var a := |app|;
    CutsFromCons(a + 3, rest, []);
    assert [rest] == [rest] + [];
    CutsFromCons(a + 2, " ", [rest]);
    CutsFromCons(a + 1, ":", [" ", rest]);
    CutsFromCons(a, " ", [":", " ", rest]);
    CutsFromCons(0, app, [" ", ":", " ", rest]);
    CutsFromCons(0, "", [app, " ", ":", " ", rest]);
  }

  /** Cuts of a concatenation of two span lists. */
  lemma {:induction false} CutsFromAppend(from: nat, xs: seq<string>, ys: seq<string>)
    ensures CutsFrom(from, xs + ys) ==
      CutsFrom(from, xs) + CutsFrom(if |xs| == 0 then from else CutsFrom(from, xs)[|xs| - 1], ys)
    decreases |xs|
  {
    if |xs| > 0 {
      assert (xs + ys)[1..] == xs[1..] + ys;
      CutsFromAppend(from + |xs[0]|, xs[1..], ys);
    } else {
      assert xs + ys == ys;
    }
  }

  /** The cut vector of a status line: the head, the status, and the reason group or its padding. */
  function StatusCuts(app: string, status: string, reason: string): seq<nat> {
    var p := |app| + 3 + |status|;
    [0, |app|, |app| + 1, |app| + 2, |app| + 3, p] +
    (if reason == "" then [p, p, p, p] else [p + 1, p + 2, p + 2 + |reason|, p + 3 + |reason|])
  }

  lemma StatusLineFits(app: string, status: string, reason: string)
    requires GoodApp(app) && GoodField(status) && NoneOf(reason, "\n")
    ensures FitsOpt(StatusBody, StatusTail, StatusLine(app, status, reason), StatusCuts(app, status, reason))
    ensures StatusCaptures(StatusLine(app, status, reason), StatusCuts(app, status, reason)) == StatusGroups(app, status, reason)
  {
    if reason == "" {
      StatusLineFitsPlain(app, status);
    } else {
      StatusLineFitsReason(app, status, reason);
    }
  }

  lemma StatusLineFitsPlain(app: string, status: string)
    requires GoodApp(app) && GoodField(status)
    ensures FitsOpt(StatusBody, StatusTail, StatusLine(app, status, ""), StatusCuts(app, status, ""))
    ensures StatusCaptures(StatusLine(app, status, ""), StatusCuts(app, status, "")) == StatusGroups(app, status, "")
  {
    var s := StatusLine(app, status, "");
    var c := StatusCuts(app, status, "");
    var sp := StatusSpans(app, status, "");
    StatusSpansConcat(app, status, "");
    HeadCuts(app, status);
    StatusPlainFits(app, status);
    assert c[6..] == Pad(4, |s|);
    SpanCaptures(s, sp, c, [AppIx, StatusIx]);
  }

  lemma StatusPlainFits(app: string, status: string)
    requires GoodApp(app) && GoodField(status)
    ensures Fits(StatusBody, StatusLine(app, status, ""), 0, StatusCuts(app, status, "")[..6])
  {
    var sp := StatusSpans(app, status, "");
    StatusSpansConcat(app, status, "");
    HeadCuts(app, status);
    StatusSpansMatch(app, status, "");
    FitsOfSpans(StatusBody, StatusLine(app, status, ""), 0, sp);
    assert StatusCuts(app, status, "")[..6] == CutsFrom(0, sp);
  }

  lemma StatusLineFitsReason(app: string, status: string, reason: string)
    requires GoodApp(app) && GoodField(status) && NoneOf(reason, "\n") && reason != ""
    ensures FitsOpt(StatusBody, StatusTail, StatusLine(app, status, reason), StatusCuts(app, status, reason))
    ensures StatusCaptures(StatusLine(app, status, reason), StatusCuts(app, status, reason)) == StatusGroups(app, status, reason)
  {
    StatusSpansConcat(app, status, reason);
    StatusReasonCuts(app, status, reason);
    StatusReasonFits(app, status, reason);
    SpanCaptures(StatusLine(app, status, reason), StatusSpans(app, status, reason), StatusCuts(app, status, reason), [AppIx, StatusIx, ReasonIx]);
  }

  lemma StatusReasonFits(app: string, status: string, reason: string)
    requires GoodApp(app) && GoodField(status) && NoneOf(reason, "\n") && reason != ""
    requires Flatten(StatusSpans(app, status, reason)) == StatusLine(app, status, reason)
    requires CutsFrom(0, StatusSpans(app, status, reason)) == StatusCuts(app, status, reason)
    ensures Fits(StatusBody + StatusTail, StatusLine(app, status, reason), 0, StatusCuts(app, status, reason))
  {
    StatusSpansMatch(app, status, reason);
    StatusFullIs();
    FitsOfSpans(StatusFull, StatusLine(app, status, reason), 0, StatusSpans(app, status, reason));
  }

  /** Each span of a status line is matched by its piece. */
  lemma StatusSpansMatch(app: string, status: string, reason: string)
    requires GoodApp(app) && GoodField(status) && NoneOf(reason, "\n")
    ensures reason == "" ==> forall k | 0 <= k < 6 :: SpanMatches(StatusBody[k], StatusSpans(app, status, reason)[k])
    ensures reason != "" ==> forall k | 0 <= k < 10 :: SpanMatches(StatusFull[k], StatusSpans(app, status, reason)[k])
  {
  }

  /** The captures at the listed pieces are the spans the line was laid out from. */
  lemma SpanCaptures(s: string, sp: seq<string>, c: seq<nat>, ks: seq<nat>)
    requires s == Flatten(sp) && |sp| <= |c| && c[..|sp|] == CutsFrom(0, sp)
    requires forall i | 0 <= i < |ks| :: ks[i] < |sp|
    ensures forall i | 0 <= i < |ks| :: Capture(s, c, ks[i]) == sp[ks[i]]
  {
    SpansAt(s, 0, sp);
    forall i | 0 <= i < |ks|
      ensures Capture(s, c, ks[i]) == sp[ks[i]]
    {
      var k := ks[i];
      assert c[k] == CutsFrom(0, sp)[k];
      assert Start(0, c, k) == Start(0, CutsFrom(0, sp), k);
    }
  }

  lemma StatusReasonCuts(app: string, status: string, reason: string)
    requires reason != ""
    ensures CutsFrom(0, StatusSpans(app, status, reason)) == StatusCuts(app, status, reason)
  {
    var head := ["", app, " ", ":", " ", status];
    var tail := [" ", "(", reason, ")"];
    assert StatusSpans(app, status, reason) == head + tail;
    HeadCuts(app, status);
    var p := |app| + 3 + |status|;
    CutsFromAppend(0, head, tail);
    CutsFromCons(p + 2 + |reason|, ")", []);
    assert [")"] == [")"] + [];
    CutsFromCons(p + 2, reason, [")"]);
    CutsFromCons(p + 1, "(", [reason, ")"]);
    CutsFromCons(p, " ", ["(", reason, ")"]);
  }

  /** Every match of a status line is at most the line's own cut vector. */
  lemma StatusLineGreatest(app: string, status: string, reason: string, w: seq<nat>)
    requires GoodApp(app) && GoodField(status) && NoneOf(reason, "\n")
    requires FitsOpt(StatusBody, StatusTail, StatusLine(app, status, reason), w)
    ensures LexLe(w, StatusCuts(app, status, reason))
  {
    var s := StatusLine(app, status, reason);
    var c := StatusCuts(app, status, reason);
    var a := |app|;
    var p := a + 3 + |status|;
    var rest := status + (if reason == "" then "" else " (" + reason + ")");
    assert s == app + " : " + rest;
    if Fits(StatusBody + StatusTail, s, 0, w) {
      StatusFullIs();
      HeadPinned(StatusFull, s, w, app, rest);
      assert PieceOk(StatusFull, s, 0, w, 5) && PieceOk(StatusFull, s, 0, w, 6);
      BlankSpan(StatusFull, s, w, 6);
      if w[1] < a {
        LexLeAt(w, c, 1);
      } else if reason == "" {
        LexLeAt(w, c, 5);
      } else {
        StatusReasonPinned(app, status, reason, w);
        LexLeAt(w, c, if w[5] < p then 5 else 10);
      }
    } else {
      var b := w[..6];
      assert Fits(StatusBody, s, 0, b);
      HeadPinned(StatusBody, s, b, app, rest);
      if reason != "" {
        StatusBodyNeedsNoParen(s, b);
        assert false;
      }
      assert w[6..] == Pad(4, |s|);
      LexLeAt(w, c, if w[1] < a then 1 else 10);
    }
  }

  /** With a reason, a match whose status ends where the line's does has the line's whole cut vector. */
  lemma StatusReasonPinned(app: string, status: string, reason: string, w: seq<nat>)
    requires GoodApp(app) && GoodField(status) && NoneOf(reason, "\n") && reason != ""
    requires Fits(StatusFull, StatusLine(app, status, reason), 0, w)
    requires w[4] == |app| + 3
    ensures w[5] <= |app| + 3 + |status|
    ensures w[5] == |app| + 3 + |status| ==> w[6..] == StatusCuts(app, status, reason)[6..]
  {
    var s := StatusLine(app, status, reason);
    var p := |app| + 3 + |status|;
    assert s[p] == ' ' && s[p + 1] == '(';
    assert PieceOk(StatusFull, s, 0, w, 5);
    CaptureInClass(StatusFull, s, w, 5);
    BlankSpan(StatusFull, s, w, 6);
    LiteralSpan(StatusFull, s, w, 7, '(');
    LiteralSpan(StatusFull, s, w, 9, ')');
    assert w[5] == p ==> s[w[5]..w[6]][0] == ' ';
  }

  /** Without its group, statusMatch cannot end on `)`. */
  lemma StatusBodyNeedsNoParen(s: string, b: seq<nat>)
    requires Fits(StatusBody, s, 0, b)
    ensures |s| > 0 && s[|s| - 1] != ')'
  {
    CaptureInClass(StatusBody, s, b, 5);
    assert s[|s| - 1] == Capture(s, b, 5)[|Capture(s, b, 5)| - 1];
  }

  /** The status classifier gives back the fields of a status line the tool prints. */
  lemma StatusLineRoundTrip(app: string, status: string, reason: string)
    requires GoodApp(app) && GoodField(status) && NoneOf(reason, "\n")
    ensures MatchStatus(StatusLine(app, status, reason)) == Some(StatusGroups(app, status, reason))
  {
    var s := StatusLine(app, status, reason);
    var c := StatusCuts(app, status, reason);
    StatusLineFits(app, status, reason);
    var m := LongestOpt(StatusBody, StatusTail, s);
    assert m.Some?;
    StatusLineGreatest(app, status, reason, m.value);
    LexLeAntisymmetric(m.value, c);
  }

  /** How the tool marks a listed version. */
  datatype Marker = Plain | Current | Alternate

  function MarkerText(m: Marker): string {
    match m
    case Plain => ""
    case Current => "*"
    case Alternate => "("
  }

  /** A listed version: `app : *version`, `app : (version)` or `app : version`. */
  function VersionLine(app: string, m: Marker, version: string): string {
    app + " : " + MarkerText(m) + version + (if m == Alternate then ")" else "")
  }

  /** A version field the classifier can give back unchanged after the given marker. */
  predicate GoodVersion(m: Marker, version: string) {
    && |version| > 0 && NoneOf(version, "()\r\n")
    && (m == Plain ==> !IsSpace(version[0]) && version[0] != '*')
  }

  function VersionSpans(app: string, m: Marker, version: string): seq<string> {
    ["", app, " ", ":", " ", MarkerText(m), version, if m == Alternate then ")" else ""]
  }

  function VersionCuts(app: string, m: Marker, version: string): seq<nat> {
    var q := |app| + 3 + |MarkerText(m)|;
    [0, |app|, |app| + 1, |app| + 2, |app| + 3, q, q + |version|, q + |version| + (if m == Alternate then 1 else 0)]
  }

  lemma VersionSpansConcat(app: string, m: Marker, version: string)
    ensures Flatten(VersionSpans(app, m, version)) == VersionLine(app, m, version)
    ensures CutsFrom(0, VersionSpans(app, m, version)) == VersionCuts(app, m, version)
  {
    VersionSpansText(app, m, version);
    VersionSpansCuts(app, m, version);
  }

  lemma VersionSpansText(app: string, m: Marker, version: string)
    ensures Flatten(VersionSpans(app, m, version)) == VersionLine(app, m, version)
  {
    var mk := MarkerText(m);
    var close := if m == Alternate then ")" else "";
    var sp := VersionSpans(app, m, version);
    var head := ["", app, " ", ":", " ", mk];
    var tail := [version, close];
    assert sp[..6] == head && sp[6..] == tail;
    FlattenSplit(sp, 6);
    HeadConcat(app, mk);
    FlattenPair(version, close);
  }

  lemma VersionSpansCuts(app: string, m: Marker, version: string)
    ensures CutsFrom(0, VersionSpans(app, m, version)) == VersionCuts(app, m, version)
  {
    var mk := MarkerText(m);
    var close := if m == Alternate then ")" else "";
    var head := ["", app, " ", ":", " ", mk];
    var tail := [version, close];
    assert VersionSpans(app, m, version) == head + tail;
    HeadCuts(app, mk);
    var q := |app| + 3 + |mk|;
    CutsFromAppend(0, head, tail);
    CutsFromCons(q + |version|, close, []);
    assert [close] == [close] + [];
    CutsFromCons(q, version, [close]);
  }

  lemma VersionSpansMatch(app: string, m: Marker, version: string)
    requires GoodApp(app) && GoodVersion(m, version)
    ensures forall k | 0 <= k < 8 :: SpanMatches(VersionPattern[k], VersionSpans(app, m, version)[k])
  {
  }

  lemma VersionLineFits(app: string, m: Marker, version: string)
    requires GoodApp(app) && GoodVersion(m, version)
    ensures Fits(VersionPattern, VersionLine(app, m, version), 0, VersionCuts(app, m, version))
    ensures VersionCaptures(VersionLine(app, m, version), VersionCuts(app, m, version)) == VersionGroups(app, MarkerText(m), version)
  {
    VersionSpansConcat(app, m, version);
    VersionFits(app, m, version);
    SpanCaptures(VersionLine(app, m, version), VersionSpans(app, m, version), VersionCuts(app, m, version), [AppIx, TypeIx, VersionIx]);
  }

  lemma VersionFits(app: string, m: Marker, version: string)
    requires GoodApp(app) && GoodVersion(m, version)
    requires Flatten(VersionSpans(app, m, version)) == VersionLine(app, m, version)
    requires CutsFrom(0, VersionSpans(app, m, version)) == VersionCuts(app, m, version)
    ensures Fits(VersionPattern, VersionLine(app, m, version), 0, VersionCuts(app, m, version))
  {
    VersionSpansMatch(app, m, version);
    FitsOfSpans(VersionPattern, VersionLine(app, m, version), 0, VersionSpans(app, m, version));
  }

  /** Every match of a version line is at most the line's own cut vector. */
  lemma VersionLineGreatest(app: string, m: Marker, version: string, w: seq<nat>)
    requires GoodApp(app) && GoodVersion(m, version)
    requires Fits(VersionPattern, VersionLine(app, m, version), 0, w)
    ensures LexLe(w, VersionCuts(app, m, version))
  {
    var s := VersionLine(app, m, version);
    var c := VersionCuts(app, m, version);
    var a := |app|;
    var rest := MarkerText(m) + version + (if m == Alternate then ")" else "");
    assert s == app + " : " + rest;
    HeadPinned(VersionPattern, s, w, app, rest);
    if w[1] < a {
      LexLeAt(w, c, 1);
    } else {
      VersionTailPinned(app, m, version, w);
      LexLeAt(w, c, if w[5] < c[5] then 5 else if w[6] < c[6] then 6 else 8);
    }
  }

  /** After the head, the marker, version and closing parenthesis of any match stay within the line's own. */
  lemma VersionTailPinned(app: string, m: Marker, version: string, w: seq<nat>)
    requires GoodApp(app) && GoodVersion(m, version)
    requires Fits(VersionPattern, VersionLine(app, m, version), 0, w)
    requires w[4] == |app| + 3
    ensures w[5] <= VersionCuts(app, m, version)[5]
    ensures w[5] == VersionCuts(app, m, version)[5] ==> w[6] <= VersionCuts(app, m, version)[6]
    ensures w[5] == VersionCuts(app, m, version)[5] && w[6] == VersionCuts(app, m, version)[6] ==>
      w[7] == VersionCuts(app, m, version)[7]
  {
    var s := VersionLine(app, m, version);
    var a := |app|;
    assert PieceOk(VersionPattern, s, 0, w, 5) && PieceOk(VersionPattern, s, 0, w, 6) && PieceOk(VersionPattern, s, 0, w, 7);
    CaptureInClass(VersionPattern, s, w, 5);
    CaptureInClass(VersionPattern, s, w, 6);
    CaptureInClass(VersionPattern, s, w, 7);
    assert s[a + 3] == (MarkerText(m) + version)[0];
    if m == Alternate {
      assert s[|s| - 1] == ')';
    }
  }

  /** The version classifier gives back the fields of a version line the tool prints. */
  lemma VersionLineRoundTrip(app: string, m: Marker, version: string)
    requires GoodApp(app) && GoodVersion(m, version)
    ensures MatchVersion(VersionLine(app, m, version)) == Some(VersionGroups(app, MarkerText(m), version))
  {
    var s := VersionLine(app, m, version);
    var c := VersionCuts(app, m, version);
    VersionLineFits(app, m, version);
    var r := Longest(VersionPattern, s, 0);
    assert r.Some?;
    VersionLineGreatest(app, m, version, r.value);
    LexLeAntisymmetric(r.value, c);
  }

  /** An audited app: `app : status`, then ` - version` when the app is installed. */
  function AuditLine(app: string, status: string, version: string): string {
    app + " : " + status + (if version == "" then "" else " - " + version)
  }

  /** A status auditMatch's status class accepts and that does not start blank. */
  predicate GoodAuditStatus(t: string) {
    |t| > 0 && NoneOf(t, "()-\r\n") && !IsSpace(t[0])
  }

  predicate GoodAuditVersion(t: string) {
    NoneOf(t, "\n") && (t != "" ==> !IsSpace(t[0]))
  }

  function AuditSpans(app: string, status: string, version: string): seq<string> {
    if version == "" then ["", app, " ", ":", " ", status]
    else ["", app, " ", ":", " ", status, " ", "-", " ", version]
  }

  function AuditCuts(app: string, status: string, version: string): seq<nat> {
    var p := |app| + 3 + |status|;
    [0, |app|, |app| + 1, |app| + 2, |app| + 3, p] +
    (if version == "" then [p, p, p, p] else [p + 1, p + 2, p + 3, p + 3 + |version|])
  }

  lemma AuditSpansConcat(app: string, status: string, version: string)
    ensures Flatten(AuditSpans(app, status, version)) == AuditLine(app, status, version)
    ensures version != "" ==> CutsFrom(0, AuditSpans(app, status, version)) == AuditCuts(app, status, version)
    ensures version == "" ==> CutsFrom(0, AuditSpans(app, status, version)) == AuditCuts(app, status, version)[..6]
  {
    AuditSpansText(app, status, version);
    HeadCuts(app, status);
    if version != "" {
      AuditVersionCuts(app, status, version);
    }
  }

  lemma AuditSpansText(app: string, status: string, version: string)
    ensures Flatten(AuditSpans(app, status, version)) == AuditLine(app, status, version)
  {
    var sp := AuditSpans(app, status, version);
    HeadConcat(app, status);
    if version != "" {
      var head := ["", app, " ", ":", " ", status];
      var tail := [" ", "-", " ", version];
      assert sp[..6] == head && sp[6..] == tail;
      FlattenSplit(sp, 6);
      FlattenSplit(tail, 2);
      assert tail[..2] == [" ", "-"] && tail[2..] == [" ", version];
      FlattenPair(" ", "-");
      FlattenPair(" ", version);
    }
  }

  lemma AuditVersionCuts(app: string, status: string, version: string)
    requires version != ""
    ensures CutsFrom(0, AuditSpans(app, status, version)) == AuditCuts(app, status, version)
  {
    var head := ["", app, " ", ":", " ", status];
    var tail := [" ", "-", " ", version];
    assert AuditSpans(app, status, version) == head + tail;
    HeadCuts(app, status);
    var p := |app| + 3 + |status|;
    CutsFromAppend(0, head, tail);
    CutsFromCons(p + 3, version, []);
    assert [version] == [version] + [];
    CutsFromCons(p + 2, " ", [version]);
    CutsFromCons(p + 1, "-", [" ", version]);
    CutsFromCons(p, " ", ["-", " ", version]);
  }

  lemma AuditSpansMatch(app: string, status: string, version: string)
    requires GoodApp(app) && GoodAuditStatus(status) && GoodAuditVersion(version)
    ensures version == "" ==> forall k | 0 <= k < 6 :: SpanMatches(AuditBody[k], AuditSpans(app, status, version)[k])
    ensures version != "" ==> forall k | 0 <= k < 10 :: SpanMatches(AuditFull[k], AuditSpans(app, status, version)[k])
  {
  }

  lemma AuditLineFits(app: string, status: string, version: string)
    requires GoodApp(app) && GoodAuditStatus(status) && GoodAuditVersion(version)
    ensures FitsOpt(AuditBody, AuditTail, AuditLine(app, status, version), AuditCuts(app, status, version))
    ensures AuditCaptures(AuditLine(app, status, version), AuditCuts(app, status, version)) == AuditGroups(app, status, version)
  {
    AuditSpansConcat(app, status, version);
    AuditSpansMatch(app, status, version);
    if version == "" {
      AuditLineFitsPlain(app, status);
    } else {
      AuditLineFitsVersion(app, status, version);
    }
  }

  lemma AuditLineFitsPlain(app: string, status: string)
    requires GoodApp(app) && GoodAuditStatus(status)
    requires Flatten(AuditSpans(app, status, "")) == AuditLine(app, status, "")
    requires CutsFrom(0, AuditSpans(app, status, "")) == AuditCuts(app, status, "")[..6]
    requires forall k | 0 <= k < 6 :: SpanMatches(AuditBody[k], AuditSpans(app, status, "")[k])
    ensures FitsOpt(AuditBody, AuditTail, AuditLine(app, status, ""), AuditCuts(app, status, ""))
    ensures AuditCaptures(AuditLine(app, status, ""), AuditCuts(app, status, "")) == AuditGroups(app, status, "")
  {
    var s := AuditLine(app, status, "");
    var c := AuditCuts(app, status, "");
    AuditPlainFits(app, status);
    assert c[6..] == Pad(4, |s|);
    SpanCaptures(s, AuditSpans(app, status, ""), c, [AppIx, StatusIx]);
  }

  lemma AuditPlainFits(app: string, status: string)
    requires Flatten(AuditSpans(app, status, "")) == AuditLine(app, status, "")
    requires CutsFrom(0, AuditSpans(app, status, "")) == AuditCuts(app, status, "")[..6]
    requires forall k | 0 <= k < 6 :: SpanMatches(AuditBody[k], AuditSpans(app, status, "")[k])
    ensures Fits(AuditBody, AuditLine(app, status, ""), 0, AuditCuts(app, status, "")[..6])
  {
    FitsOfSpans(AuditBody, AuditLine(app, status, ""), 0, AuditSpans(app, status, ""));
  }

  lemma AuditLineFitsVersion(app: string, status: string, version: string)
    requires GoodApp(app) && GoodAuditStatus(status) && GoodAuditVersion(version) && version != ""
    requires Flatten(AuditSpans(app, status, version)) == AuditLine(app, status, version)
    requires CutsFrom(0, AuditSpans(app, status, version)) == AuditCuts(app, status, version)
    requires forall k | 0 <= k < 10 :: SpanMatches(AuditFull[k], AuditSpans(app, status, version)[k])
    ensures FitsOpt(AuditBody, AuditTail, AuditLine(app, status, version), AuditCuts(app, status, version))
    ensures AuditCaptures(AuditLine(app, status, version), AuditCuts(app, status, version)) == AuditGroups(app, status, version)
  {
    AuditVersionFits(app, status, version);
    SpanCaptures(AuditLine(app, status, version), AuditSpans(app, status, version), AuditCuts(app, status, version), [AppIx, StatusIx, AuditVersionIx]);
  }

  lemma AuditVersionFits(app: string, status: string, version: string)
    requires Flatten(AuditSpans(app, status, version)) == AuditLine(app, status, version)
    requires CutsFrom(0, AuditSpans(app, status, version)) == AuditCuts(app, status, version)
    requires |AuditSpans(app, status, version)| == 10
    requires forall k | 0 <= k < 10 :: SpanMatches(AuditFull[k], AuditSpans(app, status, version)[k])
    ensures Fits(AuditBody + AuditTail, AuditLine(app, status, version), 0, AuditCuts(app, status, version))
  {
    AuditFullIs();
    FitsOfSpans(AuditFull, AuditLine(app, status, version), 0, AuditSpans(app, status, version));
  }

  /** Every match of an audit line is at most the line's own cut vector. */
  lemma AuditLineGreatest(app: string, status: string, version: string, w: seq<nat>)
    requires GoodApp(app) && GoodAuditStatus(status) && GoodAuditVersion(version)
    requires FitsOpt(AuditBody, AuditTail, AuditLine(app, status, version), w)
    ensures LexLe(w, AuditCuts(app, status, version))
  {
    var s := AuditLine(app, status, version);
    var c := AuditCuts(app, status, version);
    var a := |app|;
    var p := a + 3 + |status|;
    var rest := status + (if version == "" then "" else " - " + version);
    assert s == app + " : " + rest;
    if Fits(AuditBody + AuditTail, s, 0, w) {
      AuditFullIs();
      HeadPinned(AuditFull, s, w, app, rest);
      assert PieceOk(AuditFull, s, 0, w, 5) && PieceOk(AuditFull, s, 0, w, 6);
      BlankSpan(AuditFull, s, w, 6);
      if w[1] < a {
        LexLeAt(w, c, 1);
      } else if version == "" {
        LexLeAt(w, c, 5);
      } else {
        AuditVersionPinned(app, status, version, w);
        LexLeAt(w, c, if w[5] < p then 5 else 10);
      }
    } else {
      var b := w[..6];
      assert Fits(AuditBody, s, 0, b);
      HeadPinned(AuditBody, s, b, app, rest);
      assert PieceOk(AuditBody, s, 0, b, 5);
      if version != "" {
        AuditStatusStopsAtDash(app, status, version, b[5]);
        assert false;
      }
      assert w[6..] == Pad(4, |s|);
      LexLeAt(w, c, if w[1] < a then 1 else 10);
    }
  }

  /** With a version, a match whose status ends where the line's does has the line's whole cut vector. */
  lemma AuditVersionPinned(app: string, status: string, version: string, w: seq<nat>)
    requires GoodApp(app) && GoodAuditStatus(status) && GoodAuditVersion(version) && version != ""
    requires Fits(AuditFull, AuditLine(app, status, version), 0, w)
    requires w[4] == |app| + 3
    ensures w[5] <= |app| + 3 + |status|
    ensures w[5] == |app| + 3 + |status| ==> w[6..] == AuditCuts(app, status, version)[6..]
  {
    AuditStatusEnd(app, status, version, w);
    if w[5] == |app| + 3 + |status| {
      AuditTailPinned(app, status, version, w);
    }
  }

  /** The status cannot run into the dash, nor end just before it: blanks must follow it. */
  lemma AuditStatusEnd(app: string, status: string, version: string, w: seq<nat>)
    requires GoodApp(app) && GoodAuditStatus(status) && version != ""
    requires Fits(AuditFull, AuditLine(app, status, version), 0, w)
    requires w[4] == |app| + 3
    ensures w[5] <= |app| + 3 + |status|
  {
    var s := AuditLine(app, status, version);
    var p := |app| + 3 + |status|;
    assert s[p + 1] == '-';
    CaptureInClass(AuditFull, s, w, 5);
    BlankSpan(AuditFull, s, w, 6);
  }

  /** After a status ending where the line's does: one blank, the dash, one blank, the version. */
  lemma AuditTailPinned(app: string, status: string, version: string, w: seq<nat>)
    requires GoodApp(app) && GoodAuditStatus(status) && GoodAuditVersion(version) && version != ""
    requires Fits(AuditFull, AuditLine(app, status, version), 0, w)
    requires w[5] == |app| + 3 + |status|
    ensures w[6..] == AuditCuts(app, status, version)[6..]
  {
    var s := AuditLine(app, status, version);
    var p := |app| + 3 + |status|;
    assert s[p] == ' ' && s[p + 1] == '-' && s[p + 2] == ' ' && s[p + 3] == version[0];
    BlankSpan(AuditFull, s, w, 6);
    assert w[6] == p + 1;
    LiteralSpan(AuditFull, s, w, 7, '-');
    BlankSpan(AuditFull, s, w, 8);
    assert w[8] == p + 3;
    assert PieceOk(AuditFull, s, 0, w, 9);
  }

  /** An audit status starting after the colon stops before the dash of ` - version`. */
  lemma AuditStatusStopsAtDash(app: string, status: string, version: string, j: nat)
    requires GoodApp(app) && GoodAuditStatus(status) && version != ""
    requires |app| + 3 <= j <= |AuditLine(app, status, version)|
    requires AllIn(NotParenDashOrEol, AuditLine(app, status, version), |app| + 3, j)
    ensures j <= |app| + 4 + |status|
  {
    var s := AuditLine(app, status, version);
    assert s[|app| + 4 + |status|] == '-';
  }

  /** The audit classifier gives back the fields of an audit line the tool prints. */
  lemma AuditLineRoundTrip(app: string, status: string, version: string)
    requires GoodApp(app) && GoodAuditStatus(status) && GoodAuditVersion(version)
    ensures MatchAudit(AuditLine(app, status, version)) == Some(AuditGroups(app, status, version))
  {
    var s := AuditLine(app, status, version);
    var c := AuditCuts(app, status, version);
    AuditLineFits(app, status, version);
    var m := LongestOpt(AuditBody, AuditTail, s);
    assert m.Some?;
    AuditLineGreatest(app, status, version, m.value);
    LexLeAntisymmetric(m.value, c);
  }
}
