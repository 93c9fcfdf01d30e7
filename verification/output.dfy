/**
  How each verb turns the tool's standard output into records: the output is cut
  into lines the way bufio.Reader.ReadString('\n') cuts it, each line goes
  through the verb's classifier, and the records of the lines that match are
  sent in order.  Lines keep their '\n', so as the verbs are written no line can
  match; the corrected verbs strip the line ending first.
*/
module Output {
  import opened Wrappers
  import opened Seqs
  import opened Pattern
  import opened Classify
  import opened ToolLines
  import opened Records

  /**
    One call of ReadString('\n') on the unread text: the text up to and
    including the first '\n', or, with eof set, all that is left.
  */
  function ReadString(rest: string): (r: (string, bool))
    ensures |r.0| <= |rest| && r.0 == rest[..|r.0|]
    ensures r.1 <==> '\n' !in rest
    ensures r.1 ==> r.0 == rest
    ensures !r.1 ==> |r.0| > 0 && r.0[|r.0| - 1] == '\n' && '\n' !in r.0[..|r.0| - 1]
  {
    if |rest| == 0 then ("", true)
    else if rest[0] == '\n' then ("\n", false)
    else
      var (line, eof) := ReadString(rest[1..]);
      assert rest == [rest[0]] + rest[1..];
      ([rest[0]] + line, eof)
  }

  /**
    The lines a verb's loop looks at before ReadString reports io.EOF.  Every
    one ends in its '\n'; text after the last '\n' comes back together with
    io.EOF and the loop stops without looking at it.
  */
  function ReadLines(out: string): (r: seq<string>)
    ensures forall i | 0 <= i < |r| :: |r[i]| > 0 && r[i][|r[i]| - 1] == '\n' && '\n' !in r[i][..|r[i]| - 1]
    decreases |out|
  {
    var (line, eof) := ReadString(out);
    if eof then [] else [line] + ReadLines(out[|line|..])
  }

  /** The lines read are the output up to its last '\n', in order, and nothing after it. */
  lemma {:induction false} ReadLinesCover(out: string)
    ensures Flatten(ReadLines(out)) <= out
    ensures '\n' !in out[|Flatten(ReadLines(out))|..]
    decreases |out|
  {
    var (line, eof) := ReadString(out);
    if !eof {
      var rest := out[|line|..];
      ReadLinesCover(rest);
      FlattenCons(line, ReadLines(rest));
      assert out == line + rest;
      assert out[|Flatten(ReadLines(out))|..] == rest[|Flatten(ReadLines(rest))|..];
    }
  }

  /** The output text of the given lines, each closed by eol. */
  function Terminated(ts: seq<string>, eol: string): (r: seq<string>)
    ensures |r| == |ts|
    ensures forall i | 0 <= i < |ts| :: r[i] == ts[i] + eol
  {
    seq(|ts|, i requires 0 <= i < |ts| => ts[i] + eol)
  }

  /** Lines with no '\n' of their own, each closed by eol, are read back one by one. */
  lemma {:induction false} ReadLinesOfTerminated(ts: seq<string>, eol: string, tail: string)
    requires eol == "\n" || eol == "\r\n"
    requires forall i | 0 <= i < |ts| :: '\n' !in ts[i]
    requires '\n' !in tail
    ensures ReadLines(Flatten(Terminated(ts, eol)) + tail) == Terminated(ts, eol)
    decreases |ts|
  {
    var out := Flatten(Terminated(ts, eol)) + tail;
    if |ts| == 0 {
      assert out == tail;
    } else {
      var first := ts[0] + eol;
      assert Terminated(ts, eol) == [first] + Terminated(ts[1..], eol);
      FlattenCons(first, Terminated(ts[1..], eol));
      var rest := Flatten(Terminated(ts[1..], eol)) + tail;
      assert out == first + rest;
      assert first[|first| - 1] == '\n';
      assert '\n' !in first[..|first| - 1] by {
        assert eol == "\n" ==> first[..|first| - 1] == ts[0];
        assert eol == "\r\n" ==> first[..|first| - 1] == ts[0] + "\r";
      }
      FirstLineRead(first, rest);
      ReadLinesOfTerminated(ts[1..], eol, tail);
    }
  }

  /** ReadString stops at the first '\n'. */
  lemma {:induction false} FirstLineRead(first: string, rest: string)
    requires |first| > 0 && first[|first| - 1] == '\n' && '\n' !in first[..|first| - 1]
    ensures ReadString(first + rest) == (first, false)
    decreases |first|
  {
    var s := first + rest;
    if |first| > 1 {
      var body := first[..|first| - 1];
      assert first[0] == body[0] && first[0] != '\n';
      assert first[1..][..|first| - 2] == body[1..];
      FirstLineRead(first[1..], rest);
      assert s[0] == first[0] && s[1..] == first[1..] + rest;
      assert [first[0]] + first[1..] == first;
    } else {
      assert s[0] == '\n';
    }
  }

  /** The records of the lines whose classifier succeeds, in line order. */
  function FilterMap<T>(parse: string -> Option<T>, lines: seq<string>): (r: seq<T>)
    ensures |r| <= |lines|
  {
    if |lines| == 0 then []
    else
      var rest := FilterMap(parse, lines[1..]);
      match parse(lines[0])
      case Some(v) => [v] + rest
      case None => rest
  }

  /** Every record sent comes from a line, and every line that matches sends its record. */
  lemma {:induction false} FilterMapMembers<T>(parse: string -> Option<T>, lines: seq<string>)
    ensures var r := FilterMap(parse, lines);
      && (forall k | 0 <= k < |r| :: exists i :: 0 <= i < |lines| && parse(lines[i]) == Some(r[k]))
      && (forall i | 0 <= i < |lines| :: parse(lines[i]).Some? ==> parse(lines[i]).value in r)
    decreases |lines|
  {
    if |lines| > 0 {
      FilterMapMembers(parse, lines[1..]);
      FilterMapCons(parse, lines);
      assert forall i :: 0 < i < |lines| ==> lines[i] == lines[1..][i - 1];
    }
  }

  /** The records of consecutive stretches of output come one after the other. */
  lemma {:induction false} FilterMapAppend<T>(parse: string -> Option<T>, xs: seq<string>, ys: seq<string>)
    ensures FilterMap(parse, xs + ys) == FilterMap(parse, xs) + FilterMap(parse, ys)
    decreases |xs|
  {
    if |xs| == 0 {
      assert xs + ys == ys;
    } else {
      assert (xs + ys)[0] == xs[0];
      assert (xs + ys)[1..] == xs[1..] + ys;
      FilterMapAppend(parse, xs[1..], ys);
      FilterMapCons(parse, xs);
      FilterMapCons(parse, xs + ys);
    }
  }

  /** The first line's record, if any, comes before those of the other lines. */
  lemma FilterMapCons<T>(parse: string -> Option<T>, lines: seq<string>)
    requires |lines| > 0
    ensures FilterMap(parse, lines) == (match parse(lines[0]) case Some(v) => [v] case None => []) + FilterMap(parse, lines[1..])
  {
  }

  /** When no line is recognised, nothing is sent. */
  lemma {:induction false} FilterMapNoneMatch<T>(parse: string -> Option<T>, lines: seq<string>)
    requires forall i | 0 <= i < |lines| :: parse(lines[i]).None?
    ensures FilterMap(parse, lines) == []
    decreases |lines|
  {
    if |lines| > 0 {
      FilterMapNoneMatch(parse, lines[1..]);
    }
  }

  /** When every line is recognised, each line gives exactly one record, in order. */
  lemma {:induction false} FilterMapAllMatch<T>(parse: string -> Option<T>, lines: seq<string>)
    requires forall i | 0 <= i < |lines| :: parse(lines[i]).Some?
    ensures |FilterMap(parse, lines)| == |lines|
    ensures forall i | 0 <= i < |lines| :: FilterMap(parse, lines)[i] == parse(lines[i]).value
    decreases |lines|
  {
    if |lines| > 0 {
      FilterMapAllMatch(parse, lines[1..]);
    }
  }

  /** What a verb loop, as written, sends for the given output. */
  function Received<T>(parse: string -> Option<T>, out: string): (r: seq<T>)
    ensures |r| <= |ReadLines(out)|
  {
    FilterMap(parse, ReadLines(out))
  }

  /**
    The verb loop itself: ReadString until io.EOF, classify each line, send the
    record of each line that matched.
  */
  method Collect<T>(parse: string -> Option<T>, out: string) returns (sent: seq<T>)
    ensures sent == Received(parse, out)
  {
    var unread := out;
    sent := [];
    while true
      invariant sent + FilterMap(parse, ReadLines(unread)) == Received(parse, out)
      decreases |unread|
    {
      var read := ReadString(unread);
      if read.1 {
        break;
      }
      var line := read.0;
      CollectStep(parse, unread);
      var later := FilterMap(parse, ReadLines(unread[|line|..]));
      unread := unread[|line|..];
      match parse(line) {
        case Some(v) =>
          assert sent + [v] + later == sent + ([v] + later);
          sent := sent + [v];
        case None =>
      }
    }
  }

  /** One turn of the verb loop: the line read sends its record, if any, before those of the lines after it. */
  lemma CollectStep<T>(parse: string -> Option<T>, unread: string)
    requires !ReadString(unread).1
    ensures var line := ReadString(unread).0;
      FilterMap(parse, ReadLines(unread))
      == (match parse(line) case Some(v) => [v] case None => []) + FilterMap(parse, ReadLines(unread[|line|..]))
  {
    FilterMapCons(parse, ReadLines(unread));
  }

  /** A string ending in text without '\n' does not end in '\n'. */
  lemma LastOfSuffix(x: string, t: string)
    requires |t| > 0 && NoneOf(t, "\n")
    ensures (x + t)[|x + t| - 1] != '\n'
  {
    assert (x + t)[|x + t| - 1] == t[|t| - 1];
  }

  /** statusMatch only accepts a line that does not end in '\n'. */
  lemma StatusMatchRefusesNewline(line: string)
    ensures MatchStatus(line).Some? ==> |line| > 0 && line[|line| - 1] != '\n'
  {
    var r := MatchStatus(line);
    if r.Some? {
      var g := r.value;
      var lead, gap1, gap2, gap3 :| StatusLayout(line, lead, gap1, gap2, gap3, g);
      if g.reason == "" {
        LastOfSuffix(lead + g.app + gap1 + ":" + gap2, g.status);
      }
    }
  }

  /** versionMatch only accepts a line that does not end in '\n'. */
  lemma VersionMatchRefusesNewline(line: string)
    ensures MatchVersion(line).Some? ==> |line| > 0 && line[|line| - 1] != '\n'
  {
    var r := MatchVersion(line);
    if r.Some? {
      var g := r.value;
      var lead, gap1, gap2, close :| VersionLayout(line, lead, gap1, gap2, close, g);
      if close == "" {
        LastOfSuffix(lead + g.app + gap1 + ":" + gap2 + g.marker, g.version);
      }
    }
  }

  /** auditMatch only accepts a line that does not end in '\n'. */
  lemma AuditMatchRefusesNewline(line: string)
    ensures MatchAudit(line).Some? ==> |line| > 0 && line[|line| - 1] != '\n'
  {
    var r := MatchAudit(line);
    if r.Some? {
      var g := r.value;
      var lead, gap1, gap2, gap3, gap4 :| AuditLayout(line, lead, gap1, gap2, gap3, gap4, g);
      if g.version == "" {
        LastOfSuffix(lead + g.app + gap1 + ":" + gap2, g.status);
      } else {
        LastOfSuffix(lead + g.app + gap1 + ":" + gap2 + g.status + gap3 + "-" + gap4, g.version);
      }
    }
  }

  /** A classifier that refuses every line ending in '\n' receives nothing from ReadLines. */
  lemma {:induction false} NothingReceived<T>(parse: string -> Option<T>, out: string)
    requires forall line :: parse(line).Some? ==> |line| > 0 && line[|line| - 1] != '\n'
    ensures Received(parse, out) == []
  {
    var lines := ReadLines(out);
    FilterMapNoneMatch(parse, lines);
  }

  /** UpdateOnly and Uninstall, as written, never send a status, whatever the tool prints. */
  lemma UpdateOnlySendsNothing(out: string)
    ensures Received(ParseUpdateLine, out) == []
  {
    forall line | ParseUpdateLine(line).Some? ensures |line| > 0 && line[|line| - 1] != '\n' {
      StatusMatchRefusesNewline(line);
    }
    NothingReceived(ParseUpdateLine, out);
  }

  /** Freeze, as written, never sends a status. */
  lemma FreezeSendsNothing(out: string)
    ensures Received(ParseFreezeLine, out) == []
  {
    forall line | ParseFreezeLine(line).Some? ensures |line| > 0 && line[|line| - 1] != '\n' {
      StatusMatchRefusesNewline(line);
    }
    NothingReceived(ParseFreezeLine, out);
  }

  /** List, as written, never sends a version. */
  lemma ListSendsNothing(out: string)
    ensures Received(ParseListLine, out) == []
  {
    forall line | ParseListLine(line).Some? ensures |line| > 0 && line[|line| - 1] != '\n' {
      VersionMatchRefusesNewline(line);
    }
    NothingReceived(ParseListLine, out);
  }

  /** Audit, as written, never sends an app. */
  lemma AuditSendsNothing(out: string)
    ensures Received(ParseAuditLine, out) == []
  {
    forall line | ParseAuditLine(line).Some? ensures |line| > 0 && line[|line| - 1] != '\n' {
      AuditMatchRefusesNewline(line);
    }
    NothingReceived(ParseAuditLine, out);
  }

  /** A line with its '\n', and then a '\r' before it, removed. */
  function Chomp(line: string): (r: string)
    ensures |line| > 1 && line[|line| - 2..] == "\r\n" ==> r == line[..|line| - 2]
    ensures |line| > 0 && line[|line| - 1] == '\n' && (|line| == 1 || line[|line| - 2] != '\r') ==> r == line[..|line| - 1]
    ensures (|line| == 0 || line[|line| - 1] != '\n') ==> r == line
  {
    var a := if |line| > 0 && line[|line| - 1] == '\n' then line[..|line| - 1] else line;
    if |a| > 0 && a[|a| - 1] == '\r' && |a| < |line| then a[..|a| - 1] else a
  }

  /** Chomp takes back exactly the line ending the tool added. */
  lemma ChompTerminated(t: string, eol: string)
    requires eol == "\n" || eol == "\r\n"
    requires |t| == 0 || t[|t| - 1] != '\r'
    ensures Chomp(t + eol) == t
  {
    if eol == "\r\n" {
      assert (t + eol)[..|t + eol| - 1] == t + "\r";
      assert (t + "\r")[..|t|] == t;
    } else {
      assert (t + eol)[..|t + eol| - 1] == t;
    }
  }

  function ChompAll(lines: seq<string>): (r: seq<string>)
    ensures |r| == |lines|
    ensures forall i | 0 <= i < |lines| :: r[i] == Chomp(lines[i])
  {
    seq(|lines|, i requires 0 <= i < |lines| => Chomp(lines[i]))
  }

  /** What a verb loop sends once each line is stripped of its ending before it is classified. */
  function ReceivedChomped<T>(parse: string -> Option<T>, out: string): (r: seq<T>)
    ensures |r| <= |ReadLines(out)|
  {
    FilterMap(parse, ChompAll(ReadLines(out)))
  }

  /** The verb loop with the line ending stripped before the line is classified. */
  method CollectChomped<T>(parse: string -> Option<T>, out: string) returns (sent: seq<T>)
    ensures sent == ReceivedChomped(parse, out)
  {
    sent := Collect(line => parse(Chomp(line)), out);
    FilterMapChomp(parse, ReadLines(out));
  }

  /** Classifying the stripped lines is classifying each line after stripping it. */
  lemma {:induction false} FilterMapChomp<T>(parse: string -> Option<T>, lines: seq<string>)
    ensures FilterMap(parse, ChompAll(lines)) == FilterMap(line => parse(Chomp(line)), lines)
    decreases |lines|
  {
    if |lines| > 0 {
      var chomped := ChompAll(lines);
      assert chomped[1..] == ChompAll(lines[1..]);
      FilterMapChomp(parse, lines[1..]);
      FilterMapCons(parse, chomped);
      FilterMapCons(line => parse(Chomp(line)), lines);
    }
  }

  /** The stripped lines of output the tool printed are the lines it printed. */
  lemma PrintedLinesBack(ts: seq<string>, eol: string, tail: string)
    requires eol == "\n" || eol == "\r\n"
    requires forall i | 0 <= i < |ts| :: '\n' !in ts[i] && (|ts[i]| == 0 || ts[i][|ts[i]| - 1] != '\r')
    requires '\n' !in tail
    ensures ChompAll(ReadLines(Flatten(Terminated(ts, eol)) + tail)) == ts
  {
    ReadLinesOfTerminated(ts, eol, tail);
    forall i | 0 <= i < |ts| ensures Chomp(ts[i] + eol) == ts[i] {
      ChompTerminated(ts[i], eol);
    }
  }

  /** A printed line that Chomp gives back whole once its ending is added. */
  predicate PlainLine(t: string) {
    '\n' !in t && (|t| == 0 || t[|t| - 1] != '\r')
  }

  /** The stripped lines of printed output go through the classifier one by one, in order. */
  lemma ChompedOutput<T>(parse: string -> Option<T>, ts: seq<string>, eol: string, tail: string)
    requires eol == "\n" || eol == "\r\n"
    requires '\n' !in tail
    requires forall i | 0 <= i < |ts| :: PlainLine(ts[i]) && parse(ts[i]).Some?
    ensures var r := ReceivedChomped(parse, Flatten(Terminated(ts, eol)) + tail);
      |r| == |ts| && forall i | 0 <= i < |ts| :: r[i] == parse(ts[i]).value
  {
    PrintedLinesBack(ts, eol, tail);
    FilterMapAllMatch(parse, ts);
  }

  /** A string made of parts free of a character is free of it. */
  lemma NoneOfJoin(x: string, y: string, banned: string)
    requires NoneOf(x, banned) && NoneOf(y, banned)
    ensures NoneOf(x + y, banned)
  {
    assert forall i | |x| <= i < |x + y| :: (x + y)[i] == y[i - |x|];
  }

  /** The status lines the tool prints. */
  function StatusLines(entries: seq<StatusGroups>): (r: seq<string>)
    ensures |r| == |entries|
    ensures forall i | 0 <= i < |entries| :: r[i] == StatusLine(entries[i].app, entries[i].status, entries[i].reason)
  {
    seq(|entries|, i requires 0 <= i < |entries| => StatusLine(entries[i].app, entries[i].status, entries[i].reason))
  }

  predicate GoodStatusEntry(e: StatusGroups) {
    GoodApp(e.app) && GoodField(e.status) && NoneOf(e.reason, "\n")
  }

  /** A status line the tool prints has no line break in it and does not end in '\r'. */
  lemma StatusLinePlain(e: StatusGroups)
    requires GoodStatusEntry(e)
    ensures PlainLine(StatusLine(e.app, e.status, e.reason))
  {
    var s := StatusLine(e.app, e.status, e.reason);
    var head := e.app + " : " + e.status;
    NoneOfJoin(e.app, " : ", "\n");
    NoneOfJoin(e.app + " : ", e.status, "\n");
    if e.reason != "" {
      NoneOfJoin(head, " (", "\n");
      NoneOfJoin(head + " (", e.reason, "\n");
      NoneOfJoin(head + " (" + e.reason, ")", "\n");
      assert s == head + " (" + e.reason + ")";
    } else {
      assert s == head;
      assert s[|s| - 1] == e.status[|e.status| - 1];
    }
    assert NoneOf(s, "\n");
  }

  /**
    With line endings stripped, UpdateOnly and Uninstall send one status per
    printed line, in order, with the fields the line was made from.
  */
  lemma UpdateOnlyCorrectedOutput(entries: seq<StatusGroups>, eol: string, tail: string)
    requires eol == "\n" || eol == "\r\n"
    requires '\n' !in tail
    requires forall i | 0 <= i < |entries| :: GoodStatusEntry(entries[i])
    ensures var r := ReceivedChomped(ParseUpdateLine, Flatten(Terminated(StatusLines(entries), eol)) + tail);
      && |r| == |entries|
      && forall i | 0 <= i < |entries| :: r[i] == Status(entries[i].app, entries[i].status, entries[i].reason, "")
  {
    var ts := StatusLines(entries);
    forall i | 0 <= i < |ts| ensures PlainLine(ts[i]) && ParseUpdateLine(ts[i]) == Some(Status(entries[i].app, entries[i].status, entries[i].reason, "")) {
      StatusLinePlain(entries[i]);
      UpdateRecordRoundTrip(entries[i].app, entries[i].status, entries[i].reason);
    }
    ChompedOutput(ParseUpdateLine, ts, eol, tail);
  }

  /** With line endings stripped, Freeze sends one status per printed line, its status text as the version. */
  lemma FreezeCorrectedOutput(entries: seq<StatusGroups>, eol: string, tail: string)
    requires eol == "\n" || eol == "\r\n"
    requires '\n' !in tail
    requires forall i | 0 <= i < |entries| :: GoodStatusEntry(entries[i])
    ensures var r := ReceivedChomped(ParseFreezeLine, Flatten(Terminated(StatusLines(entries), eol)) + tail);
      && |r| == |entries|
      && forall i | 0 <= i < |entries| :: r[i] == Status(entries[i].app, "", "", entries[i].status)
  {
    var ts := StatusLines(entries);
    forall i | 0 <= i < |ts| ensures PlainLine(ts[i]) && ParseFreezeLine(ts[i]) == Some(Status(entries[i].app, "", "", entries[i].status)) {
      StatusLinePlain(entries[i]);
      FreezeRecordRoundTrip(entries[i].app, entries[i].status, entries[i].reason);
    }
    ChompedOutput(ParseFreezeLine, ts, eol, tail);
  }

  /** One version as the list verb prints it. */
  datatype Listed = Listed(app: string, marker: Marker, version: string)

  predicate GoodListed(e: Listed) {
    GoodApp(e.app) && GoodVersion(e.marker, e.version)
  }

  /** The version lines the tool prints. */
  function ListLines(entries: seq<Listed>): (r: seq<string>)
    ensures |r| == |entries|
    ensures forall i | 0 <= i < |entries| :: r[i] == VersionLine(entries[i].app, entries[i].marker, entries[i].version)
  {
    seq(|entries|, i requires 0 <= i < |entries| => VersionLine(entries[i].app, entries[i].marker, entries[i].version))
  }

  /** A version line the tool prints has no line break in it and does not end in '\r'. */
  lemma VersionLinePlain(e: Listed)
    requires GoodListed(e)
    ensures PlainLine(VersionLine(e.app, e.marker, e.version))
  {
    var s := VersionLine(e.app, e.marker, e.version);
    var head := e.app + " : " + MarkerText(e.marker);
    NoneOfJoin(e.app, " : ", "\n");
    NoneOfJoin(e.app + " : ", MarkerText(e.marker), "\n");
    NoneOfJoin(head, e.version, "\n");
    if e.marker == Alternate {
      NoneOfJoin(head + e.version, ")", "\n");
      assert s == head + e.version + ")";
    } else {
      assert s == head + e.version;
      assert s[|s| - 1] == e.version[|e.version| - 1];
    }
    assert NoneOf(s, "\n");
  }

  /** With line endings stripped, List sends one version per printed line, flagged by its marker. */
  lemma ListCorrectedOutput(entries: seq<Listed>, eol: string, tail: string)
    requires eol == "\n" || eol == "\r\n"
    requires '\n' !in tail
    requires forall i | 0 <= i < |entries| :: GoodListed(entries[i])
    ensures var r := ReceivedChomped(ParseListLine, Flatten(Terminated(ListLines(entries), eol)) + tail);
      && |r| == |entries|
      && forall i | 0 <= i < |entries| ::
           r[i] == AppVersion(entries[i].app, entries[i].version, entries[i].marker == Current, entries[i].marker == Alternate)
  {
    var ts := ListLines(entries);
    forall i | 0 <= i < |ts|
      ensures PlainLine(ts[i])
      ensures ParseListLine(ts[i]) == Some(AppVersion(entries[i].app, entries[i].version, entries[i].marker == Current, entries[i].marker == Alternate))
    {
      VersionLinePlain(entries[i]);
      ListRecordRoundTrip(entries[i].app, entries[i].marker, entries[i].version);
    }
    ChompedOutput(ParseListLine, ts, eol, tail);
  }

  predicate GoodAuditEntry(e: AuditGroups) {
    && GoodApp(e.app) && GoodAuditStatus(e.status) && GoodAuditVersion(e.version)
    && (e.version == "" || e.version[|e.version| - 1] != '\r')
  }

  /** The audit lines the tool prints. */
  function AuditLines(entries: seq<AuditGroups>): (r: seq<string>)
    ensures |r| == |entries|
    ensures forall i | 0 <= i < |entries| :: r[i] == AuditLine(entries[i].app, entries[i].status, entries[i].version)
  {
    seq(|entries|, i requires 0 <= i < |entries| => AuditLine(entries[i].app, entries[i].status, entries[i].version))
  }

  /** An audit line the tool prints has no line break in it and does not end in '\r'. */
  lemma AuditLinePlain(e: AuditGroups)
    requires GoodAuditEntry(e)
    ensures PlainLine(AuditLine(e.app, e.status, e.version))
  {
    var s := AuditLine(e.app, e.status, e.version);
    var head := e.app + " : " + e.status;
    NoneOfJoin(e.app, " : ", "\n");
    NoneOfJoin(e.app + " : ", e.status, "\n");
    if e.version != "" {
      NoneOfJoin(head, " - ", "\n");
      NoneOfJoin(head + " - ", e.version, "\n");
      assert s == head + " - " + e.version;
      assert s[|s| - 1] == e.version[|e.version| - 1];
    } else {
      assert s == head;
      assert s[|s| - 1] == e.status[|e.status| - 1];
    }
    assert NoneOf(s, "\n");
  }

  /** With line endings stripped, Audit sends one app per printed line, installed exactly when a version was printed. */
  lemma AuditCorrectedOutput(entries: seq<AuditGroups>, eol: string, tail: string)
    requires eol == "\n" || eol == "\r\n"
    requires '\n' !in tail
    requires forall i | 0 <= i < |entries| :: GoodAuditEntry(entries[i])
    ensures var r := ReceivedChomped(ParseAuditLine, Flatten(Terminated(AuditLines(entries), eol)) + tail);
      && |r| == |entries|
      && forall i | 0 <= i < |entries| ::
           r[i] == AppAudit(entries[i].app, entries[i].version, entries[i].status, entries[i].version != "")
  {
    var ts := AuditLines(entries);
    forall i | 0 <= i < |ts|
      ensures PlainLine(ts[i])
      ensures ParseAuditLine(ts[i]) == Some(AppAudit(entries[i].app, entries[i].version, entries[i].status, entries[i].version != ""))
    {
      AuditLinePlain(entries[i]);
      AuditRecordRoundTrip(entries[i].app, entries[i].status, entries[i].version);
    }
    ChompedOutput(ParseAuditLine, ts, eol, tail);
  }
}
