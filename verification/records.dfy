/**
  The records each verb builds from the groups its classifier captured, and the
  round trips from a line the tool prints to the record a caller receives.
*/
module Records {
  import opened Wrappers
  import opened Classify
  import opened ToolLines

  /** One progress line of an update, uninstall or freeze run. */
  datatype Status = Status(app: string, status: string, reason: string, version: string)

  /** One available version of an app, as listed by the list verb. */
  datatype AppVersion = AppVersion(app: string, version: string, currentVersion: bool, alternateVersion: bool)

  /** One app as reported by the audit verb. */
  datatype AppAudit = AppAudit(app: string, version: string, status: string, installed: bool)

  /** The record UpdateOnly and Uninstall send for a matched line. */
  function UpdateRecord(g: StatusGroups): (r: Status)
    ensures r.app == g.app && r.status == g.status && r.reason == g.reason
    ensures r.version == ""
  {
    Status(g.app, g.status, g.reason, "")
  }

  /** The record Freeze sends: the status group lands in Version, the reason is dropped. */
  function FreezeRecord(g: StatusGroups): (r: Status)
    ensures r.app == g.app && r.version == g.status
    ensures r.status == "" && r.reason == ""
  {
    Status(g.app, "", "", g.status)
  }

  /** The record List sends: the marker group decides which flag is set. */
  function ListRecord(g: VersionGroups): (r: AppVersion)
    ensures r.app == g.app && r.version == g.version
    ensures r.currentVersion <==> g.marker == "*"
    ensures r.alternateVersion <==> g.marker == "("
    ensures !(r.currentVersion && r.alternateVersion)
  {
    var current := g.marker == "*";
    var alternate := !current && g.marker == "(";
    AppVersion(g.app, g.version, current, alternate)
  }

  /** The record Audit sends: an app counts as installed exactly when a version was captured. */
  function AuditRecord(g: AuditGroups): (r: AppAudit)
    ensures r.app == g.app && r.status == g.status && r.version == g.version
    ensures r.installed <==> |g.version| > 0
  {
    AppAudit(g.app, g.version, g.status, |g.version| > 0)
  }

  /** What UpdateOnly and Uninstall make of one line, if anything. */
  function ParseUpdateLine(line: string): (r: Option<Status>)
    ensures r.Some? <==> MatchStatus(line).Some?
    ensures r.Some? ==> |r.value.app| > 0 && NoneOf(r.value.app, ":\r\n")
    ensures r.Some? ==> |r.value.status| > 0 && NoneOf(r.value.status, "()\r\n")
    ensures r.Some? ==> r.value.version == "" && (r.value.reason != "" ==> line[|line| - 1] == ')')
  {
    match MatchStatus(line)
    case None => None
    case Some(g) => Some(UpdateRecord(g))
  }

  /** What Freeze makes of one line, if anything. */
  function ParseFreezeLine(line: string): (r: Option<Status>)
    ensures r.Some? <==> MatchStatus(line).Some?
    ensures r.Some? ==> |r.value.app| > 0 && NoneOf(r.value.app, ":\r\n")
    ensures r.Some? ==> |r.value.version| > 0 && NoneOf(r.value.version, "()\r\n")
    ensures r.Some? ==> r.value.status == "" && r.value.reason == ""
  {
    match MatchStatus(line)
    case None => None
    case Some(g) => Some(FreezeRecord(g))
  }

  /** What List makes of one line, if anything. */
  function ParseListLine(line: string): (r: Option<AppVersion>)
    ensures r.Some? <==> MatchVersion(line).Some?
    ensures r.Some? ==> |r.value.app| > 0 && NoneOf(r.value.app, ":\r\n")
    ensures r.Some? ==> |r.value.version| > 0 && NoneOf(r.value.version, "()\r\n")
    ensures r.Some? ==> !(r.value.currentVersion && r.value.alternateVersion)
  {
    match MatchVersion(line)
    case None => None
    case Some(g) => Some(ListRecord(g))
  }

  /** What Audit makes of one line, if anything. */
  function ParseAuditLine(line: string): (r: Option<AppAudit>)
    ensures r.Some? <==> MatchAudit(line).Some?
    ensures r.Some? ==> |r.value.app| > 0 && NoneOf(r.value.app, ":\r\n")
    ensures r.Some? ==> |r.value.status| > 0 && NoneOf(r.value.status, "()-\r\n")
    ensures r.Some? ==> (r.value.installed <==> r.value.version != "")
  {
    match MatchAudit(line)
    case None => None
    case Some(g) => Some(AuditRecord(g))
  }

  /** An update or uninstall line the tool prints comes back as the status it reports. */
  lemma UpdateRecordRoundTrip(app: string, status: string, reason: string)
    requires GoodApp(app) && GoodField(status) && NoneOf(reason, "\n")
    ensures ParseUpdateLine(StatusLine(app, status, reason)) == Some(Status(app, status, reason, ""))
  {
    StatusLineRoundTrip(app, status, reason);
  }

  /** A freeze line comes back with its status text as the version; any reason is lost. */
  lemma FreezeRecordRoundTrip(app: string, version: string, reason: string)
    requires GoodApp(app) && GoodField(version) && NoneOf(reason, "\n")
    ensures ParseFreezeLine(StatusLine(app, version, reason)) == Some(Status(app, "", "", version))
  {
    StatusLineRoundTrip(app, version, reason);
  }

  /** A listed version comes back with the flag its marker stands for. */
  lemma ListRecordRoundTrip(app: string, m: Marker, version: string)
    requires GoodApp(app) && GoodVersion(m, version)
    ensures ParseListLine(VersionLine(app, m, version)) == Some(AppVersion(app, version, m == Current, m == Alternate))
  {
    VersionLineRoundTrip(app, m, version);
  }

  /** An audited app comes back installed exactly when the tool printed a version for it. */
  lemma AuditRecordRoundTrip(app: string, status: string, version: string)
    requires GoodApp(app) && GoodAuditStatus(status) && GoodAuditVersion(version)
    ensures ParseAuditLine(AuditLine(app, status, version)) == Some(AppAudit(app, version, status, version != ""))
  {
    ToolLines.AuditLineRoundTrip(app, status, version);
  }

  /** `App Name : *1.2.3` is the recommended version 1.2.3. */
  lemma CurrentVersionExample()
    ensures ParseListLine("App Name : *1.2.3") == Some(AppVersion("App Name", "1.2.3", true, false))
  {
    ExampleFieldsGood();
    ExampleLines();
    ListRecordRoundTrip("App Name", Current, "1.2.3");
  }

  /** `App Name : (2.0.0)` is the alternate version 2.0.0: the closing parenthesis is not part of the version. */
  lemma AlternateVersionExample()
    ensures ParseListLine("App Name : (2.0.0)") == Some(AppVersion("App Name", "2.0.0", false, true))
  {
    ExampleFieldsGood();
    ExampleLines();
    ListRecordRoundTrip("App Name", Alternate, "2.0.0");
  }

  lemma ExampleFieldsGood()
    ensures GoodApp("App Name") && GoodVersion(Current, "1.2.3") && GoodVersion(Alternate, "2.0.0")
  {
  }

  lemma ExampleLines()
    ensures VersionLine("App Name", Current, "1.2.3") == "App Name : *1.2.3"
    ensures VersionLine("App Name", Alternate, "2.0.0") == "App Name : (2.0.0)"
  {
    assert "App Name" + " : " == "App Name : ";
    assert "App Name : " + "*" == "App Name : *";
    assert "App Name : *" + "1.2.3" == "App Name : *1.2.3";
    assert "App Name : " + "(" == "App Name : (";
    assert "App Name : (" + "2.0.0" == "App Name : (2.0.0";
    assert "App Name : (2.0.0" + ")" == "App Name : (2.0.0)";
  }
}
