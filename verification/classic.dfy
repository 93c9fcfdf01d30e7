/**
  The Classic configuration: an immutable record whose setters each return a
  copy with one setting changed, and the argument list it hands to the
  deployment tool.  The argument list is `/silent .` followed by one segment per
  setting, always in the same order; a segment is empty when its setting is off.
*/
module Classic {
  import opened Decimal
  import opened Seqs

  /** A proxy server and its port. */
  datatype Endpoint = Endpoint(server: string, port: int)

  /** A username and password pair. */
  datatype Credentials = Credentials(username: string, password: string)

  /** Where an offline installer is written and for which locales. */
  datatype FreezeSpec = FreezeSpec(outputFilename: string, locales: seq<string>)

  /** Every setting and verb switch of one Classic value; Go's zero value is "", 0, false or empty. */
  datatype Config = Config(
    path: string,
    locale: string,
    proxy: Endpoint,
    proxyAuth: Credentials,
    selectedApps: seq<string>,
    excludedApps: seq<string>,
    remote: seq<string>,
    remoteAuth: Credentials,
    disableShortcuts: bool,
    disableAutoUpdate: bool,
    allUsers: bool,
    cachePath: string,
    noCache: bool,
    cleanCache: bool,
    updateOnly: bool,
    uninstall: bool,
    freeze: FreezeSpec,
    list: bool)

  const NoEndpoint := Endpoint("", 0)
  const NoCredentials := Credentials("", "")
  const NoFreeze := FreezeSpec("", [])

  /** The value NewClassic returns once it has settled on the tool's path. */
  function Fresh(path: string): Config {
    Config(path, "", NoEndpoint, NoCredentials, [], [], [], NoCredentials,
           false, false, false, "", false, false, false, false, NoFreeze, false)
  }

  /** The settings one setter or verb writes. */
  datatype Field =
    | LocaleField | ProxyField | ProxyAuthField | SelectField | ExcludeField | RemoteField
    | RemoteAuthField | ShortcutsField | AutoUpdateField | AllUsersField | CachePathField
    | NoCacheField | CleanCacheField | UpdateOnlyField | UninstallField | FreezeField | ListField

  /** c with the setting f put back to its zero value; used to say what a setter leaves alone. */
  function Without(c: Config, f: Field): Config {
    match f
    case LocaleField => c.(locale := "")
    case ProxyField => c.(proxy := NoEndpoint)
    case ProxyAuthField => c.(proxyAuth := NoCredentials)
    case SelectField => c.(selectedApps := [])
    case ExcludeField => c.(excludedApps := [])
    case RemoteField => c.(remote := [])
    case RemoteAuthField => c.(remoteAuth := NoCredentials)
    case ShortcutsField => c.(disableShortcuts := false)
    case AutoUpdateField => c.(disableAutoUpdate := false)
    case AllUsersField => c.(allUsers := false)
    case CachePathField => c.(cachePath := "")
    case NoCacheField => c.(noCache := false)
    case CleanCacheField => c.(cleanCache := false)
    case UpdateOnlyField => c.(updateOnly := false)
    case UninstallField => c.(uninstall := false)
    case FreezeField => c.(freeze := NoFreeze)
    case ListField => c.(list := false)
  }

  /** r differs from c at most in the setting f. */
  predicate OnlyChanges(c: Config, r: Config, f: Field) {
    Without(r, f) == Without(c, f)
  }

  function SetLocale(c: Config, code: string): (r: Config)
    ensures r.locale == code && OnlyChanges(c, r, LocaleField)
  {
    c.(locale := code)
  }

  function SetProxy(c: Config, server: string, port: int): (r: Config)
    ensures r.proxy == Endpoint(server, port) && OnlyChanges(c, r, ProxyField)
  {
    c.(proxy := Endpoint(server, port))
  }

  function SetProxyAuth(c: Config, username: string, password: string): (r: Config)
    ensures r.proxyAuth == Credentials(username, password) && OnlyChanges(c, r, ProxyAuthField)
  {
    c.(proxyAuth := Credentials(username, password))
  }

  /** Select replaces any earlier selection rather than adding to it. */
  function Select(c: Config, apps: seq<string>): (r: Config)
    ensures r.selectedApps == apps && OnlyChanges(c, r, SelectField)
  {
    c.(selectedApps := apps)
  }

  function Exclude(c: Config, apps: seq<string>): (r: Config)
    ensures r.excludedApps == apps && OnlyChanges(c, r, ExcludeField)
  {
    c.(excludedApps := apps)
  }

  function Remote(c: Config, machines: seq<string>): (r: Config)
    ensures r.remote == machines && OnlyChanges(c, r, RemoteField)
  {
    c.(remote := machines)
  }

  function SetRemoteAuth(c: Config, username: string, password: string): (r: Config)
    ensures r.remoteAuth == Credentials(username, password) && OnlyChanges(c, r, RemoteAuthField)
  {
    c.(remoteAuth := Credentials(username, password))
  }

  function DisableShortcuts(c: Config): (r: Config)
    ensures r.disableShortcuts && OnlyChanges(c, r, ShortcutsField)
    ensures c.disableShortcuts ==> r == c
  {
    c.(disableShortcuts := true)
  }

  function DisableAutoUpdate(c: Config): (r: Config)
    ensures r.disableAutoUpdate && OnlyChanges(c, r, AutoUpdateField)
    ensures c.disableAutoUpdate ==> r == c
  {
    c.(disableAutoUpdate := true)
  }

  function AllUsers(c: Config): (r: Config)
    ensures r.allUsers && OnlyChanges(c, r, AllUsersField)
    ensures c.allUsers ==> r == c
  {
    c.(allUsers := true)
  }

  function SetCachePath(c: Config, path: string): (r: Config)
    ensures r.cachePath == path && OnlyChanges(c, r, CachePathField)
  {
    c.(cachePath := path)
  }

  function NoCache(c: Config): (r: Config)
    ensures r.noCache && OnlyChanges(c, r, NoCacheField)
    ensures c.noCache ==> r == c
  {
    c.(noCache := true)
  }

  function CleanCache(c: Config): (r: Config)
    ensures r.cleanCache && OnlyChanges(c, r, CleanCacheField)
    ensures c.cleanCache ==> r == c
  {
    c.(cleanCache := true)
  }

  /** The copy UpdateOnly runs the tool with. */
  function ForUpdateOnly(c: Config): (r: Config)
    ensures r.updateOnly && OnlyChanges(c, r, UpdateOnlyField)
  {
    c.(updateOnly := true)
  }

  /** The copy Uninstall runs the tool with. */
  function ForUninstall(c: Config): (r: Config)
    ensures r.uninstall && OnlyChanges(c, r, UninstallField)
  {
    c.(uninstall := true)
  }

  /** The copy Freeze runs the tool with. */
  function ForFreeze(c: Config, output: string, locales: seq<string>): (r: Config)
    ensures r.freeze == FreezeSpec(output, locales) && OnlyChanges(c, r, FreezeField)
  {
    c.(freeze := FreezeSpec(output, locales))
  }

  /** The copy List runs the tool with. */
  function ForList(c: Config): (r: Config)
    ensures r.list && OnlyChanges(c, r, ListField)
  {
    c.(list := true)
  }

  /** The copy Audit runs the tool with: the same switch as List, so the same argument list. */
  function ForAudit(c: Config): (r: Config)
    ensures r.list && OnlyChanges(c, r, ListField)
    ensures r == ForList(c)
  {
    c.(list := true)
  }

  // ----- the argument list -----

  const Header := ["/silent", "."]

  /** The switch that opens each segment, in the order the segments are written. */
  const Switches := ["/locale", "/proxy", "/proxyauth", "/select", "/exclude", "/remote", "/remoteauth",
                     "/disableshortcuts", "/disableautoupdate", "/allusers", "/cachepath", "/nocache",
                     "/cleancache", "/updateonly", "/freeze", "/list"]

  const SegmentCount := 16

  /** The arguments one setting contributes; empty while the setting is off. */
  function Segment(c: Config, k: nat): seq<string>
    requires k < SegmentCount
  {
    match k
    case 0 => LocaleSegment(c)
    case 1 => ProxySegment(c)
    case 2 => ProxyAuthSegment(c)
    case 3 => ListSegment("/select", c.selectedApps)
    case 4 => ListSegment("/exclude", c.excludedApps)
    case 5 => ListSegment("/remote", c.remote)
    case 6 => RemoteAuthSegment(c)
    case 7 => SwitchSegment("/disableshortcuts", c.disableShortcuts)
    case 8 => SwitchSegment("/disableautoupdate", c.disableAutoUpdate)
    case 9 => SwitchSegment("/allusers", c.allUsers)
    case 10 => CachePathSegment(c)
    case 11 => SwitchSegment("/nocache", c.noCache)
    case 12 => SwitchSegment("/cleancache", c.cleanCache)
    case 13 => SwitchSegment("/updateonly", c.updateOnly)
    case 14 => FreezeSegment(c)
    case _ => if c.list then ["/list", "versions"] else []
  }

  function LocaleSegment(c: Config): seq<string> {
    if c.locale != "" then ["/locale", c.locale] else []
  }

  /** A proxy is passed only with both a server and a non-zero port, the port in decimal. */
  function ProxySegment(c: Config): seq<string> {
    if c.proxy.server != "" && c.proxy.port != 0 then ["/proxy", c.proxy.server, Itoa(c.proxy.port)] else []
  }

  /** Credentials are passed only when both the username and the password are set. */
  function ProxyAuthSegment(c: Config): seq<string> {
    if c.proxyAuth.username != "" && c.proxyAuth.password != "" then ["/proxyauth", c.proxyAuth.username, c.proxyAuth.password] else []
  }

  function RemoteAuthSegment(c: Config): seq<string> {
    if c.remoteAuth.username != "" && c.remoteAuth.password != "" then ["/remoteauth", c.remoteAuth.username, c.remoteAuth.password] else []
  }

  function ListSegment(switch: string, items: seq<string>): seq<string> {
    if |items| > 0 then [switch] + items else []
  }

  function SwitchSegment(switch: string, on: bool): seq<string> {
    if on then [switch] else []
  }

  function CachePathSegment(c: Config): seq<string> {
    if c.cachePath != "" then ["/cachepath", c.cachePath] else []
  }

  /** An installer is frozen only with a file name; the locales come between the switch and the name. */
  function FreezeSegment(c: Config): seq<string> {
    if c.freeze.outputFilename != "" then ["/freeze"] + c.freeze.locales + [c.freeze.outputFilename] else []
  }

  function Segments(c: Config): (r: seq<seq<string>>)
    ensures |r| == SegmentCount
    ensures forall k | 0 <= k < SegmentCount :: r[k] == Segment(c, k)
  {
    seq(SegmentCount, k requires 0 <= k < SegmentCount => Segment(c, k))
  }

  /** The argument list of c, as a list of segments laid end to end after the header. */
  function Args(c: Config): seq<string> {
    Header + Flatten(Segments(c))
  }

  /** The header followed by the first k segments, appended one at a time. */
  function ArgsUpTo(c: Config, k: nat): seq<string>
    requires k <= SegmentCount
  {
    if k == 0 then Header else ArgsUpTo(c, k - 1) + Segment(c, k - 1)
  }

  /** Appending the segments one at a time lays them end to end. */
  lemma {:induction false} ArgsUpToFlatten(c: Config, k: nat)
    requires k <= SegmentCount
    ensures ArgsUpTo(c, k) == Header + Flatten(Segments(c)[..k])
  {
    if k == 0 {
      assert Segments(c)[..0] == [];
    } else {
      var ss := Segments(c);
      ArgsUpToFlatten(c, k - 1);
      FlattenSnoc(ss, k - 1);
      assert ss[k - 1] == Segment(c, k - 1);
      AppendAssoc(Header, Flatten(ss[..k - 1]), ss[k - 1]);
    }
  }

  /**
    composeArgs: starts from `/silent .` and appends each setting's switch and
    values in a fixed order, skipping every setting that is off.  The body is
    split in the groups the source lays it out in.
  */
  method ComposeArgs(c: Config) returns (args: seq<string>)
    ensures args == Args(c)
  {
    args := ["/silent", "."];
    args := AppendConnection(c, args);
    args := AppendTargets(c, args);
    args := AppendInstallOptions(c, args);
    args := AppendVerbs(c, args);
    ArgsUpToFlatten(c, 16);
    assert Segments(c)[..16] == Segments(c);
  }

  /** The locale, proxy and proxy credentials. */
  method AppendConnection(c: Config, prefix: seq<string>) returns (args: seq<string>)
    requires prefix == ArgsUpTo(c, 0)
    ensures args == ArgsUpTo(c, 3)
  {
    args := prefix;
    if c.locale != "" {
      args := args + ["/locale", c.locale];
    }
    assert args == ArgsUpTo(c, 1);

    if c.proxy.server != "" && c.proxy.port != 0 {
      args := args + ["/proxy", c.proxy.server, Itoa(c.proxy.port)];
    }
    assert args == ArgsUpTo(c, 2);

    if c.proxyAuth.username != "" && c.proxyAuth.password != "" {
      args := args + ["/proxyauth", c.proxyAuth.username, c.proxyAuth.password];
    }
  }

  /** The selected and excluded apps, the remote machines and their credentials. */
  method AppendTargets(c: Config, prefix: seq<string>) returns (args: seq<string>)
    requires prefix == ArgsUpTo(c, 3)
    ensures args == ArgsUpTo(c, 7)
  {
    args := prefix;
    if |c.selectedApps| > 0 {
      AppendAssoc(args, ["/select"], c.selectedApps);
      args := args + ["/select"] + c.selectedApps;
    }
    assert args == ArgsUpTo(c, 4);

    if |c.excludedApps| > 0 {
      AppendAssoc(args, ["/exclude"], c.excludedApps);
      args := args + ["/exclude"] + c.excludedApps;
    }
    assert args == ArgsUpTo(c, 5);

    if |c.remote| > 0 {
      AppendAssoc(args, ["/remote"], c.remote);
      args := args + ["/remote"] + c.remote;
    }
    assert args == ArgsUpTo(c, 6);

    if c.remoteAuth.username != "" && c.remoteAuth.password != "" {
      args := args + ["/remoteauth", c.remoteAuth.username, c.remoteAuth.password];
    }
  }

  /** Shortcuts, auto-update, all users and the download cache. */
  method AppendInstallOptions(c: Config, prefix: seq<string>) returns (args: seq<string>)
    requires prefix == ArgsUpTo(c, 7)
    ensures args == ArgsUpTo(c, 13)
  {
    args := prefix;
    if c.disableShortcuts {
      args := args + ["/disableshortcuts"];
    }
    assert args == ArgsUpTo(c, 8);

    if c.disableAutoUpdate {
      args := args + ["/disableautoupdate"];
    }
    assert args == ArgsUpTo(c, 9);

    if c.allUsers {
      args := args + ["/allusers"];
    }
    assert args == ArgsUpTo(c, 10);

    if c.cachePath != "" {
      args := args + ["/cachepath", c.cachePath];
    }
    assert args == ArgsUpTo(c, 11);

    if c.noCache {
      args := args + ["/nocache"];
    }
    assert args == ArgsUpTo(c, 12);

    if c.cleanCache {
      args := args + ["/cleancache"];
    }
  }

  /** The verb switches: update only, freeze and list. */
  method AppendVerbs(c: Config, prefix: seq<string>) returns (args: seq<string>)
    requires prefix == ArgsUpTo(c, 13)
    ensures args == ArgsUpTo(c, 16)
  {
    args := prefix;
    if c.updateOnly {
      args := args + ["/updateonly"];
    }
    assert args == ArgsUpTo(c, 14);

    if c.freeze.outputFilename != "" {
      ghost var before := args;
      args := args + ["/freeze"];
      if |c.freeze.locales| > 0 {
        args := args + c.freeze.locales;
      }
      AppendAssoc(before, ["/freeze"], c.freeze.locales);
      AppendAssoc(before, ["/freeze"] + c.freeze.locales, [c.freeze.outputFilename]);
      args := args + [c.freeze.outputFilename];
    }
    assert args == ArgsUpTo(c, 15);

    if c.list {
      args := args + ["/list", "versions"];
    }
  }

  // ----- what the verbs and the zero value contribute -----

  /** A fresh Classic passes nothing but the header. */
  lemma FreshArgs(path: string)
    ensures Args(Fresh(path)) == Header
  {
    var ss := Segments(Fresh(path));
    forall k | 0 <= k < SegmentCount ensures ss[k] == [] {
    }
    FlattenEmpties(ss);
  }

  /**
    The uninstall switch is never written: Uninstall hands the tool the same
    argument list as the configuration it was called on.
  */
  lemma UninstallArgsUnchanged(c: Config)
    ensures Args(ForUninstall(c)) == Args(c)
  {
    var u := ForUninstall(c);
    forall k | 0 <= k < SegmentCount ensures Segments(u)[k] == Segments(c)[k] {
      UninstallSegment(c, k);
    }
    assert Segments(u) == Segments(c);
  }

  lemma UninstallSegment(c: Config, k: nat)
    requires k < SegmentCount
    ensures Segment(c.(uninstall := true), k) == Segment(c, k)
  {
    match k
    case 0 => case 1 => case 2 => case 3 => case 4 => case 5 => case 6 => case 7 =>
    case 8 => case 9 => case 10 => case 11 => case 12 => case 13 => case 14 => case _ =>
  }

  /** The list verb appends `/list versions` after everything else. */
  lemma ListArgsEnd(c: Config)
    ensures Args(ForList(c)) == Args(c.(list := false)) + ["/list", "versions"]
  {
    var ss := Segments(ForList(c));
    var base := Segments(c.(list := false));
    assert ss[..15] == base[..15];
    FlattenSnoc(ss, 15);
    FlattenSnoc(base, 15);
    assert ss[..16] == ss && base[..16] == base;
    assert base[15] == [];
  }
}
