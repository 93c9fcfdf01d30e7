/**
  Reading an argument list back into a configuration.  This is the inverse of
  composeArgs and is what shows that the argument list carries every setting
  that is switched on: segments are told apart by their switches, and a
  list-valued segment runs until the next argument that starts with '/'.
*/
module CommandLine {
  import opened Wrappers
  import opened Decimal
  import opened Classic
  import opened Seqs

  /** An argument the tool takes for a switch rather than a value. */
  predicate IsSwitch(a: string) {
    |a| > 0 && a[0] == '/'
  }

  predicate NoSwitches(vals: seq<string>) {
    forall i | 0 <= i < |vals| :: !IsSwitch(vals[i])
  }

  /** What follows each switch: a fixed number of values, one fixed word, or a run of one or more values. */
  datatype Shape = Fixed(n: nat) | Word(w: string) | Run

  function ShapeOf(k: nat): Shape
    requires k < SegmentCount
  {
    match k
    case 0 => Fixed(1)
    case 1 => Fixed(2)
    case 2 => Fixed(2)
    case 3 => Run
    case 4 => Run
    case 5 => Run
    case 6 => Fixed(2)
    case 10 => Fixed(1)
    case 14 => Run
    case 15 => Word("versions")
    case _ => Fixed(0)
  }

  predicate ShapeFits(sh: Shape, vals: seq<string>) {
    match sh
    case Fixed(n) => |vals| == n
    case Word(w) => vals == [w]
    case Run => |vals| > 0 && NoSwitches(vals)
  }

  /** A segment as composeArgs writes segment k: empty, or switch k and values of its shape. */
  predicate WellShaped(k: nat, seg: seq<string>)
    requires k < SegmentCount
  {
    seg == [] || (seg[0] == Switches[k] && ShapeFits(ShapeOf(k), seg[1..]))
  }

  /** The number of values before the next switch. */
  function RunLength(vals: seq<string>): (n: nat)
    ensures n <= |vals| && NoSwitches(vals[..n])
    ensures n < |vals| ==> IsSwitch(vals[n])
  {
    if |vals| == 0 || IsSwitch(vals[0]) then 0
    else
      var n := RunLength(vals[1..]);
      assert vals[..n + 1] == [vals[0]] + vals[1..][..n];
      n + 1
  }

  /** How many values segment k takes from the arguments that follow its switch. */
  function Width(sh: Shape, vals: seq<string>): (r: Option<nat>)
    ensures r.Some? ==> r.value <= |vals| && ShapeFits(sh, vals[..r.value])
  {
    match sh
    case Fixed(n) => if n <= |vals| then Some(n) else None
    case Word(w) => if |vals| > 0 && vals[0] == w then Some(1) else None
    case Run => var n := RunLength(vals); if n > 0 then Some(n) else None
  }

  /** Cuts the arguments after the header into segments k, k + 1, ..., in that order; laid end to end they give the arguments back. */
  function SplitFrom(k: nat, rest: seq<string>): (r: Option<seq<seq<string>>>)
    requires k <= SegmentCount
    ensures r.Some? ==> |r.value| == SegmentCount - k
    ensures r.Some? ==> forall i | 0 <= i < |r.value| :: WellShaped(k + i, r.value[i])
    ensures r.Some? ==> Flatten(r.value) == rest
    decreases SegmentCount - k
  {
    if k == SegmentCount then (if rest == [] then Some([]) else None)
    else if |rest| > 0 && rest[0] == Switches[k] then
      match Width(ShapeOf(k), rest[1..])
      case None => None
      case Some(w) =>
        var seg := rest[..1 + w];
        assert seg[1..] == rest[1..][..w];
        match SplitFrom(k + 1, rest[1 + w..])
        case None => None
        case Some(tail) =>
          SplitStep(k, seg, rest[1 + w..], tail);
          assert rest == seg + rest[1 + w..];
          Some([seg] + tail)
    else
      match SplitFrom(k + 1, rest)
      case None => None
      case Some(tail) => SplitStep(k, [], rest, tail); Some([[]] + tail)
  }

  /** Putting segment k in front of well-shaped segments k + 1, ... that spell `more` keeps them well shaped and spells seg + more. */
  lemma SplitStep(k: nat, seg: seq<string>, more: seq<string>, tail: seq<seq<string>>)
    requires k < SegmentCount && |tail| == SegmentCount - k - 1
    requires WellShaped(k, seg) && forall i | 0 <= i < |tail| :: WellShaped(k + 1 + i, tail[i])
    requires Flatten(tail) == more
    ensures |[seg] + tail| == SegmentCount - k
    ensures forall i | 0 <= i < |tail| + 1 :: WellShaped(k + i, ([seg] + tail)[i])
    ensures Flatten([seg] + tail) == seg + more
  {
    ConsWellShaped(k, seg, tail);
    FlattenCons(seg, tail);
  }

  lemma ConsWellShaped(k: nat, seg: seq<string>, tail: seq<seq<string>>)
    requires k < SegmentCount && |tail| == SegmentCount - k - 1
    requires WellShaped(k, seg) && forall i | 0 <= i < |tail| :: WellShaped(k + 1 + i, tail[i])
    ensures forall i | 0 <= i < |tail| + 1 :: WellShaped(k + i, ([seg] + tail)[i])
  {
    forall i | 0 <= i < |tail| + 1 ensures WellShaped(k + i, ([seg] + tail)[i]) {
      if i > 0 {
        assert ([seg] + tail)[i] == tail[i - 1];
      }
    }
  }

  /** The locale a locale segment names; "" when there is none. */
  function DecodeLocale(seg: seq<string>): Option<string> {
    if seg == [] then Some("") else if |seg| == 2 && seg[1] != "" then Some(seg[1]) else None
  }

  /** The proxy a proxy segment names: a server and a non-zero decimal port. */
  function DecodeProxy(seg: seq<string>): Option<Endpoint> {
    if seg == [] then Some(NoEndpoint)
    else if |seg| == 3 && seg[1] != "" then
      match Atoi(seg[2])
      case Some(port) => if port != 0 then Some(Endpoint(seg[1], port)) else None
      case None => None
    else None
  }

  /** The username and password of a credentials segment, both non-empty. */
  function DecodeCredentials(seg: seq<string>): Option<Credentials> {
    if seg == [] then Some(NoCredentials)
    else if |seg| == 3 && seg[1] != "" && seg[2] != "" then Some(Credentials(seg[1], seg[2]))
    else None
  }

  /** The values of a list segment. */
  function DecodeList(seg: seq<string>): seq<string> {
    if |seg| > 0 then seg[1..] else []
  }

  /** The cache path of a cache path segment; "" when there is none. */
  function DecodeCachePath(seg: seq<string>): Option<string> {
    DecodeLocale(seg)
  }

  /** The locales and then the file name of a freeze segment. */
  function DecodeFreeze(seg: seq<string>): Option<FreezeSpec> {
    if seg == [] then Some(NoFreeze)
    else if |seg| >= 2 && seg[|seg| - 1] != "" then Some(FreezeSpec(seg[|seg| - 1], seg[1..|seg| - 1]))
    else None
  }

  /**
    The configuration the segments describe.  A segment composeArgs would
    never write (an empty value where it would skip the setting, a port that
    is not a non-zero decimal) is refused.
  */
  function Build(path: string, segs: seq<seq<string>>): (r: Option<Config>)
    requires |segs| == SegmentCount
  {
    var locale := DecodeLocale(segs[0]);
    var proxy := DecodeProxy(segs[1]);
    var proxyAuth := DecodeCredentials(segs[2]);
    var remoteAuth := DecodeCredentials(segs[6]);
    var cachePath := DecodeCachePath(segs[10]);
    var freeze := DecodeFreeze(segs[14]);
    if locale.None? || proxy.None? || proxyAuth.None? || remoteAuth.None? || cachePath.None? || freeze.None? then None
    else
      Some(Config(
        path, locale.value, proxy.value, proxyAuth.value,
        DecodeList(segs[3]), DecodeList(segs[4]), DecodeList(segs[5]), remoteAuth.value,
        segs[7] != [], segs[8] != [], segs[9] != [], cachePath.value, segs[11] != [], segs[12] != [],
        segs[13] != [], false, freeze.value, segs[15] != []))
  }

  /** The configuration an argument list for the tool at `path` stands for, if it is one composeArgs writes. */
  function ParseArgs(path: string, args: seq<string>): Option<Config> {
    if |args| >= 2 && args[..2] == Header then
      match SplitFrom(0, args[2..])
      case None => None
      case Some(segs) => Build(path, segs)
    else None
  }

  /** A configuration whose list values and freeze file names cannot be mistaken for switches. */
  predicate ArgSafe(c: Config) {
    && NoSwitches(c.selectedApps) && NoSwitches(c.excludedApps) && NoSwitches(c.remote)
    && NoSwitches(c.freeze.locales) && !IsSwitch(c.freeze.outputFilename)
  }

  /** c with every setting composeArgs does not write put back to its zero value. */
  function Normalize(c: Config): Config {
    c.(proxy := if c.proxy.server != "" && c.proxy.port != 0 then c.proxy else NoEndpoint,
       proxyAuth := if c.proxyAuth.username != "" && c.proxyAuth.password != "" then c.proxyAuth else NoCredentials,
       remoteAuth := if c.remoteAuth.username != "" && c.remoteAuth.password != "" then c.remoteAuth else NoCredentials,
       uninstall := false,
       freeze := if c.freeze.outputFilename != "" then c.freeze else NoFreeze)
  }

  // ----- composeArgs and ParseArgs are inverse -----

  lemma SwitchesAreSwitches()
    ensures forall k | 0 <= k < SegmentCount :: IsSwitch(Switches[k])
  {
  }

  lemma SwitchesDistinct()
    ensures forall i, j | 0 <= i < j < SegmentCount :: Switches[i] != Switches[j]
  {
  }

  /** A list segment of values that are not switches has the shape of a run. */
  lemma ListSegmentShaped(k: nat, items: seq<string>)
    requires k < SegmentCount && ShapeOf(k) == Run
    requires NoSwitches(items)
    ensures WellShaped(k, ListSegment(Switches[k], items))
  {
    if |items| > 0 {
      assert ListSegment(Switches[k], items)[1..] == items;
    }
  }

  /** Under ArgSafe segment k of c has the shape the reader expects. */
  lemma SegmentWellShaped(c: Config, k: nat)
    requires ArgSafe(c) && k < SegmentCount
    ensures WellShaped(k, Segment(c, k))
  {
    match k
    case 0 =>
    case 1 =>
    case 2 =>
    case 3 => ListSegmentShaped(3, c.selectedApps);
    case 4 => ListSegmentShaped(4, c.excludedApps);
    case 5 => ListSegmentShaped(5, c.remote);
    case 6 =>
    case 7 =>
    case 8 =>
    case 9 =>
    case 10 =>
    case 11 =>
    case 12 =>
    case 13 =>
    case 14 => FreezeSegmentShaped(c);
    case 15 =>
  }

  lemma FreezeSegmentShaped(c: Config)
    requires NoSwitches(c.freeze.locales) && !IsSwitch(c.freeze.outputFilename)
    ensures WellShaped(14, FreezeSegment(c))
  {
    if c.freeze.outputFilename != "" {
      var vals := c.freeze.locales + [c.freeze.outputFilename];
      assert FreezeSegment(c)[1..] == vals;
      assert forall i | 0 <= i < |vals| :: vals[i] == if i < |c.freeze.locales| then c.freeze.locales[i] else c.freeze.outputFilename;
    }
  }

  /** The segments from k on, laid end to end, start with the switch of the first one that is not empty. */
  predicate AllWellShaped(segs: seq<seq<string>>) {
    |segs| == SegmentCount && forall i | 0 <= i < SegmentCount :: WellShaped(i, segs[i])
  }

  /** Arguments that are empty or start with the switch of a segment from k on. */
  predicate OpensAtOrAfter(k: nat, args: seq<string>) {
    args == [] || exists j :: k <= j < SegmentCount && args[0] == Switches[j]
  }

  lemma {:induction false} FlattenStartsWithSwitch(k: nat, segs: seq<seq<string>>)
    requires AllWellShaped(segs) && k <= SegmentCount
    ensures OpensAtOrAfter(k, Flatten(segs[k..]))
    decreases SegmentCount - k
  {
    if k < SegmentCount {
      assert segs[k..][1..] == segs[k + 1..];
      if segs[k] == [] {
        FlattenStartsWithSwitch(k + 1, segs);
      } else {
        assert Flatten(segs[k..])[0] == Switches[k];
      }
    }
  }

  /** A run of values stops at a following switch. */
  lemma {:induction false} RunLengthAppend(vals: seq<string>, more: seq<string>)
    requires NoSwitches(vals)
    requires more == [] || IsSwitch(more[0])
    ensures RunLength(vals + more) == |vals|
    decreases |vals|
  {
    if |vals| == 0 {
      assert vals + more == more;
    } else {
      assert (vals + more)[1..] == vals[1..] + more;
      RunLengthAppend(vals[1..], more);
    }
  }

  /** A segment that is not empty is read whole, up to where the next one begins. */
  lemma SegmentWidth(k: nat, seg: seq<string>, more: seq<string>)
    requires k < SegmentCount && seg != [] && WellShaped(k, seg)
    requires more == [] || IsSwitch(more[0])
    ensures Width(ShapeOf(k), (seg + more)[1..]) == Some(|seg| - 1)
  {
    assert (seg + more)[1..] == seg[1..] + more;
    if ShapeOf(k).Run? {
      RunLengthAppend(seg[1..], more);
    }
  }

  /** Reading well-shaped segments laid end to end gives back those segments. */
  lemma {:induction false} SplitOfFlatten(k: nat, segs: seq<seq<string>>)
    requires AllWellShaped(segs) && k <= SegmentCount
    ensures SplitFrom(k, Flatten(segs[k..])) == Some(segs[k..])
    decreases SegmentCount - k
  {
    if k < SegmentCount {
      SplitOfFlatten(k + 1, segs);
      FlattenStartsWithSwitch(k + 1, segs);
      assert segs[k..] == [segs[k]] + segs[k + 1..];
      if segs[k] == [] {
        SplitSkipsEmpty(k, segs[k..]);
      } else {
        SplitTakesSegment(k, segs[k..]);
      }
    }
  }

  /** An empty segment is skipped: the arguments go on with a later segment's switch. */
  lemma SplitSkipsEmpty(k: nat, segs: seq<seq<string>>)
    requires k < SegmentCount && |segs| > 0 && segs[0] == []
    requires SplitFrom(k + 1, Flatten(segs[1..])) == Some(segs[1..])
    requires OpensAtOrAfter(k + 1, Flatten(segs[1..]))
    ensures SplitFrom(k, Flatten(segs)) == Some(segs)
  {
    SwitchesDistinct();
    assert Flatten(segs) == Flatten(segs[1..]);
    assert [segs[0]] + segs[1..] == segs;
  }

  /** A segment that is not empty is cut off whole, and reading goes on after it. */
  lemma SplitTakesSegment(k: nat, segs: seq<seq<string>>)
    requires k < SegmentCount && |segs| > 0 && segs[0] != []
    requires WellShaped(k, segs[0])
    requires SplitFrom(k + 1, Flatten(segs[1..])) == Some(segs[1..])
    requires OpensAtOrAfter(k + 1, Flatten(segs[1..]))
    ensures SplitFrom(k, Flatten(segs)) == Some(segs)
  {
    var seg := segs[0];
    var more := Flatten(segs[1..]);
    SwitchesAreSwitches();
    SegmentWidth(k, seg, more);
    var rest := seg + more;
    assert Flatten(segs) == rest;
    assert rest[..|seg|] == seg;
    assert rest[|seg|..] == more;
    assert [seg] + segs[1..] == segs;
  }

  /** The reader takes back each segment of c to the normal form of its setting. */
  lemma DecodeSegments(c: Config)
    ensures DecodeLocale(LocaleSegment(c)) == Some(c.locale)
    ensures DecodeProxy(ProxySegment(c)) == Some(Normalize(c).proxy)
    ensures DecodeCredentials(ProxyAuthSegment(c)) == Some(Normalize(c).proxyAuth)
    ensures DecodeCredentials(RemoteAuthSegment(c)) == Some(Normalize(c).remoteAuth)
    ensures DecodeCachePath(CachePathSegment(c)) == Some(c.cachePath)
    ensures DecodeFreeze(FreezeSegment(c)) == Some(Normalize(c).freeze)
    ensures DecodeList(ListSegment("/select", c.selectedApps)) == c.selectedApps
    ensures DecodeList(ListSegment("/exclude", c.excludedApps)) == c.excludedApps
    ensures DecodeList(ListSegment("/remote", c.remote)) == c.remote
  {
    AtoiOfItoa(c.proxy.port);
    if c.freeze.outputFilename != "" {
      var seg := FreezeSegment(c);
      assert seg[1..|seg| - 1] == c.freeze.locales;
    }
  }

  /** The segments of a configuration describe its normal form. */
  lemma BuildOfSegments(c: Config)
    ensures Build(c.path, Segments(c)) == Some(Normalize(c))
  {
    DecodeSegments(c);
    var segs := Segments(c);
    var d := Normalize(c);
    assert segs[0] == LocaleSegment(c) && segs[1] == ProxySegment(c) && segs[2] == ProxyAuthSegment(c);
    assert segs[3] == ListSegment("/select", c.selectedApps) && segs[4] == ListSegment("/exclude", c.excludedApps);
    assert segs[5] == ListSegment("/remote", c.remote) && segs[6] == RemoteAuthSegment(c);
    assert segs[10] == CachePathSegment(c) && segs[14] == FreezeSegment(c);
    SwitchSegmentsOn(c);
    BuildIs(c.path, segs, d);
  }

  /** Each switch segment is written exactly when its setting is on. */
  lemma SwitchSegmentsOn(c: Config)
    ensures var segs := Segments(c);
      && (segs[7] != [] <==> c.disableShortcuts) && (segs[8] != [] <==> c.disableAutoUpdate)
      && (segs[9] != [] <==> c.allUsers) && (segs[11] != [] <==> c.noCache)
      && (segs[12] != [] <==> c.cleanCache) && (segs[13] != [] <==> c.updateOnly)
      && (segs[15] != [] <==> c.list)
  {
  }

  /** Build gives d when every segment decodes to d's setting. */
  lemma BuildIs(path: string, segs: seq<seq<string>>, d: Config)
    requires |segs| == SegmentCount && d.path == path && !d.uninstall
    requires DecodeLocale(segs[0]) == Some(d.locale) && DecodeProxy(segs[1]) == Some(d.proxy)
    requires DecodeCredentials(segs[2]) == Some(d.proxyAuth) && DecodeCredentials(segs[6]) == Some(d.remoteAuth)
    requires DecodeList(segs[3]) == d.selectedApps && DecodeList(segs[4]) == d.excludedApps && DecodeList(segs[5]) == d.remote
    requires DecodeCachePath(segs[10]) == Some(d.cachePath) && DecodeFreeze(segs[14]) == Some(d.freeze)
    requires (segs[7] != [] <==> d.disableShortcuts) && (segs[8] != [] <==> d.disableAutoUpdate)
    requires (segs[9] != [] <==> d.allUsers) && (segs[11] != [] <==> d.noCache)
    requires (segs[12] != [] <==> d.cleanCache) && (segs[13] != [] <==> d.updateOnly)
    requires (segs[15] != [] <==> d.list)
    ensures Build(path, segs) == Some(d)
  {
  }

  /**
    composeArgs loses nothing but what it deliberately leaves out: reading its
    argument list back gives the configuration with every unwritten setting
    at its zero value.
  */
  lemma ArgsRoundTrip(c: Config)
    requires ArgSafe(c)
    ensures ParseArgs(c.path, Args(c)) == Some(Normalize(c))
  {
    var args := Args(c);
    assert args[..2] == Header;
    assert args[2..] == Flatten(Segments(c));
    forall k | 0 <= k < SegmentCount ensures WellShaped(k, Segments(c)[k]) {
      SegmentWellShaped(c, k);
    }
    SplitOfFlatten(0, Segments(c));
    assert Segments(c)[0..] == Segments(c);
    BuildOfSegments(c);
  }

  // ----- everything ParseArgs accepts is written by composeArgs -----

  lemma LocaleBack(c: Config, seg: seq<string>)
    requires WellShaped(0, seg) && DecodeLocale(seg) == Some(c.locale)
    ensures LocaleSegment(c) == seg
  {
  }

  lemma CachePathBack(c: Config, seg: seq<string>)
    requires WellShaped(10, seg) && DecodeCachePath(seg) == Some(c.cachePath)
    ensures CachePathSegment(c) == seg
  {
  }

  lemma ProxyBack(c: Config, seg: seq<string>)
    requires WellShaped(1, seg) && DecodeProxy(seg) == Some(c.proxy)
    ensures ProxySegment(c) == seg
  {
    if seg != [] {
      ItoaOfAtoi(seg[2]);
    }
  }

  lemma CredentialsBack(k: nat, seg: seq<string>, cred: Credentials)
    requires k == 2 || k == 6
    requires WellShaped(k, seg) && DecodeCredentials(seg) == Some(cred)
    ensures seg == (if cred.username != "" && cred.password != "" then [Switches[k], cred.username, cred.password] else [])
  {
  }

  lemma ListBack(k: nat, seg: seq<string>)
    requires k < SegmentCount && ShapeOf(k) == Run && WellShaped(k, seg)
    ensures ListSegment(Switches[k], DecodeList(seg)) == seg
    ensures NoSwitches(DecodeList(seg))
  {
  }

  lemma SwitchBack(k: nat, seg: seq<string>)
    requires k < SegmentCount && ShapeOf(k) == Fixed(0) && WellShaped(k, seg)
    ensures SwitchSegment(Switches[k], seg != []) == seg
  {
  }

  lemma FreezeBack(c: Config, seg: seq<string>)
    requires WellShaped(14, seg) && DecodeFreeze(seg) == Some(c.freeze)
    ensures FreezeSegment(c) == seg
    ensures NoSwitches(c.freeze.locales) && !IsSwitch(c.freeze.outputFilename)
  {
    if seg != [] {
      var vals := seg[1..];
      assert vals == c.freeze.locales + [c.freeze.outputFilename];
      assert c.freeze.outputFilename == vals[|vals| - 1];
      assert forall i | 0 <= i < |c.freeze.locales| :: c.freeze.locales[i] == vals[i];
    }
  }

  /** Each setting of the configuration Build makes writes back the segment it was read from. */
  lemma BuildSegmentAt(path: string, segs: seq<seq<string>>, k: nat)
    requires AllWellShaped(segs) && Build(path, segs).Some? && k < SegmentCount
    ensures Segment(Build(path, segs).value, k) == segs[k]
  {
    var d := Build(path, segs).value;
    assert WellShaped(k, segs[k]);
    match k
    case 0 => LocaleBack(d, segs[0]);
    case 1 => ProxyBack(d, segs[1]);
    case 2 => CredentialsBack(2, segs[2], d.proxyAuth);
    case 3 => ListBack(3, segs[3]);
    case 4 => ListBack(4, segs[4]);
    case 5 => ListBack(5, segs[5]);
    case 6 => CredentialsBack(6, segs[6], d.remoteAuth);
    case 7 => SwitchBack(7, segs[7]);
    case 8 => SwitchBack(8, segs[8]);
    case 9 => SwitchBack(9, segs[9]);
    case 10 => CachePathBack(d, segs[10]);
    case 11 => SwitchBack(11, segs[11]);
    case 12 => SwitchBack(12, segs[12]);
    case 13 => SwitchBack(13, segs[13]);
    case 14 => FreezeBack(d, segs[14]);
    case 15 =>
  }

  /** The configuration Build makes from well-shaped segments is safe, in normal form, and writes exactly those segments. */
  lemma BuildRenders(path: string, segs: seq<seq<string>>)
    requires AllWellShaped(segs) && Build(path, segs).Some?
    ensures var d := Build(path, segs).value;
      Segments(d) == segs && ArgSafe(d) && Normalize(d) == d && d.path == path
  {
    var d := Build(path, segs).value;
    forall k | 0 <= k < SegmentCount ensures Segments(d)[k] == segs[k] {
      BuildSegmentAt(path, segs, k);
    }
    BuildNormal(path, segs);
  }

  /** Build only makes safe configurations in normal form. */
  lemma BuildNormal(path: string, segs: seq<seq<string>>)
    requires AllWellShaped(segs) && Build(path, segs).Some?
    ensures var d := Build(path, segs).value;
      ArgSafe(d) && Normalize(d) == d && d.path == path
  {
    var d := Build(path, segs).value;
    ListBack(3, segs[3]);
    ListBack(4, segs[4]);
    ListBack(5, segs[5]);
    FreezeBack(d, segs[14]);
  }

  /**
    ParseArgs accepts exactly the argument lists composeArgs writes for
    configurations in normal form whose values cannot be taken for switches.
  */
  lemma ParseArgsExactly(path: string, args: seq<string>, d: Config)
    ensures ParseArgs(path, args) == Some(d) <==> (args == Args(d) && ArgSafe(d) && Normalize(d) == d && d.path == path)
  {
    if ParseArgs(path, args) == Some(d) {
      ParsedIsComposed(path, args);
    }
    if args == Args(d) && ArgSafe(d) && Normalize(d) == d && d.path == path {
      ArgsRoundTrip(d);
    }
  }

  /** Whatever ParseArgs accepts is the argument list of the configuration it returns. */
  lemma ParsedIsComposed(path: string, args: seq<string>)
    requires ParseArgs(path, args).Some?
    ensures var d := ParseArgs(path, args).value;
      args == Args(d) && ArgSafe(d) && Normalize(d) == d && d.path == path
  {
    var segs := SplitFrom(0, args[2..]).value;
    assert args[..2] == Header && ParseArgs(path, args) == Build(path, segs);
    var d := Build(path, segs).value;
    BuildRenders(path, segs);
    calc {
      Args(d);
      Header + Flatten(Segments(d));
      args[..2] + Flatten(segs);
      args[..2] + args[2..];
      { assert args == args[..2] + args[2..]; }
      args;
    }
  }
}
