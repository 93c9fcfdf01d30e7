# Ninite Pro Classic driver, modelled in Dafny

`classic/classic.go` drives the Ninite Pro "Classic" command-line tool. A
`Classic` value is a bundle of settings that is passed by value. Each setter
returns a copy with one setting changed. The copy still shares any slice of
names it was given with the caller. Each verb (UpdateOnly, Uninstall, Freeze,
List, Audit) sets its own switch on a copy and builds the tool's argument list
with `composeArgs`. It then reads the tool's standard output line by line with
`bufio.Reader.ReadString('\n')`, matches each line against one of three
regular expressions, and sends a record on a channel for every line that
matched.

The model is pure and immutable. The modules follow that structure:

- `Wrappers`: `Option`.
- `Seqs`: sequences of sequences laid end to end (`Flatten`), shared by the
  argument list, the matcher and the output reader.
- `Decimal`: `strconv.Itoa` and the strict reading that inverts it. The proxy
  port is the only number on the command line.
- `Classic`: the configuration, its setters, the copy each verb runs with,
  `composeArgs` as a method, and its reference definition as sixteen
  segments, one per setting, laid end to end after `/silent .`.
- `CommandLine`: a reader for argument lists, the partner of `composeArgs`.
  It is proved to invert `composeArgs` exactly, in both directions.
- `Pattern`: an anchored matcher for the one regular-expression shape the
  three line patterns use: a sequence of greedy repetitions of a character
  class, with an optional trailing group. Go's regexp reports the match a
  backtracking engine finds first. For greedy pieces that is the match whose
  vector of span ends is lexicographically greatest, and `Longest` is proved
  to compute exactly that match.
- `Classify`: `statusMatch`, `versionMatch` and `auditMatch` as piece
  sequences, and their named captures.
- `ToolLines`: the lines the tool prints, and round trips from a printed
  line back to its fields.
- `Records`: the record each verb builds from the captures.
- `Output`: `ReadString`, the verb loop, and what a caller receives.

Go's regexp details that matter here:

- `\s` is tab, newline, form feed, carriage return or space.
- `.` is any character but newline.
- `$` without the `m` flag means the end of the text.

`App Name : (2.0.0)` gives the version `2.0.0`, because the pattern's final
`\)?` consumes the closing parenthesis (`Records.AlternateVersionExample`).

## Model

| member | source | states |
|---|---|---|
| Classic.SetLocale | classic/classic.go:201-204 | Locale sets the locale and leaves every other setting as it was |
| Classic.SetProxy | classic/classic.go:207-211 | Proxy sets server and port together and changes nothing else |
| Classic.SetProxyAuth | classic/classic.go:214-218 | ProxyAuth sets username and password together and changes nothing else |
| Classic.Select | classic/classic.go:221-224 | Select replaces any earlier selection with the given apps; nothing else changes |
| Classic.Exclude | classic/classic.go:227-230 | Exclude replaces the excluded apps; nothing else changes |
| Classic.Remote | classic/classic.go:241-244 | Remote replaces the machine list; nothing else changes |
| Classic.SetRemoteAuth | classic/classic.go:247-251 | RemoteAuth sets the remote credentials and changes nothing else |
| Classic.DisableShortcuts | classic/classic.go:254-257 | the switch is on afterwards, nothing else changes, and calling it twice is the same as once |
| Classic.DisableAutoUpdate | classic/classic.go:260-263 | the switch is on afterwards, nothing else changes, and it is idempotent |
| Classic.AllUsers | classic/classic.go:266-269 | the switch is on afterwards, nothing else changes, and it is idempotent |
| Classic.SetCachePath | classic/classic.go:272-275 | CachePath sets the cache path and changes nothing else |
| Classic.NoCache | classic/classic.go:278-281 | the switch is on afterwards, nothing else changes, and it is idempotent |
| Classic.CleanCache | classic/classic.go:284-287 | the switch is on afterwards, nothing else changes, and it is idempotent |
| Classic.ForUpdateOnly | classic/classic.go:293-294 | UpdateOnly runs the tool with the update-only switch on and every other setting of the receiver |
| Classic.ForUninstall | classic/classic.go:340-341 | Uninstall runs the tool with the uninstall flag on and every other setting of the receiver |
| Classic.ForFreeze | classic/classic.go:387-389 | Freeze runs the tool with the output file and locales given and every other setting of the receiver |
| Classic.ForList | classic/classic.go:434-435 | List runs the tool with the list switch on and every other setting of the receiver |
| Classic.ForAudit | classic/classic.go:488-489 | Audit runs the tool with exactly the configuration List uses |
| Classic.ComposeArgs | classic/classic.go:82-160 | the Go-shaped sequence of conditional appends yields `/silent .` followed by each setting's segment in the fixed order, each segment empty while its setting is off |
| Classic.FreshArgs | classic/classic.go:82-83 | a Classic with no settings, as NewClassic returns it, passes only `/silent .` |
| Classic.UninstallArgsUnchanged | classic/classic.go:82-160 | the uninstall flag is never written: Uninstall hands the tool the same arguments as the receiver alone would |
| Classic.ListArgsEnd | classic/classic.go:155-157 | the list verb appends `/list versions` after every other argument |
| Decimal.Itoa | classic/classic.go:93 | the port's text has a '-' exactly for negative ports and no superfluous leading zero |
| Decimal.AtoiOfItoa | classic/classic.go:93 | the decimal text of any port reads back as that port |
| Decimal.ItoaOfAtoi | classic/classic.go:93 | every text the reader accepts is exactly the text Itoa writes for its number |
| CommandLine.SplitFrom | classic/classic.go:82-160 | cutting an argument list into the sixteen segments loses nothing: laid end to end they give the list back, each in the shape composeArgs writes |
| CommandLine.ArgsRoundTrip | classic/classic.go:82-160 | reading composeArgs' output back gives the configuration with every setting composeArgs skips (half-set proxy or credentials, the uninstall flag, a freeze without file name) at its zero value |
| CommandLine.ParsedIsComposed | classic/classic.go:82-160 | every argument list the reader accepts is composeArgs' output for the configuration read |
| CommandLine.ParseArgsExactly | classic/classic.go:82-160 | the reader accepts an argument list exactly when it is composeArgs' output for a configuration in normal form whose values cannot be taken for switches |
| Pattern.Longest | classic/classic.go:78-80 | the search finds a split of the line into the pattern's pieces exactly when one exists, and returns the greatest one, which is the one Go's regexp reports |
| Pattern.LongestOpt | classic/classic.go:78-80 | with an optional trailing group: a match exists exactly when one with or without the group exists, and the one returned is the greatest of all of them |
| Classify.MatchStatus | classic/classic.go:78 | statusMatch matches exactly the lines of the form `app : status ( reason )`; the app has no ':' or line break, the status no parentheses, and a reason is captured exactly when the line ends in ')' |
| Classify.MatchVersion | classic/classic.go:79 | versionMatch matches exactly the lines `app : marker version )?`; the marker is "", "*" or "(", and the version has no parentheses |
| Classify.MatchAudit | classic/classic.go:80 | auditMatch matches exactly the lines `app : status - version`; the status has no parentheses or dash, and the version part is optional |
| ToolLines.StatusLineRoundTrip | classic/classic.go:78 | a status line built from an app, a status and an optional reason is classified back into exactly those three fields |
| ToolLines.VersionLineRoundTrip | classic/classic.go:79 | a listed-version line built from an app, a marker and a version is classified back into exactly those fields |
| ToolLines.AuditLineRoundTrip | classic/classic.go:80 | an audit line built from an app, a status and an optional version is classified back into exactly those fields |
| Records.UpdateRecord | classic/classic.go:312-317 | the status record carries app, status and reason from the captures and no version |
| Records.FreezeRecord | classic/classic.go:407-411 | Freeze's record puts the status capture in Version and drops the reason |
| Records.ListRecord | classic/classic.go:453-465 | the current flag is set exactly for the '*' marker, the alternate flag exactly for '(', and never both |
| Records.AuditRecord | classic/classic.go:507-517 | an app counts as installed exactly when a version was captured |
| Records.ParseUpdateLine | classic/classic.go:312-317 | a line sends a status exactly when statusMatch matches it; the app and status are non-empty and a reason appears only on a line ending in ')' |
| Records.ParseFreezeLine | classic/classic.go:407-411 | a line sends a freeze status exactly when statusMatch matches it, with an empty status and reason |
| Records.ParseListLine | classic/classic.go:453-465 | a line sends a version exactly when versionMatch matches it, and never with both flags set |
| Records.ParseAuditLine | classic/classic.go:507-517 | a line sends an audit record exactly when auditMatch matches it, installed exactly when it has a version |
| Records.UpdateRecordRoundTrip | classic/classic.go:312-317 | an update or uninstall line comes back as the status it reports |
| Records.FreezeRecordRoundTrip | classic/classic.go:407-411 | a freeze line comes back with its status text as the version and its reason lost |
| Records.ListRecordRoundTrip | classic/classic.go:453-465 | a listed version comes back with the flag its marker stands for |
| Records.AuditRecordRoundTrip | classic/classic.go:507-517 | an audited app comes back installed exactly when the tool printed a version for it |
| Records.CurrentVersionExample | classic/classic.go:455-456 | `App Name : *1.2.3` is the current version 1.2.3 |
| Records.AlternateVersionExample | classic/classic.go:457-458 | `App Name : (2.0.0)` is the alternate version 2.0.0, without the closing parenthesis |
| Output.ReadString | classic/classic.go:304 | ReadString returns a prefix of the unread text: up to and including the first '\n', or all of it together with io.EOF when there is no '\n' |
| Output.ReadLines | classic/classic.go:303-310 | the lines the loop looks at each end in their single '\n' |
| Output.ReadLinesCover | classic/classic.go:303-310 | the lines read are the output up to its last '\n', in order; what follows it is never looked at |
| Output.ReadLinesOfTerminated | classic/classic.go:303-310 | output printed as lines closed by "\n" or "\r\n" is read back one printed line at a time |
| Output.FilterMapMembers | classic/classic.go:312-318 | every record sent comes from a line that matched, and every line that matched sends its record |
| Output.Collect | classic/classic.go:302-319 | the loop sends, in line order, the record of every complete line whose classifier succeeds |
| Output.StatusMatchRefusesNewline | classic/classic.go:78 | statusMatch never matches a line ending in '\n' |
| Output.VersionMatchRefusesNewline | classic/classic.go:79 | versionMatch never matches a line ending in '\n' |
| Output.AuditMatchRefusesNewline | classic/classic.go:80 | auditMatch never matches a line ending in '\n' |
| Output.UpdateOnlySendsNothing | classic/classic.go:302-319 | as written, UpdateOnly and Uninstall send no status whatever the tool prints |
| Output.FreezeSendsNothing | classic/classic.go:397-413 | as written, Freeze sends no status whatever the tool prints |
| Output.ListSendsNothing | classic/classic.go:443-467 | as written, List sends no version whatever the tool prints |
| Output.AuditSendsNothing | classic/classic.go:497-519 | as written, Audit sends no app whatever the tool prints |
| Output.Chomp | classic/classic.go:304 | strips the '\n' ReadString keeps and a '\r' before it, and nothing else |
| Output.CollectChomped | classic/classic.go:302-319 | the corrected loop is the loop as written with each line stripped of its ending before classification |
| Output.UpdateOnlyCorrectedOutput | classic/classic.go:302-319 | with endings stripped, UpdateOnly and Uninstall send one status per printed line, in order, with that line's fields |
| Output.FreezeCorrectedOutput | classic/classic.go:397-413 | with endings stripped, Freeze sends one status per printed line, in order, with its status text as the version |
| Output.ListCorrectedOutput | classic/classic.go:443-467 | with endings stripped, List sends one version per printed line, in order, flagged by its marker |
| Output.AuditCorrectedOutput | classic/classic.go:497-519 | with endings stripped, Audit sends one app per printed line, in order, installed exactly when a version was printed |

## Left out

- NewClassic (classic/classic.go:184-195) looks at the file system. `Classic.Fresh` stands for the value it returns.
- start (classic/classic.go:162-181) launches a process and wires pipes. The tool's standard output becomes a string parameter of the verb loop.
- Prefer (classic/classic.go:233-238) only panics, so there is nothing to model.
- Reading standard error, `cmd.Wait`, and the order in which their errors are returned (for example classic/classic.go:321-336) are process I/O and are not modelled.
- A read error other than io.EOF (classic/classic.go:308-310) is I/O and is not modelled.
- Channels are modelled as the sequence of values sent, and closing the channel as the end of that sequence.
- Classic.Select: in Go, Select, Exclude, Remote and Freeze (classic/classic.go:222, 228, 242, 388) store the caller's variadic slice itself, so the result shares its backing array with the caller. A later write to that array changes the arguments the result composes. The model's Classic.Select, Classic.Exclude, Classic.Remote and Classic.ForFreeze hold immutable sequences, so this aliasing is not modelled.
- Classic.SetProxy: the port is an unbounded integer rather than Go's 64-bit `int`. Every 64-bit value behaves the same, and `Itoa` writes the same text for it.
- Pattern.Longest: covers only the regular-expression shape the three patterns use, not Go's regexp in general.
- Pattern.Longest: works on characters rather than UTF-8 bytes, so invalid UTF-8 in the tool's output is not modelled.
- CommandLine.ArgsRoundTrip: requires that no selected, excluded or remote value and no freeze locale or file name starts with '/'. Without that the argument list is ambiguous. The source does not check this.
- The example programs (classic/example/list/list.go, classic/example/uninstall/uninstall.go, example/audit/audit.go) are command-line callers, not part of the core.

## Findings

| source | as written | input that shows it | evidently intended | confidence | as-written member | corrected member |
|---|---|---|---|---|---|---|
| classic/classic.go:304-317 | UpdateOnly and Uninstall match statusMatch against the line ReadString returned, which still ends in '\n'. The pattern's last class excludes '\n' and `$` is the end of the text, so no line ever matches. | tool output `Firefox : OK\n` sends nothing | strip the line ending before matching, so that `Firefox : OK\n` sends Status{App: "Firefox", Status: "OK"} | high; not executed | Output.UpdateOnlySendsNothing | Output.UpdateOnlyCorrectedOutput |
| classic/classic.go:399-411 | Freeze matches statusMatch against the line with its '\n', so no line ever matches | tool output `Firefox : OK\n` sends nothing | strip the line ending, so that the line sends Status{App: "Firefox", Version: "OK"} | high; not executed | Output.FreezeSendsNothing | Output.FreezeCorrectedOutput |
| classic/classic.go:445-465 | List matches versionMatch against the line with its '\n'. The version class and the optional `\)` cannot end on '\n', so no line ever matches. | tool output `Firefox : *120.0\n` sends nothing | strip the line ending, so that the line sends AppVersion{App: "Firefox", Version: "120.0", CurrentVersion: true} | high; not executed | Output.ListSendsNothing | Output.ListCorrectedOutput |
| classic/classic.go:499-517 | Audit matches auditMatch against the line with its '\n'. Neither the status class nor `.` accepts '\n', so no line ever matches. | tool output `Firefox : Installed - 120.0\n` sends nothing | strip the line ending, so that the line sends AppAudit{App: "Firefox", Status: "Installed", Version: "120.0", Installed: true} | high; not executed | Output.AuditSendsNothing | Output.AuditCorrectedOutput |

The corrected loop is `Output.CollectChomped`. It strips the '\n' that
ReadString keeps, and a '\r' before it, then classifies the line. Both loops
drop text after the last '\n', as the io.EOF branch does.
