# wg-gui tunnel-session core, in Dafny

This project models the session logic of `wg_gui.py`, a PyQt front end for
WireGuard profiles on macOS and BSD, together with the privilege adapter
`priv.py`. It covers:

- the `.conf` reader `parse_wg_conf`;
- the `wg show` reader `parse_wg_show`;
- the `relative time` label `time_ago`;
- the interface map lookup `get_utun_for_profile` and the reserved-device
  test `is_low_utun`;
- the full-tunnel teardown `tear_down_full_tunnels` and the connect
  handler `on_connect`;
- `on_disconnect_all`;
- the command chain `run_next` / `run_next_finished`;
- the argument vectors built by `build_qprocess_args` and `run_priv`.

Modules:

- `Common`, `Text` (`text.dfy`): `Option` and the Python string operations
  the code relies on. These are `strip()` over Python's whitespace set,
  ASCII `lower()`, `startswith`, `endswith`, the `in` test,
  `split(sep, 1)`, `os.path.basename` and decimal numerals.
- `ConfParser` (`conf_parser.dfy`): `parse_wg_conf`.
  - Each line is classified once (`Classify`), and one loop step applies
    that line's effect (`Step`).
  - The method `ParseWgConf` runs the loop over the file's lines.
  - It is proved equal to a fold over the lines.
  - That fold is in turn proved equal to a key-by-key reference reading:
    the list keys keep every value, and every other key keeps its last
    value.
- `StatusParser` (`status_parser.dfy`):
  - the loop of `parse_wg_show`, also repeated inside
    `update_detail_panel`;
  - `time_ago` over a natural number of elapsed seconds, with a reader
    that proves the label determines its bucket.
- `Registry` (`registry.dfy`): the `iface|path` rows of the interface map
  file.
  - `get_utun_for_profile` is a scan that stops at the first row binding
    the profile.
  - `is_low_utun` includes Python `int()` on the suffix.
  - The `active_profiles` dictionary that the teardown builds is kept as
    its keys in insertion order plus the mapping.
- `Session` (`session.dfy`):
  - which commands the teardown and the connect handler issue, and in
    which order, as functions of the map file rows and the profile file
    texts;
  - the `down` commands of "disconnect all".
- `Sequencer` (`sequencer.dfy`): one step of the command chain as a
  function of its state. Several steps are proved to run the list in
  order, each command once.
- `Gui` (`gui.dfy`): the class `WgGui`, whose fields are the window state
  these handlers update in place. Each method is proved against the
  `Session` or `Sequencer` function for it.
- `Priv` (`priv.dfy`): the priority chain of `build_qprocess_args` and the
  vector `run_priv` runs. The import-time facts it uses are a `PrivEnv`
  value:
  - `IS_MACOS`;
  - `ASKPASS`;
  - `DOAS_BIN` and `SUDO_BIN`;
  - the results of the `-n true` probes.

Inputs the program reads from the system are parameters:

- the map file, as `None` when absent or its lines when present;
- the `.conf` texts, as a map from profile name to the file's text,
  missing when the file cannot be opened;
- the paths `glob` lists;
- the `wg show` outcome, as failure or output lines;
- the elapsed time;
- the path of the helper script;
- `shlex.quote`, as an opaque function.

Behaviour of the code worth noting:

- The command chain never reads exit codes. A completion advances to the
  next command whatever the previous one returned.
- The list `commands` is never filled anywhere in `wg_gui.py`
  (`__init__` sets it to `[]`, wg_gui.py:998). So the chain is inert:
  `Sequencer.EmptyChainInert`.
- A full tunnel is recognised by the substring `0.0.0.0/0` anywhere in
  the raw file text, including comments. The allowed-IP lists are not
  parsed for this.
- Other full tunnels are torn down only when the profile being connected
  is a full tunnel itself.
- The `#ping` hint is recorded whatever section it appears in, not only
  under a `[Peer]` header.
- In `parse_wg_show`, only the `interface:` prefix is matched in any
  letter case. The other prefixes are case-sensitive.
- `SUDO_FLAG` is `-A` only on macOS. The only branch that uses it is
  reached only off macOS, so `-A` is never passed
  (`Priv.FallbackIsPlainSudo`).
- `get_utun_for_profile` answers from the first matching row of the map
  file. The teardown's dictionary keeps the last row for each profile
  name.

## Model

| member | source | states |
|---|---|---|
| Text.SplitOnce | wg_gui.py:148 | `split(sep, 1)` fails exactly when the separator is absent; otherwise the parts rebuild the string around the first separator, and the head holds no separator |
| Text.SplitOnceAt | wg_gui.py:148 | a string built as `a + sep + b` with no separator in `a` splits back into exactly `a` and `b` |
| Text.StripShape | wg_gui.py:148 | `strip()` only shortens, and a non-empty result neither starts nor ends with whitespace |
| Text.StripKeeps | wg_gui.py:148 | `strip()` never drops a non-whitespace character |
| Text.Lower | wg_gui.py:199 | `lower()` keeps the length and maps each character through the ASCII case fold |
| Text.LastIndex | wg_gui.py:149 | the position found holds the character and no later position does; none exactly when the character is absent |
| Text.BasenameShape | wg_gui.py:149 | `os.path.basename` is a suffix of the path without `/`, preceded by `/` when shorter than the path |
| Text.BasenameAfterSlash | wg_gui.py:149 | the basename of `dir/name` is `name` when `name` has no `/` |
| Text.MissingCharNotContained | wg_gui.py:1277 | a text lacking one of the pattern's characters does not contain the pattern |
| Text.NatToString | wg_gui.py:182-188 | the decimal numeral of `n` is non-empty digits without a leading zero, and its value is `n` |
| ConfParser.FirstSpace | wg_gui.py:230 | the position where `split(None, 1)` cuts is the first whitespace of the string, and none is found only in a string without whitespace |
| ConfParser.KeyOf | wg_gui.py:246-265 | each recognised key corresponds to exactly its lower-case name, in both directions |
| ConfParser.ParseWgConf | wg_gui.py:219-266 | the loop over the lines computes the same two records as the fold of `Step` over the classified lines |
| ConfParser.ParseSection | wg_gui.py:237-242 | the section flag after any lines is decided by the last header, in any letter case; `false` before any header |
| ConfParser.ParseLists | wg_gui.py:255-259 | `addresses` and `dns` are every such value from an `[Interface]` section, in file order, duplicates kept |
| ConfParser.ParseSingles | wg_gui.py:246-265 | every other recorded key holds the last value given in its own kind of section, or nothing |
| ConfParser.ParsePing | wg_gui.py:228-234 | `ping` is the host of the last `#ping <host>` line, in any section, or nothing |
| ConfParser.AddressLineAppends | wg_gui.py:245-257 | a line `k=v` whose trimmed key is `address` in any letter case, outside `[Peer]`, appends the trimmed value to `addresses`; the rest of the state is unchanged |
| ConfParser.DnsLineAppends | wg_gui.py:245-259 | a line `k=v` whose trimmed key is `dns` in any letter case, outside `[Peer]`, appends the trimmed value to `dns`; the rest of the state is unchanged |
| ConfParser.ClassifyInert | wg_gui.py:225-244 | a line is skipped exactly when, once trimmed, it is blank, a `#ping` without whitespace, another comment, or neither a header nor holding `=` |
| ConfParser.ClassifyAssign | wg_gui.py:243-245 | a non-comment line `k=v` with no `=` in `k` assigns the trimmed `v` to the key named by the lower-cased trimmed `k` |
| ConfParser.ClassifyPing | wg_gui.py:228-234 | a `#ping` line in any letter case names as host the trimmed text after its first whitespace |
| ConfParser.InertLineChangesNothing | wg_gui.py:225-244 | blank lines, comments, a bare `#ping` and lines without `=`, given as text, change neither record nor the section |
| ConfParser.UnknownKeyIgnored | wg_gui.py:246-265 | a key not recorded in the current section changes nothing |
| ConfParser.PingLineSetsTarget | wg_gui.py:228-234 | a `#ping` line sets the peer's `ping` to the trimmed text after its first whitespace, in either section, and changes nothing else |
| ConfParser.HeaderIgnoresCase | wg_gui.py:237-242 | a line opens an `[Interface]` or a `[Peer]` section exactly when, trimmed and lower-cased, it is that header |
| StatusParser.FirstAnnounced | wg_gui.py:199-214 | the branch taken is a field whose prefix starts the line; no branch is taken only when no prefix does |
| StatusParser.ParseWgShow | wg_gui.py:190-217 | a failing command gives two empty dictionaries; otherwise the loop computes the fold of one step per stripped line |
| StatusParser.PrefixesColonLast | wg_gui.py:199-214 | every prefix ends at its first colon |
| StatusParser.PrefixesNoUpper | wg_gui.py:199 | no prefix holds an upper-case letter |
| StatusParser.LowerKeepsPrefix | wg_gui.py:199 | a line starting with a lower-case prefix still starts with it after `lower()` |
| StatusParser.AfterColonIsRest | wg_gui.py:199-214 | on an announcing line, `split(":", 1)[1].strip()` is the trimmed text after the prefix |
| StatusParser.AnnouncesExclusive | wg_gui.py:199-214 | no line announces two fields, so branch order does not matter |
| StatusParser.FieldOfAnnounced | wg_gui.py:199-214 | the chain takes exactly the branch of the field a line announces |
| StatusParser.StepAnnounced | wg_gui.py:199-214 | a line announcing a field stores the text after its prefix under that field's key |
| StatusParser.StepOther | wg_gui.py:199-214 | a line not announcing a field leaves that field's entry unchanged |
| StatusParser.ShowKeepsLast | wg_gui.py:197-214 | after all lines, each field holds the value of the last line announcing it, or is absent |
| StatusParser.ShowKeys | wg_gui.py:191-214 | the dictionaries only ever hold the keys the code writes |
| StatusParser.Bucket | wg_gui.py:179-188 | the unit is chosen by the 60 / 3600 / 86400 thresholds, the count is the truncated quotient, and it is below the next unit's size |
| StatusParser.TimeAgoReadsBack | wg_gui.py:179-188 | the label reads back to its count and unit, so distinct buckets get distinct labels |
| StatusParser.TimeAgoExamples | wg_gui.py:179-188 | 59 → `59s ago`, 61 → `1m ago`, 3661 → `1h ago`, 90000 → `1d ago` |
| Registry.RowFieldsShape | wg_gui.py:146-148 | a row is split exactly when it holds `|`, into the text before the first `|` of the stripped row and the rest |
| Registry.GetUtunForProfile | wg_gui.py:140-151 | the scan answers what the first-match lookup answers, and none when the map file is absent |
| Registry.FirstMatchAbsent | wg_gui.py:140-151 | the lookup answers nothing exactly when no row binds the profile |
| Registry.FirstMatchFound | wg_gui.py:140-151 | an answer is the interface of a binding row with no binding row before it |
| Registry.FirstMatchIsFirst | wg_gui.py:140-151 | conversely, the first binding row's interface is the answer |
| Registry.PyIntOfNumeral | wg_gui.py:157 | `int()` reads a decimal numeral back to its value |
| Registry.LowUtunDigits | wg_gui.py:153-160 | for a digit suffix, the name is reserved exactly when the suffix's value is at most 4 |
| Registry.LowUtunNeedsPrefix | wg_gui.py:154-155 | a name not starting with `utun` is never reserved |
| Registry.LowUtunNonNumeric | wg_gui.py:156-160 | a suffix holding a character `int()` rejects is never reserved |
| Registry.LowUtunReservedExamples | wg_gui.py:153-160 | `utun3` and `utun04` are reserved |
| Registry.LowUtunFreeExamples | wg_gui.py:153-160 | `utun5`, `utun12`, `en0` and `utunX` are not |
| Registry.SplitExtShape | wg_gui.py:411 | `splitext(...)[0]` is a prefix, cut only at the last dot, in the final component, after some character of that component other than a dot |
| Registry.SplitExtCuts | wg_gui.py:411 | conversely, a last dot of the final component preceded in it by a character other than a dot is where the root ends |
| Registry.ConfNameRoundTrip | wg_gui.py:411 | for a non-hidden `*.conf` path, the profile name plus `.conf` is the basename again |
| Registry.ConfBasename | wg_gui.py:410-411 | a path ending in `.conf` has a basename ending in `.conf` |
| Registry.ConfFileName | wg_gui.py:411 | `name.conf` has no `/` and its extension-less root is `name` |
| Registry.RowReadsBack | wg_gui.py:146-149 | a row `iface|dir/name.conf` splits into `iface` and the path, records `name -> iface`, and binds exactly `name` |
| Registry.RecordedRowBinds | wg_gui.py:146-149 | a row the teardown records binds its profile for the lookup too, unless the file name is hidden |
| Registry.ActiveProfiles | wg_gui.py:402-414 | the dictionary built from the map file is the fold of the recorded entries, and empty when the file is absent |
| Registry.BindRows | wg_gui.py:406-412 | the loop stores the entry of every recording row, in row order |
| Registry.EntryFromRow | wg_gui.py:406-412 | every recorded entry comes from a row of the map file |
| Registry.RowToEntry | wg_gui.py:406-412 | every row with a `|` and a `.conf` path contributes its entry |
| Registry.BindingsWellFormed | wg_gui.py:412-415 | the iteration order lists each dictionary key exactly once |
| Registry.BindingsMembers | wg_gui.py:412 | a name is a key exactly when some entry has that name |
| Registry.BindingsLastWins | wg_gui.py:412 | a name maps to the interface of its last entry |
| Session.DownCommands | wg_gui.py:423 | one `[sudo, script, down, <p>.conf]` per profile, in order |
| Session.TargetsExact | wg_gui.py:415-424 | a profile is torn down exactly when it is a key, is not the connected profile, and its file contains `0.0.0.0/0` |
| Session.TargetsDistinct | wg_gui.py:415-424 | no profile is torn down twice when the keys are distinct |
| Session.DownNamesProfile | wg_gui.py:423 | distinct profiles get distinct `down` commands |
| Session.DownCommandsFor | wg_gui.py:415-424 | `down q` is issued exactly when `q` is a target |
| Session.TearDownSelection | wg_gui.py:400-426 | `down q` is issued exactly when some map row records `q`, `q` is not the connected profile, and `q`'s file is a full tunnel |
| Session.TearDownOnce | wg_gui.py:400-426 | each profile is brought down at most once |
| Session.NoMapNoTearDown | wg_gui.py:404 | without a map file nothing is torn down |
| Session.InterfaceUp | wg_gui.py:1047-1052 | with an empty name falling back to the active profile, an interface is answered exactly when the map file binds that profile to a non-empty name, and it is that name |
| Session.InterfaceUpRows | wg_gui.py:1047-1052 | the answer is the interface of the first map row binding the requested profile, and there is none when no row binds it |
| Session.ConnectOrdering | wg_gui.py:1259-1293 | a launch happens only for a selected profile with no interface up and a readable file; it brings that profile up after `down` commands for other full tunnels only, and only when it is a full tunnel itself |
| Session.ConnectLaunches | wg_gui.py:1259-1293 | with no interface up and a readable file, the handler launches `up`, after `down` for exactly the other recorded full tunnels when the profile is a full tunnel, and after nothing otherwise |
| Session.ConnectRefusesReserved | wg_gui.py:1264-1278 | the handler refuses exactly when the profile's interface is `utun0`..`utun4`, only logs when it is up on another interface, and fails exactly when the file cannot be opened |
| Session.ConnectAfterTwoRows | wg_gui.py:1259-1293 | with a split tunnel and a full tunnel in the map, connecting a third full tunnel brings down only the full one, then brings up the new one |
| Session.ConnectFullTunnelScenario | wg_gui.py:1259-1293 | the same for map rows written as `iface|dir/name.conf` |
| Session.FullTunnelExamples | wg_gui.py:1277-1278 | `AllowedIPs = 0.0.0.0/0` is a full tunnel and `AllowedIPs = 192.168.7.1/32` is not |
| Session.ProfileNames | wg_gui.py:1374 | one profile name per listed path, in order |
| Session.DisconnectNamesEachFile | wg_gui.py:1373-1377 | for files `glob` lists, one `down` per file, in listing order, naming exactly that file |
| Sequencer.LogLine | wg_gui.py:1406-1412 | the appended text is the given text, with one newline added exactly when it does not already end with one |
| Sequencer.RunNextIdle | wg_gui.py:1571-1572 | past the end of the list a step changes nothing |
| Sequencer.RunNextStarts | wg_gui.py:1573-1586 | within the list a step echoes the command, kills the current process, keeps the index, and starts that command; it raises exactly when the command is empty |
| Sequencer.FinishedStarts | wg_gui.py:1587-1589 | a completion moves to the next command and starts it |
| Sequencer.ChainInOrder | wg_gui.py:1570-1589 | from index 0, after `n` completions, commands `0..n` were echoed in order; `0..n-1` were started then killed in turn; `n` is running |
| Sequencer.ChainStops | wg_gui.py:1570-1589 | after the last command, completions only move the index |
| Sequencer.RunIndex | wg_gui.py:1587-1588 | the index after `n` completions is `n`, whatever the exit codes |
| Sequencer.EmptyChainInert | wg_gui.py:998-999 | with the empty list `__init__` sets up, the chain never echoes, starts or kills anything |
| Gui.WgGui.constructor | wg_gui.py:991-999 | an unstarted process, no commands at index 0, no active profile |
| Gui.WgGui.IsInterfaceUp | wg_gui.py:1047-1052 | the method answers `Session.InterfaceUp` for the current active profile |
| Gui.WgGui.TearDownFullTunnels | wg_gui.py:400-426 | the commands run are exactly `Session.TearDownCommands`, appended in dictionary order |
| Gui.WgGui.OnConnect | wg_gui.py:1259-1293 | the outcome is `Session.ConnectPlan`; on a launch, the teardown runs first, then active and pending become the profile and the `up` process starts; otherwise nothing changes |
| Gui.WgGui.DisconnectAll | wg_gui.py:1373-1377 | the commands run are exactly the `down` commands of the listed files, in order |
| Gui.WgGui.RunNext | wg_gui.py:1570-1586 | the new chain state and the raise flag are those of `Sequencer.RunNextSpec` |
| Gui.WgGui.RunNextFinished | wg_gui.py:1587-1589 | the new chain state and the raise flag are those of `Sequencer.FinishedSpec` |
| Priv.MapQuote | priv.py:55 | each argument is quoted, in order |
| Priv.RunPrivAgrees | priv.py:36-88 | `run_priv` runs exactly `[program] + args` of `build_qprocess_args` for the same flags |
| Priv.PriorityChain | priv.py:74-83 | passwordless doas wins with the arguments unchanged; then passwordless sudo with `-n`; then macOS gets `osascript -e` with the AppleScript line running the quoted command with administrator privileges |
| Priv.FallbackIsPlainSudo | priv.py:84-88 | the last branch is plain `sudo` with the arguments, since `SUDO_FLAG` (priv.py:10) is empty off macOS |
| Priv.CommandIsSuffix | priv.py:65-88 | outside the AppleScript branch the arguments end with the command, after at most one extra argument |
| Priv.ProgramIndependentOfCommand | priv.py:65-88 | the program depends only on the flags: it is doas, sudo, `osascript` or `PRIV_ESC` |

## Left out

- The PyQt user interface:
  - widgets, tray, dialogs, icons, timers;
  - the status panel rendering;
  - the single-instance lock and dark-mode probe.
  These are presentation and environment probes.
- Running processes.
  - `subprocess.run` and `check_output` are not executed. A blocking
    command is recorded in `WgGui.ran`.
  - A `QProcess` is `Started(program, args)`. A killed one is appended
    to `WgGui.killed`.
  - Their output, exit codes, signal wiring and `deleteLater` are not
    modelled.
- File I/O. The map file, the profile files, `glob` and `wg show` output
  are inputs.
  - `splitlines()`, decoding and file iteration are replaced by a
    sequence of lines.
  - A profile file that cannot be opened is missing from the map of
    texts.
  - Other exceptions are not modelled, such as a missing `wg` binary or
    an exception inside `subprocess.run`.
- `time.time()`, float subtraction and `time.sleep(1)`. The elapsed time
  is a natural number of seconds.
- `shlex.quote`: an opaque function parameter.
- The `doas -n true` / `sudo -n true` probes and `shutil.which`: boolean
  and optional fields of `PrivEnv`. Setting `SUDO_ASKPASS` in the
  environment is not modelled.
- `lower()` folds only ASCII letters. `int()` accepts only ASCII digits.
  The full Unicode tables of Python are not modelled.
- Log lines other than the echo of `run_next`, which `Sequencer.Echo`
  gives through `append_log`, are not modelled. This covers the warnings
  of `on_connect`, the teardown and disconnect messages, and error
  reports.
- `on_connect_finished`, `on_disconnect`, the ping follow-ups and
  `after_connect_tasks`. They are outside the named handlers.
- `on_connect` when `QProcess.start` itself fails to launch: the model
  assumes the start call returns.
- The second `tear_down_full_tunnels`, after `sys.exit` at the end of
  `wg_gui.py`. It is unreachable and equivalent to the first.
- The `tools/` scripts. They wrap CoreWLAN and hold no logic.
- Priv.CommandIsSuffix: does not state that the program is never one of
  the command's arguments, because that fails when an argument is itself
  the program's name (for example `sudo`).
  `Priv.ProgramIndependentOfCommand` states instead that the program
  depends only on the flags.
