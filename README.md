# claude-hud core, modelled in Dafny

claude-hud is a heads-up display for sessions of the `claude` command-line assistant. It has two parts.

- **Terminal dashboard.** It follows a named pipe of hook events and reports the connection status. It polls the `claude /usage` command for session and weekly usage. It reads the user's `settings.json`. It shows the elapsed time.
- **Status line.** It renders the model, a coloured context bar, rule and MCP counts, and the session duration.

This project models the logic of both parts and proves what it promises:

| module | file | what it models |
|---|---|---|
| `Events` | `events.dfy` | The event reader's reconnect state machine. `EventReader` is a class. Each thing the outside world can do to it is a method: a connect timer fires, a stream opens, a line arrives, a stream ends or fails, the owner closes it or switches the pipe. |
| `Usage` | `usage.dfy` | The usage reader. It holds the `/usage` output scanner: a loop method proved against a specification function, with the two regular expressions written out as matchers. It also holds the read cache with its single in-flight fetch, as the class `UsageReader`. |
| `Settings` | `settings.dfy` | The settings summary, as a pure function over the parsed document. The thirty-second cache is the class `SettingsReader`. |
| `ElapsedTime` | `elapsed_time.dfy` | `formatDuration` of the elapsed-time hook. |
| `SessionDuration` | `session_duration.dfy` | `formatSessionDuration` of the status-line entry point. |
| `Colors` | `colors.dfy` | The ANSI colour helpers and the context bar. |
| `SessionLine` | `session_line.dfy` | The assembly of the session line, and `formatTokens`. |
| `Text` | `text.dfy` | Shared JavaScript string behaviour: `trim`, `split`, `join` and `repeat`, decimal numerals and `Math.round`. |

## How each formatter is specified

Each formatter is specified by what its output means, not by how it is built.

- Each duration formatter has a reader `Parse` for its output.
- Each also has a ghost predicate `Describes`, which says when a reading is true of the input.
- The colour wrappers are read back by `Colors.Unstyle`.
- The numbers in the outputs are read back by `Text.TakeNat`.

## Hidden inputs become parameters

Clocks, files, processes and JSON parsing are parameters of the model:

- `now` or the elapsed milliseconds;
- the `SettingsFile` a read finds;
- the `Option<UsageData>` a fetch completes with;
- whether the pipe exists, whether the stream creation throws, and whether a line parses.

## Behaviour worth knowing

- **First reconnect delay.** The delay is 100 ms times 1.5 to the power of the attempt counter (tui/src/lib/event-reader.ts:96-97). The counter is raised before the delay is computed, so the first reconnect waits 150 ms, never 100 ms. See `Events.FirstBackoff`.
- **A stale poll timer can tear down the new stream.** A poll timer set while the pipe was missing can still fire after `switchFifo` has connected. When it does, `connect` replaces the held stream without tearing it down. The abandoned stream keeps its handlers. When it ends, its handler tears down the stream the reader was actually reading from and schedules a reconnect. The model keeps this behaviour and exhibits it in `Events.StaleTimerAfterSwitch`.
- **Teardown removes no listener.** `cleanup` only destroys the stream (tui/src/lib/event-reader.ts:101-106). The `'open'` and `'error'` handlers stay registered, and a stream torn down while its open is pending can still report either. So the model lets these two handlers run for any stream ever created, torn down or not. A `close` before the open completes is followed by Connected on a closed reader (`Events.CloseBeforeOpen`). A `switchFifo` before it completes shows Connected while the new stream is still opening (`Events.SwitchBeforeOpen`). A late error after `switchFifo` tears down the new stream and schedules a reconnect (`Events.ErrorAfterSwitch`). The line and `'end'` handlers are modelled for live streams only.

## Model

| member | source | states |
|---|---|---|
| Events.Pow15 | tui/src/lib/event-reader.ts:97 | `Math.pow(1.5, n)` is at least 1 |
| Events.BackoffDelay | tui/src/lib/event-reader.ts:96-97 | the reconnect delay lies between 100 and 5000 ms and is either the cap or 100·1.5^attempts |
| Events.BackoffMonotone | tui/src/lib/event-reader.ts:96-97 | a later attempt never waits less |
| Events.FirstBackoff | tui/src/lib/event-reader.ts:96-97 | the first reconnect waits 150 ms, because the counter is raised before the delay is computed |
| Events.BackoffCapped | tui/src/lib/event-reader.ts:97 | the delay equals the 5000 ms cap exactly when attempts >= 10 |
| Events.EventReader.constructor | tui/src/lib/event-reader.ts:9-20 | starts in Connecting with no attempts and connects at once: a missing pipe leaves a 500 ms poll, a throwing creation gives Error and a 150 ms reconnect, otherwise stream 0 is held |
| Events.EventReader.SetStatus | tui/src/lib/event-reader.ts:30-35 | the status becomes the given one; a status event is emitted only on a change, so no two consecutive statuses in the history are equal (kept in `Valid`) |
| Events.EventReader.Cleanup | tui/src/lib/event-reader.ts:101-106 | the held stream, if any, is torn down and no stream is held; nothing else changes |
| Events.EventReader.ScheduleReconnect | tui/src/lib/event-reader.ts:89-99 | nothing once closed; at 50 attempts the status becomes Error and no timer is set; otherwise the counter rises by one and one timer with BackoffDelay of the new count is set; the counter never exceeds 50 |
| Events.EventReader.Connect | tui/src/lib/event-reader.ts:37-87 | nothing once closed; a missing path sets Connecting and adds a 500 ms poll without touching the counter; a throwing creation sets Error and schedules a reconnect; otherwise a new stream is created and held |
| Events.EventReader.TimerFired | tui/src/lib/event-reader.ts:37-44 | the fired timer is removed and `connect` runs; once closed nothing else changes |
| Events.EventReader.StreamOpened | tui/src/lib/event-reader.ts:52-55 | the first open of any created stream, torn down or not, sets Connected and resets the counter to 0; the handler is one-shot, so later opens change nothing |
| Events.EventReader.LineReceived | tui/src/lib/event-reader.ts:57-66 | blank or malformed lines emit nothing and keep `lastEventTime`; a valid line is appended to the emitted events and stamps `lastEventTime`; status is untouched |
| Events.EventReader.StreamStopped | tui/src/lib/event-reader.ts:68-82 | the shared end/error handler tears down; unless closed it reports the given status and schedules a reconnect |
| Events.EventReader.StreamEnded | tui/src/lib/event-reader.ts:68-74 | after an end: torn down; if closed, status, history and timers are unchanged; otherwise Disconnected and a reconnect, or Error at the ceiling |
| Events.EventReader.StreamErrored | tui/src/lib/event-reader.ts:76-82 | after an error on any created stream, torn down or not: the held stream is torn down; if closed, nothing else changes; otherwise Error and a reconnect below the ceiling |
| Events.EventReader.Close | tui/src/lib/event-reader.ts:108-112 | closed is set, the stream is torn down and the status is Disconnected |
| Events.EventReader.SwitchFifo | tui/src/lib/event-reader.ts:114-121 | the new path is followed with the counter at 0 and closed cleared; the old stream is torn down; Connecting is reported, then `connect` runs |
| Events.ReadThreeLines | tui/src/lib/event-reader.test.ts:12-67 | two valid lines around a malformed one yield exactly those two events in order, and the statuses Connected then Disconnected |
| Events.CloseWhilePolling | tui/src/lib/event-reader.ts:37-44 | a poll timer that fires after `close` connects nothing and leaves the status Disconnected |
| Events.StaleTimerAfterSwitch | tui/src/lib/event-reader.ts:46-74 | a stale poll timer after `switchFifo` leaves a stream with live handlers whose end tears down the stream being read |
| Events.CloseBeforeOpen | tui/src/lib/event-reader.ts:52-55 | a `close` before the stream has opened is followed by Connected, with the counter 0, on a closed reader |
| Events.SwitchBeforeOpen | tui/src/lib/event-reader.ts:52-55 | after a `switchFifo` before the first stream has opened, that stream's open reports Connected while the held stream has not opened |
| Events.ErrorAfterClose | tui/src/lib/event-reader.ts:76-82 | an error from a stream torn down by `close` leaves the reader Disconnected with no timer |
| Events.ErrorAfterSwitch | tui/src/lib/event-reader.ts:76-82 | an error from a stream torn down by `switchFifo` tears down the new stream, reports Error and schedules a 150 ms reconnect |
| Usage.PercentMatchNumeral | tui/src/lib/usage-reader.ts:94-98 | `(\d+)%\s*used` captures N from a line "N% used…" |
| Usage.NoPercentSign | tui/src/lib/usage-reader.ts:94 | a line without '%' never matches the percent pattern |
| Usage.NoResetWord | tui/src/lib/usage-reader.ts:95 | a line without 'R' never matches the reset pattern |
| Usage.ResetLine | tui/src/lib/usage-reader.ts:95-102 | the lazy group of the `Resets?` pattern captures exactly the text before " (" on a "Resets … (" line, and trimming keeps it |
| Usage.FirstMatchLeftmost | tui/src/lib/usage-reader.ts:94-95 | an unanchored `match` without the global flag fails exactly when no starting position matches, and otherwise returns the match at a position before which none matches |
| Usage.PercentMatchLeftmost | tui/src/lib/usage-reader.ts:94 | `(\d+)%\s*used` gives nothing exactly when no position of the line starts a match; otherwise its group is the one of the leftmost matching position |
| Usage.ResetMatchLeftmost | tui/src/lib/usage-reader.ts:95 | the reset expression gives nothing exactly when no position, the end of the line included, starts a match; otherwise its group is the one of the leftmost matching position |
| Usage.ScanLineOutsideSections | tui/src/lib/usage-reader.ts:82-112 | one iteration on a line with neither header never opens a section, and outside both sections it changes nothing |
| Usage.ParseOutput | tui/src/lib/usage-reader.ts:72-122 | the scanning loop computes ParseUsage; a result is present only with a session percent above 0 or a non-empty session reset time |
| Usage.HeaderOnlyToggles | tui/src/lib/usage-reader.ts:83-92 | a header line only switches the section flags and contributes no data |
| Usage.SectionsExclusive | tui/src/lib/usage-reader.ts:79-92 | the scanner is never in both sections at once |
| Usage.SessionPercentEndsSection | tui/src/lib/usage-reader.ts:97-100 | the first percent match in the session section sets the percent and ends the section |
| Usage.SessionResetOverwrites | tui/src/lib/usage-reader.ts:101-103 | a reset match inside the session section overwrites the reset time with the trimmed capture |
| Usage.SessionClosed | tui/src/lib/usage-reader.ts:97-103 | once the session section is closed, no later line without the header changes the session data |
| Usage.WeekPercentFirst | tui/src/lib/usage-reader.ts:105-107 | once the week percent is set, no later line changes it |
| Usage.WeekResetFirst | tui/src/lib/usage-reader.ts:108-111 | once a non-empty week reset time is set, no later line changes it |
| Usage.WeekResetEndsSection | tui/src/lib/usage-reader.ts:108-111 | the first week reset match records the trimmed capture and ends the week section |
| Usage.NoSessionHeaderNoData | tui/src/lib/usage-reader.ts:114-118 | output with no "Current session" line yields no data, even when week data was found |
| Usage.ScanSnoc | tui/src/lib/usage-reader.ts:82 | scanning one more line is one more loop iteration |
| Usage.ScanAppend | tui/src/lib/usage-reader.ts:82 | the loop carries no state besides its variables: scanning two runs of lines is scanning the first and then the second from where it stopped |
| Usage.ScanTwoSections | tui/src/lib/usage-reader.ts:82-112 | a session block (reset, percent, a blank line) followed by a week block (percent, reset) scans to exactly those four values |
| Usage.SampleOutput | tui/src/lib/usage-reader.test.ts:11-31 | the sample output parses to 12, "in 3 hours", 45, "in 2 days" |
| Usage.UnrecognisedOutput | tui/src/lib/usage-reader.test.ts:33-41 | text without the section headers parses to nothing |
| Usage.UsageReader.constructor | tui/src/lib/usage-reader.ts:11-14 | nothing cached, last fetch 0, not fetching |
| Usage.UsageReader.BeginRead | tui/src/lib/usage-reader.ts:16-27 | a cache younger than 60 s is returned unchanged; while a fetch is in flight the current cache (possibly none) is returned; otherwise one fetch starts, recording the start time |
| Usage.UsageReader.CompleteFetch | tui/src/lib/usage-reader.ts:29-39 | `fetching` is cleared; a result replaces the cache, and `lastFetch` becomes the time the read began; no result leaves cache and `lastFetch` alone; the cache is returned |
| Usage.UsageReader.Invalidate | tui/src/lib/usage-reader.ts:124-127 | the cache is dropped and `lastFetch` is 0 |
| Usage.CachedWithinInterval | tui/src/lib/usage-reader.test.ts:43-55 | two reads within the interval fetch once and return the same value |
| Usage.OverlappingReads | tui/src/lib/usage-reader.test.ts:57-78 | a read during a fetch returns nothing and starts no second fetch; the first read gets the fetched value |
| Settings.BeforeAt | tui/src/lib/settings-reader.ts:33 | `name.split('@')[0]` is the prefix of the name up to its first '@', or the whole name |
| Settings.Keys | tui/src/lib/settings-reader.ts:35 | `Object.keys` lists every entry's key, in order |
| Settings.EnabledNames | tui/src/lib/settings-reader.ts:31-33 | at most one name per entry; no enabled entry gives no names; all entries enabled gives one name each |
| Settings.ReadSettings | tui/src/lib/settings-reader.ts:23-48 | none exactly when the file is missing or unparsable; counts equal list lengths; model defaults to "unknown" when missing or empty; MCP names are the keys, or empty; permissions pass through, or are empty; plugin names are EnabledNames of the entries |
| Settings.EnabledNamesAppend | tui/src/lib/settings-reader.ts:31-33 | filter and map distribute over concatenated entries, keeping order |
| Settings.EnabledNamesSingle | tui/src/lib/settings-reader.ts:32-33 | one entry contributes its cut name exactly when enabled |
| Settings.EnabledNamesMembers | tui/src/lib/settings-reader.ts:31-33 | every enabled entry's cut name is listed, and every listed name comes from an enabled entry |
| Settings.PluginExample | tui/src/lib/settings-reader.ts:31-33 | "a@m" on, "b@m" off, "c" on gives ["a", "c"] |
| Settings.SettingsReader.constructor | tui/src/lib/settings-reader.ts:50-58 | no data and `lastRead` 0 for the given path |
| Settings.SettingsReader.Read | tui/src/lib/settings-reader.ts:60-67 | re-reads exactly when there is no data or it is more than 30000 ms old, stamping `now`; otherwise nothing changes; the data is returned |
| Settings.SettingsReader.ForceRefresh | tui/src/lib/settings-reader.ts:69-73 | always re-reads and stamps `now` |
| Settings.ReadWithinInterval | tui/src/lib/settings-reader.ts:60-67 | within 30 s of a successful read the same summary comes back even if the file changed |
| Settings.ReadAfterMissing | tui/src/lib/settings-reader.ts:62 | a read that found no file caches nothing, so the next read looks again |
| Settings.RefreshThenRead | tui/src/lib/settings-reader.ts:62-72 | a forced refresh is reused by a read within 30 s |
| ElapsedTime.FormatDuration | tui/src/hooks/useElapsedTime.ts:3-11 | the output reads back as one of "Ns", "Nm Ss", "Hh Mm", and that reading truly describes ms (rounding half up, whole minutes, whole hours) |
| ElapsedTime.DescribesUnique | tui/src/hooks/useElapsedTime.ts:3-11 | at most one reading describes a duration |
| ElapsedTime.ParseSpelling | tui/src/hooks/useElapsedTime.ts:4-10 | every string the reader accepts is spelled exactly as the formatter writes its reading: canonical numerals in the form's fixed frame |
| ElapsedTime.ParseInjective | tui/src/hooks/useElapsedTime.ts:4-10 | two strings with the same reading are the same string |
| ElapsedTime.OutputDetermined | tui/src/hooks/useElapsedTime.ts:3-11 | any string that reads back as a true description of the duration is the formatted one, so the contract of FormatDuration fixes its output |
| ElapsedTime.MinutesFormSeconds | tui/src/hooks/useElapsedTime.ts:5-7 | in the minutes form the seconds lie in 0..60 |
| ElapsedTime.SixtySecondsReachable | tui/src/hooks/useElapsedTime.ts:6 | 119500 ms shows "1m 60s": rounding reaches 60 seconds |
| ElapsedTime.FormByThreshold | tui/src/hooks/useElapsedTime.ts:4-7 | the seconds form is shown exactly below 60000 ms, the minutes form exactly below one hour, the hours form from one hour on |
| ElapsedTime.SecondsExamples | tui/src/hooks/useElapsedTime.test.ts:6-25 | 0, 1499, 1500 and 59999 ms give "0s", "1s", "2s", "60s" |
| ElapsedTime.MinutesExamples | tui/src/hooks/useElapsedTime.test.ts:29-43 | "1m 0s", "1m 30s", "59m 59s" |
| ElapsedTime.HoursExamples | tui/src/hooks/useElapsedTime.test.ts:47-68 | "1h 0m", "10h 45m", "24h 0m" |
| SessionDuration.FormatSessionDuration | src/index.ts:38-52 | the output reads back as "", "<1m", "Nm" or "Hh Mm", and that reading truly describes the elapsed time (none, under a minute including negative, whole minutes, hours and minutes) |
| SessionDuration.DescribesUnique | src/index.ts:38-52 | at most one reading describes an elapsed time |
| SessionDuration.ParseSpelling | src/index.ts:40-51 | every string the reader accepts is "", "<1m", or canonical numerals in the "Nm" or "Hh Mm" frame |
| SessionDuration.ParseInjective | src/index.ts:40-51 | two strings with the same reading are the same string |
| SessionDuration.OutputDetermined | src/index.ts:38-52 | any string that reads back as a true description of the elapsed time is the formatted one, so the contract of FormatSessionDuration fixes its output |
| SessionDuration.HoursSplitMinutes | src/index.ts:49-51 | in the hours form H·60 + M is the whole-minute count and M < 60 |
| SessionDuration.Examples | src/index.ts:39-47 | no start gives "", negative and sub-minute times give "<1m", 60000 ms gives "1m" |
| Colors.CodesAreSgr | src/render/colors.ts:1-21 | every colour constant is the ECMA-48 SGR sequence of its parameter |
| Colors.UnstyleStyled | src/render/colors.ts:23-49 | a text styled with a parameter and reset reads back unchanged |
| Colors.Green | src/render/colors.ts:23-25 | green(t) reads back as SGR 32 around t |
| Colors.Yellow | src/render/colors.ts:27-29 | yellow(t) reads back as SGR 33 around t |
| Colors.Red | src/render/colors.ts:31-33 | red(t) reads back as SGR 31 around t |
| Colors.Cyan | src/render/colors.ts:35-37 | cyan(t) reads back as SGR 36 around t |
| Colors.Magenta | src/render/colors.ts:39-41 | magenta(t) reads back as SGR 35 around t |
| Colors.Dim | src/render/colors.ts:43-45 | dim(t) reads back as SGR 2 around t |
| Colors.Bold | src/render/colors.ts:47-49 | bold(t) reads back as SGR 1 around t |
| Colors.GetContextColor | src/render/colors.ts:51-55 | RED iff percent >= 85, YELLOW iff 70 <= percent < 85, GREEN iff percent < 70 |
| Colors.Filled | src/render/colors.ts:58 | the filled cell count is within half a cell of percent·width/100, halves rounding up |
| Colors.ColoredBar | src/render/colors.ts:57-62 | throws (None) exactly when a cell count is negative; otherwise it is the threshold colour, the filled blocks, DIM, the empty shades, then RESET |
| Colors.BarCells | src/render/colors.ts:58-61 | the bar holds exactly `filled` full blocks and `width - filled` light shades, together `width` cells |
| Colors.BarOnPercentRange | src/render/colors.ts:57-62 | for percent 0..100 the bar never throws; 0 % fills nothing and 100 % fills the whole width |
| Colors.FilledMonotone | src/render/colors.ts:58 | a higher percent never fills fewer cells |
| SessionLine.FormatTokens | src/render/session-line.ts:44-52 | below 1000 the output reads back as the number; below a million as the thousands rounded half up with "k"; from a million as the tenths of millions with "M"; the reader accepts canonical numerals only, so each reading fixes the string |
| SessionLine.CollectParts | src/render/session-line.ts:10-24 | the pushes build exactly the part list Parts |
| SessionLine.RenderSessionLine | src/render/session-line.ts:5-42 | throws exactly when the ten-cell bar does; otherwise the parts joined by space, bar, space, then the token suffix, then the compaction warning |
| SessionLine.AppendSuffixes | src/render/session-line.ts:28-39 | the token detail (when shown) and then the compaction warning (when shown) are appended to the joined parts, in that order, and nothing else |
| SessionLine.PartsDistinct | src/render/session-line.ts:12-24 | the four kinds of part can never be equal |
| SessionLine.PartsPresence | src/render/session-line.ts:10-24 | the parts are exactly the model-and-bar part, then the rules, MCP and duration parts each present iff its condition holds, in that order, and nothing else |
| SessionLine.JoinStartsWithFirst | src/render/session-line.ts:26 | the joined line begins with the model and bar part |
| SessionLine.TokenSuffixShown | src/render/session-line.ts:28-35 | the dim token detail appears iff percent >= 85 and usage is present; it reports the input tokens and creation plus read cache tokens, missing counts read as 0 |
| SessionLine.CompactWarningShown | src/render/session-line.ts:37-39 | the red COMPACT warning appears iff percent >= 95 |
| SessionLine.FormatTokensExamples | src/render/session-line.ts:44-52 | 0, 999 and 1500 give "0", "999", "2k" |
| Text.Trim | tui/src/lib/usage-reader.ts:102 | `trim` removes exactly the leading and trailing whitespace: a blank input gives "", otherwise the result starts and ends with a visible character |
| Text.Repeat | src/render/colors.ts:61 | `repeat` throws for a negative count, otherwise gives n copies |
| Text.Split | tui/src/lib/usage-reader.ts:74 | `split` gives at least one piece, none containing the separator |
| Text.JoinSnoc | src/render/session-line.ts:26 | `join` works left to right: one more part appends the separator and that part |
| Text.JoinSplit | tui/src/lib/usage-reader.ts:74 | joining the pieces of a split with its separator gives back the input |
| Text.SplitJoin | tui/src/lib/usage-reader.ts:74 | splitting joined separator-free lines gives back the lines |
| Text.RoundHalfUp | tui/src/hooks/useElapsedTime.ts:4 | `Math.round(n / d)` is within half a step of n/d, halves rounding up |
| Text.RoundHalfUpUnique | tui/src/hooks/useElapsedTime.ts:4 | that rounded value is the only such integer |
| Text.IntToStringRoundTrip | src/index.ts:47 | an integer's decimal form parses back to it |
| Text.TakeNatRoundTrip | tui/src/hooks/useElapsedTime.ts:4 | a numeral followed by a non-digit suffix reads back as the number and the suffix |
| Text.NatToStringOfDecimal | tui/src/hooks/useElapsedTime.ts:4 | a digit string without a leading zero is the numeral of its value |
| Text.TakeNatCanonical | tui/src/hooks/useElapsedTime.ts:4 | whatever the numeral reader accepts is spelled as NatToString writes it: no leading zeros |
| Text.TakeIntCanonical | tui/src/hooks/useElapsedTime.ts:4 | whatever the signed reader accepts is spelled as IntToString writes it: no leading zeros and no "-0" |

## Left out

- Process spawning, the 2-second kill timer and the collection of standard output in `fetchUsage` are left out (tui/src/lib/usage-reader.ts:42-70). They are child-process I/O. The fetch result is the `Option<UsageData>` passed to `CompleteFetch`, and the scanned text is the parameter of `ParseOutput`.
- The file streams, `readline`, `setTimeout` and the event-emitter plumbing of the event reader are left out. Streams are numbers. Timers are a list of pending delays that `TimerFired` consumes. Emitted events are the lists `statusLog` and `events`. `JSON.parse` is a boolean telling whether the line parses, and an emitted event is recorded as its line.
- Events.EventReader.TimerFired: timers fire in any order the caller chooses. The model does not order them by delay or by real time.
- Events.Pow15: the power is exact rational arithmetic, not a double. Every value up to the 5000 ms cap is a dyadic rational, and a double holds those exactly.
- Reading and parsing `settings.json` is left out. `readSettings` receives what the path holds: missing, unparsable, or a parsed document. A JSON root that parses but is not an object, and fields of the wrong JSON type, are not modelled. A missing or falsy field is None.
- Settings.Keys, Settings.EnabledNames, Settings.ReadSettings: JavaScript's `Object.keys` and `Object.entries` list integer-like object keys first, in ascending order. The model keeps document order for all keys, so the MCP names and plugin names of a document with such keys come out in a different order.
- Settings.ReadSettings, Settings.EnabledNames: the entry lists may repeat a key, which a parsed JSON object cannot (`JSON.parse` keeps the last value of a repeated key). The model counts and lists every entry, so for such a list the counts and names differ from the source's; for lists with distinct keys, which is all the source can see, they agree.
- `Date.now()` is a parameter (`now`, or elapsed milliseconds) everywhere.
- The `useElapsedTime` hook and `main` of the status line are left out. They are React state and intervals, and I/O sequencing.
- The logger, the config reader and the transcript reader are not part of this model. They are file I/O, and the transcript reader's source is not available. The `getModelName` and `getContextPercent` helpers are also not part of this model; the model name and percentage are inputs to `RenderSessionLine`.
- SessionLine.FormatTokens: from one million up, the source uses `toFixed(1)` on a double. The model rounds the exact quotient half up. The two can differ on a tie whose double is slightly below the tie.
- Colors.Filled: the source computes `(percent / 100) * width` in doubles. The model computes the exact rational. They can differ where the double product falls just short of a half.
- Context percentage, durations, counts and widths are integers in the model. The source types them as JavaScript numbers, which could carry fractions.
- Text.NatToString, Text.IntToString: they always write plain decimal digits, while JavaScript writes numbers from 1e21 up in exponent form ("1e+21").
