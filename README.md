# Access-point traffic sampler, modelled in Dafny

`traffic_widget.py` is a desktop widget that shows the live download and upload rate of
a wireless access point. It connects to the AP over SSH and reads the kernel's counter
table (`/proc/net/dev`) once per poll interval. It also reads the interface's link state
from `/sys/class/net/<iface>/operstate`, with `ip link show` as a fallback. From two
successive samples it computes byte rates. The interface to watch is either a fixed
name, a comma-separated list of glob patterns whose counters are summed, or `auto`. For
`auto`, the busiest interface is detected at startup and re-checked every five seconds.

This project models the sampling engine. The GUI is not modelled.

- `text.dfy` (module `Text`) holds the Python string operations the parsers rely on:
  `str.isspace`, `strip`, `split()`, `split(sep)`, `splitlines`, `in`, `lower`, and
  `int()` on a token. It proves round trips for them (split of a join, `int(str(v))`).
- `glob.dfy` (module `Glob`) is `fnmatch.fnmatchcase` for `*`, `?` and literal characters.
- `procnetdev.dfy` (module `ProcNetDev`) covers `APMonitor.read_counters` and
  `APMonitor.read_all_counters`.
  - Each is a recursive specification function over the lines of the command output.
  - Each is also a loop method proved equal to that function.
  - A Python dictionary is a sequence of entries that keeps insertion order. Storing
    into a present key keeps the key's position, as Python does.
  - The file also holds a round trip: rendering a table with one space between
    columns and parsing it back gives the table. The kernel pads its columns instead;
    `Text.WordsOfSpaced` shows that `split()` gives the same fields for any padding.
- `linkstate.dfy` (module `LinkState`) covers `APMonitor.read_link_status` on the two
  command outputs.
- `selection.dfy` (module `Selection`) covers the two interface-selection policies.
  - Busiest-interface detection: a fold, plus the loop proved equal to it.
  - Aggregation over comma-separated glob patterns: a fold, plus the nested loops
    proved equal to it.
- `sampler.dfy` (module `Sampler`) covers one iteration of `App.poll_loop` as a pure
  function `Step`, with its invariant and the lemmas about rates, re-detection and the
  error dialog. `Step` applies `Advance` to what the iteration's reads returned.
- `widget.dfy` (module `Widget`) holds the classes `Monitor` (APMonitor's session flag)
  and `App` (the fields `poll_loop` writes). `App.Tick` is proved to change the fields
  exactly as `Sampler.Step` says.

The remote host is not part of the model. Every command output, clock reading and
raised exception is an input to the operation that consumes it:
- a `string` for each command output;
- `None` for a command whose exception the source swallows;
- `TickInput.Failed(message)` for an iteration whose read raised.

Two behaviours of the loop are kept as the code has them:
- The error path (`traffic_widget.py:410-423`) leaves `self.prev` and the published
  rates as they are, so the first iteration after a reconnect rates against the sample
  taken before the outage (`Sampler.FailureKeepsReadings`,
  `Sampler.StaleSampleAfterOutage`).
- Re-detection runs only inside an iteration that found counters
  (`traffic_widget.py:353`, `385`). If the startup probe raised, an `auto` selector is
  kept, `read_counters("auto")` finds nothing on a host without such an interface, and
  the selector is never replaced (`Sampler.UnfoundSelectorIsKept`).

## Model

| member | source | states |
|---|---|---|
| Maybe.Max | traffic_widget.py:360 | `max(now - pt, 1e-6)` is at least both arguments and equals one of them |
| Maybe.MaxInt | traffic_widget.py:400 | `max(current_delta*4, 200*1024)` is at least both arguments and equals one of them |
| Text.TrimLeftDropsSpace | traffic_widget.py:110 | the left half of `strip()` removes only whitespace; its own contract adds that the rest is a suffix that does not start with whitespace |
| Text.TrimRightDropsSpace | traffic_widget.py:110 | the right half of `strip()` removes only whitespace; its own contract adds that the rest is a prefix that does not end with whitespace |
| Text.Strip | traffic_widget.py:110 | `line.strip()` is no longer than the line and neither starts nor ends with whitespace |
| Text.StripKeepsCore | traffic_widget.py:110 | the line is a whitespace prefix, then `line.strip()`, then a whitespace suffix |
| Text.StripBlank | traffic_widget.py:110-111 | `line.strip()` is empty exactly when the line is all whitespace, the case `if not line` skips |
| Text.StripTrailingSpace | traffic_widget.py:110 | trailing whitespace never survives `strip()` |
| Text.StripUntrimmed | traffic_widget.py:110 | a string with no whitespace at either end is its own strip |
| Text.StripIdempotent | traffic_widget.py:110 | stripping twice is stripping once |
| Text.StripLeadingSpace | traffic_widget.py:110 | leading whitespace never survives `strip()` |
| Text.WordEnd | traffic_widget.py:116 | the first word of a string ends at whitespace or at the end, and holds no whitespace |
| Text.Words | traffic_widget.py:116 | every piece `rest.split()` returns is non-empty and free of whitespace; the three lemmas below state that the pieces are the maximal runs, in order |
| Text.WordsBlank | traffic_widget.py:116-118 | `rest.split()` is empty exactly when rest is all whitespace, the case `if not parts` skips |
| Text.WordsOfJoin | traffic_widget.py:116 | `" ".join(ws).split() == ws` for words without whitespace |
| Text.WordsLeadingSpace | traffic_widget.py:116 | `split()` skips leading whitespace of any length and kind |
| Text.WordsOfWordThenSpace | traffic_widget.py:116 | a word ends at the first whitespace character, however long the run after it |
| Text.WordsOfSpaced | traffic_widget.py:116 | `split()` gives back the words of a line in padded columns: any leading whitespace, any non-empty run between words, any trailing whitespace |
| Text.FindFirst | traffic_widget.py:113 | the index `split(":", 1)` cuts at is the first separator, or the end of the string when there is none |
| Text.SplitBy | traffic_widget.py:343 | `split(sep)` returns at least one piece and no piece holds the separator |
| Text.SplitOfJoin | traffic_widget.py:343 | splitting at c what was joined with c gives the pieces back |
| Text.SplitLines | traffic_widget.py:109 | the model's line split gives at least one line (Python's gives none for empty text, which both parsers treat alike), no line holds a line break, and text without a break is one line |
| Text.StripAvoids | traffic_widget.py:343 | stripping a piece keeps it free of separators |
| Text.Contains | traffic_widget.py:169 | `sub in out` holds only when sub is no longer than out |
| Text.ContainsEnd | traffic_widget.py:169 | a string contains whatever it ends with |
| Text.Lower | traffic_widget.py:160 | the model's lower-casing maps each character to one character, so it keeps the length (Python's `lower()` need not, for letters outside this model) |
| Text.ParseInt | traffic_widget.py:120-121 | `int(token)` succeeds only on a token that starts with a digit or a sign and ends with a digit; a negative value needs a leading `-` |
| Text.ShowNat | traffic_widget.py:120-121 | the decimal rendering a counter column holds, against which the round trip of `int()` is stated: a non-empty run of digits |
| Text.DigitsValueOfShowNat | traffic_widget.py:120-121 | the digits of `str(n)` spell n |
| Text.ParseShowInt | traffic_widget.py:120-121 | `int(str(v)) == v` for every integer, negative ones included |
| Text.ParseIntRejects | traffic_widget.py:120-121 | `int(token)` raises when the token holds a character that is no digit, no `_` and no leading sign |
| Text.ParseIntRejectsUnderscore | traffic_widget.py:120-121 | `int(token)` raises on an underscore not standing between two digits: `_1`, `1_`, `1__2`, `+_1` |
| Text.ParseIntGroupedDigits | traffic_widget.py:120-121 | `int` accepts an underscore between digit groups |
| Glob.Matches | traffic_widget.py:345 | `fnmatchcase(name, part)` with no `*` in the pattern needs the name to be exactly as long as the pattern, each `?` standing for one character |
| Glob.QuestionMatchesOne | traffic_widget.py:345 | `?` matches exactly one character, whichever it is |
| Glob.LiteralPattern | traffic_widget.py:345 | a pattern without `*` or `?` matches exactly the name it spells |
| Glob.StarMatchesAll | traffic_widget.py:345 | `*` matches every name, the empty one included |
| Glob.StarSplits | traffic_widget.py:345 | `*q` matches a name exactly when q matches some suffix of it |
| Glob.PrefixStar | traffic_widget.py:345 | `p*` matches exactly the names starting with p |
| ProcNetDev.Lookup | traffic_widget.py:322 | `dict.get(name)`: a value it returns is the value of an entry with that name |
| ProcNetDev.Put | traffic_widget.py:148 | `result[name] = c` grows the dictionary by at most one entry |
| ProcNetDev.LookupFindsEntry | traffic_widget.py:148 | a dictionary lookup fails exactly when no entry has the name, and otherwise returns that entry's value |
| ProcNetDev.PutThenLookup | traffic_widget.py:148 | after `result[name] = c`, name maps to c and every other name reads as before |
| ProcNetDev.PutKeepsOrder | traffic_widget.py:148 | storing under a new name appends; storing under a present name keeps every key in place |
| ProcNetDev.PutKeepsNamesDistinct | traffic_widget.py:148 | storing never creates a second entry for a name |
| ProcNetDev.SplitCounterLine | traffic_widget.py:110-116 | the cut of one line at its first `:` into the stripped name and the words after it; stated by SplitCounterLineShape |
| ProcNetDev.SplitCounterLineShape | traffic_widget.py:110-116 | a line is cut exactly when its stripped text is non-empty and holds `:`; the name is then stripped and holds no `:`, and every field is a non-empty word |
| ProcNetDev.FieldCounters | traffic_widget.py:120-121 | rx is field 0 and tx field 8, or the last field when there are at most 8; so a single field gives rx = tx; the values are stated by FieldCountersSingleField, FieldCountersShortRow, FieldCountersLongRow and FieldCountersNeedIntegers |
| ProcNetDev.FieldCountersSingleField | traffic_widget.py:116-121 | a row of one field, which `if not parts` lets through, gives that field's value as both rx and tx |
| ProcNetDev.FieldCountersIgnoresLaterColumns | traffic_widget.py:121 | columns after the ninth never change the counters |
| ProcNetDev.FieldCountersShortRow | traffic_widget.py:120-121 | a row of two to eight fields gives rx from the first field and tx from the last, whatever lies between |
| ProcNetDev.FieldCountersLongRow | traffic_widget.py:120-121 | a row of more than eight fields gives tx from the ninth field, whatever the later columns hold |
| ProcNetDev.FieldCountersNeedIntegers | traffic_widget.py:120-123 | a row whose rx column or tx column is not an integer gives no counters |
| ProcNetDev.NonIntegerLineSkipped | traffic_widget.py:109-123 | a line of iface whose rx column `int()` rejects is skipped, and the search goes on with the next line |
| ProcNetDev.CountersFor | traffic_widget.py:110-124 | `read_counters` takes counters only from a line that is cut, whose stripped name is iface and which has at least one field |
| ProcNetDev.TableEntry | traffic_widget.py:136-148 | `read_all_counters` stores only a line that is cut, whose stripped name is not `lo` and which has at least two fields, under that name |
| ProcNetDev.TableEntryAgrees | traffic_widget.py:109-124 | on a line `read_all_counters` stores, `read_counters` for that name takes the same counters |
| ProcNetDev.StoreAll | traffic_widget.py:134-150 | the dictionary built line by line never holds a name twice |
| ProcNetDev.CounterTable | traffic_widget.py:133-151 | `read_all_counters` never holds `lo` and never holds a name twice |
| ProcNetDev.FirstCounters | traffic_widget.py:109-125 | the loop of `read_counters` as a recursive definition over the lines; stated by FirstCountersMissing and FirstCountersIsFirstMatch |
| ProcNetDev.ParseCounters | traffic_widget.py:102-125 | a result of `read_counters` is the counters of some line, and every earlier line yields nothing for iface |
| ProcNetDev.ParseAllCounters | traffic_widget.py:127-151 | `read_all_counters` never holds `lo` and never holds a name twice |
| ProcNetDev.LineCounters | traffic_widget.py:110-124 | one pass of the loop of `read_counters` takes exactly what CountersFor says of the line |
| ProcNetDev.StoreLine | traffic_widget.py:136-148 | one pass of the loop of `read_all_counters` stores exactly the line's TableEntry, and leaves the dictionary as it was otherwise |
| ProcNetDev.ScanCounters | traffic_widget.py:109-125 | the loop returns exactly what the first-match specification `ParseCounters` gives |
| ProcNetDev.ScanAllCounters | traffic_widget.py:133-151 | the loop builds exactly the dictionary the specification `ParseAllCounters` gives |
| ProcNetDev.FirstCountersMissing | traffic_widget.py:109-125 | `read_counters` returns `(None, None)` exactly when no line parses for the interface |
| ProcNetDev.FirstCountersIsFirstMatch | traffic_widget.py:109-125 | otherwise it returns the counters of the first line that parses for the interface; every earlier line fails |
| ProcNetDev.StoreAllKeepsLast | traffic_widget.py:134-150 | after storing the parsed lines in turn, a name is absent exactly when no line carries it; otherwise it holds the LAST such line's counters |
| ProcNetDev.CounterTableMissing | traffic_widget.py:134-151 | `read_all_counters` has no entry for exactly the names no line supplies |
| ProcNetDev.CounterTableKeepsLastLine | traffic_widget.py:134-151 | a later well-formed line with the same name overwrites an earlier one |
| ProcNetDev.TableNamesAreFound | traffic_widget.py:109-151 | every name `read_all_counters` reports is found by `read_counters` |
| ProcNetDev.SplitCounterLineAt | traffic_widget.py:110-116 | a line whose stripped text is `name:rest`, name free of `:`, splits into `name.strip()` and the words of rest, so `eth0 : 1 2` gives `eth0` |
| ProcNetDev.SplitCounterLineOfRender | traffic_widget.py:110-116 | a rendered row splits back into its name and its fields |
| ProcNetDev.FieldCountersOfDevFields | traffic_widget.py:120-121 | in a 16-column row, field 0 parses to rx and field 8 to tx |
| ProcNetDev.TableEntryOfDevLine | traffic_widget.py:135-148 | `read_all_counters` reads a rendered row back as the entry it came from |
| ProcNetDev.CountersForDevLine | traffic_widget.py:110-122 | `read_counters` finds a rendered row under its own name |
| ProcNetDev.HeaderLineSkipped | traffic_widget.py:136-137 | a line without `:` is skipped |
| ProcNetDev.CounterTableOfRows | traffic_widget.py:134-151 | header lines contribute nothing and each row restores its entry, in order |
| ProcNetDev.ParseAllCountersOfDevText | traffic_widget.py:127-151 | round trip: parsing a rendered table returns the table, order included |
| ProcNetDev.FirstRowWins | traffic_widget.py:109-122 | with two rows for one interface, `read_counters` returns the first |
| ProcNetDev.LastRowWins | traffic_widget.py:134-151 | with two rows for one interface, `read_all_counters` keeps the second |
| ProcNetDev.DevLineAvoidsBreaks | traffic_widget.py:134 | a rendered row holds no line break, so `splitlines` keeps it whole |
| LinkState.OperState | traffic_widget.py:160-162 | the operstate probe decides exactly when its stripped, lower-cased word is up, down, dormant or unknown; it gives Up exactly for up and Down exactly for down |
| LinkState.IpLinkState | traffic_widget.py:163-172 | the `ip link` probe says Up whenever ` state UP` or `<UP,` appears, even beside ` state DOWN`; Down only when ` state DOWN` appears; Unknown only when none of the three appears |
| LinkState.ReadLinkStatus | traffic_widget.py:153-175 | when both commands raised the answer is Unknown; Down only when the operstate word is down or `ip link` shows ` state DOWN` |
| LinkState.OperStateIsAuthoritative | traffic_widget.py:161-162 | a decisive operstate word makes the `ip link` output irrelevant; the answer is not Unknown exactly for up and down |
| LinkState.FallbackDecides | traffic_widget.py:163-175 | without a decisive operstate word, the answer is the `ip link` classification, or Unknown when that command raised too |
| LinkState.UpOnlyOnEvidence | traffic_widget.py:156-175 | the answer is Up exactly when the operstate word is up, or the word is not decisive and `ip link` shows ` state UP` or `<UP,` |
| LinkState.PaddedUpperCaseUp | traffic_widget.py:160-162 | ` UP\n` in the operstate file reads as Up |
| LinkState.DormantIsUnknown | traffic_widget.py:161-162 | `dormant` yields Unknown without consulting `ip link`, even when `ip link` says UP |
| LinkState.BlankOperstate | traffic_widget.py:160-161 | an operstate file that is empty or all whitespace decides nothing |
| LinkState.StateUpWhenOperstateBlank | traffic_widget.py:160-170 | with a blank operstate file, an `ip link` output ending in ` state UP` reads as Up |
| Selection.Activity | traffic_widget.py:322-323 | an interface's combined delta is never negative; one missing from the second snapshot contributes 0; otherwise each counter's growth counts, a shrink counting 0 |
| Selection.Busiest | traffic_widget.py:319-326 | detection leaves no name exactly for an empty first snapshot, with delta -1; otherwise the best delta is at least 0 |
| Selection.FindBusiest | traffic_widget.py:319-326 | the detection loop computes exactly the fold `Busiest` |
| Selection.BusiestIsFirstMaximum | traffic_widget.py:319-326 | an empty first snapshot leaves no name (delta -1). Otherwise the result is the FIRST interface whose delta is strictly largest, with its delta |
| Selection.WantsDetection | traffic_widget.py:314 | detection runs for an empty selector or `auto` in any case, and such a selector is never an aggregate |
| Selection.AutoIsNoAggregate | traffic_widget.py:314 | a selector that lower-cases to `auto` holds no `,`, `*` or `?` |
| Selection.IsAggregate | traffic_widget.py:339 | the selector sums over patterns exactly when it holds `,`, `*` or `?`; stated through ReadCounters |
| Selection.Chosen | traffic_widget.py:327 | `if best_name:` passes exactly a present, non-empty name |
| Selection.Patterns | traffic_widget.py:343 | every aggregation pattern is non-empty, stripped and free of commas |
| Selection.NonEmptyStrippedAreClean | traffic_widget.py:343 | the list comprehension keeps only non-empty stripped pieces |
| Selection.PatternsOfJoin | traffic_widget.py:343 | round trip: clean patterns joined with commas are read back as the same patterns |
| Selection.MatchTotal | traffic_widget.py:344-347 | the inner loop over the table for one pattern, as a fold; stated by LiteralMatchTotal and TotalsAreWeighted |
| Selection.Totals | traffic_widget.py:343-347 | the outer loop over the patterns, as a fold; stated by TotalsAreWeighted |
| Selection.AggregateCounters | traffic_widget.py:340-348 | the totals equal each interface's counters times the number of patterns that match its name |
| Selection.SumMatching | traffic_widget.py:340-348 | the nested aggregation loops compute exactly `AggregateCounters` |
| Selection.Hits | traffic_widget.py:343-345 | the weight of an interface in the totals: a name is matched by at most as many patterns as there are |
| Selection.TotalsAreWeighted | traffic_widget.py:343-347 | the totals are each interface's counters times the number of patterns matching its name, so an interface matching two patterns counts twice |
| Selection.AggregateOfNoMatch | traffic_widget.py:339-348 | when no pattern matches any interface, the aggregate is 0 and 0, not missing |
| Selection.LiteralMatchTotal | traffic_widget.py:344-347 | a wildcard-free pattern contributes exactly the counters of the interface of that name, or 0 |
| Selection.AggregateExample | traffic_widget.py:339-348 | `eth*,wlan0` over eth0 (10,20), eth1 (5,5), wlan0 (1,1) sums to (16,26) |
| Sampler.Startup | traffic_widget.py:313-335 | startup changes only the selector, the session flag and the re-detection clock; a selector that wants no detection, or a probe that raised, keeps the selector |
| Sampler.ReadCounters | traffic_widget.py:339-351 | an aggregate selector always yields counters (0 when nothing matches, by Selection.AggregateOfNoMatch); only a single interface can be missing |
| Sampler.RatesOf | traffic_widget.py:366-371 | down plus up is the total byte delta over dt, whichever the perspective, and both are non-negative for non-negative deltas |
| Sampler.Override | traffic_widget.py:372-373 | a read of up or down is published as read; any change makes it Up, and only while some rate is positive |
| Sampler.Switches | traffic_widget.py:399-400 | a switch needs a non-aggregate selector, a current delta, and a busiest delta above both 204800 and 4 times the current delta |
| Sampler.Redetect | traffic_widget.py:385-409 | re-detection changes only the selector, prev and the check clock; when it changes the selector or prev, prev is None and the new selector is non-empty |
| Sampler.Publish | traffic_widget.py:358-377 | the rate block changes only the rates, the status and the current delta, and nothing without a previous sample |
| Sampler.Advance | traffic_widget.py:337-409 | an iteration whose reads returned leaves a session open, and a changed selector always comes with no prev |
| Sampler.Step | traffic_widget.py:337-423 | after an iteration a session is open exactly when its reads returned; the dialog is shown only on a failure while not showing, and is then marked shown |
| Sampler.Deltas | traffic_widget.py:361-364 | deltas are never negative: the counter differences when neither counter went backwards, otherwise both 0 |
| Sampler.Elapsed | traffic_widget.py:360 | dt is at least 1e-6 and at least the time since the previous sample |
| Sampler.ErrorText | traffic_widget.py:416-417 | the recorded error text starts with `Connection failed: ` and is longer than it |
| Sampler.StartupKeepsInv | traffic_widget.py:250-258 | the initial fields, before and after startup detection, satisfy the invariant |
| Sampler.StartupDetects | traffic_widget.py:313-335 | for an empty or `auto` selector whose probe returned, startup takes the first busiest interface when its name is non-empty. An empty first snapshot keeps the selector, and so does any other selector. The re-detection clock starts |
| Sampler.AdvanceKeepsInv | traffic_widget.py:353-409 | an iteration whose reads returned keeps the invariant: rates published in pairs, never negative, together with the current delta; dialog flag set exactly while an error text is recorded |
| Sampler.StepKeepsInv | traffic_widget.py:337-423 | every iteration keeps the invariant |
| Sampler.PublishedRates | traffic_widget.py:358-377 | with a previous sample, the rates, the status and the current delta published are those of the deltas over dt |
| Sampler.RatesAreDeltasOverTime | traffic_widget.py:358-371 | rates equal the counter differences over `max(now - pt, 1e-6)`, in the direction the perspective asks for, and are never negative |
| Sampler.CounterResetPublishesZero | traffic_widget.py:363-364 | a counter that went backwards publishes 0 for both directions, and the status as read |
| Sampler.PerspectiveSwapsRates | traffic_widget.py:366-371 | LAN perspective publishes the same pair of rates as WAN perspective, swapped |
| Sampler.StatusOverride | traffic_widget.py:372-377 | the published status is Up exactly when the read said up, or said neither while traffic moved; Down exactly when the read said down |
| Sampler.FirstSamplePublishesNothing | traffic_widget.py:358-382 | without a previous sample, rates, status and current delta stay as they were |
| Sampler.FoundRecordsSample | traffic_widget.py:353-402 | a found iteration clears the error text and records `(rx, tx, now)` as prev, unless it switched interface, which leaves no prev |
| Sampler.NotFoundChangesNothing | traffic_widget.py:350-353 | an iteration that finds no counters changes nothing but the connection |
| Sampler.SwitchExactlyWhen | traffic_widget.py:385-409 | more than 5 s after the last check, the interface switches (and prev resets) exactly when all of these hold: the probe's reads returned, the selector is no aggregate, a current delta exists, the busiest name is non-empty, and its delta exceeds `max(4*current, 204800)` |
| Sampler.NoRedetectWithinPeriod | traffic_widget.py:385 | within 5 s of the last check, the interface and the check clock stay |
| Sampler.WithinMarginNoSwitch | traffic_widget.py:400 | a busiest delta within the margin never switches |
| Sampler.AggregateNeverSwitches | traffic_widget.py:400 | an aggregate selector is never replaced |
| Sampler.NoSwitchWithoutCurrentDelta | traffic_widget.py:399-408 | while no iteration has computed rates there is no `drx + dtx`, and no switch |
| Sampler.SwitchCarriesOldDelta | traffic_widget.py:358-402 | a switch keeps the old interface's `drx + dtx`: the next found iteration has no prev, publishes nothing, and re-detection in it compares against that old delta |
| Sampler.FailureKeepsReadings | traffic_widget.py:410-423 | a failure closes the session and records `Connection failed: ` plus the message, or the default text; it leaves prev, rates, status, interface and clocks untouched, and shows the dialog only if it was not shown |
| Sampler.PolledDialog | traffic_widget.py:355-357 | an iteration whose reads returned never shows the dialog; it clears the flag exactly when it found counters |
| Sampler.OutageNotifiesOnce | traffic_widget.py:418-423 | any run of failures shows the dialog once if it was not showing, never if it was, and keeps prev |
| Sampler.NotificationsBalanceRecoveries | traffic_widget.py:355-423 | over any run, dialogs shown plus "not showing at the end" equals clearing iterations plus "not showing at the start", so a second dialog needs an intervening success |
| Sampler.UnfoundSelectorIsKept | traffic_widget.py:350-409 | a selector that finds no counters on any iteration of a run is never replaced, and prev and the rates stay as they were |
| Sampler.StaleSampleAfterOutage | traffic_widget.py:358-423 | after a failure, the next found iteration still rates against the sample taken before it |
| Widget.Monitor.constructor | traffic_widget.py:62-67 | a new monitor holds no session |
| Widget.Monitor.Connect | traffic_widget.py:70-88 | afterwards a session is open; it dials only when none was |
| Widget.Monitor.Close | traffic_widget.py:90-96 | afterwards no session is open |
| Widget.Monitor.Ensure | traffic_widget.py:98-100 | afterwards a session is open |
| Widget.Monitor.ReadCounters | traffic_widget.py:102-125 | opens a session if needed and returns `ParseCounters` of the output |
| Widget.Monitor.ReadAllCounters | traffic_widget.py:127-151 | opens a session if needed and returns `ParseAllCounters` of the output, without `lo` or duplicate names |
| Widget.Monitor.ReadLinkStatus | traffic_widget.py:153-175 | opens a session if needed and returns the classification of the two outputs |
| Widget.App.constructor | traffic_widget.py:250-258 | the fields start as `Initial(selector)` and satisfy the invariant |
| Widget.App.Start | traffic_widget.py:313-335 | startup detection changes the fields exactly as `Sampler.Startup` says, and keeps the invariant |
| Widget.App.PublishRates | traffic_widget.py:358-377 | the rate block updates the fields exactly as `Sampler.Publish` says |
| Widget.App.Redetect | traffic_widget.py:385-409 | the re-detection block updates the fields exactly as `Sampler.Redetect` says |
| Widget.App.Read | traffic_widget.py:339-351 | the reads return the summed or single-interface counters and the link status, and leave a session open |
| Widget.App.Record | traffic_widget.py:353-409 | the rest of a found iteration updates the fields exactly as `Sampler.Advance` says |
| Widget.App.Tick | traffic_widget.py:337-423 | one iteration changes the fields, and reports the dialog, exactly as `Sampler.Step` says, and keeps the invariant |

## Left out

- The SSH transport (paramiko `connect`, `exec_command`, decoding of stdout) is replaced by parameters. A command's output is a string, and a raised command is `None` or `TickInput.Failed`. The session is a boolean.
- Threads, locks, `stop_event`, `time.sleep` and the drift-corrected schedule of the loop are not modelled. The two clocks are `real` inputs.
- Floating point: rates are exact `real` quotients of integer byte deltas, and `1e-6` is the exact constant 0.000001.
- `format_rate_bytes_per_sec`, the tray's short format, the overlay, `update_ui`, window titles, `messagebox` and every Tk callback are presentation only. The dialog is the boolean `notified`.
- Configuration loading from `.env` and the environment: the selector and the perspective flag are constructor parameters.
- `exit_app` and the stop flag: a run is a finite sequence of iterations.
- Text.ParseInt: accepts ASCII digits only. Python's `int()` also accepts other Unicode decimal digits. Tokens come from `split()`, so surrounding whitespace never reaches it. It also accepts tokens of any length, where Python 3.11 and later raise on more than 4300 digits; counters never come near that length.
- Text.Lower: lower-cases only A-Z and the Kelvin sign, the only characters whose lower case is an ASCII letter. Equality with the ASCII operstate words is therefore exact. The lowered string itself differs from Python's for other non-ASCII letters.
- Text.SplitLines: splits at each line-break character, so `\r\n` and a trailing break give extra empty lines, which `str.splitlines()` does not. Both parsers skip empty lines, so the parsed result is the same.
- Glob.Matches: bracket classes `[...]` of `fnmatch` are not modelled. A selector containing `[` is treated as literal characters.
- Sampler.Startup: a startup probe whose read raised leaves the session flag as it was. In the source a raised read may leave a session open or not, depending on where it raised.
- Sampler.Step: an exception raised inside the re-detection probe is the probe's `None`. The probe's own session effects are not modelled.
- Widget.App.Tick: the probe runs only when re-detection is due, but its snapshots are part of every `Polled` input, because an input cannot depend on the state.
