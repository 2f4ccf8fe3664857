# whoisonline presence core, modelled in Dafny

whoisonline is a small Node command-line tool. It records when each
registered user first shows up on the local network on a given day. A user
is a username with a MAC address. A detection run does the following:

- It looks each MAC address up in the ARP table (`arp -an | grep`).
- It reads the IP address out of the matching line and pings it once.
- When the host answers, it records the user in a JSON attendance log:
  username, then date, then the first time seen that day.
- When the ARP table has no entry for the MAC address, it first pings the
  whole 192.168.4.0/24 subnet so that the table fills up.
- Every failed attempt is retried 20 seconds later.
- Outside a morning window, the first user's check exits the process with
  code 1.

This project models that core: the run path, `checkForUsers`,
`checkForUser`, `getIpWithArp`, `checkAlive`, `angryIpScan`, `isMorning`,
`logToFile` and `addUser` of `index.js`. It proves what they do.

The model is split into modules, one per file:

| module | contents |
|---|---|
| `JsStrings` | JavaScript's `indexOf` for one character and `substring`, including index clamping and argument swapping |
| `ArpLine` | the IP extraction `data.substring(data.indexOf('(') + 1, data.indexOf(')'))` |
| `Decimal` | the `${i}` rendering of the last octet, with a parser as its partner |
| `SubnetSweep` | the 256-address sweep, as a loop |
| `TimeWindow` | `isMorning` built on moment's `hour()`, `minute()` and `isBetween` |
| `AttendanceLog` | the log as nested maps, and the `LogFile` class whose `LogToFile` updates it in place with JavaScript's `or` operator |
| `UserRegistry` | the `users` entry of the persistent store, and `AddUser` |
| `NetworkPorts` | the shell and the ping library, as function-valued inputs |
| `Presence` | the promise outcomes of one attempt, the retry chain, the per-user fan-out and the exit code of the run |

Promises are modelled by how they settle:

- `getIpWithArp` ends as one `Resolution`.
- Each `checkForUser` ends as one `Step`.
- The run ends as one `RunEnd`.

The ping library has three outcomes:

- it answers `alive` or not;
- its promise rejects (`Fault`);
- it throws synchronously (`Throws`).

The following facts about `index.js` shape the model:

- The window is exclusive at both ends. The 08:00 and 16:00 bounds keep the
  seconds and milliseconds of the current instant, so the gate is open from
  08:01:00.000 to 15:59:59.999. Every instant in the minutes 08:00 and 16:00
  is outside it.
- The bounds are constants in `isMorning` (index.js:103).
- Every ping is its own echo request, sent at its own moment, and every
  attempt runs its own ARP query. So the `--force` sweep gets its own probe
  (`sweepProbe`), each user's first attempt gets its own ports
  (`portsOf(u)`), and each retry its own again. One address can be dead for
  the sweep and alive for a user's later ping.
- A failed first attempt does not hold up the run. `process.exit(0)` follows
  as soon as every first attempt has settled, and that drops all pending
  retry timers. In the same way, `process.exit(1)` at a closed window ends
  the whole process, not just one user's task.
- Three kinds of attempt never settle:
  - an attempt whose ping promise rejects;
  - an attempt whose grep exits with code 1 and one of whose sweep probes
    rejects: `Promise.all` at index.js:127 then rejects, so the `reject()`
    at line 129 never runs;
  - an attempt whose grep ends with an exit code other than 0 or 1.

  The run then never reaches `process.exit(0)`. The retry timers of the
  other users keep firing. Each of those attempts can still log its user,
  and the first one made after the window has closed calls
  `process.exit(1)`. When no timer is left, the process ends by itself.

## Model

| member | source | states |
|---|---|---|
| `JsStrings.IndexOf` | index.js:115 | `indexOf` returns -1 or a position inside the string |
| `JsStrings.IndexOfSpec` | index.js:115 | `indexOf` returns -1 exactly when the character is absent; otherwise the character is at the result and nowhere before it |
| `JsStrings.IndexOfIs` | index.js:115 | a position holding the character, with no occurrence before it, is what `indexOf` returns |
| `JsStrings.ClampMonotone` | index.js:115 | the index clamping of `substring` keeps the order of its two arguments |
| `JsStrings.Substring` | index.js:115 | on in-range ordered indices `substring` is the ordinary slice |
| `JsStrings.SubstringLength` | index.js:115 | the length of the result is the distance between the clamped indices |
| `JsStrings.SubstringClamped` | index.js:115 | a negative index acts as 0 and an index past the end acts as the length: the result equals that of the clamped arguments, so with the slice clause and the swap lemma every result is determined |
| `JsStrings.SubstringSymmetric` | index.js:115 | swapping the two arguments of `substring` never changes the result |
| `ArpLine.ExtractIpCases` | index.js:115 | the extraction yields the text strictly between the first '(' and the first ')' when they are in order; it yields the text from ')' through '(' when they are reversed, and the prefix through '(' when there is no ')'; with neither it is empty |
| `ArpLine.ExtractFromEntry` | index.js:115 | on a line of the form before(ip)after, with no parenthesis before and no ')' in the address, the extraction returns exactly the address |
| `ArpLine.ExtractWithoutOpen` | index.js:115 | without '(', the extraction yields everything before the first ')', or nothing when there is none |
| `Decimal.DigitValue` | index.js:147 | a digit character has a value below 10 that renders back to the same character |
| `Decimal.NatToString` | index.js:147 | the rendering of a number is a non-empty digit string with no leading zero, one digit long exactly for numbers below 10 |
| `Decimal.ParseNatToString` | index.js:147 | parsing the rendering of `n` gives back `n` |
| `Decimal.NatToStringInjective` | index.js:147 | different numbers render differently |
| `SubnetSweep.HostAddressSuffix` | index.js:147 | the last octet can be read back from `192.168.4.${i}` |
| `SubnetSweep.HostAddressInjective` | index.js:146-147 | different loop indices give different addresses |
| `SubnetSweep.Pending` | index.js:148-152 | the pending probes are exactly the swept addresses whose ping did not throw, never more than were swept |
| `SubnetSweep.PendingSnoc` | index.js:148-152 | one more swept address becomes pending exactly when its ping does not throw |
| `SubnetSweep.AngryIpScan` | index.js:144-156 | the loop hands the ping library exactly the 256 addresses 192.168.4.0 to 192.168.4.255, in order and each once; the promises it returns are those of the pings that did not throw |
| `SubnetSweep.PendingSettle` | index.js:127-130 | `Promise.all` over a sweep's pending probes fulfils exactly when no address of the subnet has a rejecting probe |
| `TimeWindow.InWindow` | index.js:103 | `isBetween` against bounds built from the current instant holds exactly for minutes strictly after the start minute and strictly before the end minute |
| `TimeWindow.IsMorning` | index.js:102-104 | `isMorning()` holds exactly from minute 08:01 through minute 15:59 |
| `TimeWindow.MorningBoundaries` | index.js:103 | every instant within 08:00 or 16:00 is outside the window, and every instant within 08:01 or 15:59 is inside it |
| `AttendanceLog.RecordEffect` | index.js:164-168 | `logToFile` defines the user and the date and leaves every other user and date as it was; the time stored is `time` unless a non-empty time was already there, in which case the log does not change at all |
| `AttendanceLog.FirstObservationWins` | index.js:168 | a second call for the same user and date keeps the first non-empty time |
| `AttendanceLog.RecordIdempotent` | index.js:167-168 | repeating a call, even with an empty time, changes nothing |
| `AttendanceLog.EmptyTimeReplaced` | index.js:168 | a stored empty time is falsy for JavaScript's `or` operator and is overwritten |
| `AttendanceLog.RecordCommutes` | index.js:164-168 | records for two different users give the same log in either order |
| `AttendanceLog.RecordAll` | index.js:79-87 | recording a set of users changes exactly their entries, each as `logToFile` would, and keeps every other user |
| `AttendanceLog.RecordAllStep` | index.js:164-168 | recording one more user extends the set-wise record by one `logToFile` |
| `AttendanceLog.RecordAllNone` | index.js:164-168 | recording nobody leaves the log unchanged |
| `AttendanceLog.RecordSeqSnoc` | index.js:164-168 | recording one more user at the end of a sequence is one more `logToFile` |
| `AttendanceLog.RecordSeqIsRecordAll` | index.js:82-86 | recording distinct users one after the other yields the order-independent set-wise record, whatever order the attempts settle in |
| `AttendanceLog.LogFile.constructor` | index.js:183-191 | the in-memory log starts as the parsed file contents, with nothing written yet |
| `AttendanceLog.LogFile.LogToFile` | index.js:164-173 | the in-memory log becomes its first-wins update, the file holds exactly that log, and one more whole-file write has happened |
| `UserRegistry.Registered` | index.js:158-160 | the user maps to the new MAC address; every other stored user keeps theirs; with nothing stored, the registry holds only the new user |
| `UserRegistry.LastWriteWins` | index.js:160 | registering a user twice keeps the later MAC address |
| `UserRegistry.Registry.constructor` | index.js:159 | the registry starts as the store's current `users` entry, possibly unset |
| `UserRegistry.Registry.AddUser` | index.js:158-162 | the stored entry becomes the old registry (or `{}`) with the user set to the MAC address |
| `Presence.ResolveOutcome` | index.js:106-142 | given an ARP line, `getIpWithArp` fulfils exactly when the extracted address answers alive; it rejects when that address answers dead or its ping throws, and never settles when the ping rejects. Without a line it rejects exactly when grep exits with code 1 and the whole sweep settles; otherwise it never settles |
| `Presence.StepOf` | index.js:95-99 | a settled attempt logs exactly when it resolved, with the resolved address; any rejection schedules a retry after 20000 ms; the returned promise fulfils exactly when the attempt settled |
| `Presence.SweepCalls` | index.js:146-149 | a sweep pings the 256 subnet addresses in loop order |
| `Presence.SweepCallsDistinct` | index.js:146-149 | a sweep pings no address twice |
| `Presence.AttemptCallsShape` | index.js:106-134 | an attempt queries the ARP table for the user's MAC address first; then it pings exactly the extracted address when there is a line, sweeps the subnet once when grep exits with 1, and does nothing more otherwise |
| `Presence.GetIpWithArp` | index.js:106-134 | the attempt's outcome is `Resolve` of the ports' answers, and its calls are `AttemptCalls` |
| `Presence.AttemptStep` | index.js:89-100 | an attempt exits the process with code 1 exactly when the window is closed; otherwise its step is that of its resolution |
| `Presence.CheckForUser` | index.js:89-100 | a closed window exits before the ARP table is queried; a success calls `LogToFile` once with the attempt's stamp; any other outcome leaves the log and the file untouched |
| `Presence.ChainLengthSpec` | index.js:95-99 | a chain of retries makes at least one attempt and no more than are given; every attempt before its last scheduled a 20000 ms retry; it stops early only at an attempt that logged, exited or never settled |
| `Presence.FollowRetries` | index.js:89-99 | following the retry timer makes exactly `ChainLength` attempts and ends with the last one's step; when that attempt logged, the log gains exactly its record, the file holds the new log and one write has happened; otherwise log, file and write count are untouched |
| `Presence.Present` | index.js:82-83 | the users found present are exactly the registered users whose first attempt resolves |
| `Presence.PresentIn` | index.js:82-83 | the present users in key order are those of the order whose attempt resolves, without repetition |
| `Presence.PresentInSnoc` | index.js:82-83 | one more key in `Object.keys` order adds that user to the present ones exactly when the user's attempt resolves |
| `Presence.DistinctCard` | index.js:82 | a key list without repetition is as long as its set of keys |
| `Presence.PresentInAll` | index.js:82-86 | over all of `Object.keys(users)`, the resolving users in order are the present set, each once |
| `Presence.FirstAttempt` | index.js:89-100 | one user's first `checkForUser` with the window open, on that user's own ports: its step is that of its resolution, and it logs exactly when the attempt resolves; then the log gains that record, the file holds the log and one write has happened, and otherwise log, file and write count are untouched |
| `Presence.CheckEachUser` | index.js:82-86 | with the window open, the `forEach` gives every user one attempt on that user's own ports, with the step its resolution determines; the log becomes the users who resolved, recorded in key order, with one write for each; the file then holds the log, or is untouched when nobody resolved |
| `Presence.CheckForUsers` | index.js:79-87 | with the window closed, the first user's check exits with 1 and the log, the file and the write count are untouched. With it open, every user gets one attempt on that user's own ports, with the step its resolution determines; the log becomes the order-free record of the present users, written once per present user, and the file holds it (untouched when nobody is present) |
| `Presence.ListsKeysEmpty` | index.js:82 | `Object.keys(users)` is empty exactly when the registry is |
| `Presence.AllSettled` | index.js:86 | with the window open, `Promise.all` over the first attempts fulfils exactly when no user's attempt is left unsettled, and no attempt exits |
| `Presence.CheckForUsersThenExit` | index.js:67-70 | `checkForUsers().then(() => process.exit(0))` on a loaded registry: an empty one exits with 0 and a closed window with 1, both leaving log, file and write count untouched; an open window records the present users, with the file holding the log when anyone was present, and exits with 0 exactly when every first attempt settled, otherwise never calls `process.exit` |
| `Presence.RunDetection` | index.js:51-72 | with `--force`, the subnet is swept first with its own probe, and the run goes on only if that sweep settles; an unset registry crashes on `Object.keys` without `--force` and ends without an exit call with it; in these cases, with an empty registry (exit 0) and with a closed window (exit 1), the log, the file and the write count stay as they were. Otherwise every user is checked on their own ports, the log gains the present users, the file holds it when anyone was present, and the run exits with 0 exactly when every first attempt settled, and otherwise never calls `process.exit(0)` |

## Left out

- The command-line surface (commander options, the `prompt` dialogue of `--add`, `--path`) is not modelled. `--add` is modelled only by `AddUser`.
- Persistent storage (node-persist) is left out. The registry is an in-memory value, and the log file path is not modelled.
- The shell is left out. `arp -an | grep -i <mac>` is a port that returns at most one stdout chunk and an exit code. The `arp -a -d` cache flush of `--force` has no modelled effect.
- The ARP answer is limited to one stdout chunk. Several 'data' chunks for one lookup would each start their own ping. The model uses only one.
- An ARP answer with both a line and exit code 1: the model lets the line decide, whereas index.js would start both the ping and the sweep. grep does not produce both, and with the real shell the two handlers would race.
- The ping library is a port. Its 500 ms timeout and its command-line options are not modelled.
- File contents are not modelled. `JSON.stringify`, `writeFileSync`, `readFileSync` and `JSON.parse` become the `saved` snapshot of `LogFile` and its write counter.
- `getLogFile`'s error exits (missing file, unparsable JSON) are left out, as is its rewrite of an empty file to `{}`. The model starts from an already parsed log.
- The default log path under `$HOME` is left out.
- Verbose output and console messages are left out.
- Time zones, daylight saving time, and moment's `MM-DD-YYYY` and `HH:mm` formatting are left out. The date and time logged are an input `Stamp`.
- The separate `moment()` readings inside `isMorning` are taken to be one instant.
- Timers and the event loop are not modelled as such.
  - The retry chain is a loop over the timer firings.
  - Concurrent attempts are modelled through the order-independence of their records (`RecordCommutes`, `RecordSeqIsRecordAll`).
  - Retries that fire before `process.exit(0)` are not modelled.
- Unhandled promise rejections are modelled as Node before version 15 treats them: as a warning that does not end the process. From version 15 on they end it.
- ResolveOutcome: a probe promise that rejects leaves `getIpWithArp` unsettled (`Unsettled`). On Node 15 and later the same unhandled rejection would end the process instead.
- RunDetection: with `--force` and an unset registry, the `TypeError` of `Object.keys` rejects a promise nobody handles, so the run ends without an exit call (`NoExitCall`). On Node 15 and later it would end the process.
- CheckForUser: a `writeFileSync` that throws is not modelled. In index.js the `.catch` at line 97 turns it into a scheduled retry, and the in-memory log has already been updated. The model always reports `Logged`, with the file holding the new log.
- CheckForUsers: one clock reading serves the whole `forEach`, and so does `RunDetection`. In index.js each `checkForUser` reads the clock again (line 90), so the window can close part-way through the users. Then `process.exit(1)` runs synchronously, before any earlier user's attempt has logged.
- LogToFile: JavaScript objects are modelled as maps without prototype lookup. Usernames that name members of `Object.prototype`, such as `toString`, `constructor` or `__proto__`, are outside the model. For them `logFile[username]` at index.js:167 finds the inherited member, and `JSON.stringify` drops what is attached to it.
- Registered: for the same reason, usernames that name members of `Object.prototype` are outside the model. In particular `users["__proto__"] = mac` at index.js:160 does not add a user.
- `getUsers` (index.js:175-181) is never called, and it is not modelled.
- JavaScript strings are sequences of UTF-16 code units. The model uses Dafny strings of characters, which agree with them on the ASCII text of ARP lines.
