# Panic file log writer (log4go), modelled in Dafny

This project models the sequential core of log4go's `PanicFileLogWriter`. That is the log sink
that appends records to one file and, in production, also points the process's standard output
and standard error at that file so crash traces land in the log. The model covers:

- **The rotation policy** (`rotation.dfy`, module `Rotation`). This is the table in `prepare` that
  maps the upper-cased rotation code to an interval in seconds, a strftime suffix and a
  file-name filter. `M` selects the minute row, `H` the hour row, and `D`, `MIDNIGHT` and every other
  code the daily row. The module also computes the first rollover deadline from the reference time,
  with Go's truncating division as the code does, beside the intended next-boundary deadline. The three filter
  regular expressions are written out by hand as anchored character-class patterns. A reference
  reading of the strftime directives the suffixes use shows that each row's suffix produces names
  that its own filter accepts.
- **Records and the writer loop** (`records.dfy`, module `Records`). A record has an optional raw
  `Binary` payload. Non-blocking admission into the bounded channel drops a record when the
  buffer is full. `Drain` reads the writer goroutine's receive loop as one pass over the buffered
  records. It stops at the drain marker, at a closed and empty channel, or at the first failed write,
  and it waits when the channel is open and empty.
- **The writer object** (`writer.dfy`, module `PanicLog`). The class `PanicFileLogWriter` has the
  Go struct's fields. The channel buffer is a `seq`, and the bytes appended to the file are a `seq`
  of bytes. Its methods are the struct literal of `NewPanicFileLogWriter`, `prepare`, `intRotate`,
  `LogWrite`, `close(w.rec)`, `SetFormat` and the goroutine's loop. `NewPanicFileLogWriter`
  composes them and returns `null` where the Go function returns `nil`. `WriterLoop` is the
  receive loop as a method over the buffered records, proved against `Drain`.

The object invariant `Valid` says two things. The buffer never holds more than its capacity
(`LogBufferLength`). While the loop runs, the file is open and the rotation fields hold the
policy-table row for `when` and a deadline aligned to the interval. A freshly constructed writer has
not been prepared yet: its interval is 0 and its filter is absent.

Inputs from outside the program are parameters:
- the absolute path that `filepath.Abs` returns, or none when it fails;
- the file's modification time when `os.Stat` succeeds;
- the current time;
- whether `os.OpenFile` succeeds;
- the blocking mode `LogWithBlocking`;
- the buffer length `LogBufferLength`.

The collaborators the program calls but does not define are bundled in the datatype `Env`. They
are `FormatLogRecord`, `EndNotify`, and whether the write of the k-th received record succeeds.

Where the source's comments promise more than its code does, the model follows the code:
- The comments at `paniclog.go:28-29` and `paniclog.go:108-109` promise that at most `backupCount`
  backup files are kept, but `backupCount` is stored and never read.
- The comment at `paniclog.go:129` says "rename file to backup name", but the rename at
  `paniclog.go:192` is commented out.
- The field `rolloverAt` suggests that the file is rotated at the deadline, but the code computes it
  once, in `prepare`, and never reads it again.
- So the model has no deadline advancement, no backup renaming and no pruning.

## Model

| member | source | states |
|---|---|---|
| `Rotation.Upper` | paniclog.go:116 | the normalised code has the same length as `when`, and each character is that character upper-cased |
| `Rotation.UpperIdempotent` | paniclog.go:116 | upper-casing an already upper-cased code changes nothing |
| `Rotation.PolicyFor` | paniclog.go:64-82 | every code, recognised or not, gets a positive interval: 60, 3600 or 86400 seconds |
| `Rotation.PolicySelection` | paniclog.go:64-82 | after upper-casing, the minute row is chosen exactly for `m`/`M`, the hour row exactly for `h`/`H`, and the daily row (interval 86400, `%Y-%m-%d`, day filter) for every other code, including `D`, `MIDNIGHT` and the empty one |
| `Rotation.HourFilterIsTenDigits` | paniclog.go:72 | the hour filter `^\d{10}$` accepts exactly the names made of ten digits |
| `Rotation.SuffixMatchesFilter` | paniclog.go:65-81 | for every code and every valid date and time, the row's suffix expanded by strftime is a name that the row's filter accepts |
| `Rotation.FirstRolloverAt` | paniclog.go:95 | the first deadline is a multiple of the interval, strictly after the reference time, and at most one interval after it |
| `Rotation.FirstRolloverIsSmallest` | paniclog.go:95 | no multiple of the interval lies strictly between the reference time and the deadline |
| `Rotation.GoRolloverAt` | paniclog.go:95 | the code's deadline, with Go's truncating division, is a multiple of the interval and strictly after the reference time; it is at most one interval after it from 1970 on, and at most two intervals after it before 1970 |
| `Rotation.GoRolloverAgrees` | paniclog.go:95 | the code's deadline is exactly `FirstRolloverAt` for every reference time from 1970 on and for every multiple of the interval; for any other time before 1970 it is one interval later |
| `Rotation.GoRolloverSkipsBoundary` | paniclog.go:95 | for a reference time 30 s before 1970 and interval 60, the code's formula gives 60, more than one interval ahead, although 0 is an earlier boundary |
| `Rotation.Prepared` | paniclog.go:85-95 | prepare leaves the policy row for `when` and `firstRollover` set, and puts the code's deadline on an interval boundary strictly after the reference time (the modification time if stat succeeded, else now) and at most two intervals after it; from 1970 on that is the next boundary, `FirstRolloverAt` |
| `Records.Admit` | paniclog.go:40-52 | a non-blocking submission keeps the buffer within capacity, keeps what was queued, and adds the record at the tail exactly when the buffer was below capacity |
| `Records.AdmitBurst` | paniclog.go:41-51 | in a burst of non-blocking submissions with no consumer, exactly the first `capacity - len` records are queued, in submission order; the rest are dropped |
| `Records.Drain` | paniclog.go:158-181 | the loop takes at most the buffered records; it takes all of them when it stops at the empty buffer, and at least one when it stops at a marker or a failed write |
| `Records.DrainCleanBefore` | paniclog.go:160-179 | every record taken before the stop point was an ordinary record whose write succeeded |
| `Records.DrainReachesEnd` | paniclog.go:160-163 | the loop reaches the empty buffer if and only if no buffered record is a marker or meets a failing write; there it returns if and only if the channel is closed, and otherwise waits |
| `Records.DrainStopReason` | paniclog.go:165-179 | a loop that stopped at a marker last took the marker; one that stopped at a write error last took an ordinary record whose write failed |
| `Records.DrainWritesInOrder` | paniclog.go:169-175 | the bytes written are, in queue order, those of the records before the stop point: the raw `Binary` bytes when present, else `FormatLogRecord(format, rec)` |
| `Records.DrainIgnoresLater` | paniclog.go:165-179 | once the loop has returned at a marker or a failed write, records queued behind that point change nothing: nothing further is written |
| `Records.DrainResumes` | paniclog.go:158-181 | a loop that waited on an empty buffer and then resumed on the records queued meanwhile writes and takes exactly what one uninterrupted pass over all of them does |
| `PanicLog.WriterLoop` | paniclog.go:158-181 | the receive loop returns the stop reason, the remaining buffer, the file's bytes and the receive count that `Drain` prescribes for the buffered records |
| `PanicLog.PanicFileLogWriter.constructor` | paniclog.go:116-124 | a new writer has an empty channel of capacity `LogBufferLength`, the upper-cased `when`, the given file name and backup count, and the format `[%D %T] [%L] (%S) %M` |
| `PanicLog.PanicFileLogWriter.Prepare` | paniclog.go:61-96 | sets exactly interval, suffix, filter, `firstRollover` and `rolloverAt` to what `Prepared` gives for `when` and the reference time, and keeps the object invariant |
| `PanicLog.PanicFileLogWriter.IntRotate` | paniclog.go:187-197 | closes any open file and reports success exactly when the file could be opened; the file is then open exactly on success |
| `PanicLog.PanicFileLogWriter.LogWrite` | paniclog.go:40-52 | without blocking, the buffer becomes `Admit` of the old buffer, so a full buffer drops the record even on a closed channel; with blocking, the record goes at the tail; only the buffer changes, and it stays within capacity |
| `PanicLog.PanicFileLogWriter.CloseChannel` | paniclog.go:57 | the channel is closed and nothing else changes |
| `PanicLog.PanicFileLogWriter.SetFormat` | paniclog.go:207-210 | only the format changes, to the given one, and the same writer is returned |
| `PanicLog.PanicFileLogWriter.ProcessRecords` | paniclog.go:151-182 | the loop consumes the buffer as `Drain` prescribes and appends exactly the bytes written; once it has returned, the loop is stopped and the file closed; while it waits, both stay as they were |
| `PanicLog.NewPanicFileLogWriter` | paniclog.go:115-149 | the result is null exactly when the absolute path or the open fails; otherwise it is a fresh, valid writer with the defaults, the prepared rotation state, an open file and a running loop |

## Findings

| source | as written | input that shows it | evidently intended | confidence | as-written member | corrected member |
|---|---|---|---|---|---|---|
| paniclog.go:95 | `(t.Unix()/w.interval + 1) * w.interval` uses Go's `/`, which truncates toward zero | a file modified 30 s before 1970 under the minute policy (t = -30, interval 60): the deadline is 60, more than one interval after t, and the boundary 0 is skipped | the next multiple of the interval after t: floor division, giving 0 | low: pre-1970 modification times are rare; not executed | `Rotation.GoRolloverSkipsBoundary` | `Rotation.FirstRolloverIsSmallest` |

`Rotation.GoRolloverAt` is the formula as written, and `Prepare` stores it, as the code does.
`Rotation.FirstRolloverAt` is the corrected formula, the next interval boundary, and
`Rotation.FirstRolloverIsSmallest` proves it the smallest boundary after the reference time.
`Rotation.GoRolloverAgrees` says exactly where the two differ: only before 1970, off a boundary.
`Rotation.Prepared` states that the stored deadline is the corrected one from 1970 on.

## Left out

- Rotation.Upper: upper-cases ASCII letters only, while Go's `strings.ToUpper` maps all of Unicode. No character outside ASCII upper-cases to `M` or `H` under Go's simple case mapping, so the same policy row is chosen; only the stored `when` text can differ.
- PanicLog.PanicFileLogWriter.LogWrite: in blocking mode a full buffer suspends the sender until the writer loop makes room. That cannot be expressed sequentially, so a blocking call requires room. The send at `paniclog.go:51` panics in Go on a closed channel, so a call that reaches the send requires an open channel; a non-blocking call on a full buffer returns before the send and is allowed on a closed channel.
- PanicLog.WriterLoop: a failed write is modelled as writing nothing; a partial write before the error is not modelled. `Records.Drain` is stated the same way.
- Rotation.Prepared: times and the deadline are unbounded integers; the int64 overflow of `(t/interval + 1) * interval` near the largest int64 is not modelled.
- PanicLog.PanicFileLogWriter.IntRotate: the open file is a flag. The file's earlier contents, the `O_APPEND|O_CREATE` flags, the 0644 mode, and the `Dup2` of the descriptor onto standard output and standard error (gated by `LOGGER_MODE`) are process-wide OS effects and are left out.
- `regexp.MustCompile` is a foreign library. The three filters are hand-written anchored patterns (`Rotation.Pattern`), one position per `\d` or literal of the pattern texts at `paniclog.go:68`, `:72` and `:76`; the pattern text itself is not parsed.
- strftime is not part of the program's live code. `Rotation.Strftime` is a reference reading of the directives `%Y %m %d %H %M`, used only to check that each suffix agrees with its filter.
- `Close`, `WaitForEnd`, `LogCloserInit` and `EndNotify` come from `LogCloser`, which is not part of this model. Only `close(w.rec)` is modelled (`CloseChannel`), and `EndNotify` is a parameter.
- `FormatLogRecord` and the full `LogRecord` type are not part of this model. Rendering is a parameter, and the record keeps only an optional `Binary` beside a few opaque fields.
- The goroutine, `select` and the channel's synchronisation are concurrency. The loop is modelled as runs of `ProcessRecords` between producer calls; `Records.DrainResumes` shows that splitting the runs this way does not change the result.
- The error messages that `run` and the loop print to standard error are not modelled; only the failure itself is.
- Deadline advancement, renaming to suffixed backups and pruning to `backupCount` are not modelled, because the code does not implement them.
