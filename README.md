# zxylog in Dafny

A model of zxylog, a Go logging library. Each writer (`ZxyLog`) appends
levelled lines to a file under `<dir>/<YYYY-MM-DD>/`. It echoes them,
coloured, to the console. A monitor rotates to a fresh file when the day
of the year changes, when the file reaches 512 MiB, or when the file has
disappeared.
A small registry (`core/manager.go`) maps writer names to writers.

What the model covers:

- `format.dfy` (`Format`): the parts of `fmt` and `strings` that shape names
  and lines. These are `%d`, `%0Nd` and `strings.TrimRight(s, "\n")`, with a
  decimal round trip.
- `calendar.dfy` (`Calendar`): dates and Go's `YearDay`.
- `filesystem.dfy` (`FileSystem`): the disk as a map from path to
  (directory?, size). It models `os.Stat`, `os.MkdirAll` and `os.OpenFile`.
  A flag `osOk` stands for every failure of `os.OpenFile` that is not tracked.
  `os.MkdirAll` always succeeds.
- `log.dfy` (`Zxylog`):
  - the level filter;
  - the line text;
  - the short-file-name scan, the level-to-colour switch and `SprintColor`;
  - directory normalisation;
  - the rotation decision (`isMustRename`);
  - collision-free naming (`newLogFile`);
  - `rename` and `fileCheck`;
  - the constructor `NewZxyLog`.

  The writer is a class with the source's fields. A ghost history of handle
  opens and closes records that at most one handle is ever open.
- `manager.dfy` (`Core`): `LogManager` and the package-level `logManager`
  variable. The variable is never assigned, so every lookup goes to a brand-new
  empty manager. A registration is therefore never found again.

The model follows the code. Some of its behaviour is easy to miss:

- `rename` closes the old handle before opening the new one. A failed open
  leaves a nil handle, and writes are then dropped. There is no swap and no
  fallback to the last good handle.
- `getLogManager` creates a manager when the package-level variable is nil,
  but never stores it, so the registry is never shared.
- The console prefix is written as `@prefix`, without brackets.
- `isMustRename` recreates the base directory when no check fires.
- The date check compares only `YearDay()`, not the year. So 2023-03-01 and
  2024-02-29, both day 60, do not trigger a rotation.
- `int(bc) + 10` in `SprintColor` is Go `int` arithmetic. For a background
  within 10 of the largest `int` it wraps, and the escape carries a negative
  number. The model assumes a 64-bit `int`.
- The dated directory already ends in `/`, and `"%s/%s"` adds another. So
  file paths contain `//`. Paths are compared as strings, and the model does
  not normalise them.

## Model

| member | source | states |
|---|---|---|
| Format.FormatIntReadsBack | log.go:425 | `%0Nd` output is exactly N characters, or sign and digits when those are longer; it is digits after an optional '-'; for n >= 0 it reads back as n, for n < 0 as '-' followed by the digits of -n |
| Format.DigitsFit | log.go:425 | a number below 10^k is written with at most k digits |
| Format.FormatIntWidth | log.go:134 | `%0Nd` of a number below 10^N is exactly N characters, so the zero-padded fields have fixed width |
| Format.FormatIntParses | log.go:501 | reading back `%d` or `%0Nd` output gives the number, negative numbers included |
| Format.ValueOfDigits | log.go:436 | the `%d` digits of a rotation number read back as that number |
| Format.DigitsInjective | log.go:436 | two different rotation numbers are never written the same |
| Format.DigitsOutgrow | log.go:434-441 | a number at least 10^k is written with more than k digits, so the probe names keep growing |
| Format.TrimRightNewlines | log.go:162 | the result is a prefix of the input, does not end in '\n', and only '\n' characters were removed |
| Format.TrimRightNewlinesUnique | log.go:162 | those three properties determine the trimmed text uniquely |
| Format.TrimRightAfterPrefix | log.go:161-162 | trimming after a level prefix that does not end in '\n' trims only the message |
| Calendar.YearDayBounds | log.go:377 | the year-day of a valid date lies in 1..365 (1..366 in a leap year) |
| Calendar.SameYearDayWithinYear | log.go:377 | within one year, equal year-days mean the same month and day, and conversely |
| FileSystem.Stat | log.go:387-390 | `os.Stat` succeeds exactly for paths that exist and then reports their entry |
| FileSystem.MkdirAll | log.go:426 | creating a directory removes or changes nothing; it adds the path, as a directory when it was absent |
| FileSystem.OpenFile | log.go:417 | opening succeeds exactly when the OS allows it and the path is not a directory; nothing existing is changed; a newly created file is empty and regular |
| Zxylog.LineText | log.go:161-162 | the emitted text starts with `"<LEVEL> "`, never ends in '\n', is the prefixed message with exactly its trailing newlines removed |
| Zxylog.ShortFile | log.go:121-128 | the backward scan yields `ShortName(file)` |
| Zxylog.ShortNameAfterSlash | log.go:121-128 | with a last '/' at index i > 0, the short name is everything after it |
| Zxylog.ShortNameWithoutSlash | log.go:121-128 | with no '/' at an index above 0 (a leading '/' included), the short name is the whole path |
| Zxylog.ConsoleLook | log.go:139-152 | WARN is yellow, ERROR highlighted red, FATAL highlighted purple; every other level, and the background, default |
| Zxylog.SprintColor | log.go:496-502 | the text starts with the escape `ESC [` and ends with the reset `ESC [0m` |
| Zxylog.WrapInt | log.go:499 | the 64-bit wrap-around of a Go `int`: always in range, the identity on values in range, and minus 2^64 just above the range |
| Zxylog.FieldsReadBack | log.go:498-501 | the fields `style;bc+10;fc`, read by position, give back the style and the foreground, and the background after the wrap of `int(bc) + 10`; that is bc itself unless the sum overflows |
| Zxylog.EscapeReadsBack | log.go:501 | `ColorOf` of an escape whose parameters hold no 'm' is the positional reading of exactly those parameters |
| Zxylog.SprintColorFields | log.go:501 | `ColorOf` of the coloured text is the positional reading of the fields `SprintColor` wrote |
| Zxylog.SprintColorReadsBack | log.go:496-502 | `ColorOf`, reading the three fields by position, recovers (s, fc, bc) when `int(bc) + 10` does not overflow, and a background 2^64 lower when it does |
| Zxylog.StripEscape | log.go:501 | an escape whose codes hold a single 'm', at their end, can be stripped again to give the text it wraps |
| Zxylog.StripColorInverse | log.go:496-502 | removing the colour escape and the reset gives back exactly the coloured string |
| Zxylog.ConsoleStampWidth | log.go:134 | for a four-digit year and a valid date and time, the `[YYYY/MM/DD_HH:MM:SS.micro]` stamp is exactly 28 characters |
| Zxylog.ConsolePrefixShown | log.go:132-137 | the console line starts with the stamp; "@" follows it exactly when the prefix is non-empty, and then comes the prefix |
| Zxylog.NormalizeDir | log.go:71-74 | an empty directory panics (None); otherwise the result is the input minus one trailing '/' or '\' when there is one, and the input unchanged otherwise |
| Zxylog.LogPathShape | log.go:429-436 | every candidate name is the stem, then '.' for the base name or '_' and the digits of n, and it always ends in ".log" |
| Zxylog.LogPathInjective | log.go:429-436 | different rotation numbers give different file names |
| Zxylog.IsFileExist | log.go:447-457 | true exactly when something exists at the path and it is not a directory |
| Zxylog.MkdirAllKeepsRegularFiles | log.go:426 | creating a directory neither creates nor hides a regular file |
| Zxylog.FirstFreeIgnoresMkdir | log.go:426-437 | the first free candidate is the same before and after the dated directory is created |
| Zxylog.FirstFreeUnique | log.go:429-443 | at most one candidate number is the first free one |
| Zxylog.NextRotationProbesFurther | log.go:429-443 | after candidate n is created, the next rotation with the same stem picks a later number, and exactly n + 1 when that one is free |
| Zxylog.Probe | log.go:429-443 | the probe loop returns candidate n, which is not an existing regular file while every earlier candidate is |
| Zxylog.ProbeBelowBound | log.go:434-441 | a candidate that exists is shorter than every bound on path lengths, so its number stays below 10^bound |
| Zxylog.FirstFreeOpens | log.go:82-87 | opening the first free candidate fails exactly when the OS refuses or a directory occupies a free candidate's name; a failed open changes nothing beyond the dated directory |
| Zxylog.LongerThanEveryPath | log.go:434-441 | some length exceeds every existing path, which bounds the probe loop |
| Zxylog.DateChangedWithinYear | log.go:376-382 | within one year, the date check fires exactly when month or day differ |
| Zxylog.DateChangedMissesOtherYear | log.go:376-382 | across years it can stay silent: 2023-03-01 and 2024-02-29 share a year-day |
| Zxylog.AppendEvent | log.go:413-417 | one more open or close changes the open-handle count by its effect, and keeps the at-most-one discipline exactly when the new count is 0 or 1 |
| Zxylog.SwapKeepsOneOpen | log.go:413-417 | close-then-open never holds two handles; afterwards exactly the new handle is open, or none if the open failed |
| Zxylog.OpenBeforeCloseOverlaps | log.go:413-417 | opening the new file before closing the old one would hold two handles at once |
| Zxylog.ZxyLog.constructor | log.go:77 | the struct literal: given directory, name and time, console on, empty prefix, level ALL, no handle |
| Zxylog.ZxyLog.SetConsole | log.go:103-105 | sets the console switch and nothing else |
| Zxylog.ZxyLog.SetConsolePrefix | log.go:108-110 | sets the console prefix and nothing else |
| Zxylog.ZxyLog.SetLevel | log.go:113-115 | sets the level and nothing else |
| Zxylog.ZxyLog.Console | log.go:118-155 | prints only when the console is on; the line is the stamped, prefixed, located text coloured by level; reading its escape by position gives exactly the level's look, which for these constant codes is also what a terminal shows, and stripping the colour gives the text back |
| Zxylog.ZxyLog.Emit | log.go:157-350 | a call at level L emits exactly when `logLevel <= L` (never when the level is above FATAL); its text is the trimmed `"<LEVEL> "` line; it reaches the file only when a handle is open and the console exactly when the console is on |
| Zxylog.ZxyLog.IsMustRename | log.go:353-406 | true exactly when the year-day changed, or the file exists with size at least 512 MiB, or no regular file is at the path; only a false answer recreates the base directory |
| Zxylog.ZxyLog.NewLogFile | log.go:423-444 | the dated directory is created, and the result is the first candidate (`.log`, `_1.log`, ...) that is not an existing regular file |
| Zxylog.ZxyLog.Rename | log.go:409-420 | the new timestamp is now; the new path is the first free candidate under the new date and was not an existing file; no existing file is changed; the old handle is closed before the new one is opened; the writer stays consistent |
| Zxylog.ZxyLog.Reopen | log.go:413-419 | closes the current handle, opens the new path, records it, and keeps at most one handle open |
| Zxylog.ZxyLog.FileCheck | log.go:478-486 | without a reason to rotate, nothing changes except that the base directory is recreated. Otherwise it rotates as `Rename` does: the same new path, disk, handle outcome and close-then-open history, with only the rotation fields changed. A rotation whose open succeeded leaves nothing to rotate again at the same instant |
| Zxylog.NewZxyLog | log.go:68-100 | an empty directory panics (null). Otherwise the result is null exactly when the open fails: an OS failure, or a directory at the first free candidate's name. The writer has the normalised directory and the defaults. Its file is the first free candidate, created and open. The new disk is the dated directory plus that file, or the dated directory alone after a failed open |
| Core.LogManager.constructor | core/manager.go:18 | a new manager has an empty map |
| Core.Package.constructor | core/manager.go:3 | the package-level manager variable starts nil |
| Core.GetLogManager | core/manager.go:16-22 | with the global nil, a fresh empty manager; otherwise the global |
| Core.NewLogManager | core/manager.go:11-13 | exactly what `getLogManager` returns |
| Core.LogManager.GetLogger | core/manager.go:25-27 | with the global nil, always nil; otherwise the entry under the name, or nil when there is none |
| Core.LogManager.SetLogger | core/manager.go:30-32 | with the global set, stores the writer under its file name, overwriting that key only; with the global nil, nothing reachable changes |
| Core.ManagersNeverShared | core/manager.go:3-22 | with the global nil, two requests for the manager give two different empty managers |
| Core.RegistrationIsLost | core/manager.go:25-32 | with the global nil, a writer set under its name is not found under that name |
| Core.RegistrationWithGlobal | core/manager.go:25-32 | were the global set, the same writer would be found again |

## Left out

- Locks and the monitor goroutine are not modelled. This covers `sync.RWMutex`, the read locks around writes, the exclusive lock in `fileCheck`, and `fileMonitor`'s 10-second ticker. They are concurrency, so each operation is modelled as one atomic step.
- The fifteen emission methods (`Debug`, `Debugf`, `Debugln`, …, `Fatalln`) are one `Emit` with the level and the rendered argument as parameters. The methods differ only in those two.
- `fmt.Sprintln` and `fmt.Sprintf` rendering of arbitrary values is not modelled. The rendered message is an input string.
- `log.Logger.Output`, `log.New`, `log.SetFlags` and `log.Println` live in Go's standard library, whose line layout is not part of this model. `Emit` says what text is handed to them, and whether a file handle is there to receive it.
- The `logger` field is not kept separately. It is always `log.New(logFile, ...)`, so the open handle stands for it.
- `runtime.Caller` is not modelled. The caller's file and line are parameters.
- `time.Now` is not modelled. Every "now" is a parameter.
- File sizes do not grow with writes. The disk is a parameter, so growth is whatever the caller passes in.
- `os.MkdirAll` does not track parent directories. Paths are not normalised (for example `//` and `/` are not identified).
- Go's `int` (levels, styles, colours, line numbers, the probe counter `n`) is unbounded here. The one exception is `int(bc) + 10` at log.go:499, which wraps as on a 64-bit platform. The probe counter could only wrap after 2^63 existing candidate files.
- Failures of `os.OpenFile` other than "the path is a directory" are one flag, `osOk`. Close errors are ignored, as in the code.
- FileSystem.MkdirAll: always succeeds. The code ignores its error, and a failure (for example a permission error) would leave the directory absent; `Rename`, `FileCheck`, `NewZxyLog` and `IsMustRename` therefore always add the directory.
- `catchError`'s `recover` is panic recovery and has no counterpart. A panic is modelled as None or null.
- `fileCheck`'s nil-receiver guard is not modelled. The model's `FileCheck` is a method of an existing writer.
- The registration at the end of `NewZxyLog` (log.go:98) is not modelled inside `NewZxyLog`. With the global nil it stores into a manager that nothing else reaches, which `Core.RegistrationIsLost` shows.
- `SetLogger(nil)` is not modelled. In Go it panics on the nil dereference; here the writer parameter is non-null.
- Zxylog.ZxyLog.Emit: modelled for the five levels the emission methods use, DEBUG to FATAL.
