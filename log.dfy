/**
 * The rotating-file logger of log.go: severity filter, line text, console
 * colouring, the rotation decision, collision-free file naming and the
 * rotation itself. Locks, the monitor goroutine, the clock and the OS are
 * left outside: "now" and the disk are parameters.
 */
module Zxylog {

  import opened Wrappers
  import opened Format
  import opened Calendar
  import opened FileSystem

  // ---------------------------------------------------------------------
  // Constants

  /** `LEVEL` is a plain Go int: any value can be configured. */
  type Level = int

  const All: Level := 0
  const Debug: Level := 1
  const Info: Level := 2
  const Warn: Level := 3
  const Error: Level := 4
  const Fatal: Level := 5

  type Color = int

  const ColorBlack: Color := 30
  const ColorRed: Color := 31
  const ColorGreen: Color := 32
  const ColorYellow: Color := 33
  const ColorBlue: Color := 34
  const ColorPurple: Color := 35
  const ColorCyan: Color := 36
  const ColorWhite: Color := 37
  const ColorDefault: Color := 39

  type Style = int

  const StyleDefault: Style := 0
  const StyleHighlight: Style := 1
  const StyleUnderline: Style := 4
  const StyleBlink: Style := 5
  const StyleInverse: Style := 7
  const StyleInvisible: Style := 8

  /** Size at which the current file is rotated: 512 MiB. */
  const LogMaxSize: int := 512 * 1024 * 1024

  // ---------------------------------------------------------------------
  // Line text

  /** The word each emission method puts in front of its message. */
  function LevelName(ll: Level): string
    requires Debug <= ll <= Fatal
  {
    if ll == Debug then "DEBUG"
    else if ll == Info then "INFO"
    else if ll == Warn then "WARN"
    else if ll == Error then "ERROR"
    else "FATAL"
  }

  /**
   * The text an emission method hands to the file logger and the console:
   * `"<LEVEL> " + rendered` with every trailing newline trimmed.
   */
  function LineText(ll: Level, rendered: string): (r: string)
    requires Debug <= ll <= Fatal
    ensures |LevelName(ll) + " "| <= |r| && r[..|LevelName(ll) + " "|] == LevelName(ll) + " "
    ensures r[|r| - 1] != '\n'
    ensures var full := LevelName(ll) + " " + rendered;
            |r| <= |full| && r == full[..|r|] && forall i :: |r| <= i < |full| ==> full[i] == '\n'
    ensures r == LevelName(ll) + " " + TrimRightNewlines(rendered)
  {
    TrimRightAfterPrefix(LevelName(ll) + " ", rendered);
    TrimRightNewlines(LevelName(ll) + " " + rendered)
  }

  // ---------------------------------------------------------------------
  // Console helpers

  /**
   * The file name the console shows: what follows the last '/' found at an
   * index above 0. The index-0 character is never inspected, so a path whose
   * only slash leads it is shown whole.
   */
  function ShortName(file: string): string
    decreases |file|
  {
    if |file| <= 1 then file
    else if file[|file| - 1] == '/' then []
    else ShortName(file[..|file| - 1]) + [file[|file| - 1]]
  }

  /** With no '/' past index 0, the short name is the whole path. */
  lemma {:induction false} ShortNameWithoutSlash(file: string)
    requires forall j :: 0 < j < |file| ==> file[j] != '/'
    ensures ShortName(file) == file
    decreases |file|
  {
    if |file| > 1 {
      ShortNameWithoutSlash(file[..|file| - 1]);
      assert file[..|file| - 1] + [file[|file| - 1]] == file;
    }
  }

  /** With a last '/' at index i > 0, the short name is everything after it. */
  lemma {:induction false} ShortNameAfterSlash(file: string, i: int)
    requires 0 < i < |file| && file[i] == '/'
    requires forall j :: i < j < |file| ==> file[j] != '/'
    ensures ShortName(file) == file[i + 1..]
    decreases |file|
  {
    if i < |file| - 1 {
      var init := file[..|file| - 1];
      ShortNameAfterSlash(init, i);
      assert init[i + 1..] + [file[|file| - 1]] == file[i + 1..];
    }
  }

  /** The backward scan of `console`, from the last index down to 1. */
  method ShortFile(file: string) returns (short: string)
    ensures short == ShortName(file)
  {
    short := file;
    var i := |file| - 1;
    while i > 0
      invariant -1 <= i < |file|
      invariant forall j :: i < j < |file| ==> file[j] != '/'
      invariant short == file
    {
      if file[i] == '/' {
        short := file[i + 1..];
        ShortNameAfterSlash(file, i);
        return;
      }
      i := i - 1;
    }
    ShortNameWithoutSlash(file);
  }

  /** Style and colours of a console line. */
  datatype Look = Look(style: Style, fc: Color, bc: Color)

  /** The `switch ll` of `console`. */
  function ConsoleLook(ll: Level): (r: Look)
    ensures r.bc == ColorDefault
    ensures r.style == StyleHighlight <==> ll == Error || ll == Fatal
    ensures r.style != StyleHighlight ==> r.style == StyleDefault
    ensures r.fc == ColorDefault <==> !(Warn <= ll <= Fatal)
    ensures ll == Warn ==> r.fc == ColorYellow
    ensures ll == Error ==> r.fc == ColorRed
    ensures ll == Fatal ==> r.fc == ColorPurple
  {
    if ll == Debug then Look(StyleDefault, ColorDefault, ColorDefault)
    else if ll == Info then Look(StyleDefault, ColorDefault, ColorDefault)
    else if ll == Warn then Look(StyleDefault, ColorYellow, ColorDefault)
    else if ll == Error then Look(StyleHighlight, ColorRed, ColorDefault)
    else if ll == Fatal then Look(StyleHighlight, ColorPurple, ColorDefault)
    else Look(StyleDefault, ColorDefault, ColorDefault)
  }

  const Esc: char := 27 as char

  /** Go's `int` on a 64-bit platform. */
  const MinInt: int := -0x8000_0000_0000_0000
  const MaxInt: int := 0x7fff_ffff_ffff_ffff
  const IntRange: int := 0x1_0000_0000_0000_0000

  /** Two's-complement wrap-around of a Go `int` addition. */
  function WrapInt(x: int): (r: int)
    ensures MinInt <= r <= MaxInt
    ensures MinInt <= x <= MaxInt ==> r == x
    ensures MaxInt < x <= MaxInt + IntRange ==> r == x - IntRange
  {
    (x - MinInt) % IntRange + MinInt
  }

  /**
   * The parameters of a colour escape: style ';' background+10 ';' foreground,
   * where `int(bc) + 10` wraps around as Go's `int` does.
   */
  function ColorFields(s: Style, fc: Color, bc: Color): string
  {
    FormatInt(s, 0) + ";" + FormatInt(WrapInt(bc + 10), 0) + ";" + FormatInt(fc, 0)
  }

  /** The parameters and the 'm' that ends them. */
  function ColorCodes(s: Style, fc: Color, bc: Color): string
  {
    ColorFields(s, fc, bc) + "m"
  }

  /** `SprintColor`: `str` wrapped in the ANSI escape ESC '[' codes and the reset ESC "[0m". */
  function SprintColor(str: string, s: Style, fc: Color, bc: Color): (r: string)
    ensures |r| >= 4 && r[|r| - 4..] == [Esc, '[', '0', 'm']
    ensures r[..2] == [Esc, '[']
  {
    [Esc, '['] + ColorCodes(s, fc, bc) + str + [Esc, '[', '0', 'm']
  }

  /** Reads "style;background;foreground" back as a look, the background less its offset of 10. */
  function ParseFields(fields: string): Option<Look>
  {
    match SplitFirst(fields, ';')
    case None => None
    case Some(p) =>
      match SplitFirst(p.1, ';')
      case None => None
      case Some(q) =>
        match (ReadInt(p.0), ReadInt(q.0), ReadInt(q.1))
        case (Some(style), Some(bc10), Some(fc)) => Some(Look(style, fc, bc10 - 10))
        case _ => None
  }

  /**
   * The three ';'-separated fields before the first 'm' of an escape at the
   * start of `r`, read by position as style, background+10 and foreground.
   */
  function ColorOf(r: string): Option<Look>
  {
    if |r| < 2 || r[..2] != [Esc, '['] then None
    else match SplitFirst(r[2..], 'm')
      case None => None
      case Some(p) => ParseFields(p.0)
  }

  /**
   * The fields read back by position as the style and colours they were
   * written from; a background within 10 of Go's largest `int` comes back wrapped.
   */
  lemma FieldsReadBack(s: Style, fc: Color, bc: Color)
    ensures ParseFields(ColorFields(s, fc, bc)) == Some(Look(s, fc, WrapInt(bc + 10) - 10))
    ensures MinInt - 10 <= bc <= MaxInt - 10 ==> ParseFields(ColorFields(s, fc, bc)) == Some(Look(s, fc, bc))
  {
    var b10 := WrapInt(bc + 10);
    var a, b, c := FormatInt(s, 0), FormatInt(b10, 0), FormatInt(fc, 0);
    NotInNumber(s, 0, ';');
    NotInNumber(b10, 0, ';');
    FormatIntParses(s, 0);
    FormatIntParses(b10, 0);
    FormatIntParses(fc, 0);
    assert ColorFields(s, fc, bc) == a + [';'] + (b + ";" + c);
    SplitFirstAt(a, ';', b + ";" + c);
    assert b + ";" + c == b + [';'] + c;
    SplitFirstAt(b, ';', c);
  }

  /** An escape whose parameters hold no 'm' is read back through its parameters. */
  lemma EscapeReadsBack(fields: string, str: string)
    requires 'm' !in fields
    ensures ColorOf([Esc, '['] + fields + "m" + str + [Esc, '[', '0', 'm']) == ParseFields(fields)
  {
    var rest := str + [Esc, '[', '0', 'm'];
    var r := [Esc, '['] + fields + "m" + str + [Esc, '[', '0', 'm'];
    assert r[..2] == [Esc, '['];
    assert r[2..] == fields + ['m'] + rest;
    SplitFirstAt(fields, 'm', rest);
  }

  /** The escape `SprintColor` writes is read through its fields. */
  lemma SprintColorFields(str: string, s: Style, fc: Color, bc: Color)
    ensures ColorOf(SprintColor(str, s, fc, bc)) == ParseFields(ColorFields(s, fc, bc))
  {
    var fields, codes := ColorFields(s, fc, bc), ColorCodes(s, fc, bc);
    ColorCodesEndInM(s, fc, bc);
    assert codes[..|codes| - 1] == fields;
    assert SprintColor(str, s, fc, bc) == [Esc, '['] + fields + "m" + str + [Esc, '[', '0', 'm'];
    EscapeReadsBack(fields, str);
  }

  /**
   * Reading the escape `SprintColor` writes by position recovers the requested
   * style and colours, unless `int(bc) + 10` overflows and wraps to a negative number.
   */
  lemma SprintColorReadsBack(str: string, s: Style, fc: Color, bc: Color)
    ensures MinInt - 10 <= bc <= MaxInt - 10 ==> ColorOf(SprintColor(str, s, fc, bc)) == Some(Look(s, fc, bc))
    ensures MaxInt - 10 < bc <= MaxInt ==>
              ColorOf(SprintColor(str, s, fc, bc)) == Some(Look(s, fc, bc - IntRange))
  {
    SprintColorFields(str, s, fc, bc);
    FieldsReadBack(s, fc, bc);
    var look := Look(s, fc, WrapInt(bc + 10) - 10);
    assert ColorOf(SprintColor(str, s, fc, bc)) == Some(look);
  }

  /** Everything after the first 'm' of a string (empty when there is none). */
  function AfterFirstM(r: string): string
    decreases |r|
  {
    if r == [] then [] else if r[0] == 'm' then r[1..] else AfterFirstM(r[1..])
  }

  /** Removes a colour escape and the trailing reset: the inverse of `SprintColor`. */
  function StripColor(r: string): string
  {
    var body := AfterFirstM(r);
    if |body| >= 4 then body[..|body| - 4] else []
  }

  lemma {:induction false} AfterFirstMSkips(h: string, rest: string)
    requires 'm' !in h
    ensures AfterFirstM(h + "m" + rest) == rest
    decreases |h|
  {
    if h == [] {
      assert h + "m" + rest == "m" + rest;
    } else {
      assert (h + "m" + rest)[1..] == h[1..] + "m" + rest;
      AfterFirstMSkips(h[1..], rest);
    }
  }

  /** The colour codes contain a single 'm', their last character. */
  lemma ColorCodesEndInM(s: Style, fc: Color, bc: Color)
    ensures var codes := ColorCodes(s, fc, bc);
            codes != [] && codes[|codes| - 1] == 'm' && 'm' !in codes[..|codes| - 1]
  {
    NotInNumber(s, 0, 'm');
    NotInNumber(bc + 10, 0, 'm');
    NotInNumber(fc, 0, 'm');
    assert ColorCodes(s, fc, bc)[..|ColorCodes(s, fc, bc)| - 1] == ColorFields(s, fc, bc);
  }

  /** Stripping undoes any escape whose codes end in their only 'm'. */
  lemma StripEscape(codes: string, str: string)
    requires codes != [] && codes[|codes| - 1] == 'm' && 'm' !in codes[..|codes| - 1]
    ensures StripColor([Esc, '['] + codes + str + [Esc, '[', '0', 'm']) == str
  {
    var h := codes[..|codes| - 1];
    var rest := str + [Esc, '[', '0', 'm'];
    var r := [Esc, '['] + codes + str + [Esc, '[', '0', 'm'];
    AfterFirstMSkips(h, rest);
    assert r == [Esc, '['] + (h + "m" + rest);
    assert r[0] == Esc && r[1..] == ['['] + (h + "m" + rest);
    assert AfterFirstM(r) == AfterFirstM(['['] + (h + "m" + rest));
    assert (['['] + (h + "m" + rest))[1..] == h + "m" + rest;
    assert rest[..|rest| - 4] == str;
  }

  /** The colour escape adds no 'm' before its final one, so the coloured text can be recovered. */
  lemma StripColorInverse(str: string, s: Style, fc: Color, bc: Color)
    ensures StripColor(SprintColor(str, s, fc, bc)) == str
  {
    ColorCodesEndInM(s, fc, bc);
    StripEscape(ColorCodes(s, fc, bc), str);
  }

  /** `[YYYY/MM/DD_HH:MM:SS.micro]` of a console line; Go's nanosecond is never negative. */
  function ConsoleStamp(now: Time): string
  {
    "[" + FormatInt(now.year, 4) + "/" + FormatInt(now.month, 2) + "/" + FormatInt(now.day, 2)
    + "_" + FormatInt(now.hour, 2) + ":" + FormatInt(now.minute, 2) + ":" + FormatInt(now.second, 2)
    + "." + FormatInt(now.nanosecond / 1000, 6) + "]"
  }

  /** The " @prefix" segment, present only for a non-empty prefix. */
  function PrefixMark(prefix: string): string
  {
    if |prefix| > 0 then " @" + prefix else ""
  }

  /** ` #file:line args`, the caller's location and the message. */
  function Located(file: string, line: int, args: string): string
  {
    " #" + file + ":" + FormatInt(line, 0) + " " + args
  }

  /** The uncoloured console line: the stamp, the prefix mark, the location and the message. */
  function ConsoleContext(prefix: string, file: string, line: int, args: string, now: Time): string
  {
    ConsoleStamp(now) + PrefixMark(prefix) + Located(file, line, args)
  }

  /** A time of day Go can report: hours, minutes, seconds and nanoseconds in range. */
  predicate ValidClock(now: Time)
  {
    0 <= now.hour < 24 && 0 <= now.minute < 60 && 0 <= now.second < 60
    && 0 <= now.nanosecond < 1000000000
  }

  /** For a four-digit year and a valid date and time, the stamp has a fixed width of 28. */
  lemma ConsoleStampWidth(now: Time)
    requires 0 <= now.year < 10000 && ValidDate(now) && ValidClock(now)
    ensures |ConsoleStamp(now)| == 28
  {
    assert Pow10(2) == 100;
    assert Pow10(4) == 10000;
    assert Pow10(6) == 1000000 by {
      assert Pow10(5) == 100000;
    }
    FormatIntWidth(now.year, 4);
    FormatIntWidth(now.month, 2);
    FormatIntWidth(now.day, 2);
    FormatIntWidth(now.hour, 2);
    FormatIntWidth(now.minute, 2);
    FormatIntWidth(now.second, 2);
    FormatIntWidth(now.nanosecond / 1000, 6);
  }

  /**
   * After the stamp comes " @" and the prefix when there is one, and " #"
   * directly when the prefix is empty.
   */
  lemma ConsolePrefixShown(prefix: string, file: string, line: int, args: string, now: Time)
    ensures var c, k := ConsoleContext(prefix, file, line, args, now), |ConsoleStamp(now)|;
            && |c| >= k + 2 && c[..k] == ConsoleStamp(now) && c[k] == ' '
            && (c[k + 1] == '@' <==> prefix != [])
            && (prefix != [] ==> |c| >= k + 2 + |prefix| && c[k + 2..k + 2 + |prefix|] == prefix)
  {
    MarkFollows(ConsoleStamp(now), prefix, Located(file, line, args));
  }

  lemma MarkFollows(stamp: string, prefix: string, tail: string)
    requires |tail| >= 2 && tail[0] == ' ' && tail[1] == '#'
    ensures var c, k := stamp + PrefixMark(prefix) + tail, |stamp|;
            && |c| >= k + 2 && c[..k] == stamp && c[k] == ' '
            && (c[k + 1] == '@' <==> prefix != [])
            && (prefix != [] ==> |c| >= k + 2 + |prefix| && c[k + 2..k + 2 + |prefix|] == prefix)
  {
    var c := stamp + PrefixMark(prefix) + tail;
    if prefix != [] {
      assert c == stamp + (" @" + prefix + tail);
    } else {
      assert c == stamp + tail;
    }
  }

  // ---------------------------------------------------------------------
  // Paths

  predicate IsSeparator(c: char)
  {
    c == '/' || c == '\\'
  }

  /**
   * The directory fix-up of `NewZxyLog`: one trailing '/' or '\' is dropped.
   * An empty argument makes Go's index expression panic (None).
   */
  function NormalizeDir(fileDir: string): (r: Option<string>)
    ensures r.None? <==> fileDir == []
    ensures r.Some? ==> |r.value| <= |fileDir| && r.value == fileDir[..|r.value|]
    ensures r.Some? ==> |fileDir| - |r.value| == (if IsSeparator(fileDir[|fileDir| - 1]) then 1 else 0)
  {
    if fileDir == [] then None
    else if IsSeparator(fileDir[|fileDir| - 1]) then Some(fileDir[..|fileDir| - 1])
    else Some(fileDir)
  }

  /** `%04d-%02d-%02d` of a date. */
  function DateDir(t: Time): string
  {
    FormatInt(t.year, 4) + "-" + FormatInt(t.month, 2) + "-" + FormatInt(t.day, 2)
  }

  /** The directory `newLogFile` creates: `<logDir>/<YYYY-MM-DD>/`. */
  function DatedDir(logDir: string, t: Time): string
  {
    logDir + "/" + DateDir(t) + "/"
  }

  /** `"%s/%s"` applied to the dated directory, which already ends in '/': the slash is doubled. */
  function Stem(logDir: string, t: Time, name: string): string
  {
    DatedDir(logDir, t) + "/" + name
  }

  /** The n-th candidate file name: `<stem>.log` for n = 0, `<stem>_<n>.log` after. */
  function LogPath(stem: string, n: nat): string
  {
    if n == 0 then stem + ".log" else stem + "_" + Digits(n) + ".log"
  }

  /** Candidate names: the stem, '.' or '_' and the digits of n, and always the ".log" ending. */
  lemma LogPathShape(stem: string, n: nat)
    ensures |LogPath(stem, n)| >= |stem| + 4
    ensures LogPath(stem, n)[|LogPath(stem, n)| - 4..] == ".log"
    ensures LogPath(stem, n)[..|stem|] == stem
    ensures LogPath(stem, n)[|stem|] == (if n == 0 then '.' else '_')
    ensures n > 0 ==> LogPath(stem, n)[|stem| + 1..|LogPath(stem, n)| - 4] == Digits(n)
  {
  }

  /** `path` is candidate n for the writer's directory, date and base name. */
  ghost predicate IsCandidate(path: string, logDir: string, t: Time, name: string, n: nat)
  {
    path == LogPath(Stem(logDir, t, name), n)
  }

  /** Distinct candidates have distinct names, so probing never revisits a name. */
  lemma LogPathInjective(stem: string, n: nat, m: nat)
    requires LogPath(stem, n) == LogPath(stem, m)
    ensures n == m
  {
    LogPathShape(stem, n);
    LogPathShape(stem, m);
    if n > 0 {
      DigitsInjective(n, m);
    }
  }

  /** `isFileExist`: something exists at `path` and it is not a directory. */
  function IsFileExist(disk: Disk, path: string): (r: bool)
    ensures r <==> path in disk && !disk[path].isDir
  {
    match Stat(disk, path)
    case None => false
    case Some(info) => !info.isDir
  }

  /** Creating a directory never makes or hides a regular file. */
  lemma MkdirAllKeepsRegularFiles(disk: Disk, dir: string)
    ensures forall p :: IsFileExist(MkdirAll(disk, dir), p) == IsFileExist(disk, p)
  {
  }

  /**
   * `n` is the candidate `newLogFile` settles on: candidate n is not an existing
   * regular file and every earlier candidate is.
   */
  ghost predicate IsFirstFree(disk: Disk, stem: string, n: nat)
  {
    && !IsFileExist(disk, LogPath(stem, n))
    && forall k :: 0 <= k < n ==> IsFileExist(disk, LogPath(stem, k))
  }

  /** So the candidate `newLogFile` settles on is the same before and after it creates the dated directory. */
  lemma FirstFreeIgnoresMkdir(disk: Disk, dir: string, stem: string, n: nat)
    ensures IsFirstFree(MkdirAll(disk, dir), stem, n) <==> IsFirstFree(disk, stem, n)
  {
    MkdirAllKeepsRegularFiles(disk, dir);
  }

  lemma FirstFreeUnique(disk: Disk, stem: string, n: nat, m: nat)
    requires IsFirstFree(disk, stem, n) && IsFirstFree(disk, stem, m)
    ensures n == m
  {
  }

  /**
   * After a rotation has created candidate n, the next rotation (same stem)
   * picks a later candidate, and exactly n + 1 when that one is free:
   * `.log`, then `_1.log`, then `_2.log`, without gaps and without reuse.
   */
  lemma NextRotationProbesFurther(disk: Disk, stem: string, n: nat, m: nat)
    requires IsFirstFree(disk, stem, n)
    requires OpenFile(disk, LogPath(stem, n), true).ok
    requires IsFirstFree(OpenFile(disk, LogPath(stem, n), true).disk, stem, m)
    ensures m > n
    ensures !IsFileExist(disk, LogPath(stem, n + 1)) ==> m == n + 1
  {
    var after := OpenFile(disk, LogPath(stem, n), true).disk;
    assert IsFileExist(after, LogPath(stem, n));
    if !IsFileExist(disk, LogPath(stem, n + 1)) {
      if LogPath(stem, n + 1) == LogPath(stem, n) {
        LogPathInjective(stem, n + 1, n);
      }
      assert IsFirstFree(after, stem, n + 1);
      FirstFreeUnique(after, stem, n + 1, m);
    }
  }

  /** Some length exceeds every path of a finite set: the probing loop must stop. */
  lemma LongerThanEveryPath(paths: set<string>) returns (bound: nat)
    ensures forall p :: p in paths ==> |p| < bound
  {
    if paths == {} {
      bound := 0;
    } else {
      var p :| p in paths;
      var rest := LongerThanEveryPath(paths - {p});
      bound := if rest > |p| then rest else |p| + 1;
    }
  }

  /**
   * A candidate that exists on the disk is shorter than the bound, so its
   * number is below 10^bound: the probe loop cannot pass that number.
   */
  lemma ProbeBelowBound(disk: Disk, stem: string, k: nat, bound: nat)
    requires IsFileExist(disk, LogPath(stem, k))
    requires forall p :: p in disk.Keys ==> |p| < bound
    ensures k < Pow10(bound)
  {
    LogPathShape(stem, k);
    assert |LogPath(stem, k)| < bound;
    if Pow10(bound) <= k {
      DigitsOutgrow(k, bound);
    }
  }

  /**
   * The probing loop of `newLogFile`: `<stem>.log`, then `<stem>_1.log`,
   * `<stem>_2.log`, ... until one is not an existing regular file.
   */
  method Probe(disk: Disk, stem: string) returns (fn: string, n: nat)
    ensures fn == LogPath(stem, n)
    ensures IsFirstFree(disk, stem, n)
  {
    fn := LogPath(stem, 0);
    n := 0;
    if !IsFileExist(disk, fn) {
      return;
    }
    ghost var bound := LongerThanEveryPath(disk.Keys);
    var k := 1;
    while true
      invariant 1 <= k <= Pow10(bound)
      invariant forall j :: 0 <= j < k ==> IsFileExist(disk, LogPath(stem, j))
      decreases Pow10(bound) - k
    {
      fn := LogPath(stem, k);
      if !IsFileExist(disk, fn) {
        n := k;
        return;
      }
      ProbeBelowBound(disk, stem, k, bound);
      k := k + 1;
    }
  }

  // ---------------------------------------------------------------------
  // Rotation decision

  /** `checkFileDate`: only the year-day is compared, never the year. */
  predicate DateChanged(now: Time, stamp: Time)
  {
    YearDay(now) != YearDay(stamp)
  }

  /** Within one year the date check fires exactly when the calendar day differs. */
  lemma DateChangedWithinYear(now: Time, stamp: Time)
    requires ValidDate(now) && ValidDate(stamp) && now.year == stamp.year
    ensures DateChanged(now, stamp) <==> now.month != stamp.month || now.day != stamp.day
  {
    SameYearDayWithinYear(now, stamp);
  }

  /** Across years it can miss: 2024-02-29 has the year-day of 2023-03-01. */
  lemma DateChangedMissesOtherYear()
    ensures var stamp := Time(2023, 3, 1, 0, 0, 0, 0);
            var now := Time(2024, 2, 29, 0, 0, 0, 0);
            ValidDate(stamp) && ValidDate(now) && !DateChanged(now, stamp)
  {
  }

  /** `checkFileSize`: a failed `os.Stat` counts as "not too big". */
  predicate TooBig(disk: Disk, path: string)
  {
    match Stat(disk, path)
    case None => false
    case Some(info) => info.size >= LogMaxSize
  }

  // ---------------------------------------------------------------------
  // Open handles

  /** What happened to the writer's file handles: a successful or failed open, or a close. */
  datatype HandleEvent = Open(path: string, ok: bool) | Close(path: string)

  function Delta(e: HandleEvent): int
  {
    match e
    case Open(_, ok) => if ok then 1 else 0
    case Close(_) => -1
  }

  /** The number of handles open after a history of events. */
  function OpenHandles(events: seq<HandleEvent>): int
    decreases |events|
  {
    if events == [] then 0 else OpenHandles(events[..|events| - 1]) + Delta(events[|events| - 1])
  }

  /** At no point of the history were two handles open at once: every prefix has 0 or 1 open. */
  predicate AtMostOneOpen(events: seq<HandleEvent>)
    decreases |events|
  {
    && 0 <= OpenHandles(events) <= 1
    && (events == [] || AtMostOneOpen(events[..|events| - 1]))
  }

  lemma AppendEvent(events: seq<HandleEvent>, e: HandleEvent)
    ensures OpenHandles(events + [e]) == OpenHandles(events) + Delta(e)
    ensures AtMostOneOpen(events + [e]) <==> AtMostOneOpen(events) && 0 <= OpenHandles(events) + Delta(e) <= 1
  {
    assert (events + [e])[..|events|] == events;
  }

  /**
   * The history after a rotation: the current handle, if any, is closed, then
   * the new file is opened (successfully or not).
   */
  function Swapped(events: seq<HandleEvent>, current: Option<string>, next: string, ok: bool): seq<HandleEvent>
  {
    events + (if current.Some? then [Close(current.value)] else []) + [Open(next, ok)]
  }

  /**
   * The handle discipline of a writer whose handle is `current`: never two
   * handles open at once, and exactly one open now when `current` is set.
   */
  ghost predicate OneHandle(events: seq<HandleEvent>, current: Option<string>)
  {
    AtMostOneOpen(events) && OpenHandles(events) == (if current.Some? then 1 else 0)
  }

  /** Closing before opening keeps the discipline, with the new file as the handle when the open succeeded. */
  lemma {:induction false} SwapKeepsOneOpen(events: seq<HandleEvent>, current: Option<string>, next: string, ok: bool)
    requires OneHandle(events, current)
    ensures OneHandle(Swapped(events, current, next, ok), if ok then Some(next) else None)
  {
    var closed := events + (if current.Some? then [Close(current.value)] else []);
    if current.Some? {
      AppendEvent(events, Close(current.value));
    } else {
      assert closed == events;
    }
    AppendEvent(closed, Open(next, ok));
  }

  /** Opening the new file before closing the old one, as a swap would, holds two handles. */
  lemma OpenBeforeCloseOverlaps(current: string, next: string)
    ensures AtMostOneOpen([Open(current, true)])
    ensures !AtMostOneOpen([Open(current, true), Open(next, true), Close(current)])
  {
    var one := [Open(current, true)];
    var two := one + [Open(next, true)];
    AppendEvent([], Open(current, true));
    assert [] + [Open(current, true)] == one;
    AppendEvent(one, Open(next, true));
    assert OpenHandles(two) == 2;
    AppendEvent(two, Close(current));
    assert two + [Close(current)] == [Open(current, true), Open(next, true), Close(current)];
  }

  /**
   * Opening the first free candidate fails exactly when the OS refuses or a
   * directory occupies that name: the only way an existing candidate can be free.
   */
  lemma FirstFreeOpens(disk: Disk, dir: string, stem: string, n: nat, osOk: bool)
    requires IsFirstFree(disk, stem, n)
    requires LogPath(stem, n) != dir
    ensures var o := OpenFile(MkdirAll(disk, dir), LogPath(stem, n), osOk);
            (!o.ok <==> !osOk || exists m :: IsFirstFree(disk, stem, m) && LogPath(stem, m) in disk)
            && (!o.ok ==> o.disk == MkdirAll(disk, dir))
  {
    forall m | IsFirstFree(disk, stem, m)
      ensures m == n
    {
      FirstFreeUnique(disk, stem, m, n);
    }
  }

  // ---------------------------------------------------------------------
  // The writer

  /** What one admitted log call produces. */
  datatype Emission = Emission(
    text: string,            // handed to the file logger
    toFile: bool,            // whether a file handle is open to receive it
    console: Option<string>) // the coloured console line, when the console is on

  class ZxyLog {
    var logDir: string
    var logFilename: string
    var timestamp: Time
    var logFilePath: string
    /** The path the open handle writes to; None for a nil `*os.File`. */
    var logFile: Option<string>
    var logConsole: bool
    var logConsolePrefix: string
    var logLevel: Level
    /** Which candidate `logFilePath` is. */
    ghost var suffix: nat
    /** Every open and close of a handle, in order. */
    ghost var handles: seq<HandleEvent>

    /**
     * An open handle is on the current path, and at most one handle has ever
     * been open at a time, the current one if there is one.
     */
    ghost predicate Valid()
      reads this
    {
      && (logFile.Some? ==> logFile.value == logFilePath)
      && OneHandle(handles, logFile)
    }

    /** The struct literal of `NewZxyLog`, before any file is opened. */
    constructor (dir: string, fileName: string, now: Time)
      ensures logDir == dir && logFilename == fileName && timestamp == now
      ensures logFilePath == [] && logFile == None && handles == []
      ensures logConsole && logConsolePrefix == [] && logLevel == All
    {
      logDir := dir;
      logFilename := fileName;
      timestamp := now;
      logFilePath := [];
      logFile := None;
      logConsole := true;
      logConsolePrefix := [];
      logLevel := All;
      suffix := 0;
      handles := [];
    }

    method SetConsole(isConsole: bool)
      requires Valid()
      modifies this`logConsole
      ensures Valid() && logConsole == isConsole
    {
      logConsole := isConsole;
    }

    method SetConsolePrefix(prefix: string)
      requires Valid()
      modifies this`logConsolePrefix
      ensures Valid() && logConsolePrefix == prefix
    {
      logConsolePrefix := prefix;
    }

    method SetLevel(level: Level)
      requires Valid()
      modifies this`logLevel
      ensures Valid() && logLevel == level
    {
      logLevel := level;
    }

    /** `console`: the line printed to the terminal, if the console is on. */
    method Console(ll: Level, args: string, callerFile: string, callerLine: int, now: Time)
      returns (line: Option<string>)
      ensures line.Some? <==> logConsole
      ensures line.Some? ==> line.value == SprintColor(
                ConsoleContext(logConsolePrefix, ShortName(callerFile), callerLine, args, now),
                ConsoleLook(ll).style, ConsoleLook(ll).fc, ConsoleLook(ll).bc)
      ensures line.Some? ==>
                StripColor(line.value) == ConsoleContext(logConsolePrefix, ShortName(callerFile), callerLine, args, now)
      ensures line.Some? ==> ColorOf(line.value) == Some(ConsoleLook(ll))
    {
      if !logConsole {
        return None;
      }
      var file := ShortFile(callerFile);
      var context := ConsoleContext(logConsolePrefix, file, callerLine, args, now);
      var look := ConsoleLook(ll);
      StripColorInverse(context, look.style, look.fc, look.bc);
      SprintColorReadsBack(context, look.style, look.fc, look.bc);
      line := Some(SprintColor(context, look.style, look.fc, look.bc));
    }

    /**
     * The body shared by the fifteen emission methods (Debug, Debugf, Debugln,
     * ..., Fatalln), for a call at level `ll` whose argument renders to `rendered`.
     */
    method Emit(ll: Level, rendered: string, callerFile: string, callerLine: int, now: Time)
      returns (e: Option<Emission>)
      requires Debug <= ll <= Fatal
      ensures e.Some? <==> logLevel <= ll
      ensures logLevel > Fatal ==> e.None?
      ensures e.Some? ==> e.value.text == LineText(ll, rendered)
      ensures e.Some? ==> e.value.toFile == logFile.Some?
      ensures e.Some? ==> (e.value.console.Some? <==> logConsole)
      ensures e.Some? && logConsole ==> e.value.console.value == SprintColor(
                ConsoleContext(logConsolePrefix, ShortName(callerFile), callerLine, e.value.text, now),
                ConsoleLook(ll).style, ConsoleLook(ll).fc, ConsoleLook(ll).bc)
    {
      if logLevel <= ll {
        var context := TrimRightNewlines(LevelName(ll) + " " + rendered);
        var line := Console(ll, context, callerFile, callerLine, now);
        e := Some(Emission(context, logFile.Some?, line));
      } else {
        e := None;
      }
    }

    predicate CheckFileDate(now: Time)
      reads this
    {
      DateChanged(now, timestamp)
    }

    predicate CheckFileSize(disk: Disk)
      reads this
    {
      TooBig(disk, logFilePath)
    }

    predicate CheckFileExist(disk: Disk)
      reads this
    {
      !IsFileExist(disk, logFilePath)
    }

    /** Whether `isMustRename` answers true in this state. */
    predicate MustRename(disk: Disk, now: Time)
      reads this
    {
      CheckFileDate(now) || CheckFileSize(disk) || CheckFileExist(disk)
    }

    /**
     * `isMustRename`: date, then size, then existence; when none fires the
     * base directory is (re)created and the answer is false.
     */
    method IsMustRename(disk: Disk, now: Time) returns (must: bool, disk': Disk)
      ensures must <==> YearDay(now) != YearDay(timestamp)
                        || (logFilePath in disk && disk[logFilePath].size >= LogMaxSize)
                        || !(logFilePath in disk && !disk[logFilePath].isDir)
      ensures must == MustRename(disk, now)
      ensures must ==> disk' == disk
      ensures !must ==> disk' == MkdirAll(disk, logDir)
    {
      if CheckFileDate(now) {
        return true, disk;
      }
      if CheckFileSize(disk) {
        return true, disk;
      }
      if CheckFileExist(disk) {
        return true, disk;
      }
      disk' := MkdirAll(disk, logDir);
      must := false;
    }

    /**
     * `newLogFile`: creates the dated directory, then probes `.log`, `_1.log`,
     * `_2.log`, ... and returns the first that is not an existing regular file.
     */
    method NewLogFile(disk: Disk) returns (fn: string, disk': Disk, ghost n: nat)
      ensures disk' == MkdirAll(disk, DatedDir(logDir, timestamp))
      ensures fn == LogPath(Stem(logDir, timestamp, logFilename), n)
      ensures IsFirstFree(disk', Stem(logDir, timestamp, logFilename), n)
      ensures IsFirstFree(disk, Stem(logDir, timestamp, logFilename), n)
    {
      var dir := DatedDir(logDir, timestamp);
      disk' := MkdirAll(disk, dir);
      var filename := Stem(logDir, timestamp, logFilename);
      fn, n := Probe(disk', filename);
      FirstFreeIgnoresMkdir(disk, dir, filename, n);
    }

    /**
     * `rename`: stamps the writer with `now`, computes the new path, closes the
     * old handle, then opens the new file (an open error is ignored and leaves
     * a nil handle) and records the path.
     */
    method Rename(disk: Disk, now: Time, osOk: bool) returns (disk': Disk)
      requires Valid()
      modifies this`timestamp, this`logFilePath, this`logFile, this`suffix, this`handles
      ensures Valid()
      ensures timestamp == now
      ensures IsCandidate(logFilePath, logDir, now, logFilename, suffix)
      ensures IsFirstFree(disk, Stem(logDir, now, logFilename), suffix)
      ensures !IsFileExist(disk, logFilePath)
      ensures Keeps(disk, disk')
      ensures var created := MkdirAll(disk, DatedDir(logDir, now));
              disk' == OpenFile(created, logFilePath, osOk).disk
              && (logFile.Some? <==> OpenFile(created, logFilePath, osOk).ok)
      ensures logFile.Some? ==> logFilePath in disk' && disk'[logFilePath] == FileInfo(false, 0)
      ensures handles == Swapped(old(handles), old(logFile), logFilePath, logFile.Some?)
    {
      timestamp := now;
      var fn, created, n := NewLogFile(disk);
      disk' := Reopen(fn, n, created, osOk);
    }

    /** The tail of `rename`: close the current handle, open `fn`, record it as the current path. */
    method Reopen(fn: string, ghost n: nat, created: Disk, osOk: bool) returns (disk': Disk)
      requires OneHandle(handles, logFile)
      modifies this`logFilePath, this`logFile, this`suffix, this`handles
      ensures Valid()
      ensures logFilePath == fn && suffix == n
      ensures disk' == OpenFile(created, fn, osOk).disk
      ensures logFile.Some? <==> OpenFile(created, fn, osOk).ok
      ensures handles == Swapped(old(handles), old(logFile), fn, logFile.Some?)
    {
      var outcome := OpenFile(created, fn, osOk);
      SwapKeepsOneOpen(handles, logFile, fn, outcome.ok);
      handles := Swapped(handles, logFile, fn, outcome.ok);
      logFile := if outcome.ok then Some(fn) else None;
      logFilePath := fn;
      suffix := n;
      disk' := outcome.disk;
    }

    /**
     * `fileCheck`, one tick of the monitor: rotate when `isMustRename` says so.
     * A rotation whose open succeeded leaves nothing for the next check at the
     * same instant to rotate again.
     */
    method FileCheck(disk: Disk, now: Time, osOk: bool) returns (disk': Disk)
      requires Valid()
      modifies this`timestamp, this`logFilePath, this`logFile, this`suffix, this`handles
      ensures Valid()
      ensures !old(MustRename(disk, now)) ==> unchanged(this) && disk' == MkdirAll(disk, logDir)
      ensures old(MustRename(disk, now)) ==>
                && timestamp == now
                && IsCandidate(logFilePath, logDir, now, logFilename, suffix)
                && IsFirstFree(disk, Stem(logDir, now, logFilename), suffix)
                && !IsFileExist(disk, logFilePath)
                && Keeps(disk, disk')
                && (var created := MkdirAll(disk, DatedDir(logDir, now));
                    disk' == OpenFile(created, logFilePath, osOk).disk
                    && (logFile.Some? <==> OpenFile(created, logFilePath, osOk).ok))
                && (logFile.Some? ==> logFilePath in disk' && disk'[logFilePath] == FileInfo(false, 0))
                && handles == Swapped(old(handles), old(logFile), logFilePath, logFile.Some?)
      ensures old(MustRename(disk, now)) && logFile.Some? ==> !MustRename(disk', now)
    {
      var must, checked := IsMustRename(disk, now);
      if must {
        disk' := Rename(disk, now, osOk);
      } else {
        disk' := checked;
      }
    }
  }

  /**
   * `NewZxyLog`: normalise the directory, build the writer, open its first
   * file. Go panics (here: null) on an empty directory or a failed open.
   */
  method NewZxyLog(fileDir: string, fileName: string, now: Time, disk: Disk, osOk: bool)
    returns (log: ZxyLog?, disk': Disk)
    ensures fileDir == [] ==> log == null && disk' == disk
    ensures Keeps(disk, disk')
    ensures log != null ==>
              && fresh(log) && log.Valid()
              && NormalizeDir(fileDir) == Some(log.logDir) && log.logFilename == fileName
              && log.timestamp == now && log.logConsole && log.logConsolePrefix == [] && log.logLevel == All
              && log.logFile == Some(log.logFilePath) && log.handles == [Open(log.logFilePath, true)]
              && IsCandidate(log.logFilePath, log.logDir, now, fileName, log.suffix)
              && IsFirstFree(disk, Stem(log.logDir, now, fileName), log.suffix)
              && disk' == OpenFile(MkdirAll(disk, DatedDir(log.logDir, now)), log.logFilePath, osOk).disk
              && log.logFilePath in disk' && disk'[log.logFilePath] == FileInfo(false, 0)
    ensures fileDir != [] ==>
              (log == null <==>
                 !osOk
                 || exists n :: IsFirstFree(disk, Stem(NormalizeDir(fileDir).value, now, fileName), n)
                                && LogPath(Stem(NormalizeDir(fileDir).value, now, fileName), n) in disk)
    ensures fileDir != [] && log == null ==> disk' == MkdirAll(disk, DatedDir(NormalizeDir(fileDir).value, now))
  {
    var dir := NormalizeDir(fileDir);
    if dir.None? {
      return null, disk;
    }
    var l := new ZxyLog(dir.value, fileName, now);
    var fn, created, n := l.NewLogFile(disk);
    disk' := l.Reopen(fn, n, created, osOk);
    FirstFreeOpens(disk, DatedDir(dir.value, now), Stem(dir.value, now, fileName), n, osOk);
    if l.logFile.None? {
      return null, disk';
    }
    log := l;
  }
}