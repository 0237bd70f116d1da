/**
 * The logger of Core/Src/log.c and the `LOG_*` macros of Core/Inc/log.h: a current
 * level, the two guards of `log_output`, the file name without its directory, and
 * the line "[time][L][file:line][func] message\r\n" it prints. The console is the
 * sequence of characters printed so far; the caller's format arguments are replaced by
 * the already formatted message.
 */
module Log {
  import opened Wrappers
  import CInt
  import Rtc

  /* `LogLevel`. */
  const LevelDebug: int := 0
  const LevelInfo: int := 1
  const LevelWarning: int := 2
  const LevelError: int := 3
  const LevelNone: int := 4

  /** `LOG_LEVEL_STR`: one letter per emitting level. */
  const LevelLetters: seq<char> := ['D', 'I', 'W', 'E']

  /** `time_str` in `log_output`. */
  const TimeBufSize: nat := 16

  function LevelLetter(level: int): char
    requires LevelDebug <= level <= LevelError
  {
    LevelLetters[level]
  }

  /** The level a letter of `LOG_LEVEL_STR` stands for. */
  function LevelOfLetter(c: char): Option<int>
  {
    if c == 'D' then Some(LevelDebug)
    else if c == 'I' then Some(LevelInfo)
    else if c == 'W' then Some(LevelWarning)
    else if c == 'E' then Some(LevelError)
    else None
  }

  /** `strrchr`: the index of the last `c` in `s`, if any. */
  function LastIndexOf(s: string, c: char): (r: Option<nat>)
    ensures r.None? <==> c !in s
    ensures r.Some? ==> r.value < |s| && s[r.value] == c && c !in s[r.value + 1..]
  {
    if |s| == 0 then None
    else if s[|s| - 1] == c then Some(|s| - 1)
    else
      var r := LastIndexOf(s[..|s| - 1], c);
      assert s == s[..|s| - 1] + [s[|s| - 1]];
      r
  }

  /**
   * The file name `log_output` prints: what follows the last '/'; only when there is
   * no '/', what follows the last '\\'; with neither, the whole path.
   */
  function Basename(path: string): (r: string)
    ensures |r| <= |path| && r == path[|path| - |r|..]
    ensures '/' in path ==> |r| < |path| && path[|path| - |r| - 1] == '/' && '/' !in r
    ensures '/' !in path && '\\' in path ==> |r| < |path| && path[|path| - |r| - 1] == '\\' && '\\' !in r
    ensures '/' !in path && '\\' !in path ==> r == path
  {
    match LastIndexOf(path, '/')
    case Some(i) => path[i + 1..]
    case None =>
      match LastIndexOf(path, '\\')
      case Some(i) => path[i + 1..]
      case None => path
  }

  /** The decimal digits of `n` (`%d` of a non-negative value). */
  function NatDigits(n: nat): (s: string)
    ensures |s| > 0 && forall i :: 0 <= i < |s| ==> '0' <= s[i] <= '9'
  {
    if n < 10 then [Rtc.Digit(n)] else NatDigits(n / 10) + [Rtc.Digit(n % 10)]
  }

  /** `%d`. */
  function Decimal(n: int): string
  {
    if n < 0 then "-" + NatDigits(-n) else NatDigits(n)
  }

  function ParseNat(s: string): int
  {
    if |s| == 0 then 0 else ParseNat(s[..|s| - 1]) * 10 + Rtc.DigitValue(s[|s| - 1])
  }

  function ParseDecimal(s: string): int
  {
    if |s| > 0 && s[0] == '-' then -ParseNat(s[1..]) else ParseNat(s)
  }

  /** Both guards of `log_output`: an emitting level, and not below the current level. */
  predicate Emits(current: int, level: int)
  {
    LevelDebug <= level <= LevelError && level >= current
  }

  /** The bracketed time and level letter. */
  function Head(time: string, level: int): string
    requires LevelDebug <= level <= LevelError
  {
    "[" + time + "][" + [LevelLetter(level)] + "]"
  }

  /** The bracketed file name, line and function, and the blank before the message. */
  function Location(filename: string, line: int, func: string): string
  {
    "[" + filename + ":" + Decimal(line) + "][" + func + "] "
  }

  /** The printed line for an emitting level. */
  function LogLine(time: string, level: int, file: string, line: int, func: string, message: string): string
    requires LevelDebug <= level <= LevelError
  {
    Head(time, level) + Location(Basename(file), line, func) + message + "\r\n"
  }

  /** What `log_output` prints with the current level `current`. */
  function Output(current: int, time: string, level: int, file: string, line: int, func: string, message: string): string
  {
    if Emits(current, level) then LogLine(time, level, file, line, func, message) else ""
  }

  /** What a `LOG_*` macro of level `level` prints: its own guard, then `log_output`. */
  function MacroOutput(current: int, time: string, level: int, file: string, line: int, func: string, message: string): string
  {
    if level >= current then Output(current, time, level, file, line, func, message) else ""
  }

  /** The timestamp text `log_output` prints: what the clock stores in its 16-byte buffer, up to the NUL. */
  function Timestamp(sync: nat, read: Option<Rtc.TimeReading>): string
    requires sync + 1 < CInt.U32 && (read.Some? ==> Rtc.ReadingInRange(read.value))
  {
    Rtc.Written(sync, read, TimeBufSize)[..12]
  }

  /* ---------------------------------------------------------------- lemmas */

  /** The levels are ordered, and the letter table has exactly one entry per emitting level. */
  lemma LevelsOrdered()
    ensures LevelDebug < LevelInfo < LevelWarning < LevelError < LevelNone
    ensures |LevelLetters| == LevelError - LevelDebug + 1
  {
  }

  /** The letter table is D/I/W/E and the letters identify their levels. */
  lemma LevelLetterRoundTrip(level: int)
    requires LevelDebug <= level <= LevelError
    ensures LevelOfLetter(LevelLetter(level)) == Some(level)
    ensures LevelLetter(level) == (if level == 0 then 'D' else if level == 1 then 'I' else if level == 2 then 'W' else 'E')
  {
  }

  /** `log_output` prints exactly when both of its guards pass. */
  lemma OutputIffEmits(current: int, time: string, level: int, file: string, line: int, func: string, message: string)
    ensures Output(current, time, level, file, line, func, message) != "" <==> Emits(current, level)
    ensures level < LevelDebug || level > LevelError || level < current ==> Output(current, time, level, file, line, func, message) == ""
  {
  }

  /**
   * The macro's own guard is the second guard of `log_output`: for the four levels a
   * macro exists for, the macro prints exactly what `log_output` would; with the
   * current level NONE nothing is printed.
   */
  lemma MacroGating(current: int, time: string, level: int, file: string, line: int, func: string, message: string)
    requires LevelDebug <= level <= LevelError
    ensures MacroOutput(current, time, level, file, line, func, message) == Output(current, time, level, file, line, func, message)
    ensures MacroOutput(current, time, level, file, line, func, message) != "" <==> level >= current
    ensures current == LevelNone ==> MacroOutput(current, time, level, file, line, func, message) == ""
  {
  }

  /**
   * The shape of a printed line: the bracketed time, then the bracketed letter of the
   * level, from which the level is read back, then the bracketed location, the message
   * and "\r\n" at the end.
   */
  lemma LogLineShape(time: string, level: int, file: string, line: int, func: string, message: string)
    requires LevelDebug <= level <= LevelError
    ensures var s := LogLine(time, level, file, line, func, message);
      && |s| == |time| + 5 + |Location(Basename(file), line, func)| + |message| + 2
      && s[0] == '[' && s[1..|time| + 1] == time && s[|time| + 1] == ']'
      && s[|time| + 2] == '[' && s[|time| + 4] == ']'
      && LevelOfLetter(s[|time| + 3]) == Some(level)
      && s[|time| + 5] == '['
      && s[|s| - 2 - |message|..|s| - 2] == message
      && s[|s| - 2..] == "\r\n"
  {
    var loc := Location(Basename(file), line, func);
    assert loc[0] == '[';
    LineShape(time, level, loc, message);
  }

  /** The same shape for any location text that opens with a bracket. */
  lemma LineShape(time: string, level: int, loc: string, message: string)
    requires LevelDebug <= level <= LevelError && |loc| > 0 && loc[0] == '['
    ensures var s := Head(time, level) + loc + message + "\r\n";
      && |s| == |time| + 5 + |loc| + |message| + 2
      && s[0] == '[' && s[1..|time| + 1] == time && s[|time| + 1] == ']'
      && s[|time| + 2] == '[' && s[|time| + 4] == ']'
      && LevelOfLetter(s[|time| + 3]) == Some(level)
      && s[|time| + 5] == '['
      && s[|s| - 2 - |message|..|s| - 2] == message
      && s[|s| - 2..] == "\r\n"
  {
    var h := Head(time, level);
    var s := h + loc + message + "\r\n";
    assert h == ['['] + time + [']', '[', LevelLetter(level), ']'];
    assert s == h + (loc + message + "\r\n");
    assert s[..|h|] == h;
    assert s[1..|time| + 1] == h[1..|time| + 1];
    assert s[|h|..] == loc + message + "\r\n";
    LevelLetterRoundTrip(level);
  }

  /** `%d` is read back by its decimal parse. */
  lemma {:induction false} NatDigitsRoundTrip(n: nat)
    ensures ParseNat(NatDigits(n)) == n
  {
    if n >= 10 {
      var s := NatDigits(n);
      assert s[..|s| - 1] == NatDigits(n / 10);
      NatDigitsRoundTrip(n / 10);
    } else {
      assert NatDigits(n)[..0] == [];
    }
  }

  lemma DecimalRoundTrip(n: int)
    ensures ParseDecimal(Decimal(n)) == n
  {
    if n < 0 {
      assert Decimal(n)[1..] == NatDigits(-n);
      NatDigitsRoundTrip(-n);
    } else {
      NatDigitsRoundTrip(n);
    }
  }

  /** The 16-byte buffer always receives a complete 12-character text, NUL-terminated. */
  lemma TimestampComplete(sync: nat, read: Option<Rtc.TimeReading>)
    requires sync + 1 < CInt.U32 && (read.Some? ==> Rtc.ReadingInRange(read.value))
    ensures |Rtc.Written(sync, read, TimeBufSize)| == 13 && Rtc.Written(sync, read, TimeBufSize)[12] == Rtc.Nul
    ensures |Timestamp(sync, read)| == 12 && Rtc.Nul !in Timestamp(sync, read)
    ensures read.None? ==> Timestamp(sync, read) == Rtc.DefaultTime
  {
    match read
    case None =>
      Rtc.WrittenOnFailure(sync, TimeBufSize);
    case Some(t) =>
      Rtc.WrittenOnSuccess(sync, t, TimeBufSize);
      Rtc.MillisBounded(sync, t.subSeconds);
  }

  class Logger {
    /** `current_log_level`. */
    var currentLevel: int
    /** Everything printed so far. */
    var out: seq<char>

    /** The default level INFO, nothing printed yet. */
    constructor ()
      ensures currentLevel == LevelInfo && out == []
    {
      currentLevel := LevelInfo;
      out := [];
    }

    /** `log_set_level`. */
    method SetLevel(level: int)
      modifies this
      ensures currentLevel == level && out == old(out)
    {
      currentLevel := level;
    }

    /** `log_get_level`. */
    method GetLevel() returns (level: int)
      ensures level == currentLevel
    {
      return currentLevel;
    }

    /** `log_output`, with `log_get_timestamp` reading `clock` into a 16-character buffer. */
    method LogOutput(level: int, file: string, line: int, func: string, message: string,
                     clock: Rtc.Clock, read: Option<Rtc.TimeReading>)
      requires clock.Valid() && (read.Some? ==> Rtc.ReadingInRange(read.value))
      modifies this
      ensures currentLevel == old(currentLevel)
      ensures out == old(out) + Output(currentLevel, Timestamp(clock.synchPrediv, read), level, file, line, func, message)
    {
      if level < LevelDebug || level > LevelError {
        return;
      }
      if level < currentLevel {
        return;
      }
      var filename := Basename(file);
      var time := GetTimestamp(clock, read);
      var prefix := Head(time, level) + Location(filename, line, func);
      assert prefix + message + "\r\n" == LogLine(time, level, file, line, func, message);
      out := out + (prefix + message + "\r\n");
    }

    /**
     * `log_get_timestamp` into a fresh 16-character `time_str`, and the text `%s`
     * prints from it: the characters before its NUL.
     */
    static method GetTimestamp(clock: Rtc.Clock, read: Option<Rtc.TimeReading>) returns (time: string)
      requires clock.Valid() && (read.Some? ==> Rtc.ReadingInRange(read.value))
      ensures time == Timestamp(clock.synchPrediv, read)
    {
      var timeStr := new char[TimeBufSize];
      clock.GetCurrentTime(timeStr, TimeBufSize, read);
      TimestampComplete(clock.synchPrediv, read);
      time := timeStr[..12];
    }

    /** A `LOG_*` macro call of level `level`. */
    method Macro(level: int, file: string, line: int, func: string, message: string,
                 clock: Rtc.Clock, read: Option<Rtc.TimeReading>)
      requires clock.Valid() && (read.Some? ==> Rtc.ReadingInRange(read.value))
      modifies this
      ensures currentLevel == old(currentLevel)
      ensures out == old(out) + MacroOutput(currentLevel, Timestamp(clock.synchPrediv, read), level, file, line, func, message)
    {
      var current := GetLevel();
      if level >= current {
        LogOutput(level, file, line, func, message, clock, read);
      }
    }
  }
}
