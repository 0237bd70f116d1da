/**
 * The real-time clock of Core/Src/rtc.c: the choice of clock source and of the
 * synchronous prescaler at initialisation, and `RTC_GetCurrentTime`, which turns the
 * calendar time and the sub-second counter into the text "HH:MM:SS.mmm" in a caller's
 * buffer. The HAL calls are replaced by their outcomes: whether the LSE oscillator
 * starts, and the time reading (or its failure).
 */
module Rtc {
  import opened Wrappers
  import CInt

  /** The oscillator frequencies in Hz. */
  const LseHz: nat := 32768
  const LsiHz: nat := 32000
  /** `rtc_clock_source` values. */
  const SourceLsi: nat := 0
  const SourceLse: nat := 1
  const AsynchPrediv: nat := 127
  const SynchPredivLse: nat := 255
  const SynchPredivLsi: nat := 249
  const Nul: char := 0 as char

  /** A successful `HAL_RTC_GetTime` in binary format: `uint8_t` fields and the `uint32_t` sub-second counter. */
  datatype TimeReading = TimeReading(hours: nat, minutes: nat, seconds: nat, subSeconds: nat)

  predicate ReadingInRange(t: TimeReading)
  {
    t.hours < 0x100 && t.minutes < 0x100 && t.seconds < 0x100 && t.subSeconds < CInt.U32
  }

  /** The frequency the two prescalers leave of `f`. */
  function Prescaled(f: nat, asynch: nat, synch: nat): nat
  {
    f / (asynch + 1) / (synch + 1)
  }

  function OscillatorHz(source: nat): nat
  {
    if source == SourceLse then LseHz else LsiHz
  }

  /**
   * The milliseconds of the sub-second counter, in the source's `uint32_t` arithmetic:
   * the counter runs down from `sync` to 0 within a second; outside that range, or with
   * no prescaler, the milliseconds are 0. (`sync + 1` is required not to wrap to 0.)
   */
  function Millis(sync: nat, subsec: nat): int
    requires sync + 1 < CInt.U32
  {
    if sync > 0 && subsec <= sync then Elapsed(sync, subsec) / (sync + 1) else 0
  }

  /** The milliseconds are always within the second, and 0 off the counter's range. */
  lemma MillisBounded(sync: nat, subsec: nat)
    requires sync + 1 < CInt.U32
    ensures 0 <= Millis(sync, subsec) <= 999
    ensures !(sync > 0 && subsec <= sync) ==> Millis(sync, subsec) == 0
  {
    if sync > 0 && subsec <= sync {
      MillisBelowSecond(sync, subsec);
    }
  }

  /** `(sync - subsec) * 1000U`, wrapped to `uint32_t`. */
  function Elapsed(sync: nat, subsec: nat): (v: nat)
    requires subsec <= sync
    ensures v < CInt.U32
  {
    CInt.Wrap32((sync - subsec) * 1000)
  }

  /**
   * Even where `(sync - subsec) * 1000` wraps around, the quotient stays below 1000:
   * the wrapped product is below 2^32, which is no more than 1000 divisors once the
   * product can wrap at all.
   */
  lemma MillisBelowSecond(sync: nat, subsec: nat)
    requires 0 < sync && subsec <= sync && sync + 1 < CInt.U32
    ensures 0 <= Elapsed(sync, subsec) / (sync + 1) < 1000
  {
    ElapsedBelow(sync, subsec);
    CInt.DivBelow(Elapsed(sync, subsec), sync + 1, 1000);
  }

  /** The wrapped product is below 1000 divisors, wrapped or not. */
  lemma ElapsedBelow(sync: nat, subsec: nat)
    requires subsec <= sync
    ensures Elapsed(sync, subsec) < (sync + 1) * 1000
  {
    var d := sync - subsec;
    if d * 1000 < CInt.U32 {
      assert Elapsed(sync, subsec) == d * 1000;
    } else {
      assert sync * 1000 >= CInt.U32;
    }
  }

  /** Where the product cannot wrap, the milliseconds are the exact formula. */
  lemma MillisExact(sync: nat, subsec: nat)
    requires 0 < sync && subsec <= sync && sync * 1000 < CInt.U32
    ensures Millis(sync, subsec) == (sync - subsec) * 1000 / (sync + 1)
  {
    CInt.MulMono(sync - subsec, sync, 1000);
  }

  /** The character of a decimal digit `d` (`'0' + d`). */
  function Digit(d: nat): char
    requires d < 26
  {
    (48 + d) as char
  }

  function DigitValue(c: char): int
  {
    c as int - 48
  }

  /** The 13 characters "HH:MM:SS.mmm" and the terminating NUL. */
  function TimeText(h: nat, m: nat, s: nat, ms: nat): (t: seq<char>)
    requires h < 0x100 && m < 0x100 && s < 0x100 && ms < 1000
    ensures |t| == 13 && t[2] == ':' && t[5] == ':' && t[8] == '.' && t[12] == Nul
  {
    [Digit(h / 10), Digit(h % 10), ':', Digit(m / 10), Digit(m % 10), ':',
     Digit(s / 10), Digit(s % 10), '.', Digit(ms / 100), Digit((ms / 10) % 10), Digit(ms % 10), Nul]
  }

  /** Reading the fields back from the digit positions of a time text. */
  function DecodeTime(t: seq<char>): (int, int, int, int)
    requires |t| >= 12
  {
    (DigitValue(t[0]) * 10 + DigitValue(t[1]),
     DigitValue(t[3]) * 10 + DigitValue(t[4]),
     DigitValue(t[6]) * 10 + DigitValue(t[7]),
     DigitValue(t[9]) * 100 + DigitValue(t[10]) * 10 + DigitValue(t[11]))
  }

  /** What `snprintf(buf, n, "%s", s)` stores: at most `n - 1` characters and a NUL; nothing for `n == 0`. */
  function Snprintf(s: seq<char>, n: nat): (w: seq<char>)
    ensures |w| == if n == 0 then 0 else CInt.Min(|s|, n - 1) + 1
    ensures n > 0 ==> w[|w| - 1] == Nul && w[..|w| - 1] == s[..CInt.Min(|s|, n - 1)]
  {
    if n == 0 then [] else s[..CInt.Min(|s|, n - 1)] + [Nul]
  }

  const DefaultTime: string := "00:00:00.000"

  /**
   * The characters `RTC_GetCurrentTime` stores from index 0 of the buffer, with the
   * prescaler `sync` and the reading `read` (`None` when the time cannot be read).
   */
  function Written(sync: nat, read: Option<TimeReading>, bufSize: nat): (w: seq<char>)
    requires sync + 1 < CInt.U32 && (read.Some? ==> ReadingInRange(read.value))
    ensures |w| <= bufSize
  {
    match read
    case None => Snprintf(DefaultTime, bufSize)
    case Some(t) =>
      if bufSize >= 13 then
        MillisBounded(sync, t.subSeconds);
        TimeText(t.hours, t.minutes, t.seconds, Millis(sync, t.subSeconds))
      else if bufSize > 0 then [Nul]
      else []
  }

  /** A time text gives back every field below 100 and milliseconds below 1000. */
  lemma TimeTextRoundTrip(h: nat, m: nat, s: nat, ms: nat)
    requires h < 100 && m < 100 && s < 100 && ms < 1000
    ensures DecodeTime(TimeText(h, m, s, ms)) == (h, m, s, ms)
  {
    var t := TimeText(h, m, s, ms);
    TwoDigits(h);
    TwoDigits(m);
    TwoDigits(s);
    ThreeDigits(ms);
    assert t[0] == Digit(h / 10) && t[1] == Digit(h % 10);
    assert t[3] == Digit(m / 10) && t[4] == Digit(m % 10);
    assert t[6] == Digit(s / 10) && t[7] == Digit(s % 10);
    assert t[9] == Digit(ms / 100) && t[10] == Digit((ms / 10) % 10) && t[11] == Digit(ms % 10);
  }

  lemma TwoDigits(v: nat)
    requires v < 100
    ensures DigitValue(Digit(v / 10)) * 10 + DigitValue(Digit(v % 10)) == v
  {
  }

  lemma ThreeDigits(v: nat)
    requires v < 1000
    ensures DigitValue(Digit(v / 100)) * 100 + DigitValue(Digit((v / 10) % 10)) * 10 + DigitValue(Digit(v % 10)) == v
  {
  }

  /**
   * The buffer cases of `RTC_GetCurrentTime` after a successful reading: all 13
   * characters from size 13 on, the time's digits at their places; a lone NUL in a
   * smaller buffer; nothing in a buffer of size 0.
   */
  lemma WrittenOnSuccess(sync: nat, t: TimeReading, bufSize: nat)
    requires sync + 1 < CInt.U32 && ReadingInRange(t)
    ensures var w := Written(sync, Some(t), bufSize);
      && (bufSize >= 13 ==>
            && |w| == 13 && w[2] == ':' && w[5] == ':' && w[8] == '.' && w[12] == Nul
            && (t.hours < 100 && t.minutes < 100 && t.seconds < 100 ==>
                  DecodeTime(w) == (t.hours, t.minutes, t.seconds, Millis(sync, t.subSeconds))))
      && (0 < bufSize < 13 ==> w == [Nul])
      && (bufSize == 0 ==> w == [])
  {
    MillisBounded(sync, t.subSeconds);
    if bufSize >= 13 && t.hours < 100 && t.minutes < 100 && t.seconds < 100 {
      TimeTextRoundTrip(t.hours, t.minutes, t.seconds, Millis(sync, t.subSeconds));
    }
  }

  /** A failed reading yields the default text, truncated to the buffer as `snprintf` does. */
  lemma WrittenOnFailure(sync: nat, bufSize: nat)
    requires sync + 1 < CInt.U32
    ensures bufSize >= 13 ==> Written(sync, None, bufSize) == DefaultTime + [Nul]
    ensures bufSize >= 13 ==> DecodeTime(Written(sync, None, bufSize)) == (0, 0, 0, 0)
    ensures 0 < bufSize <= 13 ==> Written(sync, None, bufSize) == DefaultTime[..bufSize - 1] + [Nul]
    ensures bufSize == 0 ==> Written(sync, None, bufSize) == []
  {
    if bufSize >= 13 {
      assert DefaultTime[..12] == DefaultTime;
    }
  }

  /** Both prescaler settings divide their oscillator down to exactly 1 Hz. */
  lemma PrescalersGiveOneHz()
    ensures Prescaled(LseHz, AsynchPrediv, SynchPredivLse) == 1 && LseHz == (AsynchPrediv + 1) * (SynchPredivLse + 1)
    ensures Prescaled(LsiHz, AsynchPrediv, SynchPredivLsi) == 1 && LsiHz == (AsynchPrediv + 1) * (SynchPredivLsi + 1)
  {
  }

  /** The RTC handle's prescaler settings and the recorded clock source. */
  class Clock {
    var clockSource: nat
    var asynchPrediv: nat
    var synchPrediv: nat

    ghost predicate Valid()
      reads this
    {
      clockSource <= SourceLse && synchPrediv + 1 < CInt.U32
    }

    /** The zero-initialised handle and `rtc_clock_source = 0`. */
    constructor ()
      ensures Valid() && clockSource == SourceLsi && synchPrediv == 0 && asynchPrediv == 0
    {
      clockSource, asynchPrediv, synchPrediv := SourceLsi, 0, 0;
    }

    /** `HAL_RTC_MspInit`: LSE when it starts, LSI otherwise. */
    method MspInit(lseStarts: bool)
      modifies this
      ensures clockSource == (if lseStarts then SourceLse else SourceLsi)
      ensures asynchPrediv == old(asynchPrediv) && synchPrediv == old(synchPrediv)
    {
      if lseStarts {
        clockSource := SourceLse;
      } else {
        clockSource := SourceLsi;
      }
    }

    /**
     * `MX_RTC_Init`: the LSE prescalers first; when the clock source turned out to be
     * LSI, the synchronous prescaler is set again for LSI. Either way the RTC counts at 1 Hz.
     */
    method Init(lseStarts: bool)
      modifies this
      ensures Valid() && clockSource == (if lseStarts then SourceLse else SourceLsi)
      ensures asynchPrediv == AsynchPrediv
      ensures synchPrediv == (if lseStarts then SynchPredivLse else SynchPredivLsi)
      ensures Prescaled(OscillatorHz(clockSource), asynchPrediv, synchPrediv) == 1
    {
      asynchPrediv := AsynchPrediv;
      synchPrediv := SynchPredivLse;
      MspInit(lseStarts);
      if clockSource == SourceLsi {
        synchPrediv := SynchPredivLsi;
      }
      PrescalersGiveOneHz();
    }

    /** `RTC_GetClockSource`. */
    method GetClockSource() returns (r: nat)
      requires Valid()
      ensures r == clockSource && (r == SourceLsi || r == SourceLse)
    {
      return clockSource;
    }

    /**
     * `RTC_GetCurrentTime` into the first `bufSize` characters of `buf`: exactly the
     * characters of `Written` are stored, from index 0, and nothing after them.
     */
    method GetCurrentTime(buf: array<char>, bufSize: nat, read: Option<TimeReading>)
      requires Valid() && bufSize <= buf.Length && (read.Some? ==> ReadingInRange(read.value))
      modifies buf
      ensures var w := Written(synchPrediv, read, bufSize);
        |w| <= buf.Length && buf[..] == w + old(buf[|w|..])
    {
      if read.None? {
        WriteText(buf, Snprintf(DefaultTime, bufSize));
        return;
      }
      var t := read.value;
      var sync := synchPrediv;
      var subsec := t.subSeconds;
      var ms := 0;
      if sync > 0 && subsec <= sync {
        MillisBelowSecond(sync, subsec);
        ms := Elapsed(sync, subsec) / (sync + 1);
      }
      assert ms == Millis(sync, subsec);
      MillisBounded(sync, subsec);
      if bufSize >= 13 {
        FormatTime(buf, t.hours, t.minutes, t.seconds, ms);
      } else if bufSize > 0 {
        buf[0] := Nul;
        assert buf[..] == [Nul] + old(buf[1..]);
      }
    }

    /** The hand-written `HH:MM:SS.mmm` formatting into the first 13 characters. */
    static method FormatTime(buf: array<char>, h: nat, m: nat, s: nat, ms: nat)
      requires 13 <= buf.Length && h < 0x100 && m < 0x100 && s < 0x100 && ms < 1000
      modifies buf
      ensures buf[..] == TimeText(h, m, s, ms) + old(buf[13..])
    {
      var h1, h0 := h / 10, h % 10;
      var m1, m0 := m / 10, m % 10;
      var s1, s0 := s / 10, s % 10;
      var ms2, ms1, ms0 := ms / 100, (ms / 10) % 10, ms % 10;
      ghost var t := TimeText(h, m, s, ms);
      buf[0], buf[1], buf[2] := Digit(h1), Digit(h0), ':';
      buf[3], buf[4], buf[5] := Digit(m1), Digit(m0), ':';
      buf[6], buf[7], buf[8] := Digit(s1), Digit(s0), '.';
      buf[9], buf[10], buf[11], buf[12] := Digit(ms2), Digit(ms1), Digit(ms0), Nul;
      assert buf[..13] == t;
      assert buf[13..] == old(buf[13..]);
      assert buf[..] == buf[..13] + buf[13..];
    }

    /** The library `snprintf` storing `text` from index 0. */
    static method WriteText(buf: array<char>, text: seq<char>)
      requires |text| <= buf.Length
      modifies buf
      ensures buf[..] == text + old(buf[|text|..])
    {
      var i := 0;
      while i < |text|
        invariant 0 <= i <= |text|
        invariant forall j :: 0 <= j < buf.Length ==> buf[j] == if j < i then text[j] else old(buf[j])
      {
        buf[i] := text[i];
        i := i + 1;
      }
      assert buf[..] == text + old(buf[|text|..]);
    }
  }
}
