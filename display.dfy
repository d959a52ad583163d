/** What the bot shows on screen besides lookup results: the progress bar of
    a batch job, durations in words, and the cutting of long replies into
    messages Telegram accepts. */
module Display {
  import opened Text
  import opened Arith

  // -----------------------------------------------------------------------
  // create_progress_bar

  const FULL_CELL := '█'
  const EMPTY_CELL := '░'

  /** Python's `int(a / b)` for b > 0: the quotient truncated toward zero. */
  function TruncDiv(a: int, b: int): (q: int)
    requires b > 0
    ensures a >= 0 ==> q * b <= a < q * b + b
    ensures a < 0 ==> q * b - b < a <= q * b
  {
    if a >= 0 then a / b else -((-a) / b)
  }

  /** The number of filled cells: `int(length * current / total)`, none when
      the total is not positive. */
  function Filled(current: int, total: int, length: int): int
  {
    if total > 0 then TruncDiv(length * current, total) else 0
  }

  /** The cells of the bar (the text between the brackets). */
  function Cells(current: int, total: int, length: int): string
  {
    Repeat(FULL_CELL, Filled(current, total, length)) + Repeat(EMPTY_CELL, length - Filled(current, total, length))
  }

  /** Between the first and the last row no more than `length` cells fill. */
  lemma FilledBounds(current: int, total: int, length: int)
    requires 0 <= current <= total && length >= 0
    ensures 0 <= Filled(current, total, length) <= length
  {
    if total > 0 {
      MulNonNegative(length, current);
      MulLeft(current, total, length);
      assert length * current <= length * total;
      DivAtMost(length * current, length, total);
    }
  }

  /** While the job is between its first and last row the bar is exactly
      `length` cells wide: `filled` full cells then the empty ones. */
  lemma CellsWidth(current: int, total: int, length: int)
    requires 0 <= current <= total && length >= 0
    ensures |Cells(current, total, length)| == length
    ensures forall k :: 0 <= k < |Cells(current, total, length)| ==>
              (Cells(current, total, length)[k] == FULL_CELL <==> k < Filled(current, total, length))
  {
    FilledBounds(current, total, length);
  }

  /** The bar is full at the last row. */
  lemma CellsFull(total: int, length: int)
    requires total > 0 && length >= 0
    ensures Cells(total, total, length) == Repeat(FULL_CELL, length)
  {
    var p := length * total;
    MulDivCancel(length, total);
    assert TruncDiv(p, total) == p / total == length;
    assert Repeat(EMPTY_CELL, length - length) == "";
  }

  /** The bar is empty at the first row. */
  lemma CellsEmpty(total: int, length: int)
    requires total > 0 && length >= 0
    ensures Cells(0, total, length) == Repeat(EMPTY_CELL, length)
  {
    var p := length * 0;
    assert p == 0;
    assert TruncDiv(p, total) == 0;
    assert Repeat(FULL_CELL, 0) == "";
  }

  /** More rows done never shrinks the filled part. */
  lemma FilledMonotone(c1: int, c2: int, total: int, length: int)
    requires 0 <= c1 <= c2 && length >= 0
    ensures Filled(c1, total, length) <= Filled(c2, total, length)
  {
    if total > 0 {
      MulNonNegative(c1, length);
      MulLeft(c1, c2, length);
      assert length * c1 <= length * c2;
      DivMonotone(length * c1, length * c2, total);
    }
  }

  /** `create_progress_bar` without its percentage, which is a float. */
  function ProgressBar(current: int, total: int, length: int): string
  {
    "[" + Cells(current, total, length) + "]"
  }

  // -----------------------------------------------------------------------
  // format_time, over whole seconds

  /** The three shapes `format_time` writes. */
  datatype TimeParts =
    | Seconds(secs: int)
    | MinSec(minutes: int, secs: int)
    | HourMin(hours: int, minutes: int)

  /** How `format_time` splits a duration. */
  function Split(seconds: int): (p: TimeParts)
    ensures seconds < 60 ==> p == Seconds(seconds)
    ensures 60 <= seconds < 3600 ==>
              p.MinSec? && 1 <= p.minutes < 60 && 0 <= p.secs < 60 && p.minutes * 60 + p.secs == seconds
    ensures 3600 <= seconds ==>
              p.HourMin? && 1 <= p.hours && 0 <= p.minutes < 60 &&
              p.hours * 3600 + p.minutes * 60 <= seconds < p.hours * 3600 + p.minutes * 60 + 60
  {
    if seconds < 60 then Seconds(seconds)
    else if seconds < 3600 then MinSec(seconds / 60, seconds % 60)
    else HourMin(seconds / 3600, (seconds % 3600) / 60)
  }

  function Render(p: TimeParts): string
  {
    match p
    case Seconds(s) => IntToString(s) + " сек"
    case MinSec(m, s) => IntToString(m) + " мин " + IntToString(s) + " сек"
    case HourMin(h, m) => IntToString(h) + " ч " + IntToString(m) + " мин"
  }

  /** `format_time(seconds)`. */
  function FormatTime(seconds: int): string
  {
    Render(Split(seconds))
  }

  /** Past an hour the seconds are dropped: only whole minutes show. */
  lemma HoursDropSeconds(seconds: int)
    requires seconds >= 3600
    ensures FormatTime(seconds) == FormatTime(seconds - seconds % 60)
  {
    var h, r := seconds / 3600, seconds % 3600;
    var m, sec := r / 60, r % 60;
    var t := seconds - seconds % 60;
    assert seconds == h * 3600 + m * 60 + sec;
    assert seconds % 60 == sec by { DivUnique(seconds, 60, h * 60 + m, sec); ModOf(seconds, 60, h * 60 + m, sec); }
    assert t == h * 3600 + m * 60;
    DivUnique(t, 3600, h, m * 60);
    ModOf(t, 3600, h, m * 60);
    MulDivCancel(m, 60);
  }

  /** In `a + x`, with `a` all digits and `x` starting with a non-digit,
      the digits run exactly to the end of `a`. */
  lemma DigitRun(a: string, x: string)
    requires AllDigits(a) && |x| > 0 && !IsDigit(x[0])
    ensures forall i :: 0 <= i < |a| ==> IsDigit((a + x)[i])
    ensures !IsDigit((a + x)[|a|])
  {
  }

  /** Two digit strings each followed by a non-digit: if the texts agree,
      the digit strings do. */
  lemma DigitsPrefixUnique(a: string, x: string, b: string, y: string)
    requires AllDigits(a) && AllDigits(b)
    requires |x| > 0 && |y| > 0 && !IsDigit(x[0]) && !IsDigit(y[0])
    requires a + x == b + y
    ensures a == b && x == y
  {
    DigitRun(a, x);
    DigitRun(b, y);
    assert |a| == |b|;
    assert a == (a + x)[..|a|] && b == (b + y)[..|b|];
    assert x == (a + x)[|a|..] && y == (b + y)[|b|..];
  }

  lemma SecondsText(s: int)
    requires 0 <= s < 60
    ensures FormatTime(s) == NatToString(s) + " сек"
  {
  }

  lemma MinutesText(s: int)
    requires 60 <= s < 3600
    ensures FormatTime(s) == NatToString(s / 60) + (" мин " + (NatToString(s % 60) + " сек"))
  {
  }

  /** "N сек" never reads as "M мин S сек". */
  lemma SecondsNotMinutes(s1: int, s2: int)
    requires 0 <= s1 < 60 <= s2 < 3600
    ensures FormatTime(s1) != FormatTime(s2)
  {
    SecondsText(s1);
    MinutesText(s2);
    DigitRun(NatToString(s1), " сек");
    DigitRun(NatToString(s2 / 60), " мин " + (NatToString(s2 % 60) + " сек"));
  }

  /** Below an hour the text names the duration exactly: different
      durations never read the same. */
  lemma FormatTimeInjective(s1: int, s2: int)
    requires 0 <= s1 < 3600 && 0 <= s2 < 3600
    requires FormatTime(s1) == FormatTime(s2)
    ensures s1 == s2
  {
    if s1 < 60 && s2 < 60 {
      SecondsText(s1);
      SecondsText(s2);
      DigitsPrefixUnique(NatToString(s1), " сек", NatToString(s2), " сек");
      NatToStringInjective(s1, s2);
    } else if s1 < 60 {
      SecondsNotMinutes(s1, s2);
    } else if s2 < 60 {
      SecondsNotMinutes(s2, s1);
    } else {
      MinutesInjective(s1, s2);
    }
  }

  /** "M мин S сек" names its duration exactly. */
  lemma MinutesInjective(s1: int, s2: int)
    requires 60 <= s1 < 3600 && 60 <= s2 < 3600
    requires FormatTime(s1) == FormatTime(s2)
    ensures s1 == s2
  {
    MinutesText(s1);
    MinutesText(s2);
    var u1, u2 := NatToString(s1 % 60) + " сек", NatToString(s2 % 60) + " сек";
    DigitsPrefixUnique(NatToString(s1 / 60), " мин " + u1, NatToString(s2 / 60), " мин " + u2);
    NatToStringInjective(s1 / 60, s2 / 60);
    DropPrefix(" мин ", u1);
    DropPrefix(" мин ", u2);
    DigitsPrefixUnique(NatToString(s1 % 60), " сек", NatToString(s2 % 60), " сек");
    NatToStringInjective(s1 % 60, s2 % 60);
  }

  // -----------------------------------------------------------------------
  // Cutting a reply into Telegram messages

  const MESSAGE_LIMIT := 4096

  function Concat(parts: seq<string>): string
  {
    if parts == [] then "" else Concat(parts[..|parts| - 1]) + parts[|parts| - 1]
  }

  /** The messages sent for one reply: the whole text when it fits, else
      consecutive slices of 4096 characters (Python's clamped slicing makes
      the last one shorter). */
  method SplitMessage(text: string) returns (messages: seq<string>)
    ensures Concat(messages) == text
    ensures |messages| >= 1
    ensures forall k :: 0 <= k < |messages| ==> |messages[k]| <= MESSAGE_LIMIT
    ensures forall k :: 0 <= k < |messages| - 1 ==> |messages[k]| == MESSAGE_LIMIT
    ensures |text| <= MESSAGE_LIMIT ==> messages == [text]
    ensures |text| > MESSAGE_LIMIT ==>
              |messages| == (|text| + MESSAGE_LIMIT - 1) / MESSAGE_LIMIT && messages[|messages| - 1] != ""
  {
    if |text| <= MESSAGE_LIMIT {
      return [text];
    }
    messages := [];
    var i := 0;
    while i < |text|
      invariant i == MESSAGE_LIMIT * |messages|
      invariant i <= |text| ==> Concat(messages) == text[..i]
      invariant i > |text| ==> Concat(messages) == text && i < |text| + MESSAGE_LIMIT
      invariant forall k :: 0 <= k < |messages| ==> 0 < |messages[k]| <= MESSAGE_LIMIT
      invariant forall k :: 0 <= k < |messages| - 1 ==> |messages[k]| == MESSAGE_LIMIT
      invariant i <= |text| ==> forall k :: 0 <= k < |messages| ==> |messages[k]| == MESSAGE_LIMIT
      decreases |text| - i
    {
      var end := if i + MESSAGE_LIMIT <= |text| then i + MESSAGE_LIMIT else |text|;
      assert text[..end] == text[..i] + text[i..end];
      messages := messages + [text[i..end]];
      assert messages[..|messages| - 1] == messages[..|messages| - 1];
      i := i + MESSAGE_LIMIT;
    }
    if i == |text| {
      assert text[..i] == text;
    }
  }
}
