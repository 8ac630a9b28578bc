/** The desktop's local time: the hardware clock moved by a time zone and a manual correction. */
module DesktopClock {
  import opened Calendar

  datatype RtcTime = RtcTime(date: Date, hour: nat, minute: nat, second: nat)

  const TIMEZONE_OFFSETS_MINUTES: seq<int> :=
    [-720, -480, -300, 0, 60, 120, 180, 240, 330, 360, 420, 480, 540, 600, 720, 840]

  predicate ValidTime(t: RtcTime)
  {
    ValidDate(t.date) && t.hour < 24 && t.minute < 60 && t.second < 60
  }

  /** Minutes since 1970-01-01 00:00. */
  function EpochMinutes(t: RtcTime): int
  {
    DaysFromCivil(t.date) * 1440 + t.hour * 60 + t.minute
  }

  /** The month table of the desktop, which gives 31 days to every number that is not a short month. */
  function DaysInDesktopMonth(year: nat, month: nat): (days: nat)
    ensures 1 <= month <= 12 ==> days == DaysInMonth(year, month)
  {
    match month
    case 2 => if year % 4 == 0 && (year % 100 != 0 || year % 400 == 0) then 29 else 28
    case 4 | 6 | 9 | 11 => 30
    case _ => 31
  }

  /** The offsets the settings can ask for: a time zone, and quarter hours in a signed byte. */
  function Offset(timezone: nat, quarters: int): int
  {
    TIMEZONE_OFFSETS_MINUTES[if timezone < 15 then timezone else 15] + quarters * 15
  }

  const FIRST := Date(0, 1, 1)
  const LAST := Date(65535, 12, 31)

  /** The minute lies in a year that sixteen bits can hold. */
  predicate Representable(minutes: int)
  {
    DaysFromCivil(FIRST) * 1440 <= minutes < (DaysFromCivil(LAST) + 1) * 1440
  }

  /** One day back, as the first carry loop takes it; the year stops at 0. */
  method StepBack(date: Date) returns (r: Date)
    requires ValidDate(date)
    ensures ValidDate(r)
    ensures date != FIRST ==> DaysFromCivil(r) == DaysFromCivil(date) - 1
    ensures date == FIRST ==> r == Date(0, 12, 31)
  {
    r := date;
    if r.day > 1 {
      r := r.(day := r.day - 1);
    } else {
      if r.month > 1 {
        r := r.(month := r.month - 1);
      } else {
        r := r.(month := 12, year := if r.year == 0 then 0 else r.year - 1);
      }
      r := r.(day := DaysInDesktopMonth(r.year, r.month));
    }
    if date != FIRST {
      assert NextDay(r) == date;
      NextDayIsOneMore(r);
    }
  }

  /** One day on, as the second carry loop takes it; the year stops at 65535. */
  method StepOn(date: Date) returns (r: Date)
    requires ValidDate(date)
    ensures ValidDate(r)
    ensures date != LAST ==> DaysFromCivil(r) == DaysFromCivil(date) + 1
    ensures date == LAST ==> r == Date(65535, 1, 1)
  {
    r := date;
    if r.day < DaysInDesktopMonth(r.year, r.month) {
      r := r.(day := r.day + 1);
    } else {
      r := r.(day := 1);
      if r.month < 12 {
        r := r.(month := r.month + 1);
      } else {
        r := r.(month := 1, year := if r.year == 65535 then 65535 else r.year + 1);
      }
    }
    if date != LAST {
      assert NextDay(date) == r;
      NextDayIsOneMore(date);
    }
  }

  /** A date and minutes on it that stand for a minute, if that minute lies in a 16-bit year. */
  ghost predicate StandsFor(date: Date, minutes: int, target: int)
  {
    Representable(target) ==> DaysFromCivil(date) * 1440 + minutes == target
  }

  /** The first carry loop. */
  method CarryBack(date0: Date, minutes0: int, ghost target: int) returns (date: Date, minutes: int)
    requires ValidDate(date0) && StandsFor(date0, minutes0, target)
    ensures ValidDate(date) && StandsFor(date, minutes, target) && minutes >= 0
  {
    date, minutes := date0, minutes0;
    while minutes < 0
      invariant ValidDate(date) && StandsFor(date, minutes, target)
      decreases -minutes
    {
      minutes := minutes + 24 * 60;
      date := StepBack(date);
    }
  }

  /** The second carry loop. */
  method CarryOn(date0: Date, minutes0: int, ghost target: int) returns (date: Date, minutes: int)
    requires ValidDate(date0) && StandsFor(date0, minutes0, target) && minutes0 >= 0
    ensures ValidDate(date) && StandsFor(date, minutes, target) && 0 <= minutes < 1440
  {
    date, minutes := date0, minutes0;
    while minutes >= 24 * 60
      invariant minutes >= 0 && ValidDate(date) && StandsFor(date, minutes, target)
    {
      minutes := minutes - 24 * 60;
      date := StepOn(date);
    }
  }

  /** The result is a real time, and it is the clock moved by exactly the offset if and only if that
      minute lies in a 16-bit year; for every year the hardware clock reports it does. */
  method AdjustedTime(rtc: RtcTime, timezone: nat, quarters: int) returns (time: RtcTime)
    requires ValidTime(rtc) && timezone < 256 && -128 <= quarters < 128
    ensures ValidTime(time) && time.second == rtc.second
    ensures EpochMinutes(time) == EpochMinutes(rtc) + Offset(timezone, quarters)
            <==> Representable(EpochMinutes(rtc) + Offset(timezone, quarters))
    ensures 2000 <= rtc.date.year <= 2255 ==> EpochMinutes(time) == EpochMinutes(rtc) + Offset(timezone, quarters)
  {
    ghost var target := EpochMinutes(rtc) + Offset(timezone, quarters);
    var zone := TIMEZONE_OFFSETS_MINUTES[if timezone < 15 then timezone else 15];
    var manual := quarters * 15;
    var date, minutes := CarryBack(rtc.date, rtc.hour * 60 + rtc.minute + zone + manual, target);
    date, minutes := CarryOn(date, minutes, target);
    time := RtcTime(date, minutes / 60, minutes % 60, rtc.second);
    DateInRange(date);
    RtcInRange(rtc, Offset(timezone, quarters));
  }

  lemma DateInRange(d: Date)
    requires ValidDate(d)
    ensures DaysFromCivil(FIRST) <= DaysFromCivil(d) <= DaysFromCivil(LAST)
  {
    if d != FIRST { CivilIsMonotone(FIRST, d); }
    if d != LAST { CivilIsMonotone(d, LAST); }
  }

  /** The hardware clock reports 2000 plus a byte, and no setting moves it by more than two days. */
  lemma RtcInRange(t: RtcTime, offset: int)
    requires ValidTime(t) && -2880 <= offset <= 2880
    ensures 2000 <= t.date.year <= 2255 ==> Representable(EpochMinutes(t) + offset)
  {
    if 2000 <= t.date.year <= 2255 {
      CivilIsMonotone(Date(1999, 1, 1), t.date);
      CivilIsMonotone(t.date, Date(2256, 1, 1));
    }
  }
}
