/**
 `compute_next_scheduled` of refresh_query.py on the wall clock: a search of eight days that must find the
 earliest of all future slots.  An instant counts microseconds from midnight of day 0; day d has weekday (d + 6) % 7.
 */
module NextScheduled {
  import opened Options

  const MINUTE := 60_000_000
  const DAY := 24 * 60 * MINUTE

  type TimeOfDay = t: int | 0 <= t < DAY

  function Weekday(day: int): int {
    (day + 6) % 7
  }

  /** _WEEKDAY_TO_NUM */
  function WeekdayNumber(name: string): Option<int> {
    match name
    case "monday" => Some(0) case "tuesday" => Some(1) case "wednesday" => Some(2) case "thursday" => Some(3)
    case "friday" => Some(4) case "saturday" => Some(5) case "sunday" => Some(6)
    case _ => None
  }

  /** `day_nums`; `normalize` is the host's strip and lower-case. */
  function DayNumbers(days: seq<string>, normalize: string -> string): set<int> {
    set d | d in days && WeekdayNumber(normalize(d)).Some? :: WeekdayNumber(normalize(d)).value
  }

  function UpToColon(text: string): (part: string)
    ensures |part| <= |text|
  {
    if text == "" || text[0] == ':' then "" else [text[0]] + UpToColon(text[1..])
  }

  /** `time(int(hh), int(mm))` of the first two colon-separated parts; None where Python raises. */
  function ParseTime(text: string, toInt: string -> Option<int>): Option<TimeOfDay> {
    var hh := UpToColon(text);
    if |hh| == |text| then None   // a single part does not unpack
    else
      var h, m := toInt(hh), toInt(UpToColon(text[|hh| + 1..]));
      if h.Some? && m.Some? && 0 <= h.value < 24
          && 0 <= m.value < 60 then Some((h.value * 60 + m.value) * MINUTE) else None
  }

  /** `parsed_times` */
  method ParseTimes(times: seq<string>, toInt: string -> Option<int>) returns (parsed: seq<TimeOfDay>)
    ensures forall t :: t in parsed <==> exists k :: 0 <= k < |times| && ParseTime(times[k], toInt) == Some(t)
    ensures parsed == [] <==> forall k :: 0 <= k < |times| ==> ParseTime(times[k], toInt).None?
  {
    parsed := [];
    for n := 0 to |times|
      invariant forall t :: t in parsed <==> exists k :: 0 <= k < n && ParseTime(times[k], toInt) == Some(t)
      invariant parsed == [] <==> forall k :: 0 <= k < n ==> ParseTime(times[k], toInt).None?
    {
      var t := ParseTime(times[n], toInt);
      if t.Some? { parsed := parsed + [t.value]; }
    }
  }

  /** The week in order. */
  const WEEK := ["monday", "tuesday", "wednesday", "thursday", "friday", "saturday", "sunday"]

  /** A name has the number of its place in the week, Monday first; every other text has none. */
  lemma WeekdayNumberIff(name: string, k: nat)
    ensures WeekdayNumber(name) == Some(k) <==> k < 7 && WEEK[k] == name
  {
    DistinctDays();
  }

  /** Numbers are given to the seven names only. */
  lemma UnnamedDay(name: string)
    ensures WeekdayNumber(name).None? <==> name !in WEEK
  {
    var w := WEEK;
    assert w[0] in w && w[1] in w && w[2] in w && w[3] in w && w[4] in w && w[5] in w && w[6] in w;
  }

  lemma SomedayIsNoDay()
    ensures "someday" !in WEEK
  {
    var w := WEEK;
    assert |"someday"| == 7 && w[0][0] != 's' && w[1][0] != 's' && w[2][0] != 's' && w[3][0] != 's' && w[4][0] != 's';
    assert |w[5]| == 8 && |w[6]| == 6;
  }

  lemma DistinctDays()
    ensures forall i, j :: 0 <= i < j < 7 ==> WEEK[i] != WEEK[j]
  {
    var w := WEEK;
    assert w[0][0] == 'm' && w[1][..2] == "tu" && w[2][0] == 'w' && w[3][..2] == "th" && w[4][0] == 'f'
      && w[5][..2] == "sa" && w[6][..2] == "su";
    assert w[1][1] == 'u' && w[3][1] == 'h' && w[5][1] == 'a' && w[6][1] == 'u' && w[1][0] == 't' && w[6][0] == 's';
  }

  /** Days are counted from 1 January of year 1, a Monday; so the first day of 1970 was a Thursday. */
  lemma WeekdaysFollow(day: int)
    ensures Weekday(1) == 0 && Weekday(719_163) == 3 && Weekday(day + 1) == (Weekday(day) + 1) % 7
  {}

  lemma {:induction false} UpToColonIs(part: string, rest: string)
    requires ':' !in part && (rest == "" || rest[0] == ':')
    ensures UpToColon(part + rest) == part
    decreases |part|
  {
    if part == "" {
      assert part + rest == rest;
    } else {
      assert (part + rest)[0] == part[0] && (part + rest)[1..] == part[1..] + rest;
      UpToColonIs(part[1..], rest);
    }
  }

  /**
   * A text of hours and minutes, possibly with more parts after them, reads as that many hours of 3600 and minutes of
   * 60 million microseconds after midnight, exactly if both are numbers of a clock.
   */
  lemma TimeTextReads(hh: string, mm: string, rest: string, toInt: string -> Option<int>, t: TimeOfDay)
    requires ':' !in hh && ':' !in mm && (rest == "" || rest[0] == ':')
    ensures ParseTime(hh + ":" + mm + rest, toInt) == Some(t) <==>
            exists h, m :: toInt(hh) == Some(h) && toInt(mm) == Some(m) && 0 <= h <= 23 && 0 <= m <= 59 &&
              t == h * 3_600_000_000 + m * 60_000_000
  {
    var text := hh + ":" + mm + rest;
    assert text == hh + (":" + (mm + rest));
    UpToColonIs(hh, ":" + (mm + rest));
    assert text[|hh| + 1..] == mm + rest;
    UpToColonIs(mm, rest);
  }

  /** A text without a colon reads as no time, and a day has 86 400 seconds. */
  lemma OnePartIsNoTime(text: string, toInt: string -> Option<int>)
    requires ':' !in text
    ensures ParseTime(text, toInt) == None && DAY == 86_400_000_000
  {
    UpToColonIs(text, "");
    assert text + "" == text;
  }

  // ---------------------------------------------------------------- slots

  /** An instant at which a refresh is scheduled, in any week. */
  ghost predicate IsSlot(s: int, weekdays: set<int>, parsed: seq<TimeOfDay>) {
    Weekday(s / DAY) in weekdays && s % DAY in parsed
  }

  /** The slots the search has looked at: those of the first `offset` days, and some of the next day. */
  ghost predicate Searched(s: int, today: int, offset: nat, tried: seq<TimeOfDay>)
  {
    today <= s / DAY < today + offset || (s / DAY == today + offset && s % DAY in tried)
  }

  ghost predicate IsBest(best: Option<int>, now: int, weekdays: set<int>,
      parsed: seq<TimeOfDay>, offset: nat, tried: seq<TimeOfDay>)
  {
    && (best.Some? ==> best.value > now && IsSlot(best.value, weekdays, parsed))
    && (forall s :: IsSlot(s, weekdays, parsed) && s > now && Searched(s, now / DAY, offset, tried) ==>
          best.Some? && best.value <= s)
  }

  lemma SlotParts(day: int, t: TimeOfDay)
    ensures (day * DAY + t) / DAY == day && (day * DAY + t) % DAY == t
  {}

  lemma PartsOfSlot(s: int)
    ensures s == s / DAY * DAY + s % DAY && 0 <= s % DAY < DAY
  {}

  /** A slot beyond the window has a counterpart on the same weekday inside it. */
  lemma WindowSuffices(s: int, now: int, weekdays: set<int>, parsed: seq<TimeOfDay>) returns (near: int)
    requires IsSlot(s, weekdays, parsed) && s / DAY >= now / DAY + 8
    ensures IsSlot(near, weekdays, parsed) && now < near < s && now / DAY <= near / DAY < now / DAY + 8
  {
    var today, t := now / DAY, s % DAY;
    var day := today + 1 + (s / DAY - today - 1) % 7;
    near := day * DAY + t;
    SlotParts(day, t);
    PartsOfSlot(now);
    PartsOfSlot(s);
    assert Weekday(day) == Weekday(s / DAY);
  }

  lemma NextWeekday(start: int, w: int) returns (day: int)
    requires 0 <= w < 7
    ensures start <= day < start + 7 && Weekday(day) == w
  {
    day := start + (w - Weekday(start)) % 7;
  }

  lemma SomeSlotAhead(now: int, weekdays: set<int>, parsed: seq<TimeOfDay>, w: int) returns (near: int)
    requires w in weekdays && 0 <= w < 7 && parsed != []
    ensures IsSlot(near, weekdays, parsed) && near > now && now / DAY <= near / DAY < now / DAY + 8
  {
    hide Weekday;
    var day := NextWeekday(now / DAY + 1, w);
    near := day * DAY + parsed[0];
    SlotParts(day, parsed[0]);
    PartsOfSlot(now);
  }

  lemma TryOne(best: Option<int>, now: int, weekdays: set<int>,
      parsed: seq<TimeOfDay>, offset: nat, tried: seq<TimeOfDay>, t: TimeOfDay)
    requires IsBest(best, now, weekdays, parsed, offset, tried) && t in parsed
    requires Weekday(now / DAY + offset) in weekdays
    ensures var c := (now / DAY + offset) * DAY + t;
            var better := c > now && (best.None? || c < best.value);
            IsBest(if better then Some(c) else best, now, weekdays, parsed, offset, tried + [t])
  {
    var day := now / DAY + offset;
    var c := day * DAY + t;
    SlotParts(day, t);
    forall s | s / DAY == day && s % DAY == t ensures s == c { PartsOfSlot(s); }
  }

  lemma DayDone(best: Option<int>, now: int, weekdays: set<int>,
      parsed: seq<TimeOfDay>, offset: nat, tried: seq<TimeOfDay>)
    requires IsBest(best, now, weekdays, parsed, offset, tried)
    requires tried == parsed || Weekday(now / DAY + offset) !in weekdays
    ensures IsBest(best, now, weekdays, parsed, offset + 1, [])
  {}

  /** The nested search of `compute_next_scheduled`. */
  method SearchWindow(weekdays: set<int>, parsed: seq<TimeOfDay>, now: int) returns (best: Option<int>)
    ensures IsBest(best, now, weekdays, parsed, 8, [])
  {
    hide IsBest;
    best := None;
    assert IsBest(best, now, weekdays, parsed, 0, []) by { NothingSearched(now, weekdays, parsed); }
    for offset := 0 to 8
      invariant IsBest(best, now, weekdays, parsed, offset, [])
    {
      var day := now / DAY + offset;
      if Weekday(day) in weekdays {
        for n := 0 to |parsed|
          invariant IsBest(best, now, weekdays, parsed, offset, parsed[..n])
        {
          TryOne(best, now, weekdays, parsed, offset, parsed[..n], parsed[n]);
          assert parsed[..n + 1] == parsed[..n] + [parsed[n]];
          var candidate := day * DAY + parsed[n];
          if candidate > now && (best.None? || candidate < best.value) {
            best := Some(candidate);
          }
        }
        assert parsed[..|parsed|] == parsed;
        DayDone(best, now, weekdays, parsed, offset, parsed);
      } else {
        DayDone(best, now, weekdays, parsed, offset, []);
      }
    }
  }

  lemma NothingSearched(now: int, weekdays: set<int>, parsed: seq<TimeOfDay>)
    ensures IsBest(None, now, weekdays, parsed, 0, [])
  {
    forall s | IsSlot(s, weekdays, parsed) && s > now && Searched(s, now / DAY, 0, []) ensures false {}
  }

  /** The slots of a schedule given as the two lists of texts. */
  ghost predicate Scheduled(s: int, days: Option<seq<string>>, times: Option<seq<string>>,
      normalize: string -> string, toInt: string -> Option<int>)
  {
    days.Some? && times.Some? && Weekday(s / DAY) in DayNumbers(days.value, normalize)
    && exists k :: 0 <= k < |times.value| && ParseTime(times.value[k], toInt) == Some(s % DAY)
  }

  /** Some weekday and some time can be read. */
  ghost predicate Readable(days: Option<seq<string>>, times: Option<seq<string>>,
      normalize: string -> string, toInt: string -> Option<int>)
  {
    days.Some? && times.Some? && DayNumbers(days.value, normalize) != {}
    && exists k :: 0 <= k < |times.value| && ParseTime(times.value[k], toInt).Some?
  }

  /** A schedule can be read exactly when some instant is scheduled by it. */
  lemma ReadableIff(days: Option<seq<string>>, times: Option<seq<string>>,
      normalize: string -> string, toInt: string -> Option<int>)
    ensures Readable(days, times, normalize, toInt) <==> exists s :: Scheduled(s, days, times, normalize, toInt)
  {
    hide ParseTime;
    if Readable(days, times, normalize, toInt) {
      var w :| w in DayNumbers(days.value, normalize);
      var k :| 0 <= k < |times.value| && ParseTime(times.value[k], toInt).Some?;
      var t: TimeOfDay := ParseTime(times.value[k], toInt).value;
      var day := NextWeekday(0, w);
      SlotParts(day, t);
      assert Scheduled(day * DAY + t, days, times, normalize, toInt);
    }
  }

  /** Two weekdays and two times make four slots a week, Mondays and Fridays at 9:30 and 17:00 to the microsecond. */
  lemma WeeklyExample(s: int, toInt: string -> Option<int>)
    requires toInt("09") == Some(9) && toInt("30") == Some(30) && toInt("17") == Some(17) && toInt("00") == Some(0)
    ensures var days, times := Some(["monday", "friday"]), Some(["09:30", "17:00"]);
            Readable(days, times, x => x, toInt) &&
            (Scheduled(s, days, times, x => x, toInt) <==>
             s / 86_400_000_000 % 7 in {1, 5} && s % 86_400_000_000 in {34_200_000_000, 61_200_000_000})
  {
    hide ParseTime, WeekdayNumber;
    var days, times := ["monday", "friday"], ["09:30", "17:00"];
    var normalize := (x: string) => x;
    WeekdayNumberIff("monday", 0);
    WeekdayNumberIff("friday", 4);
    assert days[0] in days && days[1] in days;
    assert DayNumbers(days, normalize) == {0, 4};
    assert "09:30" == "09" + ":" + "30" + "" && "17:00" == "17" + ":" + "00" + "";
    var t: TimeOfDay := s % DAY;
    TimeTextReads("09", "30", "", toInt, 34_200_000_000);
    TimeTextReads("17", "00", "", toInt, 61_200_000_000);
    assert ParseTime(times[0], toInt) == Some(34_200_000_000) && ParseTime(times[1], toInt) == Some(61_200_000_000);
    OnePartIsNoTime("", toInt);
    var day := s / DAY;
    assert (day + 6) % 7 in {0, 4} <==> day % 7 in {1, 5};
  }

  /** A schedule without a weekday or without a time that can be read has no slot. */
  lemma UnreadableExample(toInt: string -> Option<int>)
    ensures !Readable(Some(["someday"]), Some(["09:30"]), x => x, toInt)
    ensures !Readable(Some(["monday"]), Some(["0930"]), x => x, toInt)
    ensures !Readable(None, Some(["09:30"]), x => x, toInt) && !Readable(Some(["monday"]), None, x => x, toInt)
  {
    hide ParseTime, WeekdayNumber;
    OnePartIsNoTime("0930", toInt);
    assert WeekdayNumber("someday") == None by { UnnamedDay("someday"); SomedayIsNoDay(); }
  }

  /**
   * `compute_next_scheduled`: the earliest scheduled instant after now among all future weeks, and None
   * exactly when no weekday or no time can be read.
   */
  method ComputeNextScheduled(days: Option<seq<string>>, times: Option<seq<string>>,
      now: int, normalize: string -> string, toInt: string -> Option<int>)
    returns (best: Option<int>)
    ensures best.Some? <==> Readable(days, times, normalize, toInt)
    ensures best.Some? ==> best.value > now && Scheduled(best.value, days, times, normalize, toInt)
    ensures forall s :: s > now && Scheduled(s, days, times, normalize, toInt) ==> best.Some? && best.value <= s
  {
    hide IsBest, ParseTime, WeekdayNumber, Weekday, DayNumbers;
    DayNumbersInWeek(if days.Some? then days.value else [], normalize);
    if days.None? || times.None? || days.value == [] || times.value == [] { return None; }
    var weekdays := DayNumbers(days.value, normalize);
    if weekdays == {} { return None; }
    var parsed := ParseTimes(times.value, toInt);
    if parsed == [] { return None; }
    best := SearchWindow(weekdays, parsed, now);
    ghost var w := SomeDayNumber(days.value, normalize);
    BestOfAll(best, now, weekdays, parsed, w);
    forall s ensures Scheduled(s, days, times, normalize, toInt) <==> IsSlot(s, weekdays, parsed) {
      PartsOfSlot(s);
    }
    assert parsed[0] in parsed;
  }

  lemma SomeDayNumber(days: seq<string>, normalize: string -> string) returns (w: int)
    requires DayNumbers(days, normalize) != {}
    ensures w in DayNumbers(days, normalize) && 0 <= w < 7
  {
    DayNumbersInWeek(days, normalize);
    if forall d :: d in days ==> WeekdayNumber(normalize(d)).None? {
      assert false;
    }
    var d :| d in days && WeekdayNumber(normalize(d)).Some?;
    w := WeekdayNumber(normalize(d)).value;
  }

  lemma DayNumbersInWeek(days: seq<string>, normalize: string -> string)
    ensures forall w :: w in DayNumbers(days, normalize) ==> 0 <= w < 7
    ensures (forall d :: d in days ==> WeekdayNumber(normalize(d)).None?) ==> DayNumbers(days, normalize) == {}
    ensures days == [] ==> DayNumbers(days, normalize) == {}
  {}

  /** What is best in the window is best for good. */
  lemma BestOfAll(best: Option<int>, now: int, weekdays: set<int>, parsed: seq<TimeOfDay>, w: int)
    requires IsBest(best, now, weekdays, parsed, 8, [])
    requires parsed != [] && w in weekdays && 0 <= w < 7
    ensures best.Some? && best.value > now && IsSlot(best.value, weekdays, parsed)
    ensures forall s :: IsSlot(s, weekdays, parsed) && s > now ==> best.value <= s
  {
    var first := SomeSlotAhead(now, weekdays, parsed, w);
    assert Searched(first, now / DAY, 8, []);
    forall s | IsSlot(s, weekdays, parsed) && s > now ensures best.value <= s {
      if s / DAY >= now / DAY + 8 {
        var near := WindowSuffices(s, now, weekdays, parsed);
        assert Searched(near, now / DAY, 8, []);
      } else {
        PartsOfSlot(s);
        PartsOfSlot(now);
        assert Searched(s, now / DAY, 8, []);
      }
    }
  }
}
