/**
 The RECURRING column of `get-timers` (beoutil/main.go): a timer's days,
 each abbreviated, separated by commas. A day the program does not know is
 written as nothing, but its comma is still written.
 */
module Timers {
  import opened Results
  import opened Strings
  import opened Models

  /** The abbreviation of a day; "" for an unknown value. Thursday is "thur". */
  function Abbrev(day: string): (r: string)
    ensures KnownDay(day) ==> DayOf(r) == Some(day)
    ensures !KnownDay(day) <==> r == ""
    ensures ',' !in r
  {
    if day == Monday then "mon"
    else if day == Tuesday then "tue"
    else if day == Wednesday then "wed"
    else if day == Thursday then "thur"
    else if day == Friday then "fri"
    else if day == Saturday then "sat"
    else if day == Sunday then "sun"
    else ""
  }

  predicate KnownDay(day: string) {
    day in {Monday, Tuesday, Wednesday, Thursday, Friday, Saturday, Sunday}
  }

  /** The independent reader of an abbreviation. */
  function DayOf(abbrev: string): (r: Option<string>)
    ensures r.Some? ==> KnownDay(r.value)
  {
    if abbrev == "mon" then Some(Monday)
    else if abbrev == "tue" then Some(Tuesday)
    else if abbrev == "wed" then Some(Wednesday)
    else if abbrev == "thur" then Some(Thursday)
    else if abbrev == "fri" then Some(Friday)
    else if abbrev == "sat" then Some(Saturday)
    else if abbrev == "sun" then Some(Sunday)
    else None
  }

  function Abbrevs(days: seq<string>): (r: seq<string>)
    ensures |r| == |days|
    ensures forall i :: 0 <= i < |days| ==> r[i] == Abbrev(days[i])
  {
    seq(|days|, i requires 0 <= i < |days| => Abbrev(days[i]))
  }

  /** The column as a function: the abbreviations joined with ','. */
  function Recurring(days: seq<string>): string {
    Join(Abbrevs(days), ',')
  }

  /** The loop of `doGetTimers`: a comma before every day but the first, then the day's abbreviation. */
  method RecurringColumn(days: seq<string>) returns (r: string)
    ensures r == Recurring(days)
  {
    r := "";
    var i := 0;
    while i < |days|
      invariant 0 <= i <= |days|
      invariant r == Join(Abbrevs(days[..i]), ',')
    {
      if i > 0 {
        r := r + ",";
      }
      r := r + Abbrev(days[i]);
      i := i + 1;
      assert Abbrevs(days[..i])[..i - 1] == Abbrevs(days[..i - 1]);
    }
    assert days[..i] == days;
  }

  lemma AbbrevsComma(days: seq<string>)
    ensures NoneContains(Abbrevs(days), ',')
  {
    forall i | 0 <= i < |days| ensures ',' !in Abbrevs(days)[i] {
    }
  }

  /**
   The column has exactly one comma between consecutive days, unknown days
   included, and cutting it at the commas gives each day back: a known day
   as itself, an unknown day as an empty field.
   */
  lemma RecurringRoundTrip(days: seq<string>)
    requires |days| >= 1
    ensures Count(Recurring(days), ',') == |days| - 1
    ensures |Split(Recurring(days), ',')| == |days|
    ensures forall i :: 0 <= i < |days| ==>
      DayOf(Split(Recurring(days), ',')[i]) == (if KnownDay(days[i]) then Some(days[i]) else None)
  {
    AbbrevsComma(days);
    JoinCount(Abbrevs(days), ',');
    SplitJoin(Abbrevs(days), ',');
    forall i | 0 <= i < |days|
      ensures DayOf(Split(Recurring(days), ',')[i]) == (if KnownDay(days[i]) then Some(days[i]) else None)
    {
    }
  }
}
