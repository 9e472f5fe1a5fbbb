/** The hourly directory the discovery thread is at, and how it moves on. */
module DataDirectory {
  import opened Calendar

  datatype DirState = Current | Proposed | Abandoned | Processed | Unknown

  // The hour the clock shows; `now` counts seconds since the Epoch.
  function HourOf(now: nat): nat {
    now / 3600
  }

  lemma {:induction false} DayOfNewDirectory(date: Date, hour: int)
    requires IsDate(date) && 0 <= hour < 24
    ensures DayNumber(date) >= 0 && DateOf(DayNumber(date)) == date
    ensures MkGmTime(Tm(0, 0, hour, date.day, date.month - 1, date.year - 1900)) / 86400 == DayNumber(date)
  {
    DateOfDayNumber(date);
    MkGmTimeCountsDays(Tm(0, 0, hour, date.day, date.month - 1, date.year - 1900), DayNumber(date));
    hide MkGmTime, DateOf, DayNumber, IsDate;
  }

  class DataDir {
    var year: int
    var month: int
    var day: int
    var hour: int
    var epochDay: int
    var dbID: nat
    var state: DirState

    // A directory read from the table or proposed: the day count comes from its own time.
    constructor (date: Date, hour: int, dbID: nat, state: DirState)
      requires IsDate(date) && 0 <= hour < 24
      ensures Consistent() && this.hour == hour && this.dbID == dbID && this.state == state
      ensures year == date.year && month == date.month && day == date.day
      ensures HourNumber() == DayNumber(date) * 24 + hour
    {
      hide MkGmTime, DateOf, DayNumber, IsDate;
      DayOfNewDirectory(date, hour);
      this.year, this.month, this.day, this.hour := date.year, date.month, date.day, hour;
      this.dbID, this.state := dbID, state;
      epochDay := MkGmTime(Tm(0, 0, hour, date.day, date.month - 1, date.year - 1900)) / 86400;
    }

    // The date is the one of `epochDay`.
    ghost predicate Consistent()
      reads this
    {
      && 0 <= hour < 24 && epochDay >= 0
      && DateOf(epochDay) == Date(year, month, day)
    }

    // Hours since the Epoch.
    function HourNumber(): int
      reads this
    {
      epochDay * 24 + hour
    }

    // createTimeFromDataDir
    function CreateTime(): int
      reads this
    {
      MkGmTime(Tm(0, 0, hour, day, month - 1, year - 1900))
    }

    lemma {:induction false} TimeOfHour()
      requires Consistent()
      ensures CreateTime() == HourNumber() * 3600
    {
      hide MkGmTime, DateOf;
      MkGmTimeCountsDays(Tm(0, 0, hour, day, month - 1, year - 1900), epochDay);
    }

    // isDataDirAtPresent
    function IsAtPresent(now: nat): bool
      reads this
    {
      DateOf(now / 86400) == Date(year, month, day) && hour == now % 86400 / 3600
    }

    lemma {:induction false} AtPresentIff(now: nat)
      requires Consistent()
      ensures IsAtPresent(now) <==> HourNumber() == HourOf(now)
    {
      DayNumberOfDateOf(epochDay);
      DayNumberOfDateOf(now / 86400);
      hide DateOf;
      assert HourOf(now) == now / 86400 * 24 + now % 86400 / 3600;
    }

    method NextHour()
      requires Consistent()
      modifies `hour, `epochDay, `year, `month, `day
      ensures Consistent() && HourNumber() == old(HourNumber()) + 1
    {
      hide DateOf;
      hour := hour + 1;
      hour := hour % 24;
      if hour == 0 {
        epochDay := epochDay + 1;
      }
      var et := epochDay * 86400;
      var d := DateOf(et / 86400);
      year, month, day := d.year, d.month, d.day;
    }

    // incDataDir: one hour on, with the date taken from gmtime.
    method IncDataDir(now: nat) returns (atPresent: bool)
      requires Consistent()
      modifies this
      ensures Consistent() && HourNumber() == old(HourNumber()) + 1
      ensures CreateTime() == old(CreateTime()) + 3600
      ensures state == Proposed && dbID == old(dbID)
      ensures atPresent <==> HourNumber() == HourOf(now)
    {
      TimeOfHour();
      NextHour();
      state := Proposed;
      TimeOfHour();
      AtPresentIff(now);
      hide *;
      atPresent := IsAtPresent(now);
    }
  }
}
