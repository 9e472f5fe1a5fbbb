/** The discovery thread: it finds the directory to start from, reads the files of a directory and moves on to the next
    hour, keeping the directory table in step. */
module Discovery {
  import opened Calendar
  import opened DataDirectory
  import opened DirectoryPasses
  import opened DirectorySearch
  import opened Particulars
  import opened StringOrder

  // A row of upmu_data_directory; its id is its position.
  datatype Row = Row(date: Date, hour: int, state: DirState) {
    predicate Dated() {
      IsDate(date) && 0 <= hour < 24
    }

    // What is checked of a row that is read back: not that the day is one of the month.
    predicate Accepted() {
      1 <= date.month <= 12 && date.day > 0
    }

    ghost function HourNumber(): int
      requires Dated()
    {
      DayNumber(date) * 24 + hour
    }
  }

  // ---- The directory table ----

  // Exactly the row the directory refers to is current, and only while the directory is.
  ghost predicate OneCurrent(rows: seq<Row>, hour: int, dbID: nat, state: DirState) {
    && (forall i :: 0 <= i < |rows| ==> (rows[i].state == Current <==> state == Current && i == dbID))
    && (state == Current ==> dbID < |rows| && rows[dbID].Dated() && rows[dbID].HourNumber() == hour)
  }

  // `added` holds the hours of the rows from position `first` on.
  ghost predicate Tracks(rows: seq<Row>, first: nat, added: seq<int>) {
    && |rows| == first + |added|
    && forall i :: 0 <= i < |added| ==> HasHour(rows[first + i], added[i])
  }

  ghost predicate HasHour(r: Row, hour: int) {
    r.Dated() && r.HourNumber() == hour
  }

  lemma {:induction false} TracksMore(rows: seq<Row>, first: nat, added: seq<int>, r: Row)
    requires Tracks(rows, first, added) && r.Dated()
    ensures Tracks(rows + [r], first, added + [r.HourNumber()])
  {
    assert HasHour(r, r.HourNumber());
    hide HasHour;
  }

  lemma {:induction false} TracksClosed(rows: seq<Row>, first: nat, added: seq<int>, i: nat, end: DirState)
    requires Tracks(rows, first, added) && i < |rows|
    ensures Tracks(rows[i := rows[i].(state := end)], first, added)
  {
    var r := rows[i].(state := end);
    assert forall hour :: HasHour(rows[i], hour) ==> HasHour(r, hour);
    hide HasHour;
  }

  lemma {:induction false} RowAdded(rows: seq<Row>, hour: int, dbID: nat, state: DirState, r: Row)
    requires OneCurrent(rows, hour, dbID, state) && state != Current
    requires r.state == Current && r.Dated()
    ensures OneCurrent(rows + [r], r.HourNumber(), |rows|, Current)
  {
    hide IsDate, DayNumber;
  }

  lemma {:induction false} RowClosed(rows: seq<Row>, hour: int, dbID: nat, end: DirState, hour': int, state': DirState)
    requires OneCurrent(rows, hour, dbID, Current) && end != Current && state' != Current
    ensures dbID < |rows| && OneCurrent(rows[dbID := rows[dbID].(state := end)], hour', dbID, state')
  {
    hide IsDate, DayNumber;
  }

  lemma {:induction false} RowsKept(rows: seq<Row>, hour: int, dbID: nat, state: DirState, hour': int, state': DirState)
    requires OneCurrent(rows, hour, dbID, state) && state != Current && state' != Current
    ensures OneCurrent(rows, hour', dbID, state')
  {
    hide IsDate, DayNumber;
  }

  // What became of the rows `start` of earlier runs and of those added since: only the current one changes, and only
  // its state, to abandoned if it is `gone` and to processed otherwise; those added since are processed in their turn.
  ghost predicate Ledger(start: seq<Row>, rows: seq<Row>, gone: bool) {
    && |start| <= |rows|
    && (forall i :: 0 <= i < |start| ==> Successor(start[i], rows[i], gone))
    && (forall i :: |start| <= i < |rows| ==> rows[i].state in {Current, Processed})
  }

  predicate Successor(r: Row, later: Row, gone: bool) {
    && later.date == r.date && later.hour == r.hour
    && if r.state != Current then later.state == r.state
       else if gone then later.state == Abandoned
       else later.state in {Current, Processed}
  }

  lemma {:induction false} LedgerClosed(start: seq<Row>, rows: seq<Row>, gone: bool, i: nat, end: DirState)
    requires Ledger(start, rows, gone) && i < |rows| && rows[i].state == Current
    requires end == Processed || (end == Abandoned && rows == start)
    requires forall j :: 0 <= j < |rows| && j != i ==> rows[j].state != Current
    ensures Ledger(start, rows[i := rows[i].(state := end)], gone || end == Abandoned)
  {
  }

  lemma {:induction false} LedgerMore(start: seq<Row>, rows: seq<Row>, gone: bool, r: Row)
    requires Ledger(start, rows, gone) && r.state == Current
    ensures Ledger(start, rows + [r], gone)
  {
  }

  // The current row is abandoned exactly if its directory is absent at the first look.
  predicate Gone(state: DirState, looks: seq<Look>) {
    state == Current && looks != [] && looks[0].probe == Absent
  }

  // Position of the last row in the given state, -1 if there is none.
  function LastWith(rows: seq<Row>, state: DirState): (i: int)
    ensures -1 <= i < |rows| && (i >= 0 ==> rows[i].state == state)
    ensures forall j :: i < j < |rows| ==> rows[j].state != state
  {
    if rows == [] then -1
    else if rows[|rows| - 1].state == state then |rows| - 1
    else LastWith(rows[..|rows| - 1], state)
  }

  // DEFAULT_STARTING_YEAR, _MONTH, _DAY and _HOUR
  const DEFAULT_START := Row(Date(2018, 7, 5), 22, Proposed)

  // The row the search starts from: the current one, or else the last processed one, or else the default.
  function StartRow(rows: seq<Row>): Row {
    var c, p := LastWith(rows, Current), LastWith(rows, Processed);
    if c >= 0 then rows[c] else if p >= 0 then rows[p] else DEFAULT_START
  }

  predicate IsLast(rows: seq<Row>, i: nat, state: DirState) {
    i < |rows| && rows[i].state == state && forall j :: i < j < |rows| ==> rows[j].state != state
  }

  // It is one of the rows unless none is current or processed: then the search starts from 2018-07-05 22:00.
  lemma {:induction false} StartRowIs(rows: seq<Row>)
    ensures forall i: nat :: IsLast(rows, i, Current) ==> StartRow(rows) == rows[i]
    ensures forall i: nat :: IsLast(rows, i, Processed) && (forall r <- rows :: r.state != Current) ==>
              StartRow(rows) == rows[i]
    ensures (forall r <- rows :: r.state != Current && r.state != Processed) ==>
              && StartRow(rows) == Row(Date(2018, 7, 5), 22, Proposed)
              && StartRow(rows).Dated() && StartRow(rows).HourNumber() == 17717 * 24 + 22
  {
    assert DayNumber(Date(2018, 7, 5)) == 17717;
    hide IsDate, DayNumber, LastWith;
    assert DEFAULT_START.Dated();
  }

  // The place the thread starts from, when the search has ended this way; `known` tells whether the database has files
  // of the directory, `names` are those already dealt with.
  function FirstPlace(r: Search, known: bool, names: set<string>): Place {
    var state := match r
      case Found(_, _) => Current
      case NoAnswer(_, state) => state
      case Searching(_, state) => state
      case _ => Proposed;
    Place(r.hour, state, r.Found?, known, {}, if known then names else {}, [],
          if r.Found? && r.isNew then [r.hour] else [])
  }

  class Discovery {
    const dataDir: DataDir
    var dataDirValid: bool
    var dataDirAccessInProgress: bool
    var dataFilesInDir: set<string>
    var dataFilesProcessed: set<string>
    var rows: seq<Row>
    ghost var fetched: seq<Read>   // files read since the start, with the hour of their directory
    ghost var added: seq<int>      // hours of the rows added since the start
    ghost const first: nat         // number of rows at the start
    ghost const start: seq<Row>    // the rows at the start
    ghost var gone: bool           // the current one of these is abandoned

    // The fields, as a value.
    ghost function View(): Place
      reads this, dataDir
    {
      Place(dataDir.HourNumber(), dataDir.state, dataDirValid, dataDirAccessInProgress, dataFilesInDir,
            dataFilesProcessed, fetched, added)
    }

    // The table is in step with the directory, wherever the clock is.
    ghost predicate Sound()
      reads this, dataDir
    {
      && dataDir.Consistent()
      && OneCurrent(rows, dataDir.HourNumber(), dataDir.dbID, dataDir.state) && Tracks(rows, first, added)
      && Ledger(start, rows, gone) && first == |start|
      && (dataDirValid ==> dataDir.state == Current)
      && dataFilesInDir !! dataFilesProcessed
    }

    // First half of getCurrentDirectory, on the rows of an earlier run.
    constructor (rows: seq<Row>)
      requires StartRow(rows).Dated()
      requires forall i, j :: 0 <= i < j < |rows| ==> !(rows[i].state == rows[j].state == Current)
      ensures Sound() && fresh(dataDir) && this.rows == this.start == rows && !gone
      ensures var start := StartRow(rows);
              View() == FirstPlace(Searching(start.HourNumber(), start.state), false, {})
    {
      hide DateOf, DayNumber;
      var c, p := LastWith(rows, Current), LastWith(rows, Processed);
      var start := StartRow(rows);
      dataDir := new DataDir(start.date, start.hour, if c >= 0 then c else if p >= 0 then p else 0, start.state);
      this.rows := rows;
      dataDirValid, dataDirAccessInProgress := false, false;
      dataFilesInDir, dataFilesProcessed := {}, {};
      fetched, added, first := [], [], |rows|;
      this.start, gone := rows, false;
    }

    // Closes the row of the current directory.
    method CloseRow(end: DirState)
      requires dataDir.Consistent() && dataDir.state == Current && end != Current
      requires OneCurrent(rows, dataDir.HourNumber(), dataDir.dbID, Current) && Tracks(rows, first, added)
      requires Ledger(start, rows, gone) && (end == Processed || (end == Abandoned && rows == start))
      modifies `rows, `gone, dataDir`state
      ensures Ledger(start, rows, gone) && gone == (old(gone) || end == Abandoned)
      ensures dataDir.Consistent() && dataDir.HourNumber() == old(dataDir.HourNumber()) && dataDir.state == Unknown
      ensures OneCurrent(rows, dataDir.HourNumber(), dataDir.dbID, Unknown) && Tracks(rows, first, added)
    {
      RowClosed(rows, dataDir.HourNumber(), dataDir.dbID, end, dataDir.HourNumber(), Unknown);
      TracksClosed(rows, first, added, dataDir.dbID, end);
      LedgerClosed(start, rows, gone, dataDir.dbID, end);
      gone := gone || end == Abandoned;
      rows := rows[dataDir.dbID := rows[dataDir.dbID].(state := end)];
      dataDir.state := Unknown;
    }

    // incDataDir on a directory that is not current.
    method NextDirectory(now: nat) returns (atPresent: bool)
      requires dataDir.Consistent() && dataDir.state != Current
      requires OneCurrent(rows, dataDir.HourNumber(), dataDir.dbID, dataDir.state)
      modifies dataDir
      ensures dataDir.Consistent() && dataDir.HourNumber() == old(dataDir.HourNumber()) + 1
      ensures dataDir.state == Proposed && (atPresent <==> dataDir.HourNumber() == HourOf(now))
      ensures OneCurrent(rows, dataDir.HourNumber(), dataDir.dbID, Proposed)
    {
      ghost var hour, dbID, state := dataDir.HourNumber(), dataDir.dbID, dataDir.state;
      hide *;
      atPresent := dataDir.IncDataDir(now);
      RowsKept(rows, hour, dbID, state, dataDir.HourNumber(), Proposed);
    }

    // addCurrentDirectoryRecord, and the directory becomes current.
    method OpenDirectory()
      requires dataDir.Consistent() && dataDir.state != Current
      requires OneCurrent(rows, dataDir.HourNumber(), dataDir.dbID, dataDir.state) && Tracks(rows, first, added)
      requires Ledger(start, rows, gone)
      modifies `rows, `added, dataDir`dbID, dataDir`state
      ensures Ledger(start, rows, gone)
      ensures dataDir.Consistent() && dataDir.HourNumber() == old(dataDir.HourNumber()) && dataDir.state == Current
      ensures OneCurrent(rows, dataDir.HourNumber(), dataDir.dbID, Current) && Tracks(rows, first, added)
      ensures added == old(added) + [dataDir.HourNumber()]
    {
      var r := Row(Date(dataDir.year, dataDir.month, dataDir.day), dataDir.hour, Current);
      DayNumberOfDateOf(dataDir.epochDay);
      hide DateOf, DayNumber, OneCurrent, Tracks;
      RowAdded(rows, dataDir.HourNumber(), dataDir.dbID, dataDir.state, r);
      TracksMore(rows, first, added, r);
      LedgerMore(start, rows, gone, r);
      dataDir.dbID := |rows|;
      rows := rows + [r];
      dataDir.state := Current;
      added := added + [dataDir.HourNumber()];
    }

    // One turn of the search.
    method OneTurn(look: Look) returns (r: Search)
      requires Sound() && !dataDirValid && dataDir.state in {Current, Proposed, Processed}
      requires View() == FirstPlace(Searching(dataDir.HourNumber(), dataDir.state), false, {})
      requires dataDir.state == Current ==> rows == start
      modifies this, dataDir
      ensures gone == (old(gone) || Gone(old(dataDir.state), [look]))
      ensures r == Turn(old(dataDir.HourNumber()), old(dataDir.state), look)
      ensures Sound() && View() == FirstPlace(r, false, {})
      ensures r.Searching? ==> dataDir.state == Proposed
    {
      hide DateOf, DayNumber, HourOf, OneCurrent, Tracks, DataDir.Consistent, DataDir.HourNumber;
      if dataDir.state == Processed {
        var atPresent := NextDirectory(look.before);
        if atPresent {
          return NoDirectory(dataDir.HourNumber());
        }
      }
      match look.probe {
        case NoResponse =>
          r := NoAnswer(dataDir.HourNumber(), dataDir.state);
        case Present =>
          r := Found(dataDir.HourNumber(), dataDir.state == Proposed);
          if dataDir.state == Proposed {
            OpenDirectory();
          }
          dataDirValid := true;
        case Absent =>
          if dataDir.state == Current {
            CloseRow(Abandoned);
          }
          var atPresent := NextDirectory(look.after);
          r := if atPresent then Waiting(dataDir.HourNumber()) else Searching(dataDir.HourNumber(), dataDir.state);
      }
    }

    // Second half of getCurrentDirectory: the search. `looks` is what it sees; it is still searching when they are
    // used up.
    method GetCurrentDirectory(looks: seq<Look>) returns (r: Search)
      requires Sound() && !dataDirValid && dataDir.state in {Current, Proposed, Processed}
      requires View() == FirstPlace(Searching(dataDir.HourNumber(), dataDir.state), false, {})
      requires rows == start && !gone
      modifies this, dataDir
      ensures gone == Gone(old(dataDir.state), looks)
      ensures r == Run(old(dataDir.HourNumber()), old(dataDir.state), looks)
      ensures Sound() && View() == FirstPlace(r, false, {})
    {
      hide DateOf, DayNumber, HourOf, Turn, Sound;
      ghost var hour0, state0 := dataDir.HourNumber(), dataDir.state;
      r := Searching(dataDir.HourNumber(), dataDir.state);
      var i := 0;
      while i < |looks|
        invariant 0 <= i <= |looks| && Sound() && !dataDirValid && dataDir.state in {Current, Proposed, Processed}
        invariant i == 0 ==> rows == start && !gone && dataDir.state == state0
        invariant i > 0 ==> gone == Gone(state0, looks) && dataDir.state == Proposed
        invariant r == Searching(dataDir.HourNumber(), dataDir.state) && View() == FirstPlace(r, false, {})
        invariant Run(hour0, state0, looks) == Run(r.hour, r.state, looks[i..])
      {
        assert looks[i..][1..] == looks[i + 1..];
        r := OneTurn(looks[i]);
        i := i + 1;
        if !r.Searching? {
          return;
        }
      }
    }

    // getCurrentDataFileSet: `known` tells whether the database has files of the directory, `names` are those
    // already dealt with.
    method GetCurrentDataFileSet(known: bool, names: set<string>, ghost r: Search)
      requires Sound() && View() == FirstPlace(r, false, {})
      modifies `dataDirAccessInProgress, `dataFilesInDir, `dataFilesProcessed
      ensures Sound() && View() == FirstPlace(r, known, names)
    {
      if !known {
        dataDirAccessInProgress := false;
      } else {
        dataFilesInDir, dataFilesProcessed := {}, names;
        dataDirAccessInProgress := true;
      }
    }

    // The loop of getDataFileList: names already processed are left out.
    static method GetDataFileList(listing: seq<string>, processed: set<string>) returns (files: set<string>)
      ensures files == (set f <- listing | f !in processed)
    {
      files := {};
      var i := 0;
      while i < |listing|
        invariant i <= |listing| && files == set f <- listing[..i] | f !in processed
      {
        assert listing[..i + 1] == listing[..i] + [listing[i]];
        if listing[i] !in processed {
          files := files + {listing[i]};
        }
        i := i + 1;
      }
      assert listing[..i] == listing;
    }

    method ListFiles(listing: seq<string>)
      requires Sound() && dataDirValid
      modifies `dataDirAccessInProgress, `dataFilesInDir, `dataFilesProcessed
      ensures Sound() && View() == Listed(old(View()), listing)
    {
      hide OneCurrent, Tracks, DataDir.Consistent, DataDir.HourNumber;
      if !dataDirAccessInProgress {
        dataDirAccessInProgress := true;
        dataFilesInDir, dataFilesProcessed := {}, {};
      }
      if dataFilesInDir == {} {
        dataFilesInDir := GetDataFileList(listing, dataFilesProcessed);
      }
    }

    // Reads the first file of the list.
    method ReadFile()
      requires Sound() && dataFilesInDir != {}
      modifies `dataFilesInDir, `dataFilesProcessed, `fetched
      ensures Sound() && View() == ReadNext(old(View()))
      ensures Least(old(dataFilesInDir)) !in old(dataFilesProcessed)
    {
      hide OneCurrent, Tracks, DataDir.Consistent, DataDir.HourNumber;
      var file := Least(dataFilesInDir);
      dataFilesProcessed := dataFilesProcessed + {file};
      dataFilesInDir := dataFilesInDir - {file};
      fetched := fetched + [Read(dataDir.HourNumber(), file)];
    }

    // First half of processUPMUdata: reads at most one file of the open directory.
    method ReadOneFile(p: Pass)
      requires Sound() && dataDirValid
      modifies `dataDirValid, `dataDirAccessInProgress, `dataFilesInDir, `dataFilesProcessed, `fetched
      ensures Sound() && View() == OneFile(old(View()), p)
    {
      dataDir.TimeOfHour();
      hide OneCurrent, Tracks, DataDir.Consistent, DataDir.HourNumber, DataDir.CreateTime, Listed, Age;
      ListFiles(p.listing);
      if dataFilesInDir != {} && p.outstanding <= MAX_OUTSTANDING_MEM_BUF && p.complete {
        ReadFile();
      }
      if dataFilesInDir == {} && Age(p.now, dataDir.CreateTime()) > 60 * 60 {
        dataDirValid, dataDirAccessInProgress := false, false;
      }
    }

    // The directory is released, and the next one proposed unless this one is of the hour the clock shows.
    method Release(now: nat)
      requires Sound() && !dataDirValid
      modifies this, dataDir
      ensures gone == old(gone)
      ensures Sound() && View() == Released(old(View()), now) && !dataDirValid && dataDir.state != Current
    {
      hide DateOf, DayNumber, OneCurrent, Tracks, DataDir.Consistent, DataDir.HourNumber, HourOf;
      if dataDir.state == Current {
        CloseRow(Processed);
        dataDirAccessInProgress := false;
      }
      dataDir.AtPresentIff(now);
      if !dataDir.IsAtPresent(now) {
        var _ := NextDirectory(now);
      }
    }

    // Second half of processUPMUdata: the next directory is opened if it is there.
    method MoveOn(p: Pass)
      requires Sound() && !dataDirValid
      modifies this, dataDir
      ensures gone == old(gone)
      ensures Sound() && View() == OpenedIf(Released(old(View()), p.later), p.probe)
    {
      hide OneCurrent, Tracks, DataDir.Consistent, DataDir.HourNumber, HourOf, Released;
      Release(p.later);
      if p.probe == Present {
        OpenDirectory();
        dataDirValid := true;
      }
    }

    // processUPMUdata
    method ProcessUPMUdata(p: Pass)
      requires Sound()
      modifies this, dataDir
      ensures gone == old(gone)
      ensures Sound() && View() == Next(old(View()), p)
    {
      hide Sound, OneFile, Released, OpenedIf, DataDir.HourNumber;
      if dataDirValid {
        ReadOneFile(p);
      }
      if !dataDirValid {
        MoveOn(p);
      }
    }
  }

  // The loop of the thread.
  method RunPasses(d: Discovery, passes: seq<Pass>)
    requires d.Sound()
    modifies d, d.dataDir
    ensures d.gone == old(d.gone)
    ensures d.Sound() && d.View() == After(old(d.View()), passes)
  {
    hide *;
    var n := 0;
    assert passes[0..] == passes;
    while n < |passes|
      invariant d.gone == old(d.gone)
      invariant 0 <= n <= |passes| && d.Sound() && After(d.View(), passes[n..]) == After(old(d.View()), passes)
    {
      AfterOne(d.View(), passes, n);
      d.ProcessUPMUdata(passes[n]);
      n := n + 1;
    }
    assert passes[n..] == [];
    AfterNone(d.View());
  }

  lemma {:induction false} AfterOne(s: Place, passes: seq<Pass>, n: nat)
    requires n < |passes|
    ensures After(s, passes[n..]) == After(Next(s, passes[n]), passes[n + 1..])
  {
    assert passes[n..][1..] == passes[n + 1..];
  }

  lemma {:induction false} AfterNone(s: Place)
    ensures After(s, []) == s
  {
  }

  // The search has ended with a directory, or with none that is there yet; only then does the thread run.
  predicate Ends(r: Search) {
    !r.Searching? && !r.NoDirectory?
  }

  // The clock does not go back during the search and the passes after it.
  ghost predicate RunClocked(start: Row, now: nat, looks: seq<Look>, passes: seq<Pass>)
    requires start.Dated()
  {
    Clocked(now, looks) && PassesClocked(EndClock(start.HourNumber(), start.state, now, looks), passes)
  }

  lemma {:induction false} FirstPlaceIsFresh(r: Search, known: bool, names: set<string>)
    requires Ends(r)
    ensures Fresh(FirstPlace(r, known, names))
  {
  }

  // From a start from which the search stays behind the clock, the whole run stays behind it, adds rows hour after hour
  // and reads no file twice.
  lemma {:induction false} RunsOnce(start: Row, now: nat, looks: seq<Look>, known: bool, names: set<string>,
                                    passes: seq<Pass>)
    requires start.Dated() && RunClocked(start, now, looks, passes)
    requires MayStart(start.HourNumber(), start.state, now, looks)
    requires Ends(Run(start.HourNumber(), start.state, looks))
    ensures var s := After(FirstPlace(Run(start.HourNumber(), start.state, looks), known, names), passes);
            var end := EndClock(start.HourNumber(), start.state, now, looks);
            s.hour <= HourOf(LastClock(end, passes)) && Increasing(s.added) && ReadOnce(s.fetched)
  {
    var r := Run(start.HourNumber(), start.state, looks);
    var end := EndClock(start.HourNumber(), start.state, now, looks);
    SearchEndsBehind(start.HourNumber(), start.state, now, looks);
    hide Run, EndClock, HourOf, After, LastClock;
    var s := FirstPlace(r, known, names);
    assert Kept(s, end);
    AfterKept(s, passes, end);
  }

  // A whole run of the thread. It does not start when the row it would start from is not accepted, or the search finds
  // no directory or has not ended. Otherwise, whatever the clock shows and the server answers, at most the row of the
  // open directory is current, a row stands for every directory opened, and the run is the one on values. If the search
  // stays behind the clock, so does the run, and no hour is added and no file read twice.
  method Thread(rows: seq<Row>, looks: seq<Look>, known: bool, names: set<string>, passes: seq<Pass>, ghost now: nat)
    returns (d: Discovery?)
    requires forall i, j :: 0 <= i < j < |rows| ==> !(rows[i].state == rows[j].state == Current)
    requires 1 <= StartRow(rows).date.month <= 12 && StartRow(rows).date.day >= 1 ==> StartRow(rows).Dated()
    ensures d != null <==>
              var start := StartRow(rows);
              1 <= start.date.month <= 12 && start.date.day >= 1 && Ends(Run(start.HourNumber(), start.state, looks))
    ensures d != null ==>
              && d.Sound()
              && OneCurrent(d.rows, d.dataDir.HourNumber(), d.dataDir.dbID, d.dataDir.state)
              && Ledger(rows, d.rows, Gone(StartRow(rows).state, looks)) && Tracks(d.rows, |rows|, d.added)
              && d.dataFilesInDir !! d.dataFilesProcessed
    ensures d != null ==>
              var start := StartRow(rows);
              d.View() == After(FirstPlace(Run(start.HourNumber(), start.state, looks), known, names), passes)
    ensures var start := StartRow(rows);
            d != null && RunClocked(start, now, looks, passes)
            && MayStart(start.HourNumber(), start.state, now, looks) ==>
              var end := EndClock(start.HourNumber(), start.state, now, looks);
              && d.dataDir.HourNumber() <= HourOf(LastClock(end, passes))
              && Increasing(d.added) && ReadOnce(d.fetched)
  {
    if !StartRow(rows).Accepted() {
      return null;
    }
    hide DateOf, DayNumber, HourOf, Turn, DataDir.HourNumber, Run, After, Next, MayStart, RunClocked, Increasing,
      ReadOnce, EndClock, LastClock, IsDate;
    ghost var start := StartRow(rows);
    var thread := new Discovery(rows);
    var r := thread.GetCurrentDirectory(looks);
    if r.NoDirectory? || r.Searching? {
      return null;
    }
    thread.GetCurrentDataFileSet(known, names, r);
    RunPasses(thread, passes);
    if RunClocked(start, now, looks, passes) && MayStart(start.HourNumber(), start.state, now, looks) {
      RunsOnce(start, now, looks, known, names, passes);
    }
    d := thread;
  }

  // From any start: the passes after the search read every file once, whatever the server answers, exactly when the
  // search has not ended ahead of the clock.
  lemma {:induction false} RunsOnceIff(start: Row, now: nat, looks: seq<Look>, known: bool, names: set<string>)
    requires start.Dated() && Clocked(now, looks) && Ends(Run(start.HourNumber(), start.state, looks))
    ensures var r := Run(start.HourNumber(), start.state, looks);
            var end := EndClock(start.HourNumber(), start.state, now, looks);
            AlwaysReadOnce(FirstPlace(r, known, names), end) <==> r.hour <= HourOf(end)
  {
    var r := Run(start.HourNumber(), start.state, looks);
    FirstPlaceIsFresh(r, known, names);
    ReadsOnceIff(FirstPlace(r, known, names), EndClock(start.HourNumber(), start.state, now, looks));
  }

  // A start that runs ahead: the hour the clock shows has been processed, and the next one is there already. Its files
  // can be read twice.
  lemma {:induction false} AStartReadsTwice(start: Row, now: nat, known: bool, names: set<string>)
    requires start.Dated() && start.state == Processed && start.HourNumber() == HourOf(now)
    ensures var looks := [Look(now, Present, now)];
            var r := Run(start.HourNumber(), start.state, looks);
            r == Found(HourOf(now) + 1, true) && !AlwaysReadOnce(FirstPlace(r, known, names), now)
  {
    var look := Look(now, Present, now);
    var looks := [look];
    assert looks[1..] == [] && looks[0] == look;
    var hour := start.HourNumber();
    hide HourOf, AlwaysReadOnce, IsDate, DayNumber;
    assert Clocked(now, looks);
    var r := Run(hour, start.state, looks);
    assert r == Found(HourOf(now) + 1, true) && EndClock(hour, start.state, now, looks) == now;
    RunsOnceIff(start, now, looks, known, names);
  }
}
