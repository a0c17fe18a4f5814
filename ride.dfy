/** The ride: a waiting queue (first in, first out), a ride history (a list in
    the order visitors rode), the cycle that moves visitors from the one to the
    other, and the history's CSV export, import and sort. */
module Rides {
  import opened JavaLang
  import opened Visitors
  import opened StableSorting
  import opened RideCsv

  /** The ride's operator. Employee.java is not part of this model: the ride
      only asks whether an operator is assigned. */
  class Employee {
  }

  /** The two exceptions `runOneCycle` throws, in the order it checks for them. */
  datatype CycleError = NoOperator | NoVisitorsInQueue

  /** The causes of the `FileOperationException`s that export and import throw
      before touching the file's contents. */
  datatype FileError = BlankFilename | FileNotFound | FileUnreadable

  /** What the file system holds under a filename: nothing, a file that may not
      be read, or a readable file with these lines (line terminators removed). */
  datatype FileState = Missing | Unreadable | Readable(lines: seq<string>)

  /** The two counters `importRideHistory` reports. */
  datatype ImportReport = ImportReport(imported: nat, errors: nat)

  /** The fields of each visitor of `s`, in order. */
  function Snapshot(s: seq<Visitor>): (ds: seq<VisitorData>)
    reads s
    ensures |ds| == |s|
    ensures forall i :: 0 <= i < |s| ==> ds[i] == s[i].Data()
  {
    seq(|s|, i requires 0 <= i < |s| reads s => s[i].Data())
  }

  /** Each visitor of `s` paired with its fields: the comparator sees the
      fields, the sorted list holds the visitors. */
  function Keyed(s: seq<Visitor>): (p: seq<(Visitor, VisitorData)>)
    reads s
    ensures |p| == |s|
    ensures forall i :: 0 <= i < |s| ==> p[i] == (s[i], s[i].Data())
  {
    seq(|s|, i requires 0 <= i < |s| reads s => (s[i], s[i].Data()))
  }

  /** How many visitors one cycle lets on: as many as wait, but no more than
      `maxRider`, and none when `maxRider` is zero or negative. */
  function RidersPerCycle(maxRider: int32, waiting: nat): (k: nat)
    ensures k <= waiting
    ensures maxRider <= 0 ==> k == 0
    ensures 0 <= maxRider ==> k <= maxRider as int
    ensures 0 <= maxRider ==> k == waiting || k == maxRider as int
  {
    if maxRider <= 0 then 0
    else if waiting < maxRider as int then waiting
    else maxRider as int
  }

  /** Pairs whose second component is their first's fields form `Keyed` of
      their first components. */
  lemma KeyedOfTags(p: seq<(Visitor, VisitorData)>)
    requires forall i :: 0 <= i < |p| ==> p[i].1 == p[i].0.Data()
    ensures Keyed(Tags(p)) == p
  {
  }

  /** Visitors whose fields are, one by one, `records` from position `n0` on
      make up a suffix whose snapshot is `records`. */
  lemma SnapshotOfSuffix(h: seq<Visitor>, n0: nat, records: seq<VisitorData>)
    requires |h| == n0 + |records|
    requires forall j :: 0 <= j < |records| ==> h[n0 + j].Data() == records[j]
    ensures Snapshot(h[n0..]) == records
  {
    var ds := Snapshot(h[n0..]);
    forall j | 0 <= j < |records| ensures ds[j] == records[j] {
      assert h[n0..][j] == h[n0 + j];
    }
  }

  lemma ExportLinesPointwise(lines: seq<string>, ds: seq<VisitorData>)
    requires |lines| == |ds|
    requires forall i :: 0 <= i < |ds| ==> lines[i] == FormatLine(ds[i])
    ensures lines == ExportLines(ds)
  {
  }

  /** `list.sort(cmp)` on a list of visitors, the comparator seeing each
      visitor's fields: the visitors in the order of the stable sort of their
      fields. */
  function SortedBy(h: seq<Visitor>, cmp: (VisitorData, VisitorData) -> int): seq<Visitor>
    reads h
  {
    Tags(StableSort(Keyed(h), cmp))
  }

  /** Sorting keeps every visitor paired with its own fields. */
  lemma SortKeepsFields(keyed: seq<(Visitor, VisitorData)>, cmp: (VisitorData, VisitorData) -> int)
    requires forall i :: 0 <= i < |keyed| ==> keyed[i].1 == keyed[i].0.Data()
    ensures var sorted := StableSort(keyed, cmp);
            forall i :: 0 <= i < |sorted| ==> sorted[i].1 == sorted[i].0.Data()
  {
    var sorted := StableSort(keyed, cmp);
    forall i | 0 <= i < |sorted| ensures sorted[i].1 == sorted[i].0.Data() {
      assert sorted[i] in multiset(keyed);
    }
  }

  /** The sorted list holds the same visitors, each still paired with its own
      fields, in the order of the stable sort of those fields. */
  lemma SortedByIsStableSort(h: seq<Visitor>, cmp: (VisitorData, VisitorData) -> int)
    ensures multiset(SortedBy(h, cmp)) == multiset(h)
    ensures Keyed(SortedBy(h, cmp)) == StableSort(Keyed(h), cmp)
  {
    var keyed := Keyed(h);
    assert Tags(keyed) == h;
    StableSortPermutesTags(keyed, cmp);
    SortKeepsFields(keyed, cmp);
    KeyedOfTags(StableSort(keyed, cmp));
  }

  /** With a comparator that obeys the `Comparator` contract, the sorted
      visitors are in non-decreasing order of their fields, and visitors whose
      fields compare as equal keep their relative order. */
  lemma SortedByIsOrdered(h: seq<Visitor>, cmp: (VisitorData, VisitorData) -> int)
    requires IsComparator(cmp)
    ensures var r := SortedBy(h, cmp);
            forall i, j :: 0 <= i < j < |r| ==> cmp(r[i].Data(), r[j].Data()) <= 0
    ensures forall y :: Class(Keyed(SortedBy(h, cmp)), y, cmp) == Class(Keyed(h), y, cmp)
  {
    var keyed := Keyed(h);
    SortedByIsStableSort(h, cmp);
    StableSortSorted(keyed, cmp);
    forall y ensures Class(StableSort(keyed, cmp), y, cmp) == Class(keyed, y, cmp) {
      StableSortIsStable(keyed, y, cmp);
    }
  }

  class Ride {
    /** `None` stands for a null name (the default constructor sets none). */
    var rideName: Option<string>
    var operator: Employee?
    var maxRider: int32
    var numOfCycles: int32
    var waitingQueue: seq<Visitor>
    var rideHistory: seq<Visitor>

    /** `new Ride()`: no name, no operator, two riders per cycle, no cycles
        run, an empty queue and an empty history. */
    constructor ()
      ensures rideName == None && operator == null
      ensures maxRider == 2 && numOfCycles == 0
      ensures waitingQueue == [] && rideHistory == []
    {
      rideName := None;
      operator := null;
      maxRider := 2;
      numOfCycles := 0;
      waitingQueue := [];
      rideHistory := [];
    }

    /** `new Ride(rideName, operator, maxRider)`: the three fields as given (any
        `maxRider`, zero and negative included), the rest as in `new Ride()`. */
    constructor Create(rideName: Option<string>, operator: Employee?, maxRider: int32)
      ensures this.rideName == rideName && this.operator == operator
      ensures this.maxRider == maxRider && numOfCycles == 0
      ensures waitingQueue == [] && rideHistory == []
    {
      this.rideName := rideName;
      this.operator := operator;
      this.maxRider := maxRider;
      numOfCycles := 0;
      waitingQueue := [];
      rideHistory := [];
    }

    method GetRideName() returns (r: Option<string>)
      ensures r == rideName
    {
      r := rideName;
    }

    method SetRideName(rideName: Option<string>)
      modifies this`rideName
      ensures this.rideName == rideName
    {
      this.rideName := rideName;
    }

    method GetOperator() returns (r: Employee?)
      ensures r == operator
    {
      r := operator;
    }

    method SetOperator(operator: Employee?)
      modifies this`operator
      ensures this.operator == operator
    {
      this.operator := operator;
    }

    method GetMaxRider() returns (r: int32)
      ensures r == maxRider
    {
      r := maxRider;
    }

    /** Stores any `int`, without validation. */
    method SetMaxRider(maxRider: int32)
      modifies this`maxRider
      ensures this.maxRider == maxRider
    {
      this.maxRider := maxRider;
    }

    method GetNumOfCycles() returns (r: int32)
      ensures r == numOfCycles
    {
      r := numOfCycles;
    }

    /** Joins `visitor` to the back of the queue; a null visitor is refused and
        the queue is left as it was. */
    method AddVisitorToQueue(visitor: Visitor?)
      modifies this`waitingQueue
      ensures visitor == null ==> waitingQueue == old(waitingQueue)
      ensures visitor != null ==> waitingQueue == old(waitingQueue) + [visitor]
    {
      if visitor == null {
        return;
      }
      waitingQueue := waitingQueue + [visitor];
    }

    /** Takes the visitor at the front of the queue away; an empty queue stays empty. */
    method RemoveVisitorFromQueue()
      modifies this`waitingQueue
      ensures old(waitingQueue) == [] ==> waitingQueue == []
      ensures old(waitingQueue) != [] ==> waitingQueue == old(waitingQueue)[1..]
    {
      if waitingQueue != [] {
        waitingQueue := waitingQueue[1..];
      }
    }

    /** Appends `visitor` to the history; a null visitor is refused and the
        history is left as it was. */
    method AddVisitorToHistory(visitor: Visitor?)
      modifies this`rideHistory
      ensures visitor == null ==> rideHistory == old(rideHistory)
      ensures visitor != null ==> rideHistory == old(rideHistory) + [visitor]
    {
      if visitor == null {
        return;
      }
      rideHistory := rideHistory + [visitor];
    }

    /** `rideHistory.contains(visitor)`: whether some visitor in the history has
        the id and the name of `visitor`; false for a null visitor. */
    method CheckVisitorFromHistory(visitor: Visitor?) returns (found: bool)
      ensures found <==> visitor != null &&
                         exists i :: 0 <= i < |rideHistory| &&
                           rideHistory[i].id == visitor.id && rideHistory[i].name == visitor.name
    {
      if visitor == null {
        return false;
      }
      found := false;
      var i := 0;
      while i < |rideHistory| && !found
        invariant 0 <= i <= |rideHistory|
        invariant found <==> exists j :: 0 <= j < i && visitor.Equals(rideHistory[j])
      {
        if visitor.Equals(rideHistory[i]) {
          found := true;
        }
        i := i + 1;
      }
    }

    /** The number of visitors in the history. */
    method NumberOfVisitors() returns (count: nat)
      ensures count == |rideHistory|
    {
      count := |rideHistory|;
    }

    /** `runOneCycle`: with no operator, or with an empty queue, throws and
        changes nothing; otherwise moves the first `RidersPerCycle` visitors of
        the queue, in queue order, to the end of the history, counts one more
        cycle (with `int` wrap-around) and reports how many rode. No visitor is
        lost or duplicated: history followed by queue is the same sequence
        before and after. */
    method RunOneCycle() returns (outcome: Result<nat, CycleError>)
      modifies this`waitingQueue, this`rideHistory, this`numOfCycles
      ensures operator == null ==>
                outcome == Err(NoOperator) &&
                waitingQueue == old(waitingQueue) && rideHistory == old(rideHistory) &&
                numOfCycles == old(numOfCycles)
      ensures operator != null && old(waitingQueue) == [] ==>
                outcome == Err(NoVisitorsInQueue) &&
                waitingQueue == old(waitingQueue) && rideHistory == old(rideHistory) &&
                numOfCycles == old(numOfCycles)
      ensures operator != null && old(waitingQueue) != [] ==>
                var k := RidersPerCycle(maxRider, |old(waitingQueue)|);
                && outcome == Ok(k)
                && rideHistory == old(rideHistory) + old(waitingQueue)[..k]
                && waitingQueue == old(waitingQueue)[k..]
                && numOfCycles == Increment(old(numOfCycles))
      ensures rideHistory + waitingQueue == old(rideHistory) + old(waitingQueue)
    {
      if operator == null {
        return Err(NoOperator);
      }
      if waitingQueue == [] {
        return Err(NoVisitorsInQueue);
      }
      var ridersProcessed: nat := 0;
      while ridersProcessed < maxRider as int && waitingQueue != []
        invariant ridersProcessed <= |old(waitingQueue)|
        invariant ridersProcessed == 0 || ridersProcessed <= maxRider as int
        invariant numOfCycles == old(numOfCycles)
        invariant waitingQueue == old(waitingQueue)[ridersProcessed..]
        invariant rideHistory == old(rideHistory) + old(waitingQueue)[..ridersProcessed]
        decreases |waitingQueue|
      {
        var visitor := waitingQueue[0];
        waitingQueue := waitingQueue[1..];
        assert old(waitingQueue)[..ridersProcessed + 1]
            == old(waitingQueue)[..ridersProcessed] + [visitor];
        rideHistory := rideHistory + [visitor];
        ridersProcessed := ridersProcessed + 1;
      }
      numOfCycles := Increment(numOfCycles);
      assert old(waitingQueue)[..ridersProcessed] + old(waitingQueue)[ridersProcessed..]
          == old(waitingQueue);
      outcome := Ok(ridersProcessed);
    }

    /** `exportRideHistory`: a filename that is empty or all blanks is refused;
        otherwise the file is written with one `FormatLine` per visitor of the
        history, in history order. The result holds the lines written. */
    method ExportRideHistory(filename: string) returns (result: Result<seq<string>, FileError>)
      ensures IsBlank(filename) ==> result == Err(BlankFilename)
      ensures !IsBlank(filename) ==> result == Ok(ExportLines(Snapshot(rideHistory)))
    {
      if Trim(filename) == "" {
        return Err(BlankFilename);
      }
      var lines := FormatHistory();
      result := Ok(lines);
    }

    /** The writing loop of `exportRideHistory`: one `FormatLine` per visitor of
        the history, in history order. */
    method FormatHistory() returns (lines: seq<string>)
      ensures lines == ExportLines(Snapshot(rideHistory))
    {
      lines := [];
      for i := 0 to |rideHistory|
        invariant |lines| == i
        invariant forall j :: 0 <= j < i ==> lines[j] == FormatLine(rideHistory[j].Data())
      {
        lines := lines + [FormatLine(rideHistory[i].Data())];
      }
      ExportLinesPointwise(lines, Snapshot(rideHistory));
    }

    /** `importRideHistory`: a blank filename, a missing file and an unreadable
        file are refused in that order, leaving the history as it was. Otherwise
        every line is read with `ReadLine`: the history keeps its visitors and
        gains one new visitor per imported line, in file order, and the report
        counts the imported lines and the lines skipped with a warning. */
    method ImportRideHistory(filename: string, file: FileState) returns (result: Result<ImportReport, FileError>)
      modifies this`rideHistory
      ensures IsBlank(filename) ==> result == Err(BlankFilename) && rideHistory == old(rideHistory)
      ensures !IsBlank(filename) && file.Missing? ==>
                result == Err(FileNotFound) && rideHistory == old(rideHistory)
      ensures !IsBlank(filename) && file.Unreadable? ==>
                result == Err(FileUnreadable) && rideHistory == old(rideHistory)
      ensures !IsBlank(filename) && file.Readable? ==>
                var records := ImportedRecords(file.lines);
                && result == Ok(ImportReport(|records|, ErrorCount(file.lines)))
                && result.value.imported + result.value.errors == NonBlankCount(file.lines)
                && |rideHistory| == |old(rideHistory)| + |records|
                && rideHistory[..|old(rideHistory)|] == old(rideHistory)
                && Snapshot(rideHistory[|old(rideHistory)|..]) == records
                && forall i :: |old(rideHistory)| <= i < |rideHistory| ==> fresh(rideHistory[i])
    {
      if Trim(filename) == "" {
        return Err(BlankFilename);
      }
      if file.Missing? {
        return Err(FileNotFound);
      }
      if file.Unreadable? {
        return Err(FileUnreadable);
      }
      var report := ImportLines(file.lines, ReadLine);
      ImportAccounting(file.lines);
      result := Ok(report);
    }

    /** The loop of `importRideHistory` over the lines of a readable file, each
        line read with `read` (`ImportRideHistory` passes `ReadLine`): each
        imported line appends a new visitor, in file order, and the report
        counts the imported lines and the lines skipped with a warning. */
    method ImportLines(lines: seq<string>, read: string -> LineOutcome) returns (report: ImportReport)
      modifies this`rideHistory
      ensures report == ImportReport(|Records(ReadAll(read, lines))|, Errors(ReadAll(read, lines)))
      ensures |rideHistory| == |old(rideHistory)| + |Records(ReadAll(read, lines))|
      ensures rideHistory[..|old(rideHistory)|] == old(rideHistory)
      ensures Snapshot(rideHistory[|old(rideHistory)|..]) == Records(ReadAll(read, lines))
      ensures forall i :: |old(rideHistory)| <= i < |rideHistory| ==> fresh(rideHistory[i])
    {
      var n0 := |rideHistory|;
      var importedCount: nat, errorCount: nat := 0, 0;
      // The outcomes of the lines read so far, and the visitors they gave.
      ghost var outs: seq<LineOutcome> := [];
      ghost var records: seq<VisitorData> := [];
      var i := 0;
      while i < |lines|
        invariant i <= |lines| && |outs| == i
        invariant forall k :: 0 <= k < i ==> outs[k] == read(lines[k])
        invariant records == Records(outs)
        invariant errorCount == Errors(outs)
        invariant importedCount == |records|
        invariant |rideHistory| == n0 + importedCount
        invariant rideHistory[..n0] == old(rideHistory)
        invariant forall j :: 0 <= j < importedCount ==> rideHistory[n0 + j].Data() == records[j]
        invariant forall j :: n0 <= j < |rideHistory| ==> fresh(rideHistory[j])
      {
        var outcome := read(lines[i]);
        RecordsOfSnoc(outs, outcome);
        if outcome.Imported? {
          var d := outcome.record;
          var visitor := new Visitor.WithTickets(d.name, d.age, d.id, d.membershipLevel, d.tickets);
          rideHistory := rideHistory + [visitor];
          importedCount := importedCount + 1;
        } else if outcome != Blank {
          errorCount := errorCount + 1;
        }
        outs, records := outs + [outcome], records + RecordOf(outcome);
        i := i + 1;
      }
      assert outs == ReadAll(read, lines);
      SnapshotOfSuffix(rideHistory, n0, records);
      report := ImportReport(importedCount, errorCount);
    }

    /** `sortRideHistory`: a null comparator, or an empty history, leaves the
        history as it was. Otherwise the history becomes its stable sort by the
        comparator on the visitors' fields: the same visitors, and when the
        comparator obeys the `Comparator` contract, in non-decreasing order with
        visitors that compare as equal keeping their relative order. */
    method SortRideHistory(comparator: Option<(VisitorData, VisitorData) -> int>)
      modifies this`rideHistory
      ensures comparator.None? || old(rideHistory) == [] ==> rideHistory == old(rideHistory)
      ensures comparator.Some? ==>
                Keyed(rideHistory) == StableSort(old(Keyed(rideHistory)), comparator.value)
      ensures multiset(rideHistory) == multiset(old(rideHistory))
      ensures comparator.Some? && IsComparator(comparator.value) ==>
                forall i, j :: 0 <= i < j < |rideHistory| ==>
                  comparator.value(rideHistory[i].Data(), rideHistory[j].Data()) <= 0
      ensures comparator.Some? && IsComparator(comparator.value) ==>
                forall y :: Class(Keyed(rideHistory), y, comparator.value)
                         == Class(old(Keyed(rideHistory)), y, comparator.value)
    {
      if comparator.None? {
        return;
      }
      if rideHistory == [] {
        return;
      }
      SortedByIsStableSort(rideHistory, comparator.value);
      if IsComparator(comparator.value) {
        SortedByIsOrdered(rideHistory, comparator.value);
      }
      rideHistory := SortedBy(rideHistory, comparator.value);
    }
  }
}
