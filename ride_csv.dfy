/** The line format of the ride-history file: `exportRideHistory` writes one
    line `name,age,id,membershipLevel,tickets` per visitor, and
    `importRideHistory` reads the lines back one at a time, skipping blank lines
    and counting each line it cannot read as an error instead of stopping. */
module RideCsv {
  import opened JavaLang
  import opened Visitors

  /** The fields of the exported line, in order. */
  function FieldsOf(d: VisitorData): seq<string>
  {
    [d.name, IntToString(d.age), d.id, d.membershipLevel, IntToString(d.tickets)]
  }

  /** The line `exportRideHistory` writes for a visitor with these fields. */
  function FormatLine(d: VisitorData): string
  {
    Join(FieldsOf(d))
  }

  /** The lines written for a history whose visitors have these fields, in order. */
  function ExportLines(ds: seq<VisitorData>): (lines: seq<string>)
    ensures |lines| == |ds|
    ensures forall i :: 0 <= i < |ds| ==> lines[i] == FormatLine(ds[i])
  {
    if ds == [] then [] else ExportLines(ds[..|ds| - 1]) + [FormatLine(ds[|ds| - 1])]
  }

  /** What reading one line comes to: skipped as blank, a visitor to append, or
      one of the two per-line warnings (too few fields; a number that does not
      parse). */
  datatype LineOutcome = Blank | Imported(record: VisitorData) | InvalidFormat | InvalidNumber

  predicate IsBlank(raw: string)
  {
    forall i :: 0 <= i < |raw| ==> IsTrimmed(raw[i])
  }

  /** One turn of the import loop: trim the line, skip it if nothing is left,
      split it at the commas, and with at least four fields build a visitor
      from the first four and the optional fifth (the ticket count, 1 if there
      is no fifth field); fields after the fifth are ignored. */
  function ReadLine(raw: string): (o: LineOutcome)
    ensures o == Blank <==> IsBlank(raw)
    ensures o == InvalidFormat <==> !IsBlank(raw) && |Split(Trim(raw))| < 4
    ensures o.Imported? ==>
              var parts := Split(Trim(raw));
              && |parts| >= 4
              && o.record.name == parts[0]
              && ParseInt(parts[1]) == Some(o.record.age)
              && o.record.id == parts[2]
              && o.record.membershipLevel == parts[3]
              && (if |parts| >= 5 then ParseInt(parts[4]) == Some(o.record.tickets)
                  else o.record.tickets == 1)
    ensures o == InvalidNumber <==>
              var parts := Split(Trim(raw));
              && !IsBlank(raw) && |parts| >= 4
              && (ParseInt(parts[1]).None? || (|parts| >= 5 && ParseInt(parts[4]).None?))
  {
    var line := Trim(raw);
    if line == "" then Blank
    else
      var parts := Split(line);
      if |parts| < 4 then InvalidFormat
      else
        match ParseInt(parts[1])
        case None => InvalidNumber
        case Some(age) =>
          var tickets := if |parts| >= 5 then ParseInt(parts[4]) else Some(1);
          match tickets
          case None => InvalidNumber
          case Some(t) => Imported(VisitorData(parts[0], age, parts[2], parts[3], t))
  }

  /** The outcome of reading each line of `lines` with `read`, in order. */
  function ReadAll(read: string -> LineOutcome, lines: seq<string>): (outs: seq<LineOutcome>)
    ensures |outs| == |lines|
    ensures forall k :: 0 <= k < |lines| ==> outs[k] == read(lines[k])
  {
    seq(|lines|, k requires 0 <= k < |lines| => read(lines[k]))
  }

  /** The visitor one outcome contributes: none, or the one it holds. */
  function RecordOf(o: LineOutcome): seq<VisitorData>
  {
    match o
    case Imported(d) => [d]
    case _ => []
  }

  /** The outcomes that print a warning and count as errors. */
  predicate IsError(o: LineOutcome)
  {
    o.InvalidFormat? || o.InvalidNumber?
  }

  /** The visitors a run of outcomes appends to the history, in order. */
  function Records(outs: seq<LineOutcome>): seq<VisitorData>
  {
    if outs == [] then [] else Records(outs[..|outs| - 1]) + RecordOf(outs[|outs| - 1])
  }

  function Errors(outs: seq<LineOutcome>): nat
  {
    if outs == [] then 0
    else Errors(outs[..|outs| - 1]) + (if IsError(outs[|outs| - 1]) then 1 else 0)
  }

  function NonBlank(outs: seq<LineOutcome>): nat
  {
    if outs == [] then 0
    else NonBlank(outs[..|outs| - 1]) + (if outs[|outs| - 1] == Blank then 0 else 1)
  }

  /** The visitors an import of `lines` appends to the history, in order. */
  function ImportedRecords(lines: seq<string>): seq<VisitorData>
  {
    Records(ReadAll(ReadLine, lines))
  }

  /** The number of lines an import of `lines` skips with a warning. */
  function ErrorCount(lines: seq<string>): nat
  {
    Errors(ReadAll(ReadLine, lines))
  }

  /** The number of lines of `lines` that are not blank. */
  function NonBlankCount(lines: seq<string>): nat
  {
    NonBlank(ReadAll(ReadLine, lines))
  }

  lemma InitAndLast<X>(s: seq<X>)
    requires s != []
    ensures s == s[..|s| - 1] + [s[|s| - 1]]
  {
  }

  lemma ReadAllOfSnoc(read: string -> LineOutcome, lines: seq<string>, raw: string)
    ensures ReadAll(read, lines + [raw]) == ReadAll(read, lines) + [read(raw)]
  {
  }

  lemma RecordsOfSnoc(outs: seq<LineOutcome>, o: LineOutcome)
    ensures Records(outs + [o]) == Records(outs) + RecordOf(o)
    ensures Errors(outs + [o]) == Errors(outs) + (if IsError(o) then 1 else 0)
    ensures NonBlank(outs + [o]) == NonBlank(outs) + (if o == Blank then 0 else 1)
  {
    assert (outs + [o])[..|outs|] == outs;
  }

  /** One turn of the import loop: the line's outcome is added at the end. */
  lemma ImportOfSnoc(lines: seq<string>, raw: string)
    ensures ImportedRecords(lines + [raw]) == ImportedRecords(lines) + RecordOf(ReadLine(raw))
    ensures ErrorCount(lines + [raw]) == ErrorCount(lines) + (if IsError(ReadLine(raw)) then 1 else 0)
    ensures NonBlankCount(lines + [raw]) == NonBlankCount(lines) + (if IsBlank(raw) then 0 else 1)
  {
    ReadAllOfSnoc(ReadLine, lines, raw);
    RecordsOfSnoc(ReadAll(ReadLine, lines), ReadLine(raw));
  }

  /** A blank line adds nothing; any other line adds exactly one visitor or
      exactly one error. */
  lemma OneOutcomePerLine(raw: string)
    ensures IsBlank(raw) ==> RecordOf(ReadLine(raw)) == [] && !IsError(ReadLine(raw))
    ensures !IsBlank(raw) ==> |RecordOf(ReadLine(raw))| + (if IsError(ReadLine(raw)) then 1 else 0) == 1
  {
  }

  lemma {:induction false} RecordsAccounting(outs: seq<LineOutcome>)
    ensures |Records(outs)| + Errors(outs) == NonBlank(outs)
  {
    if outs != [] {
      RecordsAccounting(outs[..|outs| - 1]);
    }
  }

  /** Every line that is not blank is either imported or counted as an error. */
  lemma ImportAccounting(lines: seq<string>)
    ensures |ImportedRecords(lines)| + ErrorCount(lines) == NonBlankCount(lines)
  {
    RecordsAccounting(ReadAll(ReadLine, lines));
  }

  /** Appending blank lines changes neither what is imported nor the error count. */
  lemma {:induction false} BlankLinesAreSkipped(lines: seq<string>, blanks: seq<string>)
    requires forall i :: 0 <= i < |blanks| ==> IsBlank(blanks[i])
    ensures ImportedRecords(lines + blanks) == ImportedRecords(lines)
    ensures ErrorCount(lines + blanks) == ErrorCount(lines)
  {
    if blanks == [] {
      assert lines + blanks == lines;
    } else {
      var init, raw := blanks[..|blanks| - 1], blanks[|blanks| - 1];
      BlankLinesAreSkipped(lines, init);
      InitAndLast(blanks);
      assert lines + blanks == (lines + init) + [raw];
      ImportOfSnoc(lines + init, raw);
      assert ReadLine(raw) == Blank;
    }
  }

  /** A four-field line gets one ticket. */
  lemma DefaultTicketCount(raw: string)
    requires |Split(Trim(raw))| == 4
    requires ReadLine(raw).Imported?
    ensures ReadLine(raw).record.tickets == 1
  {
  }

  lemma PiecesOfTrailingComma(a: string, b: string, c: string)
    requires ',' !in a && ',' !in b && ',' !in c
    ensures Pieces(a + "," + b + "," + c + ",") == [a, b, c, ""]
  {
    var l3 := c + "," + "";
    var l2 := b + "," + l3;
    assert a + "," + b + "," + c + "," == a + "," + l2;
    PiecesOfCommaFree("");
    PiecesOfCons(c, "");
    PiecesOfCons(b, l3);
    PiecesOfCons(a, l2);
  }

  /** `split` drops the empty field after a trailing comma. */
  lemma SplitDropsTrailingEmptyField(a: string, b: string, c: string)
    requires ',' !in a && ',' !in b && ',' !in c
    requires c != ""
    ensures Split(a + "," + b + "," + c + ",") == [a, b, c]
  {
    var line := a + "," + b + "," + c + ",";
    assert ',' in line by { assert line[|a|] == ','; }
    PiecesOfTrailingComma(a, b, c);
    assert DropTrailingEmpty([a, b, c, ""]) == [a, b, c] by {
      assert [a, b, c, ""][..3] == [a, b, c];
    }
  }

  /** Because `split` drops a trailing empty field, a line that ends in a comma
      after the id has only three fields and is rejected. */
  lemma TrailingEmptyFieldIsRejected(name: string, age: string, id: string)
    requires ',' !in name && ',' !in age && ',' !in id
    requires id != ""
    requires name == "" || !IsTrimmed(name[0])
    ensures ReadLine(name + "," + age + "," + id + ",") == InvalidFormat
  {
    var line := name + "," + age + "," + id + ",";
    assert line[0] == (if name == "" then ',' else name[0]);
    assert line[|line| - 1] == ',';
    assert Trim(line) == line;
    SplitDropsTrailingEmptyField(name, age, id);
  }

  /** A visitor survives the line format when no field it writes can be taken
      for a separator and trimming cannot alter the line: no commas and no line
      breaks (which `readLine` would split at) in the text fields, and a name
      that does not start with a character `trim` removes. */
  predicate Exportable(d: VisitorData)
  {
    && ',' !in d.name && ',' !in d.id && ',' !in d.membershipLevel
    && '\n' !in d.name && '\n' !in d.id && '\n' !in d.membershipLevel
    && '\r' !in d.name && '\r' !in d.id && '\r' !in d.membershipLevel
    && (d.name == "" || !IsTrimmed(d.name[0]))
  }

  /** The exported line begins with the name (or with the comma after an empty
      name) and ends with the last digit of the ticket count. */
  lemma FormatLineEnds(d: VisitorData)
    ensures FormatLine(d) != []
    ensures FormatLine(d)[0] == (if d.name == "" then ',' else d.name[0])
    ensures FormatLine(d)[|FormatLine(d)| - 1] == IntToString(d.tickets)[|IntToString(d.tickets)| - 1]
  {
    var parts := FieldsOf(d);
    ParseIntOfIntToString(d.tickets);
    assert FormatLine(d) == d.name + "," + Join(parts[1..]) by {
      JoinOfCons(d.name, parts[1..]);
      assert parts == [d.name] + parts[1..];
    }
    assert Join(parts[1..]) == IntToString(d.age) + "," + Join(parts[2..]) by {
      JoinOfCons(IntToString(d.age), parts[2..]);
      assert parts[1..] == [IntToString(d.age)] + parts[2..];
    }
    assert Join(parts[2..]) == d.id + "," + Join(parts[3..]) by {
      JoinOfCons(d.id, parts[3..]);
      assert parts[2..] == [d.id] + parts[3..];
    }
    assert Join(parts[3..]) == d.membershipLevel + "," + IntToString(d.tickets) by {
      JoinOfCons(d.membershipLevel, [IntToString(d.tickets)]);
      assert parts[3..] == [d.membershipLevel] + [IntToString(d.tickets)];
    }
  }

  lemma TrimOfFormatLine(d: VisitorData)
    requires Exportable(d)
    ensures Trim(FormatLine(d)) == FormatLine(d)
  {
    FormatLineEnds(d);
    ParseIntOfIntToString(d.tickets);
  }

  /** `split` cuts the exported line back into its five fields. */
  lemma SplitOfFormatLine(d: VisitorData)
    requires Exportable(d)
    ensures Split(FormatLine(d)) == FieldsOf(d)
  {
    var parts := FieldsOf(d);
    ParseIntOfIntToString(d.age);
    ParseIntOfIntToString(d.tickets);
    assert forall i :: 0 <= i < |parts| ==> ',' !in parts[i] by {
      forall i | 0 <= i < |parts| ensures ',' !in parts[i] {
        if i == 1 {
          assert parts[i] == IntToString(d.age);
        } else if i == 4 {
          assert parts[i] == IntToString(d.tickets);
        }
      }
    }
    SplitOfJoin(parts);
  }

  /** Reading back the line exported for a visitor gives the same five fields. */
  lemma LineRoundTrip(d: VisitorData)
    requires Exportable(d)
    ensures ReadLine(FormatLine(d)) == Imported(d)
  {
    var line, parts := FormatLine(d), FieldsOf(d);
    assert Trim(line) == line by {
      TrimOfFormatLine(d);
    }
    assert Split(line) == parts by {
      SplitOfFormatLine(d);
    }
    assert ParseInt(parts[1]) == Some(d.age) && ParseInt(parts[4]) == Some(d.tickets) by {
      ParseIntOfIntToString(d.age);
      ParseIntOfIntToString(d.tickets);
    }
  }

  /** Importing the lines exported for a history of exportable visitors appends
      exactly those visitors, in order, with no errors. */
  lemma {:induction false} ImportOfExport(ds: seq<VisitorData>)
    requires forall i :: 0 <= i < |ds| ==> Exportable(ds[i])
    ensures ImportedRecords(ExportLines(ds)) == ds
    ensures ErrorCount(ExportLines(ds)) == 0
  {
    if ds != [] {
      var init, d := ds[..|ds| - 1], ds[|ds| - 1];
      ImportOfExport(init);
      assert ExportLines(ds) == ExportLines(init) + [FormatLine(d)];
      ImportOfSnoc(ExportLines(init), FormatLine(d));
      LineRoundTrip(d);
      InitAndLast(ds);
    }
  }
}
