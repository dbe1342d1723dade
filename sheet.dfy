/** The destination sheet as far as reading back what was written matters:
    the program clears the sheet and writes the header row followed by the
    data rows; the next run reads from the second row over a fixed range,
    and the service returns each row cut to the range and without its
    trailing empty cells. */
module Sheet {
  import opened Base
  import opened Schema
  import Snapshot

  /** Columns covered by the range the program reads, "A2:AB": A to AB. */
  const READ_WIDTH_AS_WRITTEN: nat := 28

  /** Columns a range must cover to read all report columns back, "A2:AD". */
  const READ_WIDTH: nat := 30

  /** What the program writes: the header row, then the data rows. */
  function Output(rows: seq<Row>): (v: seq<seq<string>>)
    ensures |v| == |rows| + 1 && v[0] == COLUMNS && v[1..] == rows
  {
    [COLUMNS] + rows
  }

  /** A row without its trailing empty cells. */
  function TrimBlanks(line: seq<string>): (r: seq<string>)
    ensures |r| <= |line| && r == line[..|r|]
    ensures forall k :: |r| <= k < |line| ==> line[k] == ""
    ensures r == [] || r[|r| - 1] != ""
  {
    if line != [] && line[|line| - 1] == "" then TrimBlanks(line[..|line| - 1]) else line
  }

  function Cut(line: seq<string>, width: nat): seq<string>
  {
    if |line| <= width then line else line[..width]
  }

  /** The rows the service returns for a range starting at the second row
      and width columns wide. */
  function Read(values: seq<seq<string>>, width: nat): (lines: seq<seq<string>>)
    ensures |lines| == if values == [] then 0 else |values| - 1
    ensures forall i :: 0 <= i < |lines| ==> lines[i] == TrimBlanks(Cut(values[i + 1], width))
  {
    if values == [] then []
    else seq(|values| - 1, i requires 0 <= i < |values| - 1 => TrimBlanks(Cut(values[i + 1], width)))
  }

  /** A stored report row, read back over a range of the given width and
      padded again. */
  lemma ReadBackRow(r: Row, width: nat)
    requires width <= WIDTH
    ensures Snapshot.Padded(TrimBlanks(Cut(r, width)))[..width] == r[..width]
    ensures forall k :: width <= k < WIDTH ==> Snapshot.Padded(TrimBlanks(Cut(r, width)))[k] == ""
  {
    var c := Cut(r, width);
    var t := TrimBlanks(c);
    var p := Snapshot.Padded(t);
    assert c == r[..width];
    forall k | 0 <= k < width ensures p[k] == r[k] {
      if k < |t| {
        assert p[k] == p[..|t|][k] == t[k] == c[k];
      }
    }
  }

  /** Over the full thirty-column range, the snapshot the next run builds is
      exactly the table this run wrote. */
  lemma RoundTrip(rows: seq<Row>)
    ensures Snapshot.ToTable(Snapshot.PadAll(Read(Output(rows), READ_WIDTH))) == Ok(rows)
  {
    var lines := Snapshot.PadAll(Read(Output(rows), READ_WIDTH));
    forall i | 0 <= i < |rows| ensures lines[i] == rows[i] {
      assert Output(rows)[i + 1] == rows[i];
      ReadBackRow(rows[i], READ_WIDTH);
      assert rows[i][..READ_WIDTH] == rows[i];
    }
    var t := Snapshot.ToTable(lines);
    assert t.Ok?;
    assert t.value == rows;
  }

  /** Over the range the program actually reads, every row of the next
      run's snapshot keeps the first twenty-eight cells of the written row
      but has its last two report columns, "Resposta dentro do SLA" and
      "Solução dentro do SLA", empty. */
  lemma ReadLosesLastColumns(rows: seq<Row>, i: nat)
    requires i < |rows|
    ensures var t := Snapshot.ToTable(Snapshot.PadAll(Read(Output(rows), READ_WIDTH_AS_WRITTEN)));
      t.Ok? && |t.value| == |rows| &&
      t.value[i][..28] == rows[i][..28] && t.value[i][28] == "" && t.value[i][29] == ""
  {
    var lines := Snapshot.PadAll(Read(Output(rows), READ_WIDTH_AS_WRITTEN));
    assert Output(rows)[i + 1] == rows[i];
    ReadBackRow(rows[i], READ_WIDTH_AS_WRITTEN);
    forall k | 0 <= k < |lines| ensures |lines[k]| <= WIDTH {
      assert Output(rows)[k + 1] == rows[k];
    }
  }

  /** Hence a written row whose "Solução dentro do SLA" cell is filled does
      not survive the read back unchanged. */
  lemma ReadBackDiffers(rows: seq<Row>, i: nat)
    requires i < |rows| && rows[i][29] != ""
    ensures Snapshot.ToTable(Snapshot.PadAll(Read(Output(rows), READ_WIDTH_AS_WRITTEN))) != Ok(rows)
  {
    ReadLosesLastColumns(rows, i);
  }

  /** A report row with its last two cells, the ones the range as written
      does not reach, blanked. */
  function Blank(r: Row): (b: Row)
    ensures b[..READ_WIDTH_AS_WRITTEN] == r[..READ_WIDTH_AS_WRITTEN]
    ensures b[28] == "" && b[29] == ""
  {
    r[..READ_WIDTH_AS_WRITTEN] + ["", ""]
  }

  /** A row whose last two cells are already empty is its own blanking. */
  lemma BlankFixes(r: Row)
    requires r[28] == "" && r[29] == ""
    ensures Blank(r) == r
  {
    var b := Blank(r);
    assert forall k :: 0 <= k < 28 ==> b[k] == b[..28][k] && r[k] == r[..28][k];
  }

  /** Every row blanked. */
  function BlankAll(rows: seq<Row>): (b: seq<Row>)
    ensures |b| == |rows| && forall i :: 0 <= i < |rows| ==> b[i] == Blank(rows[i])
  {
    seq(|rows|, i requires 0 <= i < |rows| => Blank(rows[i]))
  }

  /** One written row read back over the range as written and padded. */
  lemma BlankRow(r: Row)
    ensures Snapshot.Padded(TrimBlanks(Cut(r, READ_WIDTH_AS_WRITTEN))) == Blank(r)
  {
    var x, y := Snapshot.Padded(TrimBlanks(Cut(r, READ_WIDTH_AS_WRITTEN))), Blank(r);
    ReadBackRow(r, READ_WIDTH_AS_WRITTEN);
    assert forall k :: 0 <= k < 28 ==> x[k] == x[..28][k] && y[k] == y[..28][k];
  }

  /** Over the range as written, the next run's snapshot is the written
      table with the last two cells of every row blanked. */
  lemma ReadAsWritten(rows: seq<Row>)
    ensures Snapshot.ToTable(Snapshot.PadAll(Read(Output(rows), READ_WIDTH_AS_WRITTEN))) ==
      Ok(BlankAll(rows))
  {
    var lines := Snapshot.PadAll(Read(Output(rows), READ_WIDTH_AS_WRITTEN));
    var want := BlankAll(rows);
    forall i | 0 <= i < |rows| ensures lines[i] == want[i] {
      assert Output(rows)[i + 1] == rows[i];
      BlankRow(rows[i]);
    }
    var t := Snapshot.ToTable(lines);
    assert t.Ok?;
    assert t.value == want;
  }
}
