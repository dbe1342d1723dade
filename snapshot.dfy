/** Repair of the sheet snapshot: the sheet service omits trailing blank
    cells, so the rows it returns are ragged; each is padded with empty
    cells up to the report width before the snapshot becomes a table. */
module Snapshot {
  import opened Base
  import opened Schema

  /** A snapshot row padded with "" up to WIDTH cells; a row that is
      already wide enough is kept. */
  function Padded(line: seq<string>): (r: seq<string>)
    ensures |r| == if |line| < WIDTH then WIDTH else |line|
    ensures r[..|line|] == line
    ensures forall k :: |line| <= k < |r| ==> r[k] == ""
  {
    if |line| < WIDTH then line + seq(WIDTH - |line|, _ => "") else line
  }

  /** Pads every snapshot row in place, appending one empty cell at a time
      until the row holds WIDTH cells. */
  method PadRows(lines: array<seq<string>>)
    modifies lines
    ensures forall i :: 0 <= i < lines.Length ==> lines[i] == Padded(old(lines[i]))
  {
    for i := 0 to lines.Length
      invariant forall k :: 0 <= k < i ==> lines[k] == Padded(old(lines[k]))
      invariant forall k :: i <= k < lines.Length ==> lines[k] == old(lines[k])
    {
      ghost var original := lines[i];
      var line := lines[i];
      while |line| < WIDTH
        invariant |original| <= |line| && line[..|original|] == original
        invariant forall k :: |original| <= k < |line| ==> line[k] == ""
        invariant |original| < WIDTH ==> |line| <= WIDTH
        invariant WIDTH <= |original| ==> line == original
        decreases WIDTH - |line|
      {
        line := line + [""];
      }
      assert line == Padded(original) by {
        var want := Padded(original);
        assert |line| == |want|;
        assert forall k :: 0 <= k < |line| ==> line[k] == want[k] by {
          assert forall k :: 0 <= k < |original| ==> line[k] == line[..|original|][k];
        }
      }
      lines[i] := line;
    }
  }

  /** A padded snapshot row that does not fit the thirty report columns. */
  datatype ShapeError = TooManyCells(row: nat, cells: nat)

  /** The snapshot as a table with the report columns. Building it fails,
      naming the first offending row, exactly when some row has more than
      WIDTH cells. */
  function ToTable(lines: seq<seq<string>>): (r: Result<seq<Row>, ShapeError>)
    ensures r.Ok? <==> forall i :: 0 <= i < |lines| ==> |lines[i]| <= WIDTH
    ensures r.Ok? ==> (|r.value| == |lines| &&
      forall i :: 0 <= i < |lines| ==> r.value[i] == Padded(lines[i]))
    ensures r.Err? ==> (r.error.row < |lines| && r.error.cells == |lines[r.error.row]| > WIDTH &&
      forall i :: 0 <= i < r.error.row ==> |lines[i]| <= WIDTH)
  {
    if lines == [] then Ok([])
    else if |lines[0]| > WIDTH then Err(TooManyCells(0, |lines[0]|))
    else match ToTable(lines[1..])
      case Err(TooManyCells(row, cells)) => Err(TooManyCells(row + 1, cells))
      case Ok(rest) =>
        assert forall i :: 1 <= i < |lines| ==> |lines[i]| <= WIDTH by {
          forall i | 1 <= i < |lines| ensures |lines[i]| <= WIDTH {
            assert lines[1..][i - 1] == lines[i];
          }
        }
        var first: Row := Padded(lines[0]);
        Ok([first] + rest)
  }

  /** On rows already padded to the report width, as both callers pass
      them, the table holds the rows themselves, and it is built exactly
      when every row has exactly WIDTH cells. */
  lemma ToTablePadded(lines: seq<seq<string>>)
    requires forall i :: 0 <= i < |lines| ==> |lines[i]| >= WIDTH
    ensures ToTable(lines).Ok? <==> forall i :: 0 <= i < |lines| ==> |lines[i]| == WIDTH
    ensures ToTable(lines).Ok? ==> forall i :: 0 <= i < |lines| ==> ToTable(lines).value[i] == lines[i]
  {
  }

  /** The snapshot rows after padding. */
  function PadAll(lines: seq<seq<string>>): (r: seq<seq<string>>)
    ensures |r| == |lines| && forall i :: 0 <= i < |lines| ==> r[i] == Padded(lines[i])
  {
    seq(|lines|, i requires 0 <= i < |lines| => Padded(lines[i]))
  }

  /** The snapshot as the program builds it: the rows are copied into a
      buffer, padded there in place, and the buffer becomes the table. */
  method LoadSnapshot(lines: seq<seq<string>>) returns (t: Result<seq<Row>, ShapeError>)
    ensures t == ToTable(PadAll(lines))
  {
    var sheet := new seq<string>[|lines|](i requires 0 <= i < |lines| => lines[i]);
    PadRows(sheet);
    assert sheet[..] == PadAll(lines);
    t := ToTable(sheet[..]);
  }
}
