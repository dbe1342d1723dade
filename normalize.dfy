/** The record normalizer: turns the freshly fetched batch into report rows.
    Every cell is cleaned, the three date fields are reformatted, the source
    field names are renamed to report titles, and the table is projected
    onto the thirty report columns in sheet order. */
module Normalizer {
  import opened Base
  import opened Schema
  import Markup

  /** The fetched batch as a table: column labels in order of first
      appearance and one list of values per ticket record. A record shorter
      than the name list lacks the trailing fields, which the table holds
      as NaN (a NonText value). */
  datatype RawBatch = RawBatch(columns: seq<string>, rows: seq<seq<Value>>)

  /** A table of text cells with its column labels. */
  datatype Frame = Frame(columns: seq<string>, rows: seq<seq<string>>)

  /** The report columns the projection could not find. */
  datatype SchemaError = MissingColumns(names: seq<string>)

  /** A table is empty when it has no row or no column. */
  predicate IsEmpty(b: RawBatch)
  {
    |b.rows| == 0 || |b.columns| == 0
  }

  function ValueAt(r: seq<Value>, c: nat): Value
  {
    if c < |r| then r[c] else NonText
  }

  function TextAt(r: seq<string>, c: nat): string
  {
    if c < |r| then r[c] else ""
  }

  /** First position of x in s. */
  function IndexOf(s: seq<string>, x: string): (i: nat)
    requires x in s
    ensures i < |s| && s[i] == x && x !in s[..i]
  {
    if s[0] == x then 0 else assert s == [s[0]] + s[1..]; 1 + IndexOf(s[1..], x)
  }

  /** Two sequences that match their own targets at the same positions have
      their first matches at the same place. */
  lemma IndexOfAligned(s: seq<string>, x: string, t: seq<string>, y: string)
    requires x in s && |s| == |t|
    requires forall c :: 0 <= c < |s| ==> (s[c] == x <==> t[c] == y)
    ensures y in t && IndexOf(t, y) == IndexOf(s, x)
  {
    var i := IndexOf(s, x);
    assert t[i] == y;
    var j := IndexOf(t, y);
    assert s[j] == x;
  }

  // ---------------------------------------------------------------------
  // Cleaning

  /** Every cell of the batch cleaned; a field a record lacks becomes "". */
  function CleanBatch(b: RawBatch): (f: Frame)
    ensures f.columns == b.columns && |f.rows| == |b.rows|
    ensures forall i :: 0 <= i < |f.rows| ==> |f.rows[i]| == |b.columns|
    ensures forall i, c :: 0 <= i < |f.rows| && 0 <= c < |b.columns| ==>
      f.rows[i][c] == Markup.Clean(ValueAt(b.rows[i], c))
  {
    Frame(b.columns, seq(|b.rows|, i requires 0 <= i < |b.rows| =>
      seq(|b.columns|, c requires 0 <= c < |b.columns| => Markup.Clean(ValueAt(b.rows[i], c)))))
  }

  // ---------------------------------------------------------------------
  // Date reformatting

  /** The table with every cell under a name in names passed through
      format, and every other cell left alone. */
  function FormatColumns(f: Frame, names: seq<string>, format: string -> string): Frame
  {
    Frame(f.columns, seq(|f.rows|, i requires 0 <= i < |f.rows| =>
      seq(|f.rows[i]|, c requires 0 <= c < |f.rows[i]| =>
        if c < |f.columns| && f.columns[c] in names then format(f.rows[i][c]) else f.rows[i][c])))
  }

  /** The batch after its date fields are reformatted. */
  function DatesFormatted(f: Frame, format: string -> string): Frame
  {
    FormatColumns(f, DATE_FIELDS, format)
  }

  /** One column reassigned: the cells under the name name go through
      format. */
  function ApplyToColumn(rows: seq<seq<string>>, columns: seq<string>, name: string, format: string -> string): (r: seq<seq<string>>)
    ensures |r| == |rows|
    ensures forall i :: 0 <= i < |r| ==> (|r[i]| == |rows[i]| &&
      forall c :: 0 <= c < |r[i]| ==>
        r[i][c] == if c < |columns| && columns[c] == name then format(rows[i][c]) else rows[i][c])
  {
    seq(|rows|, i requires 0 <= i < |rows| =>
      seq(|rows[i]|, c requires 0 <= c < |rows[i]| =>
        if c < |columns| && columns[c] == name then format(rows[i][c]) else rows[i][c]))
  }

  /** Reassigns, one after the other, each date field present among the
      batch's columns; the result has exactly the date-field cells
      reformatted, each once, and nothing else changed. */
  method FormatDates(f: Frame, format: string -> string) returns (g: Frame)
    ensures g == DatesFormatted(f, format)
  {
    g := f;
    assert g == FormatColumns(f, DATE_FIELDS[..0], format) by {
      var want := FormatColumns(f, [], format);
      forall i | 0 <= i < |g.rows|
        ensures g.rows[i] == want.rows[i]
      {
        assert forall c :: 0 <= c < |g.rows[i]| ==> g.rows[i][c] == want.rows[i][c];
      }
    }
    for k := 0 to |DATE_FIELDS|
      invariant g == FormatColumns(f, DATE_FIELDS[..k], format)
    {
      var field := DATE_FIELDS[k];
      assert DATE_FIELDS[..k + 1] == DATE_FIELDS[..k] + [field];
      if field in g.columns {
        g := Frame(g.columns, ApplyToColumn(g.rows, g.columns, field, format));
      }
      assert g == FormatColumns(f, DATE_FIELDS[..k + 1], format) by {
        var want := FormatColumns(f, DATE_FIELDS[..k + 1], format);
        forall i | 0 <= i < |g.rows|
          ensures g.rows[i] == want.rows[i]
        {
          assert forall c :: 0 <= c < |g.rows[i]| ==> g.rows[i][c] == want.rows[i][c];
        }
      }
    }
    assert DATE_FIELDS[..|DATE_FIELDS|] == DATE_FIELDS;
  }

  // ---------------------------------------------------------------------
  // Renaming and projection

  /** The report title a column name is renamed to; labels that are not
      source field names keep their name. */
  function Renamed(name: string): string
  {
    if name in SOURCE_KEYS then COLUMNS[IndexOf(SOURCE_KEYS, name)] else name
  }

  function Rename(f: Frame): (g: Frame)
    ensures g.rows == f.rows && |g.columns| == |f.columns|
    ensures forall c :: 0 <= c < |f.columns| ==> g.columns[c] == Renamed(f.columns[c])
  {
    Frame(seq(|f.columns|, c requires 0 <= c < |f.columns| => Renamed(f.columns[c])), f.rows)
  }

  /** Report titles that are not among the labels, in report order. */
  function Missing(labels: seq<string>, wanted: seq<string>): (m: seq<string>)
    ensures forall n :: n in m <==> n in wanted && n !in labels
  {
    if wanted == [] then []
    else (if wanted[0] in labels then [] else [wanted[0]]) + Missing(labels, wanted[1..])
  }

  /** The table restricted to the report columns in report order. It fails,
      naming the absent titles, exactly when some report column is absent;
      otherwise cell j of each row is the cell under the first name equal
      to COLUMNS[j]. */
  function Project(f: Frame): (r: Result<seq<Row>, SchemaError>)
    ensures r.Ok? <==> forall j :: 0 <= j < WIDTH ==> COLUMNS[j] in f.columns
    ensures r.Err? ==> (r.error.names != [] &&
      forall n :: n in r.error.names <==> n in COLUMNS && n !in f.columns)
    ensures r.Ok? ==> (|r.value| == |f.rows| &&
      forall i, j :: 0 <= i < |f.rows| && 0 <= j < WIDTH ==>
        r.value[i][j] == TextAt(f.rows[i], IndexOf(f.columns, COLUMNS[j])))
  {
    var missing := Missing(f.columns, COLUMNS);
    if missing != [] then
      assert COLUMNS[IndexOf(COLUMNS, missing[0])] !in f.columns;
      Err(MissingColumns(missing))
    else
      assert forall j :: 0 <= j < WIDTH ==> COLUMNS[j] in f.columns by {
        forall j | 0 <= j < WIDTH ensures COLUMNS[j] in f.columns {
          assert COLUMNS[j] in COLUMNS;
        }
      }
      Ok(seq(|f.rows|, i requires 0 <= i < |f.rows| =>
        seq(WIDTH, j requires 0 <= j < WIDTH => TextAt(f.rows[i], IndexOf(f.columns, COLUMNS[j])))))
  }

  /** The whole normalizer. */
  function Normalize(b: RawBatch, format: string -> string): Result<seq<Row>, SchemaError>
  {
    Project(Rename(DatesFormatted(CleanBatch(b), format)))
  }

  // ---------------------------------------------------------------------
  // Properties

  /** A source field name is renamed to the report title in the same
      position, and a name that is neither a source key nor a title never
      becomes a title. */
  lemma RenamedKey(name: string, j: nat)
    requires j < WIDTH && name !in COLUMNS
    ensures Renamed(name) == COLUMNS[j] <==> name == SOURCE_KEYS[j]
  {
    SourceKeysDistinct();
    ColumnsDistinct();
    assert SOURCE_KEYS[j] in SOURCE_KEYS;
    if name in SOURCE_KEYS {
      var i := IndexOf(SOURCE_KEYS, name);
      assert i < |COLUMNS|;
    }
  }

  /** What normalizing a complete batch yields: when every requested field
      is a column and no column name is already a report title, the
      projection succeeds, and cell j of row i is the cleaned value of source
      field SOURCE_KEYS[j] of record i, passed through format when that
      field is a date field. */
  lemma NormalizeComplete(b: RawBatch, format: string -> string)
    requires forall j :: 0 <= j < WIDTH ==> SOURCE_KEYS[j] in b.columns
    requires forall c :: 0 <= c < |b.columns| ==> b.columns[c] !in COLUMNS
    ensures Normalize(b, format).Ok?
    ensures |Normalize(b, format).value| == |b.rows|
    ensures forall i, j :: 0 <= i < |b.rows| && 0 <= j < WIDTH ==>
      var v := Markup.Clean(ValueAt(b.rows[i], IndexOf(b.columns, SOURCE_KEYS[j])));
      Normalize(b, format).value[i][j] == if SOURCE_KEYS[j] in DATE_FIELDS then format(v) else v
  {
    NormalizeShape(b, format);
    forall i, j | 0 <= i < |b.rows| && 0 <= j < WIDTH
      ensures var v := Markup.Clean(ValueAt(b.rows[i], IndexOf(b.columns, SOURCE_KEYS[j])));
        Normalize(b, format).value[i][j] == if SOURCE_KEYS[j] in DATE_FIELDS then format(v) else v
    {
      NormalizeCell(b, format, i, j);
    }
  }

  /** A complete batch normalizes to one row per record. */
  lemma NormalizeShape(b: RawBatch, format: string -> string)
    requires forall j :: 0 <= j < WIDTH ==> SOURCE_KEYS[j] in b.columns
    requires forall c :: 0 <= c < |b.columns| ==> b.columns[c] !in COLUMNS
    ensures Normalize(b, format).Ok?
    ensures |Normalize(b, format).value| == |b.rows|
  {
    var d := DatesFormatted(CleanBatch(b), format);
    forall j | 0 <= j < WIDTH
      ensures COLUMNS[j] in Rename(d).columns
    {
      RenameAligned(d, j);
    }
  }

  /** Renaming moves each present source field to its report title at the
      same position. */
  lemma RenameAligned(f: Frame, j: nat)
    requires j < WIDTH && SOURCE_KEYS[j] in f.columns
    requires forall c :: 0 <= c < |f.columns| ==> f.columns[c] !in COLUMNS
    ensures COLUMNS[j] in Rename(f).columns
    ensures IndexOf(Rename(f).columns, COLUMNS[j]) == IndexOf(f.columns, SOURCE_KEYS[j])
  {
    var g := Rename(f);
    forall c | 0 <= c < |f.columns|
      ensures f.columns[c] == SOURCE_KEYS[j] <==> g.columns[c] == COLUMNS[j]
    {
      RenamedKey(f.columns[c], j);
    }
    IndexOfAligned(f.columns, SOURCE_KEYS[j], g.columns, COLUMNS[j]);
  }

  /** One cell of a normalized complete batch. */
  lemma NormalizeCell(b: RawBatch, format: string -> string, i: nat, j: nat)
    requires forall j :: 0 <= j < WIDTH ==> SOURCE_KEYS[j] in b.columns
    requires forall c :: 0 <= c < |b.columns| ==> b.columns[c] !in COLUMNS
    requires i < |b.rows| && j < WIDTH
    ensures Normalize(b, format).Ok?
    ensures var v := Markup.Clean(ValueAt(b.rows[i], IndexOf(b.columns, SOURCE_KEYS[j])));
      Normalize(b, format).value[i][j] == if SOURCE_KEYS[j] in DATE_FIELDS then format(v) else v
  {
    var d := DatesFormatted(CleanBatch(b), format);
    var g := Rename(d);
    forall k | 0 <= k < WIDTH
      ensures COLUMNS[k] in g.columns
    {
      RenameAligned(d, k);
    }
    RenameAligned(d, j);
    var c := IndexOf(b.columns, SOURCE_KEYS[j]);
    ProjectCell(g, i, j);
    DatedCell(CleanBatch(b), format, i, c);
  }

  /** One cell of a successful projection. */
  lemma ProjectCell(g: Frame, i: nat, j: nat)
    requires forall k :: 0 <= k < WIDTH ==> COLUMNS[k] in g.columns
    requires i < |g.rows| && j < WIDTH
    ensures Project(g).Ok?
    ensures Project(g).value[i][j] == TextAt(g.rows[i], IndexOf(g.columns, COLUMNS[j]))
  {
  }

  /** One cell after the date fields are reformatted. */
  lemma DatedCell(f: Frame, format: string -> string, i: nat, c: nat)
    requires i < |f.rows| && c < |f.rows[i]| && c < |f.columns|
    ensures |DatesFormatted(f, format).rows| == |f.rows|
    ensures c < |DatesFormatted(f, format).rows[i]|
    ensures DatesFormatted(f, format).rows[i][c] ==
      if f.columns[c] in DATE_FIELDS then format(f.rows[i][c]) else f.rows[i][c]
  {
  }

  /** A batch lacking a requested field fails the projection, reporting that
      field's title (when no name is itself a report title). */
  lemma NormalizeIncomplete(b: RawBatch, format: string -> string, j: nat)
    requires j < WIDTH && SOURCE_KEYS[j] !in b.columns
    requires forall c :: 0 <= c < |b.columns| ==> b.columns[c] !in COLUMNS
    ensures Normalize(b, format).Err?
    ensures COLUMNS[j] in Normalize(b, format).error.names
  {
    var g := Rename(DatesFormatted(CleanBatch(b), format));
    forall c | 0 <= c < |g.columns|
      ensures g.columns[c] != COLUMNS[j]
    {
      RenamedKey(b.columns[c], j);
    }
  }

  /** A batch with exactly the service's fields: every column is a source
      key and every source key is a column. It normalizes with one row per
      record, each report cell the cleaned source field, reformatted for
      the date fields. */
  lemma NormalizeServiceBatch(b: RawBatch, format: string -> string)
    requires forall j :: 0 <= j < WIDTH ==> SOURCE_KEYS[j] in b.columns
    requires forall c :: 0 <= c < |b.columns| ==> b.columns[c] in SOURCE_KEYS
    ensures Normalize(b, format).Ok?
    ensures |Normalize(b, format).value| == |b.rows|
    ensures forall i, j :: 0 <= i < |b.rows| && 0 <= j < WIDTH ==>
      var v := Markup.Clean(ValueAt(b.rows[i], IndexOf(b.columns, SOURCE_KEYS[j])));
      Normalize(b, format).value[i][j] == if SOURCE_KEYS[j] in DATE_FIELDS then format(v) else v
  {
    KeysAreNotTitles();
    forall c | 0 <= c < |b.columns|
      ensures b.columns[c] !in COLUMNS
    {
      var k := IndexOf(SOURCE_KEYS, b.columns[c]);
      assert SOURCE_KEYS[k] == b.columns[c];
    }
    NormalizeComplete(b, format);
  }
}
