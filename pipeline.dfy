/** One run of the synchronization, with the ticketing service and the
    sheet service cut away: the fetched batch and the current snapshot come
    in, and what the run would write to the sheet comes out. A run with an
    empty batch writes nothing. */
module Pipeline {
  import opened Base
  import opened Schema
  import opened Normalizer
  import Snapshot
  import Reconcile
  import Sheet

  /** Why a run stops without writing. */
  datatype Failure =
    | SchemaMismatch(schema: SchemaError)    // a report column is absent from the batch
    | BadSnapshot(shape: Snapshot.ShapeError) // a snapshot row is wider than the report

  /** The values one run writes: None when the batch is empty, an error when
      the batch lacks a report column or the snapshot has a row too wide,
      and otherwise the header row followed by the reconciled rows. */
  function Run(lines: seq<seq<string>>, batch: RawBatch, format: string -> string): (r: Option<Result<seq<seq<string>>, Failure>>)
    ensures r.None? <==> IsEmpty(batch)
  {
    if IsEmpty(batch) then None
    else match Normalize(batch, format)
      case Err(e) => Some(Err(SchemaMismatch(e)))
      case Ok(normalized) =>
        match Snapshot.ToTable(Snapshot.PadAll(lines))
        case Err(e) => Some(Err(BadSnapshot(e)))
        case Ok(existing) => Some(Ok(Sheet.Output(Reconcile.Reconcile(existing, normalized))))
  }

  /** The run as the program performs it: the date columns are reassigned
      one after the other and the snapshot rows are padded in place. */
  method Sync(lines: seq<seq<string>>, batch: RawBatch, format: string -> string)
    returns (r: Option<Result<seq<seq<string>>, Failure>>)
    ensures r == Run(lines, batch, format)
  {
    if IsEmpty(batch) {
      return None;
    }
    var cleaned := CleanBatch(batch);
    var dated := FormatDates(cleaned, format);
    var projected := Project(Rename(dated));
    if projected.Err? {
      return Some(Err(SchemaMismatch(projected.error)));
    }
    var existing := Snapshot.LoadSnapshot(lines);
    if existing.Err? {
      return Some(Err(BadSnapshot(existing.error)));
    }
    var rows := Reconcile.Reconcile(existing.value, projected.value);
    return Some(Ok(Sheet.Output(rows)));
  }

  /** What a successful run writes: the header row, then rows ascending by
      opening date-time, with unique ticket numbers, all passing the
      business filter, each the last filtered row with its ticket number
      after the upsert of the normalized batch into the snapshot. */
  lemma RunWrites(lines: seq<seq<string>>, batch: RawBatch, format: string -> string)
    requires Run(lines, batch, format).Some? && Run(lines, batch, format).value.Ok?
    ensures var v := Run(lines, batch, format).value.value;
      var existing := Snapshot.ToTable(Snapshot.PadAll(lines)).value;
      var normalized := Normalize(batch, format).value;
      && v != [] && v[0] == COLUMNS
      && Reconcile.Sorted(v[1..]) && Reconcile.UniqueKeys(v[1..])
      && (forall x :: x in v[1..] ==> Reconcile.Keep(x))
      && (forall x :: x in v[1..] <==> Reconcile.LastWith(Reconcile.Candidates(existing, normalized), Reconcile.Key(x)) == Some(x))
  {
    var existing := Snapshot.ToTable(Snapshot.PadAll(lines)).value;
    var normalized := Normalize(batch, format).value;
    Reconcile.ReconcileSorts(existing, normalized);
    Reconcile.ReconciledTable(existing, normalized, Reconcile.Reconcile(existing, normalized));
  }

  /** A run whose batch normalizes and whose snapshot builds writes the
      reconciliation of the two. */
  lemma RunSucceeds(lines: seq<seq<string>>, batch: RawBatch, format: string -> string,
                    existing: seq<Row>, normalized: seq<Row>)
    requires !IsEmpty(batch) && Normalize(batch, format) == Ok(normalized)
    requires Snapshot.ToTable(Snapshot.PadAll(lines)) == Ok(existing)
    ensures Run(lines, batch, format) == Some(Ok(Sheet.Output(Reconcile.Reconcile(existing, normalized))))
  {
  }

  /** Running again with the same batch on what the run wrote, read back
      over all thirty columns, succeeds and writes the same rows, at most
      reordering rows that share an opening date-time; when no two rows
      share one it writes exactly the same values. */
  lemma RerunUnchanged(lines: seq<seq<string>>, batch: RawBatch, format: string -> string, v: seq<seq<string>>)
    requires Run(lines, batch, format) == Some(Ok(v))
    ensures Run(Sheet.Read(v, Sheet.READ_WIDTH), batch, format).Some?
    ensures Run(Sheet.Read(v, Sheet.READ_WIDTH), batch, format).value.Ok?
    ensures var w := Run(Sheet.Read(v, Sheet.READ_WIDTH), batch, format).value.value;
      && |w| == |v| && w[0] == v[0] && multiset(w) == multiset(v)
      && (Reconcile.DistinctOpenings(v[1..]) ==> w == v)
  {
    var existing := Snapshot.ToTable(Snapshot.PadAll(lines)).value;
    var normalized := Normalize(batch, format).value;
    var out1 := Reconcile.Reconcile(existing, normalized);
    RunSucceeds(lines, batch, format, existing, normalized);
    assert v == Sheet.Output(out1);
    Sheet.RoundTrip(out1);
    var out2 := Reconcile.Reconcile(out1, normalized);
    RunSucceeds(Sheet.Read(v, Sheet.READ_WIDTH), batch, format, out1, normalized);
    var w := Sheet.Output(out2);
    assert Run(Sheet.Read(v, Sheet.READ_WIDTH), batch, format) == Some(Ok(w));
    OutputsAgree(existing, normalized);
  }

  /** Running again with the same batch on what the run wrote, read back
      over the range the program actually reads, still writes the same
      rows: the snapshot rows the first run kept never had the two columns
      that range misses, and the batch rows that lose them are replaced by
      the same batch rows. */
  lemma RerunUnchangedAsWritten(lines: seq<seq<string>>, batch: RawBatch, format: string -> string, v: seq<seq<string>>)
    requires Run(lines, batch, format) == Some(Ok(v))
    requires forall i :: 0 <= i < |lines| ==> |lines[i]| <= Sheet.READ_WIDTH_AS_WRITTEN
    ensures Run(Sheet.Read(v, Sheet.READ_WIDTH_AS_WRITTEN), batch, format).Some?
    ensures Run(Sheet.Read(v, Sheet.READ_WIDTH_AS_WRITTEN), batch, format).value.Ok?
    ensures var w := Run(Sheet.Read(v, Sheet.READ_WIDTH_AS_WRITTEN), batch, format).value.value;
      && |w| == |v| && w[0] == v[0] && multiset(w) == multiset(v)
      && (Reconcile.DistinctOpenings(v[1..]) ==> w == v)
  {
    var existing := Snapshot.ToTable(Snapshot.PadAll(lines)).value;
    var normalized := Normalize(batch, format).value;
    var out1 := Reconcile.Reconcile(existing, normalized);
    RunSucceeds(lines, batch, format, existing, normalized);
    assert v == Sheet.Output(out1);
    forall e | e in existing ensures Sheet.Blank(e) == e {
      SnapshotRowBlank(lines, existing, e);
    }
    var again := Sheet.BlankAll(out1);
    Sheet.ReadAsWritten(out1);
    var out2 := Reconcile.Reconcile(again, normalized);
    RunSucceeds(Sheet.Read(v, Sheet.READ_WIDTH_AS_WRITTEN), batch, format, again, normalized);
    assert Run(Sheet.Read(v, Sheet.READ_WIDTH_AS_WRITTEN), batch, format) == Some(Ok(Sheet.Output(out2)));
    Reconcile.ReconcileSorts(existing, normalized);
    Reconcile.ReconcileSorts(again, normalized);
    BlankedSnapshotAgrees(existing, normalized, out1);
    Reconcile.RereconcileSame(existing, again, normalized, out1, out2);
    OutputsMatch(out1, out2);
  }

  /** A snapshot row built from a line of at most 28 cells has its last
      two cells empty. */
  lemma SnapshotRowBlank(lines: seq<seq<string>>, existing: seq<Row>, e: Row)
    requires forall i :: 0 <= i < |lines| ==> |lines[i]| <= Sheet.READ_WIDTH_AS_WRITTEN
    requires Snapshot.ToTable(Snapshot.PadAll(lines)) == Ok(existing)
    requires e in existing
    ensures Sheet.Blank(e) == e
  {
    var i :| 0 <= i < |existing| && existing[i] == e;
    assert e == Snapshot.Padded(lines[i]);
    assert e[28] == "" && e[29] == "";
    Sheet.BlankFixes(e);
  }

  /** Blanking the two missed cells of the reconciled table changes, for a
      ticket number the batch does not carry, nothing about the last
      filtered row, when the snapshot rows had those cells empty. */
  lemma BlankedSnapshotAgrees(existing: seq<Row>, batch: seq<Row>, out1: seq<Row>)
    requires forall e :: e in existing ==> Sheet.Blank(e) == e
    requires Reconcile.SortsTo(Reconcile.DedupLast(Reconcile.Candidates(existing, batch)), out1)
    ensures forall k :: k !in Reconcile.Keys(batch) ==>
      Reconcile.LastWith(Reconcile.Filter(Sheet.BlankAll(out1)), k) == Reconcile.LastWith(Reconcile.Filter(existing), k)
  {
    var again := Sheet.BlankAll(out1);
    Reconcile.ReconciledTable(existing, batch, out1);
    forall i | 0 <= i < |out1|
      ensures Reconcile.Key(again[i]) == Reconcile.Key(out1[i]) && Reconcile.Keep(again[i])
    {
      BlankKeeps(out1[i]);
    }
    assert Reconcile.UniqueKeys(again);
    assert forall x :: x in again ==> Reconcile.Keep(x);
    Reconcile.SelectAll(again, Reconcile.Keep);
    forall k | k !in Reconcile.Keys(batch)
      ensures Reconcile.LastWith(again, k) == Reconcile.LastWith(Reconcile.Filter(existing), k)
    {
      Reconcile.Untouched(existing, batch, out1, k);
      var r := Reconcile.LastWith(again, k);
      if r.Some? {
        var i :| 0 <= i < |again| && again[i] == r.value;
        assert out1[i] in out1 && Reconcile.Key(out1[i]) == k;
        var x0 := out1[i];
        assert Reconcile.LastWith(Reconcile.Filter(existing), k) == Some(x0);
        assert x0 in existing;
        assert again[i] == x0;
      }
    }
  }

  /** Blanking keeps the ticket number and what the filter reads. */
  lemma BlankKeeps(r: Row)
    ensures Reconcile.Key(Sheet.Blank(r)) == Reconcile.Key(r)
    ensures Reconcile.Keep(Sheet.Blank(r)) == Reconcile.Keep(r)
  {
    var b := Sheet.Blank(r);
    assert b[NUMBER] == b[..28][NUMBER] && r[NUMBER] == r[..28][NUMBER];
    assert b[DIVISION] == b[..28][DIVISION] && r[DIVISION] == r[..28][DIVISION];
    assert b[SIMPLE_STATUS] == b[..28][SIMPLE_STATUS] && r[SIMPLE_STATUS] == r[..28][SIMPLE_STATUS];
  }

  /** Writing two tables that are permutations of each other, equal when
      no two rows share an opening date-time, gives values with the same
      properties. */
  lemma OutputsMatch(out1: seq<Row>, out2: seq<Row>)
    requires multiset(out2) == multiset(out1) && |out2| == |out1|
    requires Reconcile.DistinctOpenings(out1) ==> out2 == out1
    ensures var v := Sheet.Output(out1); var w := Sheet.Output(out2);
      && |w| == |v| && w[0] == v[0] && multiset(w) == multiset(v)
      && (Reconcile.DistinctOpenings(v[1..]) ==> w == v)
  {
    var v := Sheet.Output(out1);
    var w := Sheet.Output(out2);
    assert w == [COLUMNS] + out2 && v == [COLUMNS] + out1;
    assert multiset(w) == multiset(v);
    assert v[1..] == out1;
  }

  /** Writing the second reconciliation gives the same values as the
      first, up to the order of rows sharing an opening date-time. */
  lemma OutputsAgree(existing: seq<Row>, normalized: seq<Row>)
    ensures var v := Sheet.Output(Reconcile.Reconcile(existing, normalized));
      var w := Sheet.Output(Reconcile.Reconcile(Reconcile.Reconcile(existing, normalized), normalized));
      && |w| == |v| && w[0] == v[0] && multiset(w) == multiset(v)
      && (Reconcile.DistinctOpenings(v[1..]) ==> w == v)
  {
    var out1 := Reconcile.Reconcile(existing, normalized);
    var out2 := Reconcile.Reconcile(out1, normalized);
    Reconcile.ReconcileSorts(existing, normalized);
    Reconcile.ReconcileSorts(out1, normalized);
    Reconcile.ReconcileTwice(existing, normalized, out1, out2);
    OutputsMatch(out1, out2);
  }
}
