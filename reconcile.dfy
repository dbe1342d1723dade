/** The reconciler: merges the repaired sheet snapshot with the normalized
    batch (upsert by ticket number, the batch wins), keeps only rows of an
    allowed division whose simplified status is not a closed one, drops
    duplicate ticket numbers keeping the last row, and sorts by the opening
    date-time text. */
module Reconcile {
  import opened Base
  import opened Schema

  /** The ticket number, the table key. Both sides already hold it as text,
      so taking it as a string changes nothing. */
  function Key(r: Row): string
  {
    r[NUMBER]
  }

  function Keys(rows: seq<Row>): set<string>
  {
    set x | x in rows :: Key(x)
  }

  lemma KeysConcat(a: seq<Row>, b: seq<Row>)
    ensures Keys(a + b) == Keys(a) + Keys(b)
  {
    assert forall x :: x in a + b <==> x in a || x in b;
  }

  /** No two rows share a ticket number. */
  predicate UniqueKeys(rows: seq<Row>)
  {
    forall i, j :: 0 <= i < j < |rows| ==> Key(rows[i]) != Key(rows[j])
  }

  // ---------------------------------------------------------------------
  // Row selection, used both by the merge and by the business filter

  /** The rows satisfying p, in their order: each row occurs as often as in
      rows when it satisfies p, and not at all otherwise. */
  function Select(rows: seq<Row>, p: Row -> bool): (r: seq<Row>)
    ensures forall x :: multiset(r)[x] == if p(x) then multiset(rows)[x] else 0
    ensures forall x :: x in r <==> x in rows && p(x)
  {
    if rows == [] then []
    else
      assert rows == [rows[0]] + rows[1..];
      (if p(rows[0]) then [rows[0]] else []) + Select(rows[1..], p)
  }

  lemma {:induction false} SelectConcat(a: seq<Row>, b: seq<Row>, p: Row -> bool)
    ensures Select(a + b, p) == Select(a, p) + Select(b, p)
  {
    if a == [] {
      assert a + b == b;
    } else {
      assert (a + b)[0] == a[0] && (a + b)[1..] == a[1..] + b;
      SelectConcat(a[1..], b, p);
    }
  }

  /** Selecting rows that all satisfy p keeps them all. */
  lemma {:induction false} SelectAll(rows: seq<Row>, p: Row -> bool)
    requires forall x :: x in rows ==> p(x)
    ensures Select(rows, p) == rows
  {
    if rows != [] {
      SelectAll(rows[1..], p);
    }
  }

  // ---------------------------------------------------------------------
  // Merge

  /** The existing rows whose ticket number does not occur among keys. */
  function Without(rows: seq<Row>, keys: set<string>): seq<Row>
  {
    Select(rows, Outside(keys))
  }

  /** Holds of the rows whose ticket number is not among keys. */
  function Outside(keys: set<string>): Row -> bool
  {
    (x: Row) => Key(x) !in keys
  }

  /** Upsert by key, the batch wins: the existing rows whose ticket number
      is not in the batch, followed by the whole batch in its order. */
  function Merge(existing: seq<Row>, batch: seq<Row>): (r: seq<Row>)
    ensures |batch| <= |r| && r[|r| - |batch|..] == batch
    ensures forall x :: x in r[..|r| - |batch|] <==> x in existing && Key(x) !in Keys(batch)
  {
    var kept := Without(existing, Keys(batch));
    assert (kept + batch)[..|kept|] == kept;
    kept + batch
  }

  // ---------------------------------------------------------------------
  // Business filter

  /** A row the report keeps: its division is allowed and its simplified
      status is not a closed one. */
  predicate Keep(r: Row)
  {
    r[DIVISION] in ALLOWED_AREAS && r[SIMPLE_STATUS] !in CLOSED_STATUSES
  }

  function Filter(rows: seq<Row>): (r: seq<Row>)
    ensures forall x :: x in r ==> Keep(x)
    ensures forall x :: x in rows && Keep(x) ==> x in r
  {
    Select(rows, Keep)
  }

  // ---------------------------------------------------------------------
  // Last occurrence and de-duplication

  /** The last row of rows whose ticket number is k, if any. */
  function LastWith(rows: seq<Row>, k: string): (r: Option<Row>)
    ensures r.None? <==> k !in Keys(rows)
    ensures r.Some? ==> Key(r.value) == k && r.value in rows
    ensures r.Some? ==> exists i :: (0 <= i < |rows| && rows[i] == r.value &&
      forall j :: i < j < |rows| ==> Key(rows[j]) != k)
  {
    if rows == [] then None
    else if Key(rows[|rows| - 1]) == k then Some(rows[|rows| - 1])
    else
      var front := rows[..|rows| - 1];
      assert rows == front + [rows[|rows| - 1]];
      var r := LastWith(front, k);
      assert r.Some? ==> exists i :: (0 <= i < |rows| && rows[i] == r.value &&
        forall j :: i < j < |rows| ==> Key(rows[j]) != k) by {
        if r.Some? {
          var i :| (0 <= i < |front| && front[i] == r.value &&
            forall j :: i < j < |front| ==> Key(front[j]) != k);
          assert rows[i] == r.value;
        }
      }
      r
  }

  /** The last row with key k of a concatenation comes from its second part
      when that part has one. */
  lemma {:induction false} LastWithConcat(a: seq<Row>, b: seq<Row>, k: string)
    ensures LastWith(a + b, k) == if k in Keys(b) then LastWith(b, k) else LastWith(a, k)
  {
    if b == [] {
      assert a + b == a;
    } else {
      var n := |b| - 1;
      assert (a + b)[|a + b| - 1] == b[n];
      assert (a + b)[..|a + b| - 1] == a + b[..n];
      assert b == b[..n] + [b[n]];
      LastWithConcat(a, b[..n], k);
    }
  }

  /** In a table with unique keys, a row is the last one with its key
      exactly when it is in the table. */
  lemma LastWithUnique(rows: seq<Row>, x: Row)
    requires UniqueKeys(rows)
    ensures x in rows <==> LastWith(rows, Key(x)) == Some(x)
  {
    if x in rows {
      var y := LastWith(rows, Key(x)).value;
      var i :| 0 <= i < |rows| && rows[i] == x;
      var j :| 0 <= j < |rows| && rows[j] == y;
      assert i == j;
    }
  }

  /** Keeps, for each ticket number, only its last row; the rows kept keep
      their order. */
  function DedupLast(rows: seq<Row>): (r: seq<Row>)
    ensures UniqueKeys(r)
    ensures Keys(r) == Keys(rows)
    ensures forall x :: x in r ==> x in rows
  {
    if rows == [] then []
    else
      var rest := DedupLast(rows[1..]);
      assert rows == [rows[0]] + rows[1..];
      KeysConcat([rows[0]], rows[1..]);
      KeysConcat([rows[0]], rest);
      if Key(rows[0]) in Keys(rows[1..]) then rest else [rows[0]] + rest
  }

  /** A row survives de-duplication exactly when it is the last row with its
      ticket number. */
  lemma {:induction false} DedupKeepsLast(rows: seq<Row>, x: Row)
    ensures x in DedupLast(rows) <==> LastWith(rows, Key(x)) == Some(x)
  {
    if rows != [] {
      var t := rows[1..];
      assert rows == [rows[0]] + t;
      LastWithConcat([rows[0]], t, Key(x));
      DedupKeepsLast(t, x);
      if Key(rows[0]) !in Keys(t) && x != rows[0] && Key(x) == Key(rows[0]) {
        assert x !in DedupLast(t);
      }
    }
  }

  // ---------------------------------------------------------------------
  // Sorting by the opening date-time text

  /** a comes no later than b in code-point lexicographic order, the order
      in which text compares. */
  predicate LexLessEq(a: string, b: string)
  {
    a == [] || (b != [] && (a[0] < b[0] || (a[0] == b[0] && LexLessEq(a[1..], b[1..]))))
  }

  lemma {:induction false} LexTotal(a: string, b: string)
    ensures LexLessEq(a, b) || LexLessEq(b, a)
  {
    if a != [] && b != [] && a[0] == b[0] {
      LexTotal(a[1..], b[1..]);
    }
  }

  lemma {:induction false} LexTransitive(a: string, b: string, c: string)
    requires LexLessEq(a, b) && LexLessEq(b, c)
    ensures LexLessEq(a, c)
  {
    if a != [] && b != [] && c != [] && a[0] == b[0] == c[0] {
      LexTransitive(a[1..], b[1..], c[1..]);
    }
  }

  lemma {:induction false} LexAntisymmetric(a: string, b: string)
    requires LexLessEq(a, b) && LexLessEq(b, a)
    ensures a == b
  {
    if a != [] && b != [] {
      LexAntisymmetric(a[1..], b[1..]);
      assert a == [a[0]] + a[1..] && b == [b[0]] + b[1..];
    }
  }

  function Opening(r: Row): string
  {
    r[OPENED_AT]
  }

  /** Ascending by opening date-time text. */
  predicate Sorted(rows: seq<Row>)
  {
    forall i, j :: 0 <= i < j < |rows| ==> LexLessEq(Opening(rows[i]), Opening(rows[j]))
  }

  lemma SortedCons(x: Row, s: seq<Row>)
    requires Sorted(s)
    requires forall y :: y in s ==> LexLessEq(Opening(x), Opening(y))
    ensures Sorted([x] + s)
  {
    var r := [x] + s;
    forall i, j | 0 <= i < j < |r| ensures LexLessEq(Opening(r[i]), Opening(r[j])) {
      if i == 0 {
        assert r[j] in s;
      } else {
        assert r[i] == s[i - 1] && r[j] == s[j - 1];
      }
    }
  }

  function Insert(x: Row, s: seq<Row>): (r: seq<Row>)
    requires Sorted(s)
    ensures Sorted(r) && multiset(r) == multiset(s) + multiset{x}
  {
    if s == [] then [x]
    else if LexLessEq(Opening(x), Opening(s[0])) then
      InsertFront(x, s);
      [x] + s
    else
      var rest := Insert(x, s[1..]);
      InsertBehind(x, s, rest);
      [s[0]] + rest
  }

  lemma InsertFront(x: Row, s: seq<Row>)
    requires Sorted(s) && s != [] && LexLessEq(Opening(x), Opening(s[0]))
    ensures Sorted([x] + s)
  {
    forall y | y in s ensures LexLessEq(Opening(x), Opening(y)) {
      var j :| 0 <= j < |s| && s[j] == y;
      if j > 0 {
        LexTransitive(Opening(x), Opening(s[0]), Opening(y));
      }
    }
    SortedCons(x, s);
  }

  lemma InsertBehind(x: Row, s: seq<Row>, rest: seq<Row>)
    requires Sorted(s) && s != [] && !LexLessEq(Opening(x), Opening(s[0]))
    requires Sorted(rest) && multiset(rest) == multiset(s[1..]) + multiset{x}
    ensures Sorted([s[0]] + rest) && multiset([s[0]] + rest) == multiset(s) + multiset{x}
  {
    LexTotal(Opening(x), Opening(s[0]));
    assert s == [s[0]] + s[1..];
    forall y | y in rest ensures LexLessEq(Opening(s[0]), Opening(y)) {
      assert y in multiset(rest);
      if y != x {
        assert y in multiset(s[1..]);
        var j :| 0 <= j < |s[1..]| && s[1..][j] == y;
        assert s[j + 1] == y;
      }
    }
    SortedCons(s[0], rest);
  }

  /** A sort by opening date-time text. The library sort the report uses is
      not stable, so only what every such sort promises is relied upon:
      the result is ascending and a permutation of the input. */
  function SortByOpening(rows: seq<Row>): (r: seq<Row>)
    ensures Sorted(r) && multiset(r) == multiset(rows)
  {
    if rows == [] then []
    else
      assert rows == [rows[0]] + rows[1..];
      Insert(rows[0], SortByOpening(rows[1..]))
  }

  // ---------------------------------------------------------------------
  // The whole reconciliation

  /** The rows to write back. */
  function Reconcile(existing: seq<Row>, batch: seq<Row>): seq<Row>
  {
    SortByOpening(DedupLast(Filter(Merge(existing, batch))))
  }

  /** Any acceptable outcome of the final sort: an ascending permutation of
      the de-duplicated rows. */
  predicate SortsTo(rows: seq<Row>, out: seq<Row>)
  {
    Sorted(out) && multiset(out) == multiset(rows)
  }

  /** The rows that reach the de-duplication step. */
  function Candidates(existing: seq<Row>, batch: seq<Row>): seq<Row>
  {
    Filter(Merge(existing, batch))
  }

  /** Which row the reconciled table holds for a ticket number: the last
      filtered row with that number from the batch when the batch has the
      number, and otherwise the last filtered existing row with it. */
  lemma CandidateFor(existing: seq<Row>, batch: seq<Row>, k: string)
    ensures LastWith(Candidates(existing, batch), k) ==
      if k in Keys(batch) then LastWith(Filter(batch), k) else LastWith(Filter(existing), k)
  {
    var kept := Without(existing, Keys(batch));
    SelectConcat(kept, batch, Keep);
    LastWithConcat(Filter(kept), Filter(batch), k);
    if k in Keys(batch) {
      assert k !in Keys(Filter(kept));
    } else {
      assert k !in Keys(Filter(batch));
      LastWithSelectBoth(existing, Outside(Keys(batch)), k);
    }
  }

  /** Filtering the rows with key k after a selection that keeps all of them
      gives the same last row as filtering alone. */
  lemma {:induction false} LastWithSelectBoth(rows: seq<Row>, p: Row -> bool, k: string)
    requires forall x :: x in rows && Key(x) == k ==> p(x)
    ensures LastWith(Select(Select(rows, p), Keep), k) == LastWith(Select(rows, Keep), k)
  {
    if rows != [] {
      var n := |rows| - 1;
      var init, last := rows[..n], [rows[n]];
      assert rows == init + last;
      SelectConcat(init, last, p);
      SelectConcat(Select(init, p), Select(last, p), Keep);
      SelectConcat(init, last, Keep);
      LastWithConcat(Select(Select(init, p), Keep), Select(Select(last, p), Keep), k);
      LastWithConcat(Select(init, Keep), Select(last, Keep), k);
      LastWithSelectBoth(init, p, k);
      if p(rows[n]) {
        assert Select(last, p) == last;
      } else {
        assert Key(rows[n]) != k;
      }
    }
  }

  /** The properties of the reconciled table, for every acceptable outcome
      of the final sort: ascending by opening date-time, no ticket number
      twice, every row passes the business filter, and a row is present
      exactly when it is the last filtered row with its ticket number after
      the merge. */
  lemma ReconciledTable(existing: seq<Row>, batch: seq<Row>, out: seq<Row>)
    requires SortsTo(DedupLast(Candidates(existing, batch)), out)
    ensures Sorted(out) && UniqueKeys(out)
    ensures forall x :: x in out ==> Keep(x)
    ensures forall x :: x in out <==> LastWith(Candidates(existing, batch), Key(x)) == Some(x)
  {
    var d := DedupLast(Candidates(existing, batch));
    assert forall x :: x in out <==> x in d by {
      forall x ensures x in out <==> x in d {
        assert x in out <==> x in multiset(out);
      }
    }
    forall x | x in out ensures x in d && LastWith(Candidates(existing, batch), Key(x)) == Some(x) {
      DedupKeepsLast(Candidates(existing, batch), x);
    }
    forall x | LastWith(Candidates(existing, batch), Key(x)) == Some(x) ensures x in out {
      DedupKeepsLast(Candidates(existing, batch), x);
    }
    forall i, j | 0 <= i < j < |out| ensures Key(out[i]) != Key(out[j]) {
      if Key(out[i]) == Key(out[j]) {
        var k := Key(out[i]);
        DedupKeepsLast(Candidates(existing, batch), out[i]);
        DedupKeepsLast(Candidates(existing, batch), out[j]);
        CountAtLeastTwo(out, i, j);
        assert multiset(d)[out[i]] >= 2;
        NoDupCount(d, out[i]);
      }
    }
  }

  /** A value at two positions of a sequence occurs in it at least twice. */
  lemma CountAtLeastTwo(s: seq<Row>, i: nat, j: nat)
    requires i < j < |s| && s[i] == s[j]
    ensures multiset(s)[s[i]] >= 2
  {
    assert s == s[..i] + [s[i]] + s[i + 1..j] + [s[j]] + s[j + 1..];
  }

  /** In a table with unique keys every row occurs once. */
  lemma {:induction false} NoDupCount(s: seq<Row>, x: Row)
    requires UniqueKeys(s)
    ensures multiset(s)[x] <= 1
  {
    if s != [] {
      assert s == [s[0]] + s[1..];
      NoDupCount(s[1..], x);
      if s[0] == x {
        assert x !in s[1..];
      }
    }
  }

  /** Upsert correctness: for a ticket number k the batch carries exactly
      once, in row b, the reconciled table holds b when b passes the filter
      and no row with number k otherwise, whatever the snapshot held. */
  lemma Upsert(existing: seq<Row>, batch: seq<Row>, out: seq<Row>, b: Row)
    requires SortsTo(DedupLast(Candidates(existing, batch)), out)
    requires b in batch && forall y :: y in batch && Key(y) == Key(b) ==> y == b
    ensures Keep(b) ==> b in out
    ensures forall x :: x in out && Key(x) == Key(b) ==> x == b && Keep(b)
  {
    ReconciledTable(existing, batch, out);
    CandidateFor(existing, batch, Key(b));
  }

  /** A ticket number the batch does not carry keeps the last existing row
      with that number that passes the filter. */
  lemma Untouched(existing: seq<Row>, batch: seq<Row>, out: seq<Row>, k: string)
    requires SortsTo(DedupLast(Candidates(existing, batch)), out)
    requires k !in Keys(batch)
    ensures forall x :: x in out && Key(x) == k <==> LastWith(Filter(existing), k) == Some(x)
  {
    ReconciledTable(existing, batch, out);
    CandidateFor(existing, batch, k);
  }

  /** The model's own sort is one acceptable outcome. */
  lemma ReconcileSorts(existing: seq<Row>, batch: seq<Row>)
    ensures SortsTo(DedupLast(Candidates(existing, batch)), Reconcile(existing, batch))
  {
  }

  /** Two tables with unique keys and the same rows are permutations of each
      other. */
  lemma SameRowsSameMultiset(a: seq<Row>, b: seq<Row>)
    requires UniqueKeys(a) && UniqueKeys(b)
    requires forall x :: x in a <==> x in b
    ensures multiset(a) == multiset(b)
  {
    forall x ensures multiset(a)[x] == multiset(b)[x] {
      NoDupCount(a, x);
      NoDupCount(b, x);
      assert x in a <==> x in multiset(a);
      assert x in b <==> x in multiset(b);
    }
  }

  /** Reconciling the same batch against two snapshots that agree, for
      every ticket number the batch does not carry, on the last row that
      passes the filter gives the same rows, up to the order among rows with
      equal opening date-time, for any two outcomes of the final sort. */
  lemma RereconcileSame(existing: seq<Row>, again: seq<Row>, batch: seq<Row>, out1: seq<Row>, out2: seq<Row>)
    requires SortsTo(DedupLast(Candidates(existing, batch)), out1)
    requires SortsTo(DedupLast(Candidates(again, batch)), out2)
    requires forall k :: k !in Keys(batch) ==> LastWith(Filter(again), k) == LastWith(Filter(existing), k)
    ensures multiset(out2) == multiset(out1) && |out2| == |out1|
    ensures DistinctOpenings(out1) ==> out2 == out1
  {
    ReconciledTable(existing, batch, out1);
    ReconciledTable(again, batch, out2);
    forall x ensures x in out2 <==> x in out1 {
      CandidateFor(existing, batch, Key(x));
      CandidateFor(again, batch, Key(x));
    }
    SameRowsSameMultiset(out2, out1);
    assert |multiset(out2)| == |multiset(out1)|;
    if DistinctOpenings(out1) {
      SortedUnique(out1, out2);
    }
  }

  /** Reconciling the reconciled table once more against the same batch
      gives back the same rows, up to the order among rows with equal
      opening date-time, whichever ascending permutation each sort picks. */
  lemma ReconcileTwice(existing: seq<Row>, batch: seq<Row>, out1: seq<Row>, out2: seq<Row>)
    requires SortsTo(DedupLast(Candidates(existing, batch)), out1)
    requires SortsTo(DedupLast(Candidates(out1, batch)), out2)
    ensures multiset(out2) == multiset(out1) && |out2| == |out1|
    ensures DistinctOpenings(out1) ==> out2 == out1
  {
    ReconciledTable(existing, batch, out1);
    SelectAll(out1, Keep);
    forall k | k !in Keys(batch)
      ensures LastWith(Filter(out1), k) == LastWith(Filter(existing), k)
    {
      Untouched(existing, batch, out1, k);
      var r := LastWith(out1, k);
      if r.Some? {
        LastWithUnique(out1, r.value);
      }
    }
    RereconcileSame(existing, out1, batch, out1, out2);
  }

  /** No two rows share an opening date-time. */
  predicate DistinctOpenings(rows: seq<Row>)
  {
    forall i, j :: 0 <= i < j < |rows| ==> Opening(rows[i]) != Opening(rows[j])
  }

  /** When opening date-times are pairwise distinct, the ascending order is
      unique: any two ascending permutations of the same rows are equal. */
  lemma {:induction false} SortedUnique(a: seq<Row>, b: seq<Row>)
    requires Sorted(a) && Sorted(b) && multiset(a) == multiset(b)
    requires DistinctOpenings(a)
    ensures a == b
  {
    if a != [] {
      assert |b| == |a| by {
        assert |multiset(a)| == |multiset(b)|;
      }
      SortedHeads(a, b);
      DropHead(a, b);
      assert Sorted(a[1..]) && Sorted(b[1..]) && DistinctOpenings(a[1..]) by {
        assert forall i :: 0 <= i < |a| - 1 ==> a[1..][i] == a[i + 1];
        assert forall i :: 0 <= i < |b| - 1 ==> b[1..][i] == b[i + 1];
      }
      SortedUnique(a[1..], b[1..]);
      assert a == [a[0]] + a[1..] && b == [b[0]] + b[1..];
    }
  }

  lemma SortedHeads(a: seq<Row>, b: seq<Row>)
    requires Sorted(a) && Sorted(b) && multiset(a) == multiset(b)
    requires DistinctOpenings(a) && a != [] && b != []
    ensures a[0] == b[0]
  {
    assert a[0] in multiset(b) && b[0] in multiset(a);
    var i :| 0 <= i < |a| && a[i] == b[0];
    var j :| 0 <= j < |b| && b[j] == a[0];
    if i != 0 {
      assert LexLessEq(Opening(a[0]), Opening(a[i]));
      if j != 0 {
        assert LexLessEq(Opening(b[0]), Opening(b[j]));
      }
      LexAntisymmetric(Opening(a[0]), Opening(a[i]));
    }
  }

  lemma DropHead(a: seq<Row>, b: seq<Row>)
    requires a != [] && b != [] && a[0] == b[0] && multiset(a) == multiset(b)
    ensures multiset(a[1..]) == multiset(b[1..])
  {
    assert a == [a[0]] + a[1..] && b == [b[0]] + b[1..];
    assert multiset(a) == multiset{a[0]} + multiset(a[1..]);
    assert multiset(b) == multiset{b[0]} + multiset(b[1..]);
    forall x ensures multiset(a[1..])[x] == multiset(b[1..])[x] {
      assert multiset(a)[x] == multiset{a[0]}[x] + multiset(a[1..])[x];
      assert multiset(b)[x] == multiset{a[0]}[x] + multiset(b[1..])[x];
    }
  }
}
