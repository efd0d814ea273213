/**
 * The ingestion run: rows are handled strictly one at a time, in input
 * order, each one finishing (inserted, absorbed, rejected or dropped)
 * before the next is read. A run is therefore a left fold of the row step
 * over the input.
 */
module Importer {
  import opened Wrappers
  import opened Fields
  import opened Mapper
  import opened Sink

  /** The store after a run, and what became of each row, in input order. */
  datatype Report = Report(store: Store, outcomes: seq<Outcome>)

  /** No write is rejected. */
  function NoFailures(n: nat): (fails: seq<bool>)
    ensures |fails| == n
    ensures forall i :: 0 <= i < n ==> !fails[i]
  {
    seq(n, _ => false)
  }

  /**
   * Handles `rows` in order from `store`; `fails[i]` says whether the
   * database rejects the write of row `i`. Each row gets one outcome, and
   * records already stored are never changed.
   */
  function ImportAll(store: Store, rows: seq<Row>, parsers: Parsers, fails: seq<bool>): (r: Report)
    requires |fails| == |rows|
    ensures |r.outcomes| == |rows|
    ensures forall k :: k in store ==> k in r.store && r.store[k] == store[k]
    decreases |rows|
  {
    if rows == [] then Report(store, [])
    else
      var step := Process(store, rows[0], parsers, fails[0]);
      var rest := ImportAll(step.store, rows[1..], parsers, fails[1..]);
      Report(rest.store, [step.outcome] + rest.outcomes)
  }

  /**
   * Exactly one drop per inadmissible row and one failure per rejected
   * write: row `i` is dropped exactly when it is inadmissible, and fails
   * exactly when it is admissible and its write is rejected.
   */
  lemma {:induction false} RunOutcomes(store: Store, rows: seq<Row>, parsers: Parsers, fails: seq<bool>, i: nat)
    requires |fails| == |rows| && i < |rows|
    ensures var r := ImportAll(store, rows, parsers, fails);
      && (r.outcomes[i] == Dropped <==> !IsAdmissible(rows[i]))
      && (r.outcomes[i] == Failed <==> IsAdmissible(rows[i]) && fails[i])
    decreases |rows|
  {
    if i > 0 {
      var step := Process(store, rows[0], parsers, fails[0]);
      assert rows[1..][i - 1] == rows[i] && fails[1..][i - 1] == fails[i];
      RunOutcomes(step.store, rows[1..], parsers, fails[1..], i - 1);
    }
  }

  /** Row `i` is admissible under key `k` and its write is not rejected. */
  ghost predicate Succeeds(rows: seq<Row>, fails: seq<bool>, i: int, k: string)
  {
    0 <= i < |rows| && i < |fails| && IsAdmissible(rows[i]) && !fails[i] && Key(rows[i]) == k
  }

  /** Running `a + b` is running `a`, then running `b` on the store `a` left. */
  lemma {:induction false} ImportAllAppend(store: Store, a: seq<Row>, b: seq<Row>, parsers: Parsers,
                                           fa: seq<bool>, fb: seq<bool>)
    requires |fa| == |a| && |fb| == |b|
    ensures var first := ImportAll(store, a, parsers, fa);
      var second := ImportAll(first.store, b, parsers, fb);
      ImportAll(store, a + b, parsers, fa + fb) == Report(second.store, first.outcomes + second.outcomes)
    decreases |a|
  {
    if a == [] {
      assert a + b == b && fa + fb == fb;
    } else {
      assert (a + b)[1..] == a[1..] + b;
      assert (fa + fb)[1..] == fa[1..] + fb;
      var step := Process(store, a[0], parsers, fa[0]);
      ImportAllAppend(step.store, a[1..], b, parsers, fa[1..], fb);
    }
  }

  /** Every key in the final store was there before or came from a row whose write succeeded. */
  lemma {:induction false} KeysComeFromInput(store: Store, rows: seq<Row>, parsers: Parsers, fails: seq<bool>, k: string)
    requires |fails| == |rows|
    requires k in ImportAll(store, rows, parsers, fails).store
    ensures k in store || exists i :: Succeeds(rows, fails, i, k)
    decreases |rows|
  {
    if rows != [] && k !in store {
      var step := Process(store, rows[0], parsers, fails[0]);
      if k in step.store {
        assert Succeeds(rows, fails, 0, k);
      } else {
        KeysComeFromInput(step.store, rows[1..], parsers, fails[1..], k);
        var i :| Succeeds(rows[1..], fails[1..], i, k);
        assert Succeeds(rows, fails, i + 1, k);
      }
    }
  }

  /**
   * First write wins: for a key not stored before the run, the stored
   * record is the mapping of the first row under that key whose write
   * succeeded.
   */
  lemma {:induction false} FirstSuccessWins(store: Store, rows: seq<Row>, parsers: Parsers, fails: seq<bool>,
                                            k: string, i: nat)
    requires |fails| == |rows|
    requires k !in store
    requires Succeeds(rows, fails, i, k)
    requires forall j :: 0 <= j < i ==> !Succeeds(rows, fails, j, k)
    ensures var final := ImportAll(store, rows, parsers, fails).store;
      k in final && final[k] == MapRow(rows[i], parsers)
    decreases |rows|
  {
    var step := Process(store, rows[0], parsers, fails[0]);
    if i == 0 {
      assert step.store == store[k := MapRow(rows[0], parsers)];
    } else {
      assert !Succeeds(rows, fails, 0, k);
      assert k !in step.store;
      forall j | 0 <= j < i - 1
        ensures !Succeeds(rows[1..], fails[1..], j, k)
      {
        assert !Succeeds(rows, fails, j + 1, k);
      }
      FirstSuccessWins(step.store, rows[1..], parsers, fails[1..], k, i - 1);
    }
  }

  /** Existence: every row whose write succeeded has its key in the final store. */
  lemma {:induction false} SucceededRowIsStored(store: Store, rows: seq<Row>, parsers: Parsers, fails: seq<bool>, i: nat)
    requires |fails| == |rows|
    requires i < |rows| && IsAdmissible(rows[i]) && !fails[i]
    ensures Key(rows[i]) in ImportAll(store, rows, parsers, fails).store
    decreases |rows|
  {
    var step := Process(store, rows[0], parsers, fails[0]);
    if i > 0 {
      assert rows[1..][i - 1] == rows[i] && fails[1..][i - 1] == fails[i];
      SucceededRowIsStored(step.store, rows[1..], parsers, fails[1..], i - 1);
    }
  }

  /**
   * A pass over rows whose keys are all stored already changes nothing:
   * every admissible row is absorbed by `ON CONFLICT DO NOTHING` or
   * rejected, and none is inserted.
   */
  lemma {:induction false} KnownKeysChangeNothing(store: Store, rows: seq<Row>, parsers: Parsers, fails: seq<bool>)
    requires |fails| == |rows|
    requires forall i :: 0 <= i < |rows| && IsAdmissible(rows[i]) ==> Key(rows[i]) in store
    ensures var r := ImportAll(store, rows, parsers, fails);
      r.store == store && forall i :: 0 <= i < |rows| ==> r.outcomes[i] != Inserted
    decreases |rows|
  {
    if rows != [] {
      assert forall i :: 0 <= i < |rows| - 1 ==> rows[1..][i] == rows[i + 1];
      KnownKeysChangeNothing(store, rows[1..], parsers, fails[1..]);
    }
  }

  /**
   * Idempotence: after a run with no rejected writes, running the same
   * input again leaves the store as it is (whatever the second run's
   * writes do), and no row of the second run is inserted.
   */
  lemma ImportTwiceIsImportOnce(store: Store, rows: seq<Row>, parsers: Parsers, fails: seq<bool>)
    requires |fails| == |rows|
    ensures var once := ImportAll(store, rows, parsers, NoFailures(|rows|));
      var twice := ImportAll(once.store, rows, parsers, fails);
      twice.store == once.store && forall i :: 0 <= i < |rows| ==> twice.outcomes[i] != Inserted
  {
    var clean := NoFailures(|rows|);
    var once := ImportAll(store, rows, parsers, clean);
    forall i | 0 <= i < |rows| && IsAdmissible(rows[i])
      ensures Key(rows[i]) in once.store
    {
      SucceededRowIsStored(store, rows, parsers, clean, i);
    }
    KnownKeysChangeNothing(once.store, rows, parsers, fails);
  }

  /** A run keeps every record under its own company number. */
  lemma {:induction false} ImportKeepsWellKeyed(store: Store, rows: seq<Row>, parsers: Parsers, fails: seq<bool>)
    requires |fails| == |rows|
    requires WellKeyed(store)
    ensures WellKeyed(ImportAll(store, rows, parsers, fails).store)
    decreases |rows|
  {
    if rows != [] {
      ImportKeepsWellKeyed(Process(store, rows[0], parsers, fails[0]).store, rows[1..], parsers, fails[1..]);
    }
  }

  /**
   * The streaming loop: the parser is paused on each row and resumed only
   * after that row's write has settled, so rows are consumed one at a time
   * in input order and the result is the fold over the whole input.
   */
  method ImportStream(store: Store, rows: seq<Row>, parsers: Parsers, fails: seq<bool>) returns (report: Report)
    requires |fails| == |rows|
    ensures report == ImportAll(store, rows, parsers, fails)
  {
    var current := store;
    var outcomes: seq<Outcome> := [];
    var i := 0;
    while i < |rows|
      invariant 0 <= i <= |rows|
      invariant Report(current, outcomes) == ImportAll(store, rows[..i], parsers, fails[..i])
    {
      var step := Process(current, rows[i], parsers, fails[i]);
      ImportAllAppend(store, rows[..i], [rows[i]], parsers, fails[..i], [fails[i]]);
      assert rows[..i + 1] == rows[..i] + [rows[i]];
      assert fails[..i + 1] == fails[..i] + [fails[i]];
      current := step.store;
      outcomes := outcomes + [step.outcome];
      i := i + 1;
    }
    assert rows[..i] == rows && fails[..i] == fails;
    report := Report(current, outcomes);
  }

  /** The parser's `maxRows` option: at most this many data rows are read. */
  const MaxRows: nat := 1000

  /** The rows the parser delivers. */
  function Delivered<T>(xs: seq<T>): (ys: seq<T>)
    ensures |ys| == if |xs| < MaxRows then |xs| else MaxRows
    ensures ys <= xs
  {
    if |xs| < MaxRows then xs else xs[..MaxRows]
  }

  /**
   * A whole run as configured: the first `MaxRows` rows of the file are
   * handled, and nothing after them reaches the store.
   */
  function ImportFile(store: Store, rows: seq<Row>, parsers: Parsers, fails: seq<bool>): (r: Report)
    requires |fails| == |rows|
    ensures |r.outcomes| == if |rows| < MaxRows then |rows| else MaxRows
  {
    ImportAll(store, Delivered(rows), parsers, Delivered(fails))
  }

  /** Rows past the cap have no effect on a run. */
  lemma RowsPastCapIgnored(store: Store, rows: seq<Row>, extra: seq<Row>, parsers: Parsers,
                           fails: seq<bool>, extraFails: seq<bool>)
    requires |fails| == |rows| >= MaxRows
    requires |extraFails| == |extra|
    ensures ImportFile(store, rows + extra, parsers, fails + extraFails) == ImportFile(store, rows, parsers, fails)
  {
    assert Delivered(rows + extra) == Delivered(rows);
    assert Delivered(fails + extraFails) == Delivered(fails);
  }
}
