/**
 * The store and one pass of the row handler.
 *
 * The `companies` table is a map from `company_number` to the parameters
 * that were inserted under it. The insert ends in
 * `ON CONFLICT (company_number) DO NOTHING`, and a rejected write is caught
 * and only logged; whether a write is rejected is an input to the model.
 */
module Sink {
  import opened Wrappers
  import opened Fields
  import opened Mapper

  /** The `companies` table, keyed by `company_number`. */
  type Store = map<string, Params>

  /**
   * What became of one row: dropped by the admissibility test, inserted,
   * absorbed by `ON CONFLICT DO NOTHING`, or rejected by the database.
   */
  datatype Outcome = Dropped | Inserted | Duplicate | Failed

  /** The store after one row, and what became of the row. */
  datatype Step = Step(store: Store, outcome: Outcome)

  /** Every stored record sits under its own company number. */
  ghost predicate WellKeyed(store: Store)
  {
    forall k :: k in store ==> store[k].companyNumber == Some(k)
  }

  /**
   * `INSERT ... ON CONFLICT (company_number) DO NOTHING`, or a write the
   * database rejects. A new key is added with exactly this record; an
   * existing key keeps its first record; no other key appears or changes.
   */
  function Insert(store: Store, rec: Params, writeFails: bool): (s: Step)
    requires rec.companyNumber.Some?
    ensures var key := rec.companyNumber.value;
      && (s.outcome == Inserted <==> !writeFails && key !in store)
      && (s.outcome == Duplicate <==> !writeFails && key in store)
      && (s.outcome == Failed <==> writeFails)
      && s.store.Keys == store.Keys + (if s.outcome == Inserted then {key} else {})
      && (forall k :: k in store ==> s.store[k] == store[k])
      && (s.outcome == Inserted ==> s.store[key] == rec)
  {
    var key := rec.companyNumber.value;
    if writeFails then Step(store, Failed)
    else if key in store then Step(store, Duplicate)
    else Step(store[key := rec], Inserted)
  }

  /**
   * The `data` handler on one row: an inadmissible row is dropped and the
   * store is untouched; an admissible row is mapped and inserted.
   */
  function Process(store: Store, row: Row, parsers: Parsers, writeFails: bool): (s: Step)
    ensures !IsAdmissible(row) ==> s == Step(store, Dropped)
    ensures IsAdmissible(row) ==> s.outcome != Dropped
    ensures IsAdmissible(row) && s.outcome == Inserted ==>
      !writeFails && Key(row) !in store && s.store == store[Key(row) := MapRow(row, parsers)]
    ensures s.outcome != Inserted ==> s.store == store
    ensures IsAdmissible(row) && !writeFails && Key(row) !in store ==> s.outcome == Inserted
    ensures WellKeyed(store) ==> WellKeyed(s.store)
  {
    if !IsAdmissible(row) then Step(store, Dropped)
    else Insert(store, MapRow(row, parsers), writeFails)
  }
}
