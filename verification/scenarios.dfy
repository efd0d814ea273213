/** Concrete runs of the model on small inputs. */
module Scenarios {
  import opened Wrappers
  import opened Fields
  import opened Sic
  import opened Mapper
  import opened Sink
  import opened Importer

  /** Blank SIC cells are skipped and the rest keep their column order. */
  lemma SicExample()
    ensures SicColumn(map[SicText1 := "62012", SicText2 := "", SicText3 := "70100", SicText4 := ""])
      == Some(["62012", "70100"])
    ensures SicColumn(map[SicText1 := "", SicText2 := "", SicText3 := "", SicText4 := ""]) == None
  {
    var row := map[SicText1 := "62012", SicText2 := "", SicText3 := "70100", SicText4 := ""];
    var cells := SicCells(row);
    assert cells == [Some("62012"), Some(""), Some("70100"), Some("")];
    assert cells[1..][1..][1..][1..] == [];
    assert Compact(cells[1..][1..][1..]) == [];
    assert Compact(cells[1..][1..]) == ["70100"];
    assert Compact(cells[1..]) == ["70100"];
    assert Compact(cells) == ["62012", "70100"];
    var blank := map[SicText1 := "", SicText2 := "", SicText3 := "", SicText4 := ""];
    assert SicCells(blank) == [Some(""), Some(""), Some(""), Some("")];
  }

  /** A run over one row is that row's step. */
  lemma SingleRowRun(store: Store, row: Row, parsers: Parsers, writeFails: bool)
    ensures var step := Process(store, row, parsers, writeFails);
      ImportAll(store, [row], parsers, [writeFails]) == Report(step.store, [step.outcome])
  {
  }

  /** A run over `[row] + rows` is that row's step followed by the run over `rows`. */
  lemma ConsRun(store: Store, row: Row, rows: seq<Row>, parsers: Parsers, writeFails: bool, fails: seq<bool>)
    requires |fails| == |rows|
    ensures var step := Process(store, row, parsers, writeFails);
      var rest := ImportAll(step.store, rows, parsers, fails);
      ImportAll(store, [row] + rows, parsers, [writeFails] + fails) == Report(rest.store, [step.outcome] + rest.outcomes)
  {
  }

  /**
   * A valid row, a row without a company number and a second row under the
   * first row's key: one stored record (the first row's), one drop and one
   * duplicate.
   */
  lemma ThreeRowRun(parsers: Parsers)
    ensures var first := map[CompanyNumber := "00000001", CompanyName := "FIRST LTD"];
      var missing := map[CompanyName := "NO NUMBER LTD"];
      var again := map[CompanyNumber := "00000001", CompanyName := "SECOND LTD"];
      var r := ImportAll(map[], [first, missing, again], parsers, NoFailures(3));
      && r.store == map["00000001" := MapRow(first, parsers)]
      && r.outcomes == [Inserted, Dropped, Duplicate]
  {
    var first := map[CompanyNumber := "00000001", CompanyName := "FIRST LTD"];
    var missing := map[CompanyName := "NO NUMBER LTD"];
    var again := map[CompanyNumber := "00000001", CompanyName := "SECOND LTD"];
    var stored: Store := map["00000001" := MapRow(first, parsers)];
    var rows := [first, missing, again];
    var fails := NoFailures(3);
    assert rows == [first] + ([missing] + [again]) by {}
    assert fails == [false] + ([false] + [false]) by {}
    assert Process(map[], first, parsers, false) == Step(stored, Inserted) by {
      assert IsAdmissible(first) && Key(first) == "00000001";
    }
    assert Process(stored, missing, parsers, false) == Step(stored, Dropped) by {
      assert !IsAdmissible(missing);
    }
    assert Process(stored, again, parsers, false) == Step(stored, Duplicate) by {
      assert IsAdmissible(again) && Key(again) == "00000001";
    }
    SingleRowRun(stored, again, parsers, false);
    ConsRun(stored, missing, [again], parsers, false, [false]);
    ConsRun(map[], first, [missing] + [again], parsers, false, [false] + [false]);
  }
}
