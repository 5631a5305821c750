/**
 * A worked example: three bills due in January 2023 (100), February 2023
 * (200) and January 2024 (50), worked through the filters and the views.
 */
module Examples {
  import opened Wrappers
  import opened Records
  import opened Filters
  import opened Sorting
  import opened Grouping
  import opened Views

  /** A loaded bill due on the first of the month, with only its amount filled in. */
  function Bill(year: int, month: Month, amount: int): Record
  {
    Record(Blank, Blank, Blank, None, Blank, Blank, Blank, Some(Date(year, month, 1)), Some(amount),
           Blank, Blank, Blank, Blank, Blank, Some(year), Some(month))
  }

  function Sample(): Frame
  {
    Frame({"DATA_VENCIMENTO", "VALOR", "ANO", "MES", "MES_ANO", "MES_NOME"},
          [Bill(2023, 1, 100), Bill(2023, 2, 200), Bill(2024, 1, 50)])
  }

  /** A sidebar with only the due-date range and the year set. */
  function Sidebar(start: Date, end: Date, year: YearChoice): Selection
  {
    Selection(start, end, year, [], [], [], [], [])
  }

  /** The rows of the sample that pass every mask of ps, worked out row by row. */
  lemma SampleSatisfying(ps: seq<Pred>)
    ensures Satisfying(Sample().rows, ps)
            == (if AllHold(ps, Bill(2023, 1, 100)) then [Bill(2023, 1, 100)] else [])
             + (if AllHold(ps, Bill(2023, 2, 200)) then [Bill(2023, 2, 200)] else [])
             + (if AllHold(ps, Bill(2024, 1, 50)) then [Bill(2024, 1, 50)] else [])
  {
    var b1, b2, b3 := Bill(2023, 1, 100), Bill(2023, 2, 200), Bill(2024, 1, 50);
    assert [b3][1..] == [];
    assert Satisfying([b3], ps) == (if AllHold(ps, b3) then [b3] else []) + Satisfying([], ps);
    assert [b2, b3][1..] == [b3];
    assert Satisfying([b2, b3], ps) == (if AllHold(ps, b2) then [b2] else []) + Satisfying([b3], ps);
    assert Sample().rows[1..] == [b2, b3];
  }

  lemma TotalOfOne(a: Record)
    ensures Total([a]) == ValorOf(a)
  {
    assert [a][..0] == [];
  }

  lemma TotalOfTwo(a: Record, b: Record)
    ensures Total([a, b]) == ValorOf(a) + ValorOf(b)
  {
    assert [a, b][..1] == [a];
    TotalOfOne(a);
  }

  /** Choosing the year 2023 over the whole range leaves 100 + 200. */
  lemma YearExample()
    ensures HeadlineMetrics(Filtered(Sample(), Sidebar(Date(2023, 1, 1), Date(2024, 12, 31), OnlyYear(2023)))).total == 300
  {
    var q := Sidebar(Date(2023, 1, 1), Date(2024, 12, 31), OnlyYear(2023));
    var ps := [DueBetween(q.start, q.end), InYear(2023)];
    assert ActivePreds(Sample(), q) == ps;
    SampleSatisfying(ps);
    assert !AllHold(ps, Bill(2024, 1, 50)) by { assert !Holds(ps[1], Bill(2024, 1, 50)); }
    assert Filtered(Sample(), q).rows == [Bill(2023, 1, 100), Bill(2023, 2, 200)];
    TotalOfTwo(Bill(2023, 1, 100), Bill(2023, 2, 200));
  }

  /** A due-date range covering only February 2023 leaves the 200 bill. */
  lemma RangeExample()
    ensures HeadlineMetrics(Filtered(Sample(), Sidebar(Date(2023, 2, 1), Date(2023, 2, 28), Todos))).total == 200
  {
    var q := Sidebar(Date(2023, 2, 1), Date(2023, 2, 28), Todos);
    var ps := [DueBetween(q.start, q.end)];
    assert ActivePreds(Sample(), q) == ps;
    SampleSatisfying(ps);
    assert !AllHold(ps, Bill(2023, 1, 100)) by { assert !Holds(ps[0], Bill(2023, 1, 100)); }
    assert !AllHold(ps, Bill(2024, 1, 50)) by { assert !Holds(ps[0], Bill(2024, 1, 50)); }
    assert Filtered(Sample(), q).rows == [Bill(2023, 2, 200)];
    TotalOfOne(Bill(2023, 2, 200));
  }

  /** The sample falls into three months, in order of first appearance. */
  lemma SampleMonths()
    ensures GroupSum(Sample().rows, MonthOf, ValorOf)
            == [(YearMonth(2023, 1), 100), (YearMonth(2023, 2), 200), (YearMonth(2024, 1), 50)]
  {
    var rows := Sample().rows;
    var b1, b2 := Bill(2023, 1, 100), Bill(2023, 2, 200);
    var jan23, feb23, jan24 := YearMonth(2023, 1), YearMonth(2023, 2), YearMonth(2024, 1);
    assert rows[..2] == [b1, b2];
    assert [b1, b2][..1] == [b1];
    assert [b1][..0] == [];
    assert GroupSum([b1], MonthOf, ValorOf) == [(jan23, 100)];
    assert MonthOf(b2) == Some(feb23) && ValorOf(b2) == 200;
    var g: seq<(YearMonth, int)> := [(jan23, 100), (feb23, 200)];
    assert Add([(jan23, 100)], feb23, 200) == g by {
      assert [(jan23, 100)][1..] == [];
      assert Add([], feb23, 200) == [(feb23, 200)];
    }
    assert GroupSum([b1, b2], MonthOf, ValorOf) == g;
    assert MonthOf(rows[2]) == Some(jan24) && ValorOf(rows[2]) == 50;
    assert Add(g, jan24, 50) == [(jan23, 100), (feb23, 200), (jan24, 50)] by {
      assert g[1..] == [(feb23, 200)];
      assert [(feb23, 200)][1..] == [];
      assert Add([(feb23, 200)], jan24, 50) == [(feb23, 200), (jan24, 50)];
    }
  }

  /** Across all years the monthly view has three months, adding up to 350. */
  lemma MonthlyExample()
    ensures MonthlyView(Sample()).Shown?
    ensures |MonthlyView(Sample()).entries| == 3
    ensures SumBy(MonthlyView(Sample()).entries, Value) == 350
  {
    var f := Sample();
    assert f.rows[..2] == [Bill(2023, 1, 100), Bill(2023, 2, 200)];
    assert Total(f.rows) == 350 by {
      TotalOfTwo(Bill(2023, 1, 100), Bill(2023, 2, 200));
    }
    MonthlyConservation(f);
    SampleMonths();
    SortByCorrect(GroupSum(f.rows, MonthOf, ValorOf), ByMonth);
  }
}
