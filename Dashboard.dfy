/**
 * The dashboard's own pipeline: load the sheet, apply the sidebar selection,
 * and show the headline metrics of what is left.
 */

module Dashboard {
  import opened Wrappers
  import opened Records
  import opened Loader
  import opened Filters
  import opened Views

  /**
   * Whatever the sheet and the selection, a non-empty filtered frame shows a
   * largest amount and a mean that does not exceed it: load_data only keeps
   * rows with a VALOR amount, and the filters only drop rows.
   */
  lemma FilteredMeanAtMostLargest(sheet: Sheet, q: Selection)
    ensures |Filtered(Loaded(sheet), q).rows| > 0 ==>
      && HeadlineMetrics(Filtered(Loaded(sheet), q)).largest.Some?
      && HeadlineMetrics(Filtered(Loaded(sheet), q)).mean
         <= HeadlineMetrics(Filtered(Loaded(sheet), q)).largest.value as real
  {
    var loaded := Loaded(sheet);
    var f := Filtered(loaded, q);
    if |f.rows| > 0 {
      LoadedAmountsPresent(sheet);
      forall i | 0 <= i < |f.rows| ensures f.rows[i].valor.Some? {
        FilterMembership(loaded, q, f.rows[i]);
      }
      assert "VALOR" in f.columns by {
        FilterMembership(loaded, q, f.rows[0]);
        LoadedColumnsAre(sheet);
        var headers := CanonicalHeaders(sheet.headers);
        assert "VALOR" in headers;
        assert "VALOR" in LoadedColumns(headers);
      }
      MeanAtMostLargest(f);
    }
  }
}
