/**
 * The PDF report's page order (EDA/eda_mobile_data.py, lines 137-172): a
 * title page with the frame's shape, the summary page, then one page per
 * saved figure in the order the figures were appended to `fig_files`.
 */
module Report {
  import opened Table
  import opened Summary

  datatype Page =
    | TitlePage(rows: nat, columns: nat)   // "Total Rows" / "Total Columns", line 143
    | SummaryPage(stats: Stats)            // lines 151-158
    | FigurePage(path: string)             // line 166, one per figure file

  /** The six figures in the order lines 65-130 append them. */
  const FigureFiles: seq<string> := [
    "figs/price_hist.png", "figs/rating_hist.png", "figs/brand_pie.png",
    "figs/ram_pie.png", "figs/avg_price_brand.png", "figs/price_vs_rating.png"]

  /** The pages of the report for cleaned table t and figure list figFiles, in order. */
  method BuildReport(t: seq<CleanRecord>, figFiles: seq<string>) returns (pages: seq<Page>)
    ensures |pages| == |figFiles| + 2
    ensures pages[0] == TitlePage(|t|, |CleanedColumns|)
    ensures pages[1] == SummaryPage(Summarize(t))
    ensures forall k :: 0 <= k < |figFiles| ==> pages[k + 2] == FigurePage(figFiles[k])
  {
    var title, summary := TitlePage(|t|, |CleanedColumns|), SummaryPage(Summarize(t));
    pages := [title, summary];
    for i := 0 to |figFiles|
      invariant |pages| == i + 2
      invariant pages[0] == title && pages[1] == summary
      invariant forall k :: 0 <= k < i ==> pages[k + 2] == FigurePage(figFiles[k])
    {
      ghost var before := pages;
      pages := pages + [FigurePage(figFiles[i])];
      assert pages[..i + 2] == before;
    }
  }

  /** Line 166 over the script's own `fig_files`: eight pages, the six figures in the order they were saved. */
  method ScriptReport(t: seq<CleanRecord>) returns (pages: seq<Page>)
    ensures |pages| == 8
    ensures pages[0] == TitlePage(|t|, 6) && pages[1] == SummaryPage(Summarize(t))
    ensures pages[2..] == [
      FigurePage("figs/price_hist.png"), FigurePage("figs/rating_hist.png"),
      FigurePage("figs/brand_pie.png"), FigurePage("figs/ram_pie.png"),
      FigurePage("figs/avg_price_brand.png"), FigurePage("figs/price_vs_rating.png")]
  {
    pages := BuildReport(t, FigureFiles);
    assert |CleanedColumns| == 6;
    FigurePagesInOrder(pages);
  }

  lemma FigurePagesInOrder(pages: seq<Page>)
    requires |pages| == 8 && forall k :: 0 <= k < 6 ==> pages[k + 2] == FigurePage(FigureFiles[k])
    ensures pages[2..] == [
      FigurePage("figs/price_hist.png"), FigurePage("figs/rating_hist.png"),
      FigurePage("figs/brand_pie.png"), FigurePage("figs/ram_pie.png"),
      FigurePage("figs/avg_price_brand.png"), FigurePage("figs/price_vs_rating.png")]
  {
    assert pages[2..] == seq(6, k requires 0 <= k < 6 => FigurePage(FigureFiles[k]));
  }
}
