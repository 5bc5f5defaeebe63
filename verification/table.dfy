/**
 * The data frame and the cleaning pass (EDA/eda_mobile_data.py, lines
 * 10-40). The script rewrites the Price (INR) and Rating columns of the
 * shared frame in place and adds Brand and RAM; here that is one pass over
 * an array of rows that replaces each loaded row by its cleaned form.
 */
module Table {
  import opened Wrappers
  import opened Text
  import opened Extract
  import opened Rules

  /** A row as `read_csv` loads it: each cell a text, or missing (an empty cell, NaN). */
  datatype RawRecord = RawRecord(
    name: Option<string>,     // Product Name
    price: Option<string>,    // Price (INR)
    rating: Option<string>,   // Rating
    specs: Option<string>)    // Specs / Description

  /** A row after lines 15-40: Price and Rating numeric, Brand and RAM added. */
  datatype CleanRecord = CleanRecord(
    name: Option<string>,
    price: Option<nat>,
    rating: Option<real>,
    specs: Option<string>,
    brand: Option<string>,
    ram: Option<string>)

  /** A row of the frame, before or after the cleaning pass rewrote it. */
  datatype Row = Loaded(raw: RawRecord) | Cleaned(clean: CleanRecord)

  /** The column names of the frame once the pass has added Brand and RAM. */
  const CleanedColumns: seq<string> :=
    ["Product Name", "Price (INR)", "Rating", "Specs / Description", "Brand", "RAM"]

  /** `astype(str)`: a missing cell becomes the text "nan". */
  function AsStr(cell: Option<string>): string {
    cell.GetOr("nan")
  }

  /** Lines 15-40 on one row. */
  function CleanRow(r: RawRecord): CleanRecord {
    var title := AsStr(r.name);
    CleanRecord(
      r.name,
      CleanPrice(AsStr(r.price)),
      CleanRating(AsStr(r.rating)),
      r.specs,
      Brand(title),
      CleanRam(title))
  }

  /** The cleaned table of a loaded one. */
  function CleanAll(raw: seq<RawRecord>): seq<CleanRecord> {
    seq(|raw|, k requires 0 <= k < |raw| => CleanRow(raw[k]))
  }

  /**
   * The cleaning pass over the whole frame: every row, in place and in
   * order, becomes its cleaned form; the row count cannot change.
   */
  method CleanFrame(df: array<Row>)
    requires forall k :: 0 <= k < df.Length ==> df[k].Loaded?
    modifies df
    ensures forall k :: 0 <= k < df.Length ==> df[k] == Cleaned(CleanRow(old(df[k]).raw))
  {
    for i := 0 to df.Length
      invariant forall k :: 0 <= k < i ==> df[k] == Cleaned(CleanRow(old(df[k]).raw))
      invariant forall k :: i <= k < df.Length ==> df[k] == old(df[k])
    {
      df[i] := Cleaned(CleanRow(df[i].raw));
    }
  }

  /**
   * What the pass does to a row: Product Name and Specs are kept, a
   * missing price or rating stays missing, and a missing product name,
   * read as the text "nan", has brand "nan" and no RAM.
   */
  lemma CleanRowMissingCells(r: RawRecord)
    ensures CleanRow(r).name == r.name && CleanRow(r).specs == r.specs
    ensures r.price.None? ==> CleanRow(r).price.None?
    ensures r.rating.None? ==> CleanRow(r).rating.None?
    ensures r.name.None? ==> CleanRow(r).brand == Some("nan") && CleanRow(r).ram.None?
  {
    assert forall n :: 0 <= n < 3 ==> !IsDigit("nan"[n]);
    if r.rating.None? {
      RatingIsFirstDecimal("nan");
      forall i: nat, k: nat ensures !Matches(RatingNumber, "nan", i, k) {
      }
    }
    if r.name.None? {
      BrandOfFirstWord("nan", "");
      assert "nan" + "" == "nan";
      RamNeedsCapitalG("nan");
    }
  }

  /** A cleaned row's RAM is never the text "Unknown" that line 95 fills in. */
  lemma RamIsNeverUnknown(r: RawRecord)
    ensures CleanRow(r).ram != Some("Unknown")
  {
    var title := AsStr(r.name);
    if CleanRam(title).Some? {
      RamShape(title);
    }
  }
}
