/** The cleaning rules on the inputs the script meets and on its edge cases. */
module RuleCases {
  import opened Wrappers
  import opened Text
  import opened Extract
  import opened Rules

  /** A numeral that Decimal produces reads back as its number. */
  lemma Numeral(n: nat, t: string)
    requires Decimal(n) == t
    ensures DigitsValue(t) == n
  {
    DecimalRoundTrip(n);
  }

  lemma PriceOfRupees()
    ensures CleanPrice("₹24,999") == Some(24999)
  {
    RupeesText();
    Grouped24999();
    Value24999();
    PriceOfGroupedNumeral("₹", "24,999", "");
  }

  lemma RupeesText()
    ensures "₹" + "24,999" + "" == "₹24,999"
    ensures forall n :: 0 <= n < |"₹"| ==> !IsDigit("₹"[n])
    ensures "24,999" != [] && IsDigit("24,999"[0])
    ensures forall n :: 0 <= n < |"24,999"| ==> IsDigit("24,999"[n]) || "24,999"[n] == ','
  {
  }

  lemma Value24999()
    ensures DigitsValue("24999") == 24999
  {
    Numeral(24999, "24999");
  }

  lemma Grouped24999()
    ensures RemoveAll("24,999", ',') == "24999"
  {
    assert "24,999" == "24" + [','] + "999";
    RemoveAllAppend("24" + [','], "999", ',');
    RemoveAllAppend("24", [','], ',');
    RemoveAllAbsent("24", ',');
    RemoveAllAbsent("999", ',');
  }

  lemma PriceOfFloatText()
    ensures CleanPrice("24999.0") == Some(24999)
  {
    FloatText();
    RemoveAllAbsent("24999", ',');
    Value24999();
    PriceOfGroupedNumeral("", "24999", ".0");
  }

  lemma FloatText()
    ensures "" + "24999" + ".0" == "24999.0"
    ensures "24999" != [] && IsDigit("24999"[0])
    ensures forall n :: 0 <= n < |"24999"| ==> IsDigit("24999"[n]) || "24999"[n] == ','
    ensures !IsDigit(".0"[0]) && ".0"[0] != ','
  {
  }

  lemma PriceOfNan()
    ensures CleanPrice("nan") == None
  {
    assert forall n :: 0 <= n < 3 ==> !IsDigit("nan"[n]);
  }

  lemma RatingOfStars()
    ensures CleanRating("4.3 out of 5 stars") == Some(4.3)
  {
    assert DecimalOf(DigitsValue("4"), DigitsValue("3"), 1) == 4.3 by {
      Numeral(4, "4");
      Numeral(3, "3");
    }
    assert "" + "4" + "." + "3" + " out of 5 stars" == "4.3 out of 5 stars";
    RatingOfDecimal("", "4", "3", " out of 5 stars");
  }

  lemma RatingOfDottedTriple()
    ensures CleanRating("1.2.3") == Some(1.2)
  {
    assert DecimalOf(DigitsValue("1"), DigitsValue("2"), 1) == 1.2 by {
      Numeral(1, "1");
      Numeral(2, "2");
    }
    assert "" + "1" + "." + "2" + ".3" == "1.2.3";
    RatingOfDecimal("", "1", "2", ".3");
  }

  lemma RatingOfNan()
    ensures CleanRating("nan") == None
  {
    RatingIsFirstDecimal("nan");
    forall i: nat, k: nat ensures !Matches(RatingNumber, "nan", i, k) {
    }
  }

  lemma BrandOfTitle()
    ensures Brand("Samsung Galaxy M14") == Some("Samsung")
  {
    assert "Samsung" + " Galaxy M14" == "Samsung Galaxy M14";
    BrandOfFirstWord("Samsung", " Galaxy M14");
  }

  /** A missing product name is the text "nan" after `astype(str)`, and "nan" is its own brand. */
  lemma BrandOfNan()
    ensures Brand("nan") == Some("nan")
  {
    assert RunEnd("nan", 0, IsSpace) == 0;
    RunEndUnique("nan", 0, 3, NotSpace);
    assert "nan"[0..3] == "nan";
  }

  lemma BrandOfBlank()
    ensures Brand(" \t ") == None
  {
  }

  lemma RamOfSpacedCapacity()
    ensures CleanRam("Moto G (6 GB RAM)") == Some("6GB")
  {
    assert "Moto G (" + "6" + " " + "GB" + " RAM)" == "Moto G (6 GB RAM)";
    RamOfCapacity("Moto G (", "6", " ", " RAM)");
    assert RemoveAll(" ", ' ') == [];
    assert "6" + [] + "GB" == "6GB";
  }

  /** The first match wins: the storage size shadows the RAM size after it. */
  lemma RamOfStorageFirst()
    ensures CleanRam("(128GB, 6GB RAM)") == Some("128GB")
  {
    assert "(" + "128" + "" + "GB" + ", 6GB RAM)" == "(128GB, 6GB RAM)";
    RamOfCapacity("(", "128", "", ", 6GB RAM)");
    assert RemoveAll("", ' ') == [];
    assert "128" + [] + "GB" == "128GB";
  }

  /** Line 40 deletes only ' ', so a tab between the digits and `GB` stays. */
  lemma RamKeepsTab()
    ensures CleanRam("8\tGB") == Some("8\tGB")
  {
    assert "" + "8" + "\t" + "GB" + "" == "8\tGB";
    RamOfCapacity("", "8", "\t", "");
    assert RemoveAll("\t", ' ') == "\t";
    assert "8" + "\t" + "GB" == "8\tGB";
  }

  lemma RamOfLowercase()
    ensures CleanRam("8 gb") == None
  {
    RamNeedsCapitalG("8 gb");
  }
}
