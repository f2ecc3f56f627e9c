/**
 * Worked replies: what the shopping-list parser returns on concrete model
 * replies, built up line by line.
 */
module RecipeExamples {
  import opened JsString
  import opened Recipes

  /** A numbered item keeps its number: `"Spices:\n1. Cumin"` yields one
      "Spices" category whose item is `"1. Cumin"`, not `"Cumin"`. */
  lemma NumberedItemExample()
    ensures ShoppingListOf("Spices:\n1. Cumin") == [Category("Spices", ["1. Cumin"])]
  {
    var lines := ["Spices:", "1. Cumin"];
    assert "Spices:\n1. Cumin" == "Spices:" + "\n" + "1. Cumin";
    SpicesLines();
    SpicesSections();
    assert HeaderSections(lines) != [];
  }

  /** The reply splits into its header line and its item line. */
  lemma SpicesLines()
    ensures SplitLines("Spices:" + "\n" + "1. Cumin") == ["Spices:", "1. Cumin"]
  {
    SplitPrefix("Spices:", "1. Cumin");
    SplitNoLineFeed("1. Cumin");
  }

  /** The two lines form one section whose single item is the numbered line. */
  lemma SpicesSections()
    ensures HeaderSections(["Spices:", "1. Cumin"]) == [Category("Spices", ["1. Cumin"])]
  {
    SpicesHeader();
    CuminItem();
    assert BodyItems("Spices", ["1. Cumin"]) == ["1. Cumin"] by { assert ["1. Cumin"][1..] == []; }
    SingleSection("Spices:", ["1. Cumin"]);
    assert ["Spices:"] + ["1. Cumin"] == ["Spices:", "1. Cumin"];
  }

  /** `"Spices:"` is a header labelled "Spices". */
  lemma SpicesHeader()
    ensures IsHeaderLine("Spices:") && HeaderLabel(Trim("Spices:")) == "Spices"
  {
    TrimTrimmed("Spices:");
    assert "Spices:" == "Spices" + ":";
  }

  /** `"1. Cumin"` is a numbered line and adds itself, number included. */
  lemma CuminItem()
    ensures !IsHeaderLine("1. Cumin") && LineItems("Spices", "1. Cumin") == ["1. Cumin"]
  {
    var item := "1. Cumin";
    TrimTrimmed(item);
    assert DigitRun(item) == 1 by { assert DigitRun(item[1..]) == 0; }
    NumberedItemKeepsNumber(item);
  }
}
