/**
  Worked conversions: the measures a cocktail record typically holds, each
  with the text the converter produces for it.
*/
module MeasurementExamples {
  import opened Wrappers
  import opened Text
  import opened Measurement

  /** The aliases written out in the `units` table reach the family they are listed under. */
  lemma AliasLookups()
    ensures FindUnit("fl oz") == Some(Units[0]) && FindUnit("ounces") == Some(Units[0])
    ensures FindUnit("spoon") == Some(Units[2]) && FindUnit("tblsp") == Some(Units[2])
    ensures FindUnit("tablespoons") == Some(Units[2])
  {
    FindUnitSelects("fl oz", 0);
    FindUnitSelects("ounces", 0);
    FindUnitSelects("spoon", 2);
    FindUnitSelects("tblsp", 2);
    FindUnitSelects("tablespoons", 2);
  }

  /**
    Clean measure text of the form the pattern reads: an amount, an optional
    space, and a unit group that starts with neither a digit nor a space.
  */
  predicate Form(s: string, a: AmountText, sep: string, u: string) {
    && IsClean(s) && s == Spell(a) + sep + u
    && AmountOk(a) && (sep == "" || sep == " ")
    && u != [] && !IsDigit(u[0]) && u[0] != ' '
  }

  /** A clean measure of the recognised form converts to the shown quantity of its family. */
  lemma Recognised(s: string, a: AmountText, sep: string, u: string, j: nat, system: System)
    requires Form(s, a, sep, u)
    requires j < |Units| && Lower(u) in Units[j].aliases
    ensures ConvertMeasurement(Some(s), system) == ShowQuantity(Convert(AmountValue(a), Units[j], system))
  {
    CleanOfClean(s);
    ConvertRecognised(s, a, sep, u, j, system);
  }

  lemma OneOunceQuantity()
    ensures ShowQuantity(Convert(AmountValue(Whole("1")), Units[0], Metric)) == "3 cl"
  {
    assert AmountValue(Whole("1")) == Finite(1.0);
    assert Round(1.0 * 29.5735) == 30;
    assert Round(30 as real / 10.0) == 3;
  }

  /** A one-digit amount, one space and a lower-case unit word make a clean measure of the recognised form. */
  lemma WholeForm(s: string, d: string, u: string)
    requires |d| == 1 && IsDigit(d[0])
    requires u != [] && forall i :: 0 <= i < |u| ==> IsLowerLetter(u[i])
    requires s == d + " " + u
    ensures Form(s, Whole(d), " ", u) && Lower(u) == u
  {
    CleanIntro(s);
  }

  /** One ounce is 29.5735 ml, which rounds to 30 and is shown as 3 cl, not as 30 ml. */
  lemma OneOunce()
    ensures ConvertMeasurement(Some("1 oz"), Metric) == "3 cl"
  {
    WholeForm("1 oz", "1", "oz");
    Recognised("1 oz", Whole("1"), " ", "oz", 0, Metric);
    OneOunceQuantity();
  }

  /** A run of spaces inside a measure is cleaned to one space. */
  lemma SpacedOunceClean(s: string, x: string, w: string, y: string)
    requires x == "1" && w == "   " && y == "oz" && s == x + w + y
    ensures Clean(s) == "1 oz"
  {
    TrimOfTrimmed(s);
    CollapseJoin(x, w, y);
    assert CollapseSpaces(x) == x && CollapseSpaces(y) == y;
  }

  /** `"1   oz"` is cleaned before it is matched, so it converts like `"1 oz"`. */
  lemma SpacedOunce()
    ensures ConvertMeasurement(Some("1   oz"), Metric) == "3 cl"
  {
    SpacedOunceClean("1   oz", "1", "   ", "oz");
    assert "1 oz" == Spell(Whole("1")) + " " + "oz";
    ConvertRecognised("1   oz", Whole("1"), " ", "oz", 0, Metric);
    OneOunceQuantity();
  }

  lemma OneCupQuantity()
    ensures ShowQuantity(Convert(AmountValue(Whole("1")), Units[1], Metric)) == "2 dl"
  {
    assert AmountValue(Whole("1")) == Finite(1.0);
    assert Round(1.0 * 236.588) == 237;
    assert Round(237 as real / 100.0) == 2;
  }

  /** A cup is 236.588 ml: 237 rounds to 2 dl. */
  lemma OneCup()
    ensures ConvertMeasurement(Some("1 cup"), Metric) == "2 dl"
  {
    WholeForm("1 cup", "1", "cup");
    Recognised("1 cup", Whole("1"), " ", "cup", 1, Metric);
    OneCupQuantity();
  }

  lemma OneTeaspoonQuantity()
    ensures ShowQuantity(Convert(AmountValue(Whole("1")), Units[3], Metric)) == "5 ml"
  {
    assert AmountValue(Whole("1")) == Finite(1.0);
    assert Round(1.0 * 4.92892) == 5;
  }

  /** A teaspoon stays in millilitres. */
  lemma OneTeaspoon()
    ensures ConvertMeasurement(Some("1 tsp"), Metric) == "5 ml"
  {
    WholeForm("1 tsp", "1", "tsp");
    Recognised("1 tsp", Whole("1"), " ", "tsp", 3, Metric);
    OneTeaspoonQuantity();
  }

  lemma TwoTeaspoonsQuantity()
    ensures ShowQuantity(Convert(AmountValue(Whole("2")), Units[3], Metric)) == "1 cl"
  {
    assert AmountValue(Whole("2")) == Finite(2.0);
    assert Round(2.0 * 4.92892) == 10;
    assert Round(10 as real / 10.0) == 1;
  }

  /** Two teaspoons, 9.86 ml, round to 10 ml and reach the centilitre threshold. */
  lemma TwoTeaspoons()
    ensures ConvertMeasurement(Some("2 tsp"), Metric) == "1 cl"
  {
    WholeForm("2 tsp", "2", "tsp");
    Recognised("2 tsp", Whole("2"), " ", "tsp", 3, Metric);
    TwoTeaspoonsQuantity();
  }

  lemma OneAndAHalfForm()
    ensures Form("1 1/2 oz", Mixed("1", "1", "2"), " ", "oz") && Lower("oz") in Units[0].aliases
  {
    CleanIntro("1 1/2 oz");
    assert Lower("oz") == "oz";
    assert Spell(Mixed("1", "1", "2")) == "1" + " " + "1" + "/" + "2";
    assert "1" + " " + "1" + "/" + "2" + " " + "oz" == "1 1/2 oz";
  }

  lemma OneAndAHalfQuantity()
    ensures ShowQuantity(Convert(AmountValue(Mixed("1", "1", "2")), Units[0], Imperial)) == "2 oz"
  {
    assert DigitsValue("2") == 2;
    assert AmountValue(Mixed("1", "1", "2")) == Finite(1.5);
    assert Round(1.5) == 2;
  }

  /** The imperial output is rounded as well: one and a half ounces become 2 oz. */
  lemma OneAndAHalfOunces()
    ensures ConvertMeasurement(Some("1 1/2 oz"), Imperial) == "2 oz"
  {
    OneAndAHalfForm();
    Recognised("1 1/2 oz", Mixed("1", "1", "2"), " ", "oz", 0, Imperial);
    OneAndAHalfQuantity();
  }

  /** Measure text whose unit group, lower-cased, names no family comes back exactly as given. */
  lemma Unrecognised(s: string, a: AmountText, sep: string, u: string, system: System)
    requires Form(s, a, sep, u)
    requires FindUnit(Lower(u)).None?
    ensures ConvertMeasurement(Some(s), system) == s
  {
    ParseClean(s, a, sep, u);
    ConvertMeasurementFailSoft(s, system);
  }

  /** Clean text of the recognised form parses to its amount and lower-cased unit group. */
  lemma ParseClean(s: string, a: AmountText, sep: string, u: string)
    requires Form(s, a, sep, u)
    ensures ParseAmount(s) == Some(Parsed(AmountValue(a), Lower(u)))
  {
    CleanOfClean(s);
    ParseRecognised(s, a, sep, u);
  }

  lemma SimpleFractionForm()
    ensures Form("1/2 tsp", Whole("1"), "", "/2 tsp")
    ensures Lower("/2 tsp") == "/2 tsp"
  {
    CleanIntro("1/2 tsp");
    assert Lower("/2 tsp") == "/2 tsp";
    assert "1/2 tsp" == Spell(Whole("1")) + "" + "/2 tsp";
  }

  /** A simple fraction is read as the amount 1 and the unit "/2 tsp", which is no alias. */
  lemma SimpleFractionUnchanged(system: System)
    ensures ConvertMeasurement(Some("1/2 tsp"), system) == "1/2 tsp"
  {
    SimpleFractionForm();
    NotAlias("/2 tsp");
    Unrecognised("1/2 tsp", Whole("1"), "", "/2 tsp", system);
  }

  lemma DecimalForm()
    ensures Form("1.5 oz", Whole("1"), "", ".5 oz")
    ensures Lower(".5 oz") == ".5 oz"
  {
    CleanIntro("1.5 oz");
    assert Lower(".5 oz") == ".5 oz";
    assert "1.5 oz" == Spell(Whole("1")) + "" + ".5 oz";
  }

  /** A decimal is read as the amount 1 and the unit ".5 oz", which is no alias. */
  lemma DecimalUnchanged(system: System)
    ensures ConvertMeasurement(Some("1.5 oz"), system) == "1.5 oz"
  {
    DecimalForm();
    NotAlias(".5 oz");
    Unrecognised("1.5 oz", Whole("1"), "", ".5 oz", system);
  }

  lemma BareNumberCut()
    ensures IsClean("12") && MatchCut("12") == Some(WholeCut(1))
  {
    CleanIntro("12");
    assert DigitRun("12", 1) == 1;
    assert DigitRun("12", 0) == 2;
  }

  lemma BareNumberMatch()
    ensures IsClean("12") && MatchAmount("12") == Some(Split(Whole("1"), "2"))
  {
    BareNumberCut();
    assert "12"[..1] == "1" && "12"[1..] == "2";
  }

  lemma BareNumberParse()
    ensures ParseAmount("12") == Some(Parsed(Finite(1.0), "2"))
  {
    BareNumberMatch();
    CleanOfClean("12");
    assert Lower("2") == "2";
    assert AmountValue(Whole("1")) == Finite(1.0);
  }

  /** A bare number backtracks to the amount "1" and the unit "2", which is no alias. */
  lemma BareNumberUnchanged(system: System)
    ensures MatchAmount("12") == Some(Split(Whole("1"), "2"))
    ensures ConvertMeasurement(Some("12"), system) == "12"
  {
    BareNumberMatch();
    BareNumberParse();
    NotAlias("2");
    ConvertMeasurementFailSoft("12", system);
  }

  /** Text that does not start with a digit does not parse. */
  lemma WordsUnchanged(system: System)
    ensures ConvertMeasurement(Some("a dash"), system) == "a dash"
  {
    CleanIntro("a dash");
    CleanOfClean("a dash");
    MatchAmountFails("a dash");
    ConvertMeasurementFailSoft("a dash", system);
  }

  lemma TwoOuncesQuantity()
    ensures ShowQuantity(Convert(AmountValue(Whole("2")), Units[0], Metric)) == "6 cl"
  {
    assert AmountValue(Whole("2")) == Finite(2.0);
    assert Round(2.0 * 29.5735) == 59;
    assert Round(59 as real / 10.0) == 6;
  }

  /** Two ounces, 59.147 ml, are shown as 6 cl. */
  lemma TwoOunces()
    ensures ConvertMeasurement(Some("2 oz"), Metric) == "6 cl"
  {
    WholeForm("2 oz", "2", "oz");
    Recognised("2 oz", Whole("2"), " ", "oz", 0, Metric);
    TwoOuncesQuantity();
  }

  /** In "2 oz Lime Juice" the pattern finds "oz" at 2, with one space after it. */
  lemma LimeJuiceMatch()
    ensures FirstMeasureAt("2 oz Lime Juice", 2, 0, 1)
  {
    var s := "2 oz Lime Juice";
    assert MeasureWords[0] == "oz";
    assert WordAt(s, 2, "oz");
    assert NameAfter(s, 4, 1);
    forall p': nat, j': nat, k': nat | p' < 2 ensures !MeasureAt(s, p', j', k') {
      if j' < |MeasureWords| {
        assert MeasureWords[j'][0] in "oucst";
        assert !IsUpper(s[p']) && s[p'] !in "oucst";
      }
    }
    forall k': nat | k' > 1 ensures !MeasureAt(s, 2, 0, k') {
      if 4 + k' < |s| {
        assert !IsSpace(s[5]);
      }
    }
  }

  lemma LimeJuicePieces()
    ensures Trim("2 oz Lime Juice"[..4]) == "2 oz" && "2 oz Lime Juice"[5..] == "Lime Juice"
    ensures "6 cl" + " " + "Lime Juice" == "6 cl Lime Juice"
  {
    assert "2 oz Lime Juice"[..4] == "2 oz";
    TrimOfTrimmed("2 oz");
  }

  /** The measure at the front of an item is converted and the name after it is kept. */
  lemma LimeJuice()
    ensures FormatMeasuredItem("2 oz Lime Juice", Metric) == "6 cl Lime Juice"
  {
    LimeJuiceMatch();
    LimeJuicePieces();
    TwoOunces();
    FormatMeasuredItemConverts("2 oz Lime Juice", Metric, 2, 0, 1);
  }
}
