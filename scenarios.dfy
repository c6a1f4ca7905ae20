/**
 The shipped catalog and the request scenarios of the repository's test suite
 (test_app.py), stated as facts about the model.
 */
module Scenarios {
  import opened StringOrder
  import opened Orders
  import opened OrderProperties

  /** Every component of the shipped catalog belongs to one of the required categories. */
  lemma CatalogCategoriesRequired(code: string)
    requires code in ComponentData
    ensures ComponentData[code].category in RequiredCategories
  {
  }

  /** Every code of the shipped catalog is a single letter. */
  lemma CatalogCodesSingleLetters(code: string)
    requires code in ComponentData
    ensures |code| == 1
  {
  }

  /**
   With the shipped catalog and its five required categories, a successful
   order has exactly five codes and five parts, and the codes contribute
   exactly five letters to the order id.
   */
  lemma ShippedOrderHasFiveParts(codes: seq<string>, timestamp: nat, randomNumber: nat)
    requires OrderOutcome(ComponentData, RequiredCategories, CodeList(codes), timestamp, randomNumber).Ok?
    ensures |codes| == 5
    ensures |OrderOutcome(ComponentData, RequiredCategories, CodeList(codes), timestamp, randomNumber).orderedParts| == 5
    ensures |Concat(SortCodes(codes))| == 5
  {
    SuccessfulOrder(ComponentData, RequiredCategories, codes, timestamp, randomNumber);
    FiveRequired();
    SingleLetterCodes(SortCodes(codes));
  }

  /** The shipped required set has five categories. */
  lemma FiveRequired()
    ensures |RequiredCategories| == 5
  {
  }

  /** Known codes of the shipped catalog join to one letter per code. */
  lemma SingleLetterCodes(s: seq<string>)
    requires AllKnown(ComponentData, s)
    ensures |Concat(s)| == |s|
  {
    forall i | 0 <= i < |s|
      ensures |s[i]| == 1
    {
      CatalogCodesSingleLetters(s[i]);
    }
  }

  /**
   With the shipped catalog a category can never be extra, so the category
   check fails only when some required category is missing.
   */
  lemma MissingMeansStrictSubset(codes: seq<string>, timestamp: nat, randomNumber: nat)
    requires OrderOutcome(ComponentData, RequiredCategories, CodeList(codes), timestamp, randomNumber) == MissingCategories
    ensures AllKnown(ComponentData, codes)
    ensures CategoriesOf(ComponentData, codes) < RequiredCategories
  {
    MissingCategoriesIff(ComponentData, RequiredCategories, codes, timestamp, randomNumber);
    forall c | c in CategoriesOf(ComponentData, codes)
      ensures c in RequiredCategories
    {
      var i := CategoryPosition(ComponentData, codes, c);
      CatalogCategoriesRequired(codes[i]);
    }
  }

  /** For codes already in ascending order, the handler's answer is decided by the loop over them as given. */
  lemma OutcomeOfSorted(catalog: map<string, Component>, required: set<string>, codes: seq<string>,
                        timestamp: nat, randomNumber: nat)
    requires codes != [] && Sorted(codes)
    ensures OrderOutcome(catalog, required, CodeList(codes), timestamp, randomNumber)
         == Conclude(required, ScanCodes(catalog, codes), OrderId(timestamp, codes, randomNumber))
  {
    SortCodesIdentity(codes);
  }

  // The loop over `A, D, F, I, K`, one iteration per lemma.

  lemma ScanA()
    ensures ScanCodes(ComponentData, ["A"]) == Scanning({"Screen"}, ["LED Screen"], 1028)
  {
    assert ["A"][..0] == [];
  }

  lemma ScanAD()
    ensures ScanCodes(ComponentData, ["A", "D"])
         == Scanning({"Screen", "Camera"}, ["LED Screen", "Wide-Angle Camera"], 3622)
  {
    ScanA();
    assert ["A", "D"][..1] == ["A"];
  }

  lemma ScanADF()
    ensures ScanCodes(ComponentData, ["A", "D", "F"])
         == Scanning({"Screen", "Camera", "Port"}, ["LED Screen", "Wide-Angle Camera", "USB-C Port"], 5499)
  {
    ScanAD();
    assert ["A", "D", "F"][..2] == ["A", "D"];
  }

  lemma ScanADFI()
    ensures ScanCodes(ComponentData, ["A", "D", "F", "I"])
         == Scanning({"Screen", "Camera", "Port", "OS"},
                     ["LED Screen", "Wide-Angle Camera", "USB-C Port", "Android OS"], 9730)
  {
    ScanADF();
    assert ["A", "D", "F", "I"][..3] == ["A", "D", "F"];
  }

  lemma ScanADFIK()
    ensures ScanCodes(ComponentData, ["A", "D", "F", "I", "K"])
         == Scanning(RequiredCategories, ["LED Screen", "Wide-Angle Camera", "USB-C Port", "Android OS", "Metallic Body"], 14230)
  {
    ScanADFI();
    assert ["A", "D", "F", "I", "K"][..4] == ["A", "D", "F", "I"];
  }

  /** The loop stops at the second screen of `A, B`. */
  lemma ScanAB()
    ensures ScanCodes(ComponentData, ["A", "B"]) == Stopped(DuplicateCategory("Screen"))
  {
    ScanA();
    assert ["A", "B"][..1] == ["A"];
    assert ComponentData["B"].category == "Screen";
  }

  /** The loop stops at the repeated `A` of `A, A`. */
  lemma ScanAA()
    ensures ScanCodes(ComponentData, ["A", "A"]) == Stopped(DuplicateCategory("Screen"))
  {
    ScanA();
    assert ["A", "A"][..1] == ["A"];
  }

  /** The loop stops at `X` in `A, D, F, I, X`. */
  lemma ScanADFIX()
    ensures ScanCodes(ComponentData, ["A", "D", "F", "I", "X"]) == Stopped(UnknownComponent("X"))
  {
    ScanADFI();
    assert ["A", "D", "F", "I", "X"][..4] == ["A", "D", "F", "I"];
    assert "X" !in ComponentData;
  }

  /** `["A", "D", "F", "I", "K"]`: LED Screen, Wide-Angle Camera, USB-C Port, Android OS, Metallic Body for 142.30. */
  lemma ValidOrder(timestamp: nat, randomNumber: nat)
    ensures OrderOutcome(ComponentData, RequiredCategories, CodeList(["A", "D", "F", "I", "K"]), timestamp, randomNumber)
         == Ok(OrderId(timestamp, ["A", "D", "F", "I", "K"], randomNumber), 14230,
               ["LED Screen", "Wide-Angle Camera", "USB-C Port", "Android OS", "Metallic Body"])
  {
    assert Sorted(["A", "D", "F", "I", "K"]);
    ScanADFIK();
    OutcomeOfSorted(ComponentData, RequiredCategories, ["A", "D", "F", "I", "K"], timestamp, randomNumber);
  }

  /** The same parts listed in another order give the same order. */
  lemma ValidOrderShuffled(timestamp: nat, randomNumber: nat)
    ensures OrderOutcome(ComponentData, RequiredCategories, CodeList(["K", "I", "A", "F", "D"]), timestamp, randomNumber)
         == Ok(OrderId(timestamp, ["A", "D", "F", "I", "K"], randomNumber), 14230,
               ["LED Screen", "Wide-Angle Camera", "USB-C Port", "Android OS", "Metallic Body"])
  {
    assert multiset(["K", "I", "A", "F", "D"]) == multiset(["A", "D", "F", "I", "K"]);
    OutcomeIgnoresInputOrder(ComponentData, RequiredCategories, ["K", "I", "A", "F", "D"], ["A", "D", "F", "I", "K"],
                             timestamp, randomNumber);
    ValidOrder(timestamp, randomNumber);
  }

  /** `["A", "B", "F", "I", "K"]`: two screens. */
  lemma TwoScreens(timestamp: nat, randomNumber: nat)
    ensures OrderOutcome(ComponentData, RequiredCategories, CodeList(["A", "B", "F", "I", "K"]), timestamp, randomNumber)
         == DuplicateCategory("Screen")
  {
    assert Sorted(["A", "B", "F", "I", "K"]);
    ScanABFIK();
    OutcomeOfSorted(ComponentData, RequiredCategories, ["A", "B", "F", "I", "K"], timestamp, randomNumber);
  }

  lemma ScanABFIK()
    ensures ScanCodes(ComponentData, ["A", "B", "F", "I", "K"]) == Stopped(DuplicateCategory("Screen"))
  {
    ScanAB();
    assert ["A", "B", "F", "I", "K"] == ["A", "B"] + ["F", "I", "K"];
    ScanStopsAtFailure(ComponentData, ["A", "B"], ["F", "I", "K"]);
  }

  /** `["A", "D", "F", "I"]`: no body. */
  lemma NoBody(timestamp: nat, randomNumber: nat)
    ensures OrderOutcome(ComponentData, RequiredCategories, CodeList(["A", "D", "F", "I"]), timestamp, randomNumber)
         == MissingCategories
  {
    assert Sorted(["A", "D", "F", "I"]);
    ScanADFI();
    assert "Body" in RequiredCategories && "Body" !in ScanCodes(ComponentData, ["A", "D", "F", "I"]).selected;
    OutcomeOfSorted(ComponentData, RequiredCategories, ["A", "D", "F", "I"], timestamp, randomNumber);
  }

  /** `"A, D, F, I, K"`: a string instead of a list. */
  lemma NonListRequest(timestamp: nat, randomNumber: nat)
    ensures OrderOutcome(ComponentData, RequiredCategories, NotAList, timestamp, randomNumber) == InvalidShape
  {
    InvalidShapeIff(ComponentData, RequiredCategories, NotAList, timestamp, randomNumber);
  }

  /** `["A", "D", "F", "I", "X"]`: `X` is not in the catalog. */
  lemma UnknownCode(timestamp: nat, randomNumber: nat)
    ensures OrderOutcome(ComponentData, RequiredCategories, CodeList(["A", "D", "F", "I", "X"]), timestamp, randomNumber)
         == UnknownComponent("X")
  {
    assert Sorted(["A", "D", "F", "I", "X"]);
    ScanADFIX();
    OutcomeOfSorted(ComponentData, RequiredCategories, ["A", "D", "F", "I", "X"], timestamp, randomNumber);
  }

  /** `["X", "A", "A"]`: sorted to `["A", "A", "X"]`, so the repeated screen is found before the unknown code. */
  lemma RepeatBeforeUnknown(timestamp: nat, randomNumber: nat)
    ensures OrderOutcome(ComponentData, RequiredCategories, CodeList(["X", "A", "A"]), timestamp, randomNumber)
         == DuplicateCategory("Screen")
  {
    RepeatedScreen(timestamp, randomNumber);
    assert multiset(["X", "A", "A"]) == multiset(["A", "A", "X"]);
    OutcomeIgnoresInputOrder(ComponentData, RequiredCategories, ["X", "A", "A"], ["A", "A", "X"], timestamp, randomNumber);
  }

  /** `["A", "A", "X"]`: the repeated `A` stops the loop before `X` is looked up. */
  lemma RepeatedScreen(timestamp: nat, randomNumber: nat)
    ensures OrderOutcome(ComponentData, RequiredCategories, CodeList(["A", "A", "X"]), timestamp, randomNumber)
         == DuplicateCategory("Screen")
  {
    assert Sorted(["A", "A", "X"]);
    ScanAAX();
    OutcomeOfSorted(ComponentData, RequiredCategories, ["A", "A", "X"], timestamp, randomNumber);
  }

  lemma ScanAAX()
    ensures ScanCodes(ComponentData, ["A", "A", "X"]) == Stopped(DuplicateCategory("Screen"))
  {
    ScanAA();
    assert ["A", "A", "X"] == ["A", "A"] + ["X"];
    ScanStopsAtFailure(ComponentData, ["A", "A"], ["X"]);
  }
}
