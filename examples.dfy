/** Worked receipts: the scoring rules and the store applied to concrete inputs. */
module Examples {
  import opened Wrappers
  import opened Receipts
  import opened Text
  import opened Points
  import opened Store

  /** A name made only of ASCII letters and digits earns one point per character. */
  lemma AllCount(name: string)
    requires forall i :: 0 <= i < |name| ==> 'a' <= name[i] <= 'z' || 'A' <= name[i] <= 'Z' || '0' <= name[i] <= '9'
    ensures RetailerPoints(name) == |name|
  {
    RetailerPointsAll(name);
  }

  /** A name made only of spaces and punctuation earns nothing. */
  lemma NoneCount(name: string)
    requires forall i :: 0 <= i < |name| ==> name[i] == ' ' || name[i] == '&'
    ensures RetailerPoints(name) == 0
  {
    RetailerPointsNone(name);
  }

  lemma RetailerExamples()
    ensures RetailerPoints("Target") == 6
    ensures RetailerPoints("M&M Corner Market") == 14
  {
    AllCount("Target");
    var m, amp, corner, space, market := "M", "&", "Corner", " ", "Market";
    AllCount(m); AllCount(corner); AllCount(market);
    NoneCount(amp); NoneCount(space);
    assert "M&M Corner Market" == m + amp + m + space + corner + space + market;
    RetailerPointsAppend(m + amp + m + space + corner + space, market);
    RetailerPointsAppend(m + amp + m + space + corner, space);
    RetailerPointsAppend(m + amp + m + space, corner);
    RetailerPointsAppend(m + amp + m, space);
    RetailerPointsAppend(m + amp, m);
    RetailerPointsAppend(m, amp);
  }

  lemma TotalExamples()
    ensures RoundDollarPoints(3500) + QuarterPoints(3500) == 75
    ensures RoundDollarPoints(3535) + QuarterPoints(3535) == 0
    ensures RoundDollarPoints(1225) + QuarterPoints(1225) == 25
  {
  }

  lemma PairExamples()
    ensures PairPoints(1) == 0 && PairPoints(4) == 10 && PairPoints(5) == 10
  {
  }

  /** A description of 18 characters qualifies: ceil(12.25 * 0.2) = 3. */
  lemma PizzaEarnsBonus()
    ensures ItemPoints(Item("Emils Cheese Pizza", 1225)) == 3
  {
    var pizza := "Emils Cheese Pizza";
    assert StripLeft(pizza) == pizza;
    assert StripRight(pizza) == pizza;
  }

  /** Surrounding spaces do not count: 24 characters remain, so ceil(12.00 * 0.2) = 3. */
  lemma PaddedDescriptionEarnsBonus()
    ensures ItemPoints(Item("  Klarbrunn 12-PK 12 FL OZ ", 1200)) == 3
  {
    var text := "Klarbrunn 12-PK 12 FL OZ";
    assert "  Klarbrunn 12-PK 12 FL OZ " == "  " + text + " ";
    StripPadded("  ", text, " ");
    assert |text| == 24;
  }

  /** A description of 13 characters does not qualify. */
  lemma PepsiEarnsNoBonus()
    ensures ItemPoints(Item("Pepsi - 12-oz", 125)) == 0
  {
    var pepsi := "Pepsi - 12-oz";
    assert StripLeft(pepsi) == pepsi;
    assert StripRight(pepsi) == pepsi;
  }

  /** An all-space description strips to length 0 and qualifies: ceil(1.25 * 0.2) = 1. */
  lemma BlankEarnsBonus()
    ensures ItemPoints(Item("  ", 125)) == 1
  {
    StripAllSpaces("  ");
  }

  lemma DateAndTimeExamples()
    ensures OddDayPoints(Date(2022, 1, 1)) == 6 && OddDayPoints(Date(2022, 1, 2)) == 0
    ensures AfternoonPoints(TimeOfDay(14, 33, 0, 0)) == 10
    ensures AfternoonPoints(TimeOfDay(14, 0, 0, 0)) == 0
    ensures AfternoonPoints(TimeOfDay(14, 0, 0, 1)) == 10
    ensures AfternoonPoints(TimeOfDay(16, 0, 0, 0)) == 0
  {
  }

  /** The source accepts negative prices, and a qualifying item with one takes
      points away: -100.00 earns ceil(-20.0) = -20, and nothing else scores. */
  lemma NegativePriceScoresBelowZero()
    ensures Score(Receipt("", Date(2022, 1, 2), TimeOfDay(9, 0, 0, 0), [Item("", -10000)], 1)) == -20
  {
    var items := [Item("", -10000)];
    assert items[..0] == [];
  }

  function TargetReceipt(): Receipt {
    Receipt("Target", Date(2022, 1, 1), TimeOfDay(13, 1, 0, 0),
            [Item("Pepsi - 12-oz", 125), Item("Dasani", 140)], 3535)
  }

  lemma TargetItems()
    ensures ItemsPoints(TargetReceipt().items) == 1
  {
    var pepsi, water := Item("Pepsi - 12-oz", 125), Item("Dasani", 140);
    assert StripLeft(pepsi.shortDescription) == pepsi.shortDescription;
    assert StripRight(pepsi.shortDescription) == pepsi.shortDescription;
    assert StripLeft(water.shortDescription) == water.shortDescription;
    assert StripRight(water.shortDescription) == water.shortDescription;
    assert [pepsi, water][..1] == [pepsi] && [pepsi][..0] == [];
  }

  lemma TargetScore()
    ensures Score(TargetReceipt()) == 18
  {
    AllCount("Target");
    TargetItems();
  }

  /** Submitting the receipt above to an empty store and asking for its points
      answers 18; asking about an identifier never handed out answers not-found. */
  method SubmitThenLookUp() returns (id: string, points: Result<int, Error>, missing: Result<int, Error>)
    ensures points == Success(18)
    ensures missing == Failure(NotFound("no-such-receipt"))
  {
    var store := new ReceiptStore();
    id := store.ProcessReceipt(TargetReceipt(), "7fb1377b-b223-49d9-a31a-5a02701dd310");
    points := store.GetPoints(id);
    TargetScore();
    LookupStored(store.records, 0);
    missing := store.GetPoints("no-such-receipt");
  }
}
