/** The points calculator. Each scoring rule is a specification function of the
    receipt fields it reads; `Score` is their sum; `CalculatePoints` computes the
    score the way the service does, by bumping a running total rule by rule, and is
    proved to return `Score`. */
module Points {
  import opened Receipts
  import opened Text

  /** One point per character of the retailer name that is an ASCII letter or digit. */
  function RetailerPoints(retailer: string): (n: nat)
    ensures n <= |retailer|
  {
    if retailer == [] then 0
    else
      RetailerPoints(retailer[..|retailer| - 1]) +
      (if IsAsciiAlphanumeric(retailer[|retailer| - 1]) then 1 else 0)
  }

  /** 50 points when the total has no cents, that is, when it is a whole number
      of dollars. */
  function RoundDollarPoints(total: int): (p: nat)
    ensures p == 0 || p == 50
    ensures p == 50 <==> total == 100 * (total / 100)
  {
    if total % 100 == 0 then 50 else 0
  }

  /** 25 points when the total is a multiple of a quarter dollar. */
  function QuarterPoints(total: int): (p: nat)
    ensures p == 0 || p == 25
    ensures p == 25 <==> total == 25 * (total / 25)
  {
    if total % 25 == 0 then 25 else 0
  }

  /** 5 points per complete pair of items. */
  function PairPoints(itemCount: nat): (p: nat)
    ensures p % 5 == 0 && 2 * (p / 5) <= itemCount < 2 * (p / 5) + 2
  {
    5 * (itemCount / 2)
  }

  /** A fifth of the price in dollars, rounded up: with the price in cents that is
      the least whole number `p` with `price <= 500 * p`. */
  function PriceBonus(price: int): (p: int)
    ensures 500 * (p - 1) < price <= 500 * p
  {
    (price + 499) / 500
  }

  /** An item earns the price bonus when its description, stripped of spaces at both
      ends, has a length divisible by 3 (zero included). */
  function ItemPoints(item: Item): (p: int)
    ensures |Strip(item.shortDescription)| % 3 != 0 ==> p == 0
    ensures |Strip(item.shortDescription)| % 3 == 0 ==> 500 * (p - 1) < item.price <= 500 * p
  {
    if |Strip(item.shortDescription)| % 3 == 0 then PriceBonus(item.price) else 0
  }

  /** The item bonuses of all items, summed; when no description qualifies the
      rule adds nothing. */
  function ItemsPoints(items: seq<Item>): (p: int)
    ensures (forall i :: 0 <= i < |items| ==> |Strip(items[i].shortDescription)| % 3 != 0) ==> p == 0
  {
    if items == [] then 0 else ItemsPoints(items[..|items| - 1]) + ItemPoints(items[|items| - 1])
  }

  /** 6 points when the day of the month is odd. */
  function OddDayPoints(date: Date): (p: nat)
    ensures p == 0 || p == 6
    ensures p == 6 <==> date.day == 2 * (date.day / 2) + 1
  {
    if date.day % 2 != 0 then 6 else 0
  }

  const TwoPm := TimeOfDay(14, 0, 0, 0)
  const FourPm := TimeOfDay(16, 0, 0, 0)

  /** 10 points when the purchase time lies strictly between 14:00 and 16:00. */
  function AfternoonPoints(time: TimeOfDay): (p: nat)
    ensures p == 0 || p == 10
    ensures ValidTime(time) ==>
              (p == 10 <==> time.hour == 15 ||
                            (time.hour == 14 && (time.minute > 0 || time.second > 0 || time.microsecond > 0)))
  {
    if Before(TwoPm, time) && Before(time, FourPm) then 10 else 0
  }

  /** The score of a receipt: the sum of every rule's contribution. */
  function Score(r: Receipt): (s: int)
    ensures 0 <= s - ItemsPoints(r.items) <= |r.retailer| + PairPoints(|r.items|) + 75 + 6 + 10
  {
    RetailerPoints(r.retailer)
    + RoundDollarPoints(r.total)
    + QuarterPoints(r.total)
    + PairPoints(|r.items|)
    + ItemsPoints(r.items)
    + OddDayPoints(r.purchaseDate)
    + AfternoonPoints(r.purchaseTime)
  }

  /** Computes the score by accumulating points rule by rule, looping over the
      retailer name, over the item pairs and over the items. */
  method CalculatePoints(r: Receipt) returns (points: int)
    ensures points == Score(r)
  {
    points := 0;

    for i := 0 to |r.retailer|
      invariant points == RetailerPoints(r.retailer[..i])
    {
      assert r.retailer[..i + 1][..i] == r.retailer[..i];
      var counts := LookUpLowered(r.retailer[i]);
      if counts {
        points := points + 1;
      }
    }
    assert r.retailer[..|r.retailer|] == r.retailer;
    ghost var byName := points;

    points := points + if r.total % 100 == 0 then 50 else 0;
    points := points + if r.total % 25 == 0 then 25 else 0;
    ghost var byTotal := points - byName;
    assert byTotal == RoundDollarPoints(r.total) + QuarterPoints(r.total);

    for i := 0 to |r.items| / 2
      invariant points == byName + byTotal + 5 * i
    {
      points := points + 5;
    }
    ghost var byPairs := points - byName - byTotal;
    assert byPairs == PairPoints(|r.items|);

    for i := 0 to |r.items|
      invariant points == byName + byTotal + byPairs + ItemsPoints(r.items[..i])
    {
      assert r.items[..i + 1][..i] == r.items[..i];
      var item := r.items[i];
      if |Strip(item.shortDescription)| % 3 == 0 {
        var bonus := (item.price + 499) / 500;
        points := points + bonus;
      }
    }
    assert r.items[..|r.items|] == r.items;
    ghost var byItems := points - byName - byTotal - byPairs;
    assert byItems == ItemsPoints(r.items);

    points := points + if r.purchaseDate.day % 2 != 0 then 6 else 0;
    points := points + if Before(TwoPm, r.purchaseTime) && Before(r.purchaseTime, FourPm) then 10 else 0;
    assert points - byName - byTotal - byPairs - byItems ==
           OddDayPoints(r.purchaseDate) + AfternoonPoints(r.purchaseTime);
  }

  /** The retailer rule counts each part of a name separately. */
  lemma {:induction false} RetailerPointsAppend(s: string, t: string)
    ensures RetailerPoints(s + t) == RetailerPoints(s) + RetailerPoints(t)
  {
    if t == [] {
      assert s + t == s;
    } else {
      var t' := t[..|t| - 1];
      assert (s + t)[..|s + t| - 1] == s + t';
      RetailerPointsAppend(s, t');
    }
  }

  /** A name earns one point per character exactly when every character is an
      ASCII letter or digit. */
  lemma {:induction false} RetailerPointsAll(retailer: string)
    ensures RetailerPoints(retailer) == |retailer| <==>
            forall i :: 0 <= i < |retailer| ==> IsAsciiAlphanumeric(retailer[i])
  {
    if retailer != [] {
      var prefix := retailer[..|retailer| - 1];
      RetailerPointsAll(prefix);
      assert forall i :: 0 <= i < |prefix| ==> prefix[i] == retailer[i];
    }
  }

  /** A name earns nothing exactly when none of its characters is an ASCII letter
      or digit (spaces and punctuation only). */
  lemma {:induction false} RetailerPointsNone(retailer: string)
    ensures RetailerPoints(retailer) == 0 <==>
            forall i :: 0 <= i < |retailer| ==> !IsAsciiAlphanumeric(retailer[i])
  {
    if retailer != [] {
      var prefix := retailer[..|retailer| - 1];
      RetailerPointsNone(prefix);
      assert forall i :: 0 <= i < |prefix| ==> prefix[i] == retailer[i];
    }
  }

  /** The two total rules together: a round-dollar total earns both (75 in all),
      any other multiple of a quarter earns 25, and any other total nothing. */
  lemma TotalPoints(total: int)
    ensures RoundDollarPoints(total) + QuarterPoints(total) ==
            if total % 100 == 0 then 75 else if total % 25 == 0 then 25 else 0
  {
    if total % 100 == 0 {
      var dollars := total / 100;
      assert total == 25 * (4 * dollars);
    }
  }

  /** Of two consecutive days of the month exactly one is odd, so exactly one of
      them earns the odd-day points. */
  lemma OddDayAlternates(year: int, month: int, day: int)
    ensures OddDayPoints(Date(year, month, day)) + OddDayPoints(Date(year, month, day + 1)) == 6
  {
  }

  /** The description rule counts each part of an item list separately. */
  lemma {:induction false} ItemsPointsAppend(first: seq<Item>, second: seq<Item>)
    ensures ItemsPoints(first + second) == ItemsPoints(first) + ItemsPoints(second)
  {
    if second == [] {
      assert first + second == first;
    } else {
      var shorter := second[..|second| - 1];
      assert (first + second)[..|first + second| - 1] == first + shorter;
      ItemsPointsAppend(first, shorter);
    }
  }

  /** The price bonus never goes negative on a non-negative price, and is positive
      exactly when the price is. */
  lemma PriceBonusSign(price: int)
    ensures price >= 0 ==> PriceBonus(price) >= 0
    ensures PriceBonus(price) > 0 <==> price > 0
  {
  }

  /** An item whose description is empty or all spaces strips to length 0, which
      is divisible by 3, so it earns the price bonus. */
  lemma BlankDescriptionEarnsBonus(item: Item)
    requires forall i :: 0 <= i < |item.shortDescription| ==> item.shortDescription[i] == ' '
    ensures ItemPoints(item) == PriceBonus(item.price)
  {
    StripAllSpaces(item.shortDescription);
  }

  /** With non-negative prices no item takes points away. */
  lemma {:induction false} ItemsPointsNonNegative(items: seq<Item>)
    requires forall i :: 0 <= i < |items| ==> items[i].price >= 0
    ensures ItemsPoints(items) >= 0
  {
    if items != [] {
      var prefix := items[..|items| - 1];
      assert forall i :: 0 <= i < |prefix| ==> prefix[i] == items[i];
      ItemsPointsNonNegative(prefix);
      PriceBonusSign(items[|items| - 1].price);
    }
  }

  /** The afternoon rule, read as instants: 10 points exactly when the purchase
      falls strictly after 14:00:00 and strictly before 16:00:00. */
  lemma AfternoonPointsIff(time: TimeOfDay)
    requires ValidTime(time)
    ensures AfternoonPoints(time) ==
            if 14 * 3600 * 1000000 < MicrosSinceMidnight(time) < 16 * 3600 * 1000000 then 10 else 0
  {
    BeforeIffEarlier(TwoPm, time);
    BeforeIffEarlier(time, FourPm);
  }

  /** A receipt whose item prices are all non-negative scores at least zero. */
  lemma ScoreNonNegative(r: Receipt)
    requires forall i :: 0 <= i < |r.items| ==> r.items[i].price >= 0
    ensures Score(r) >= 0
  {
    ItemsPointsNonNegative(r.items);
  }
}
