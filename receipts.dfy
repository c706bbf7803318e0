/** The record shapes of the receipt processor: an item, a receipt as submitted,
    and a receipt once the store has tagged it with an identifier.

    Money is held in integer cents (the service itself holds floats), the purchase
    date keeps its calendar fields, and the purchase time keeps the four fields of
    a time of day, compared in the same lexicographic order as the service's. */
module Receipts {

  /** One line of a receipt; `price` is in cents. */
  datatype Item = Item(shortDescription: string, price: int)

  /** The calendar date of a purchase; the scoring rules look only at `day`. */
  datatype Date = Date(year: int, month: int, day: int)

  /** A time of day, to the microsecond. */
  datatype TimeOfDay = TimeOfDay(hour: int, minute: int, second: int, microsecond: int)

  /** A receipt as submitted; `total` is in cents. */
  datatype Receipt = Receipt(
    retailer: string,
    purchaseDate: Date,
    purchaseTime: TimeOfDay,
    items: seq<Item>,
    total: int)

  /** A receipt together with the identifier the store gave it. */
  datatype ProcessedReceipt = ProcessedReceipt(receipt: Receipt, receiptId: string)

  /** The ranges a time of day's fields are kept in. */
  predicate ValidTime(t: TimeOfDay) {
    0 <= t.hour < 24 && 0 <= t.minute < 60 && 0 <= t.second < 60 && 0 <= t.microsecond < 1000000
  }

  /** Microseconds since midnight. */
  function MicrosSinceMidnight(t: TimeOfDay): int {
    ((t.hour * 60 + t.minute) * 60 + t.second) * 1000000 + t.microsecond
  }

  /** Strict order on times of day: field by field, hour first. No time comes
      before itself, and the hour decides whenever the hours differ. */
  predicate Before(a: TimeOfDay, b: TimeOfDay): (earlier: bool)
    ensures earlier ==> a != b && a.hour <= b.hour
    ensures a.hour < b.hour ==> earlier
  {
    a.hour < b.hour ||
    (a.hour == b.hour &&
      (a.minute < b.minute ||
        (a.minute == b.minute &&
          (a.second < b.second ||
            (a.second == b.second && a.microsecond < b.microsecond)))))
  }

  /** The order is a strict total order: transitive, never both ways round, and
      one way round for any two distinct times. */
  lemma BeforeIsStrictTotal(a: TimeOfDay, b: TimeOfDay, c: TimeOfDay)
    ensures Before(a, b) && Before(b, c) ==> Before(a, c)
    ensures Before(a, b) ==> !Before(b, a)
    ensures a == b || Before(a, b) || Before(b, a)
  {
  }

  /** Comparing two mixed-radix numerals digit by digit is comparing their values. */
  lemma MixedRadixLess(high1: int, low1: int, high2: int, low2: int, radix: int)
    requires 0 <= low1 < radix && 0 <= low2 < radix
    ensures high1 * radix + low1 < high2 * radix + low2 <==>
            high1 < high2 || (high1 == high2 && low1 < low2)
  {
    if high1 < high2 {
      ShiftedProduct(high1, high2, radix);
    } else if high1 > high2 {
      ShiftedProduct(high2, high1, radix);
    }
  }

  /** A larger high digit outweighs any low digit. */
  lemma ShiftedProduct(small: int, large: int, radix: int)
    requires small < large && radix > 0
    ensures small * radix + radix <= large * radix
  {
    var d := large - small - 1;
    assert large * radix == small * radix + radix + d * radix;
    assert d * radix >= 0;
  }

  /** The field-by-field order is the order of the instants the times denote. */
  lemma BeforeIffEarlier(a: TimeOfDay, b: TimeOfDay)
    requires ValidTime(a) && ValidTime(b)
    ensures Before(a, b) <==> MicrosSinceMidnight(a) < MicrosSinceMidnight(b)
  {
    MixedRadixLess(a.hour, a.minute, b.hour, b.minute, 60);
    var ma, mb := a.hour * 60 + a.minute, b.hour * 60 + b.minute;
    MixedRadixLess(ma, a.second, mb, b.second, 60);
    var sa, sb := ma * 60 + a.second, mb * 60 + b.second;
    MixedRadixLess(sa, a.microsecond, sb, b.microsecond, 1000000);
    // equal minute counts within valid ranges mean equal hour and minute fields
    if ma == mb {
      MixedRadixLess(a.hour, a.minute, b.hour, b.minute, 60);
      MixedRadixLess(b.hour, b.minute, a.hour, a.minute, 60);
    }
    if sa == sb {
      MixedRadixLess(ma, a.second, mb, b.second, 60);
      MixedRadixLess(mb, b.second, ma, a.second, 60);
    }
  }
}
