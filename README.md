# Receipt processor: points calculator and receipt store

This project models the core of a small receipt-processing web service. A client
submits a receipt (retailer name, purchase date and time, a list of items, a total).
The service tags it with a fresh identifier and appends it to an in-memory list.
Later the client asks for the receipt's points by identifier. The service scans the
list for the first receipt with that identifier and scores it with seven fixed rules.
If no receipt has the identifier, it answers not-found.

Files and modules:

- `wrappers.dfy` (`Wrappers`): `Option` and `Result`.
- `receipts.dfy` (`Receipts`): the record shapes `Item` (main.py:9-11), `Receipt`
  (main.py:13-18) and `ProcessedReceipt` (main.py:20-27). Money is held in integer cents. The purchase date is a calendar
  date. The purchase time has the four fields of a time of day, compared field by field.
- `text.dfy` (`Text`): ASCII lowercasing, the lookup of a lowercased character in the
  alphanumeric alphabet, and stripping `' '` from both ends of a string.
- `points.dfy` (`Points`): one specification function per scoring rule, and `Score`,
  their sum. `CalculatePoints` computes the score as the service does: it bumps a
  running total across three loops and four conditional additions, and it is proved to
  return `Score`.
- `store.dfy` (`Store`): the class `ReceiptStore` holding a `seq` of processed receipts.
  Its invariant is that identifiers are unique. `ProcessReceipt` appends a record.
  `GetPoints` is a linear scan with an early return, proved equal to the lookup
  function `Lookup`.
- `examples.dfy` (`Examples`): the rules and the store applied to concrete receipts.

How the source's values become Dafny values:

- A price or total of `d` dollars is `100 * d` cents. "No cents" becomes
  `total % 100 == 0`. "A multiple of 0.25" becomes `total % 25 == 0`.
  `ceil(price * 0.2)` becomes the least integer `p` with `price <= 500 * p`, which is
  `(price + 499) / 500`. Dafny's division rounds down for a positive divisor, so this
  also holds for negative prices.
- The purchase date keeps year, month and day; only the day is scored.
- A time of day keeps hour, minute, second and microsecond, without a UTC offset. It
  is ordered field by field, as the source's naive time values are.
  `Receipts.BeforeIffEarlier` proves that this order is the order of microseconds
  since midnight. So the strict bounds 14:00:00 and
  16:00:00 are exact, down to the microsecond.

Consequences of the code that are easy to miss:

- An item whose description strips to length 0 (empty, or spaces only) earns the price
  bonus, because `0 % 3 == 0` (`Points.BlankDescriptionEarnsBonus`).
- The description "Emils Cheese Pizza" has 18 characters, so at 12.25 it earns 3
  (`Examples.PizzaEarnsBonus`).
- Prices are not checked for sign, so a qualifying item with a negative price takes
  points away: a receipt whose only item has an empty description and costs -100.00
  scores -20 (`Examples.NegativePriceScoresBelowZero`). The score is non-negative only
  when every price is (`Points.ScoreNonNegative`).
- The comment at main.py:75 speaks of "length minus space characters", but the code
  strips only `' '` characters at both ends, and that is what the model does.

## Model

| member | source | states |
|---|---|---|
| `Text.LookUpLowered` | main.py:55-59 | lowercasing a character and looking it up in the alphabet accepts exactly ASCII letters of either case and ASCII digits |
| `Text.Lower` | main.py:59 | lowercasing never yields an upper-case ASCII letter, maps each upper-case letter to the lower-case letter at the same place in the alphabet, and leaves every other character alone |
| `Text.AlphabetMembers` | main.py:55 | the alphabet string holds exactly the lower-case ASCII letters and the digits |
| `Text.Strip` | main.py:77 | `strip(' ')` never lengthens a string, its result neither starts nor ends with a space, and a string that does neither is returned unchanged |
| `Text.StripRemovesSpacesAtBothEnds` | main.py:77 | `strip(' ')` yields the slice after the leading spaces; everything cut off is a space, and the result neither starts nor ends with a space |
| `Text.StripPadded` | main.py:77 | stripping recovers any text that neither starts nor ends with a space from any spaces padded around it |
| `Text.StripAllSpaces` | main.py:77 | an empty or all-space description strips to the empty string |
| `Points.RetailerPoints` | main.py:57-60 | the retailer rule never awards more points than the name has characters |
| `Points.RetailerPointsAppend` | main.py:58-60 | the retailer rule counts characters one by one: the points of a concatenation are the sum of the parts' points |
| `Points.RetailerPointsAll` | main.py:58-60 | a name earns one point per character exactly when every character is an ASCII letter or digit |
| `Points.RetailerPointsNone` | main.py:58-60 | a name earns nothing exactly when no character is an ASCII letter or digit (spaces and punctuation such as `&`) |
| `Points.RoundDollarPoints` | main.py:63 | the round-dollar rule awards 50 or 0, and 50 exactly when the total is a whole number of dollars |
| `Points.QuarterPoints` | main.py:66 | the quarter rule awards 25 or 0, and 25 exactly when the total is a whole number of quarter dollars |
| `Points.TotalPoints` | main.py:62-66 | a round-dollar total earns 75 (both rules), any other multiple of 0.25 earns 25, every other total earns 0 |
| `Points.PairPoints` | main.py:68-70 | the pair rule awards 5 points per complete pair of items: `p / 5` pairs fit in the item count with at most one item left over |
| `Points.PriceBonus` | main.py:78 | the item bonus is `ceil(price * 0.2)`: the least whole number of points `p` with `price <= 500 * p` cents |
| `Points.ItemPoints` | main.py:77-79 | an item whose stripped description length is not divisible by 3 earns 0; otherwise it earns `ceil(price * 0.2)` |
| `Points.ItemsPoints` | main.py:76-79 | when no item's stripped description length is divisible by 3, the description rule adds nothing |
| `Points.ItemsPointsAppend` | main.py:76-79 | the description rule counts items one by one: the points of a concatenated item list are the sum of the parts' points |
| `Points.PriceBonusSign` | main.py:78 | the item bonus is non-negative on a non-negative price and positive exactly when the price is |
| `Points.BlankDescriptionEarnsBonus` | main.py:76-79 | an item with an empty or all-space description earns the price bonus |
| `Points.ItemsPointsNonNegative` | main.py:76-79 | with non-negative prices the description rule adds a non-negative amount |
| `Points.OddDayPoints` | main.py:82 | the odd-day rule awards 6 or 0, and 6 exactly when the day of the month is odd |
| `Points.OddDayAlternates` | main.py:82 | of two consecutive days of the month exactly one earns the odd-day points |
| `Points.AfternoonPoints` | main.py:85 | the time rule awards 10 or 0; on a valid time, 10 exactly when the hour is 15, or the hour is 14 and the time is past 14:00:00 |
| `Points.AfternoonPointsIff` | main.py:84-85 | the time rule awards 10 exactly when the purchase lies strictly between 14:00:00 and 16:00:00, else 0 |
| `Points.Score` | main.py:53-87 | apart from the description rule, the rules add between 0 and one point per retailer character plus the pair points plus 91 (50 + 25 + 6 + 10) |
| `Points.CalculatePoints` | main.py:53-87 | the looping calculation returns exactly the sum of the seven rules' contributions |
| `Points.ScoreNonNegative` | main.py:53-87 | the score is non-negative whenever every item price is |
| `Receipts.Before` | main.py:85 | no time comes before itself, and when the hours differ the earlier hour comes first |
| `Receipts.BeforeIsStrictTotal` | main.py:85 | comparing times is a strict total order: transitive, never both ways round, and one way round for distinct times |
| `Receipts.BeforeIffEarlier` | main.py:85 | comparing times of day field by field is comparing the instants they denote |
| `Store.FirstIndex` | main.py:48-49 | the scan stops at the first record carrying the identifier; no earlier record carries it, and without a match no record carries it |
| `Store.Lookup` | main.py:46-51 | a points answer is the score of some stored record carrying the identifier; not-found names the identifier and means no record carries it |
| `Store.LookupFailsIffUnknown` | main.py:46-51 | a points request answers not-found, naming the identifier, exactly when no stored record carries it; an unknown identifier never gets a score of 0 |
| `Store.LookupStored` | main.py:48-50 | with unique identifiers, asking for a stored record's identifier scores that very record |
| `Store.LookupAfterAppend` | main.py:42-51 | appending a record leaves every earlier answer unchanged, answers the new identifier with the new receipt's score if it was unknown, and still answers not-found for every other identifier |
| `Store.AppendFreshKeepsUnique` | main.py:42-43 | appending a record with a fresh identifier keeps identifiers unique and adds exactly that identifier |
| `Store.ReceiptStore.constructor` | main.py:29 | the store starts empty, with unique identifiers |
| `Store.ReceiptStore.ProcessReceipt` | main.py:40-44 | processing appends exactly one record at the end, leaves earlier records unchanged, keeps identifiers unique and returns the new identifier |
| `Store.ReceiptStore.GetPoints` | main.py:46-51 | the scan answers the first matching record's score, or not-found exactly when no record carries the identifier |
| `Examples.RetailerExamples` | main.py:57-60 | "Target" earns 6; "M&M Corner Market" earns 14 |
| `Examples.TotalExamples` | main.py:62-66 | 35.00 earns 75, 35.35 earns 0 and 12.25 earns 25 from the two total rules |
| `Examples.PairExamples` | main.py:68-70 | 1 item earns 0; 4 and 5 items earn 10 |
| `Examples.PizzaEarnsBonus` | main.py:76-79 | "Emils Cheese Pizza" at 12.25 earns 3 |
| `Examples.PaddedDescriptionEarnsBonus` | main.py:76-79 | "  Klarbrunn 12-PK 12 FL OZ " at 12.00 earns 3 |
| `Examples.PepsiEarnsNoBonus` | main.py:76-79 | "Pepsi - 12-oz" (13 characters) earns 0 |
| `Examples.BlankEarnsBonus` | main.py:76-79 | an all-space description at 1.25 earns 1 |
| `Examples.DateAndTimeExamples` | main.py:81-85 | day 1 earns 6 and day 2 earns 0; 14:33 earns 10; 14:00:00 and 16:00:00 earn 0; 14:00:00.000001 earns 10 |
| `Examples.NegativePriceScoresBelowZero` | main.py:76-79 | a receipt whose only item has an empty description and a price of -100.00, with nothing else scoring, scores -20 |
| `Examples.TargetItems` | main.py:76-79 | the two items of the sample receipt earn 1 together |
| `Examples.TargetScore` | main.py:53-87 | the sample receipt (Target, 2022-01-01, 13:01, two items, 35.35) scores 18 |
| `Examples.SubmitThenLookUp` | main.py:40-51 | submitting the sample receipt to an empty store and asking for its points answers 18; an identifier never handed out answers not-found |

## Left out

- HTTP routing, the welcome and list endpoints, status codes and JSON shaping (main.py:7, main.py:32-38, main.py:51). `GetPoints` returns a `Result` in place of the 404 response. Listing the store is reading the `records` field.
- Request validation and parsing of dates, times and numbers (main.py:9-27) is library behaviour. The model starts from already-parsed values.
- Store.ReceiptStore.ProcessReceipt: takes the identifier as a parameter and requires it to be fresh, because the source draws a random UUID (main.py:26) and randomness cannot be verified. A caller-supplied `receipt_id` cannot reach the store: the submitted receipt has no such field.
- Float semantics of `is_integer`, `% 0.25` and `price * 0.2` (main.py:63, 66, 78) are not modelled. Amounts are whole cents, so sub-cent amounts and binary rounding effects are not captured. JSON parsing and the request models accept `Infinity` and `NaN` as numbers, and for an item whose description qualifies, `ceil(item.price * 0.2)` at main.py:78 then raises `OverflowError` or `ValueError`, so `get_points` fails on that receipt; `Store.ReceiptStore.GetPoints` always answers, because a price here is a whole number of cents.
- Text.Lower, Text.LookUpLowered: lowercase ASCII only. Unicode case mapping is not captured: `str.lower()` maps a non-ASCII capital such as `É` to `é` and the Kelvin sign to `k`, while the model leaves both unchanged.
- The purchase date's time-of-day part and its validity as a calendar date are not modelled; only the day of the month is scored.
- Points.AfternoonPoints: times with a UTC offset (such as "14:33Z") are not modelled. The source compares such an aware time with the naive 14:00 and 16:00 at main.py:85, which raises an error, so `get_points` (main.py:50) fails for that receipt instead of answering a score; the model always answers.
- Thread safety of the shared list is not modelled; the model is sequential.
