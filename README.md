# Mobile factory order validator — a Dafny model

The repository is a small Flask service with one endpoint, `POST /orders`. A
client sends a JSON body whose `components` field lists component codes such
as `["A", "D", "F", "I", "K"]`. The handler `create_order` does the following:

1. It checks that the field is a non-empty list.
2. It sorts the codes in place.
3. It walks the sorted codes, stopping at the first unknown code or the first
   code whose category was already picked. For each other code it picks the
   category, appends the part name and adds the price.
4. It checks that the picked categories are exactly Screen, Camera, Port, OS
   and Body.
5. It answers 201 with an order id, the total price and the part names. The
   id is the timestamp, then the joined sorted codes, then a 4-digit random
   number.

Every failure is a 400 of one of four kinds: invalid request shape, unknown
component code, two parts of one category, and category set not matching.

The model has five modules:

- `StringOrder` (`string_order.dfy`) covers Python's `str` ordering and the
  in-place `list.sort()`. The sort is an insertion sort on an array. It is
  proved to produce the unique sorted rearrangement `SortCodes` of its input.
- `Decimal` (`decimal.dfy`) covers the decimal rendering of a non-negative
  integer in the id's f-string, and its inverse.
- `Orders` (`orders.dfy`) holds the catalog and the required categories as
  constants. It also holds the request field, the result datatype, the
  handler as the method `CreateOrder`, and its loop `ProcessCodes`. Both
  methods are proved equal to the pure functions `OrderOutcome` and
  `ScanCodes`.
- `OrderProperties` (`order_properties.dfy`) defines what an order should be,
  independently of the loop: all codes known, categories pairwise distinct,
  the set of categories covered, and the sum of prices. It then proves the
  handler's outcomes against those definitions.
- `Scenarios` (`scenarios.dfy`) proves the test suite's requests, and a few
  more, against the shipped catalog.

The catalog and the required set are parameters of every operation. The
shipped values are the constants `ComponentData` and `RequiredCategories`.
Prices are integer cents, so 10.28 is `1028`. The clock reading and the
random draw are parameters `timestamp` and `randomNumber`.

The category-set error message at app.py:67 is fixed and names all five
categories, so `MissingCategories` carries no payload.

## Model

| member | source | states |
|---|---|---|
| Orders.CreateOrder | app.py:32-84 | The handler's answer as the code computes it: the shape checks, the in-place sort of a copy, the loop, the category-set check and the order built from the sorted codes, equal to `OrderOutcome` |
| Orders.ProcessCodes | app.py:48-63 | The `for` loop with its set, list and running total and its two early returns produces exactly the loop state `ScanCodes` of the sorted codes |
| Orders.OrderId | app.py:70-75 | The id is the timestamp's digits, then the joined sorted codes, then the random number's digits, with the lengths adding up |
| Orders.Concat | app.py:72 | `''.join` of single-letter codes has one letter per code, in order |
| Orders.ScanStopsAtFailure | app.py:53-63 | Once the loop has returned an error, codes after that point cannot change the answer |
| StringOrder.SortInPlace | app.py:45 | `components.sort()` leaves the array sorted, a permutation of what it held, and equal to `SortCodes` of the old contents |
| StringOrder.SortCodesSorted | app.py:45 | The sorted rearrangement is in ascending `str` order |
| StringOrder.SortedUnique | app.py:45 | Two ascending arrangements of the same codes are identical, so the sort's result is determined by the codes alone |
| StringOrder.SortCodesPermutation | app.py:45 | Codes given in any order sort to the same sequence |
| StringOrder.SortCodesIdentity | app.py:45 | Codes already in ascending order are left as they are |
| StringOrder.LexLeTotal | app.py:45 | Any two codes are comparable under Python's string order |
| StringOrder.LexLeAntisymmetric | app.py:45 | Codes that are each `<=` the other are equal |
| StringOrder.LexLeTransitive | app.py:45 | Python's string order is transitive |
| Decimal.DecimalString | app.py:74 | The f-string rendering of a number is a non-empty run of digits with no leading zero unless the number is 0 |
| Decimal.ParseDecimalString | app.py:74 | Reading the rendered digits back gives the number |
| Decimal.FourDigits | app.py:73-74 | A number from 1000 to 9999 is rendered in exactly four digits |
| OrderProperties.TotalCentsPermutation | app.py:49-61 | The sum of the catalog prices does not depend on the order of the codes |
| OrderProperties.DistinctIffCard | app.py:57-59 | Categories are pairwise distinct exactly when there are as many categories as codes |
| OrderProperties.DistinctPermutation | app.py:45-59 | Reordering the codes changes neither their set of categories nor whether the categories are distinct |
| OrderProperties.ScanCollects | app.py:53-61 | A loop that runs to the end saw only known codes of distinct categories. It has picked exactly their categories, their price sum and, in order, their part names |
| OrderProperties.StepExtendsPrefix | app.py:54-63 | After a prefix the loop got through, the next code lets it go on exactly when the code is known and its category is not among the prefix's categories; an unknown code stops it with the unknown-code error, a covered category with the one-part-per-category error |
| OrderProperties.FailureHasFirstPosition | app.py:53-63 | A loop that stops does so at the first position where a code is unknown or repeats an earlier category, with that position's error |
| OrderProperties.ScanSucceeds | app.py:53-63 | The loop runs to the end if and only if every code is known and no two share a category |
| OrderProperties.FirstFailureDecides | app.py:53-63 | The first unknown or category-repeating code decides the error, whatever follows it |
| OrderProperties.InvalidShapeIff | app.py:34-42 | A missing field, a non-list value and an empty list give the invalid-request error, and nothing else does |
| OrderProperties.OutcomeIgnoresInputOrder | app.py:45-67 | The answer (success with its total, parts and id, or which error) does not depend on the order in which the codes were listed |
| OrderProperties.OutcomeFailsAtFirstBadCode | app.py:53-63 | The first bad code in sorted order determines the handler's error |
| OrderProperties.OutcomeErrorHasFirstBadCode | app.py:53-63 | Every unknown-code or repeated-category error comes from the first bad code in sorted order |
| OrderProperties.SharedCategoryRejected | app.py:56-58 | In a list of known codes, two positions of one category, including one code given twice, give the one-part-per-category error |
| OrderProperties.ScanOfSorted | app.py:45-63 | The loop over the sorted codes completes exactly when the codes as given are known and of distinct categories. It has then picked their categories. Otherwise it stopped on an unknown code or, when every code is known, on a repeated category |
| OrderProperties.MissingCategoriesIff | app.py:66-67 | The category-set error is given exactly for a non-empty list of known codes with distinct categories whose categories differ from the required set |
| OrderProperties.SuccessIff | app.py:53-67 | An order succeeds exactly when the list is non-empty, every code is known, no category repeats and the categories are the required set |
| OrderProperties.SuccessfulOrder | app.py:48-84 | A successful order has one code per required category, hence as many codes and parts as categories. Its total is the sum of the catalog prices of the given codes. Part `i` is the catalog name of the `i`-th code in sorted order. Its id is built from the sorted codes |
| OrderProperties.OutcomeIgnoresClock | app.py:70-82 | The clock and the random draw change only the order id, never the success, the total, the parts or the error |
| OrderProperties.OrderIdLayout | app.py:70-75 | For a draw from 1000 to 9999, the id is the timestamp's digits, then the joined sorted codes, then four digits that read back as the draw |
| Scenarios.CatalogCategoriesRequired | app.py:10-26 | Every catalog entry belongs to one of the five required categories |
| Scenarios.ShippedOrderHasFiveParts | app.py:57-72 | With the shipped catalog, a successful order has exactly five codes and five parts, and its codes add exactly five letters to the id |
| Scenarios.SingleLetterCodes | app.py:10-23 | Known codes of the shipped catalog join to one letter per code |
| Scenarios.FiveRequired | app.py:26 | There are five required categories |
| Scenarios.MissingMeansStrictSubset | app.py:66-67 | With the shipped catalog no category can be extra, so a category-set error means the picked categories are a strict subset of the required ones |
| Scenarios.ValidOrder | test_app.py:13-16 | `A, D, F, I, K` gives LED Screen, Wide-Angle Camera, USB-C Port, Android OS and Metallic Body for 142.30 |
| Scenarios.ValidOrderShuffled | app.py:45 | `K, I, A, F, D` gives the same order as `A, D, F, I, K` |
| Scenarios.TwoScreens | test_app.py:24-26 | `A, B, F, I, K` gives the one-part-per-category error for Screen |
| Scenarios.NoBody | test_app.py:32-34 | `A, D, F, I` (no Body) gives the category-set error |
| Scenarios.NonListRequest | test_app.py:48-50 | The string `"A, D, F, I, K"` in place of a list gives the invalid-request error |
| Scenarios.UnknownCode | test_app.py:40-42 | `A, D, F, I, X` gives the unknown-code error for `X` |
| Scenarios.RepeatedScreen | app.py:53-58 | `A, A, X` stops at the second `A` with the Screen error before `X` is looked up |
| Scenarios.RepeatBeforeUnknown | app.py:45-63 | `X, A, A` is sorted to `A, A, X`, so the repeated screen is reported rather than the unknown `X` |

## Left out

- The Flask application, the route, `request.json`, `jsonify`, the HTTP status codes and running the server (app.py:5-7, 29, 33, 84, 86-87). These are I/O over a library that is not part of this model. Success and failure are the `Ok` and error variants of `OrderResult`.
- A request body that is not a JSON object, and list elements that are not strings. The field is modelled as missing, a list of strings, or some other value. Codes are taken to be sequences of Unicode scalar values, so a lone surrogate such as `"\ud800"`, which JSON decoding accepts, is not modelled.
- `time.time()` and `random.randint(1000, 9999)` (app.py:71, 73). These are side effects, so they are parameters. The clock reading is taken to be non-negative (`timestamp: nat`), so a negative `int(time.time())`, which the f-string would render with a `-`, is not modelled. No uniqueness of order ids is claimed, because two requests can draw the same second and number.
- Floating-point prices and the float running total (app.py:11-22, 49, 61). Prices are integer cents, so the total is exact. The rounding error of the float sum that Python returns is not modelled.
- The wording of the error messages (app.py:38, 42, 58, 63, 67). An error is modelled by its kind and, for an unknown code, the code. `DuplicateCategory` also carries the repeated category, which the message does not mention.
- The `OrderedDict` key order of the response (app.py:78-82).
- test_app.py:18-20 expects the keys `1order_id`, `2total` and `3parts`, which the handler never produces. Only the test requests and their status codes are modelled, as scenarios.
- The request's own list being reordered by `components.sort()`. `CreateOrder` sorts a fresh array holding the codes, so mutation of the caller's list is not visible.
- `StringOrder.SortInPlace`: Python's `list.sort()` is Timsort, and the model uses insertion sort. Both yield the unique ascending arrangement (`SortedUnique`), so the results agree, but the steps differ.
- The redundant second list check at app.py:41 is folded into the first: it can never fire after app.py:37-38 has passed.
- `if component_info:` (app.py:55) tests a dictionary for emptiness. Every catalog entry is non-empty, so it is modelled as a catalog-membership test.
