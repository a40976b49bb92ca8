# Market basket analysis: encoder, pair checker and threshold filters

A Dafny model of the computational core of a Streamlit market-basket-analysis
dashboard (`app.py`). The dashboard loads a grocery purchase table, one-hot
encodes it into baskets, lets a logged-in user filter precomputed Apriori
itemsets and rules by minimum support and confidence, and computes support,
confidence and lift for any two items the user picks.

Modules:

- `Results` (`results.dfy`): `Option` for an empty select box, `Result` for a
  calculation that stops early.
- `Ordering` (`ordering.dfy`): strict total orders and `SortedDistinct`, the
  sorted list of distinct values that both `sorted(...unique())` and a sorted
  group-by produce.
- `Text` (`text.dfy`): Python's argument-less `str.strip()` over the exact
  set of characters `str.isspace()` accepts, and Python's string order
  (code-point lexicographic, a proper prefix first).
- `Encoding` (`encoding.dfy`): `load_dataset` — strip item names, group the
  records into baskets keyed by (`Member_number`, `Date`), take the sorted
  distinct names as the item universe, build the 0/1 presence matrix.
- `Metrics` (`metrics.dfy`): the item pair probability checker — refusals for
  an empty or repeated selection, supports as exact ratios of basket counts,
  zero-guarded confidences and lift, and the three-way interpretation.
- `Filters` (`filters.dfy`): the support / confidence filters of the
  precomputed itemset and rule tables.

Supports are `real` values `count / total`, so every statement is exact
arithmetic rather than floating point. The matrix sums the checker performs
(`basket_ohe[item].sum()`, `(col1 & col2).sum()`) are modelled as written and
proved equal to independent reference counts of baskets holding the items
(`BasketsHolding`, `BasketsHoldingBoth`); the contracts of `Analyze` are stated
against those reference counts.

Three facts about the code shape the model:

- Item names that are empty after stripping stay a name of their own: nothing
  in `load_dataset` drops them.
- The code never reports an item outside the universe as an error: the select
  boxes only offer universe items (app.py:170-171). `Analyze` therefore
  requires a selected item to be in the universe.
- The code does not guard against zero baskets: app.py:181-185 divide by
  `len(basket)` once two different items are selected. `Analyze` therefore
  requires at least one basket only in that case; an incomplete selection
  stops before any division, whatever the table. In the running application
  the requirement always holds: an item is in the universe only if some
  record, hence some basket, holds it (`Encode` states this).

## Model

| member | source | states |
|---|---|---|
| `Text.Strip` | app.py:36 | the stripped name has no whitespace at either end and is a slice of the original with only whitespace removed on each side |
| `Text.StripRemovesPadding` | app.py:36 | padding a stripped name with whitespace on either side and stripping gives the name back, so names differing only by surrounding whitespace become one name |
| `Text.StripIdempotent` | app.py:36 | stripping an already stripped name changes nothing |
| `Text.StrLtIsStrictTotalOrder` | app.py:40 | Python's string order is irreflexive, transitive and total, so sorting names has one answer |
| `Ordering.SortedDistinct` | app.py:40 | the result is strictly increasing (hence duplicate-free) and holds exactly the values of the input |
| `Ordering.SortedByElements` | app.py:40 | two strictly sorted sequences with the same values are equal, so the sorted universe is unique |
| `Encoding.KeyLtIsStrictTotalOrder` | app.py:38 | ordering keys by member number, then by date string, is a strict total order |
| `Encoding.ItemsWithKey` | app.py:38 | a basket's item list holds exactly the item names of the records carrying its key |
| `Encoding.Group` | app.py:38 | baskets come in strictly increasing key order (one basket per key), exist for exactly the keys of the records, are non-empty, and hold exactly the items of their own key's records |
| `Encoding.RecordInOwnBasket` | app.py:38 | every record's item appears in the basket of its own (member, date) pair, and no two baskets share a key |
| `Encoding.GroupKeepsEveryRecord` | app.py:38 | the baskets' item lists together have as many entries as there are records: grouping loses and duplicates nothing |
| `Encoding.Universe` | app.py:40 | the item universe is strictly sorted and holds exactly the stripped names of the records |
| `Encoding.Matrix` | app.py:41-42 | one row per basket, one column per universe item, and a cell is 1 exactly when the basket's item list holds that item, 0 otherwise |
| `Encoding.PresenceIgnoresDuplicates` | app.py:41-42 | a basket's presence row depends only on which items it holds, not on repetitions or order |
| `Encoding.Encode` | app.py:34-45 | the encoding is consistent (cell is 1 iff item in basket), the universe is strictly sorted and equals both the set of stripped names and the union of basket items, basket keys are strictly sorted and are exactly the record keys, and there are no baskets exactly when there are no records |
| `Encoding.EncodeIgnoresPadding` | app.py:36-45 | records whose item names differ only by surrounding whitespace encode identically |
| `Encoding.UniverseIgnoresRecordOrder` | app.py:40 | the universe depends only on which stripped names occur, not on record order or repetition |
| `Metrics.BasketsHoldingBoth` | app.py:185 | the number of baskets holding both items is at most the number holding either one |
| `Metrics.BasketsHoldingBothSymmetric` | app.py:185 | the joint count does not depend on which item is named first |
| `Metrics.ColumnOf` | app.py:183-185 | selecting a column by item label finds the column whose universe entry is that item |
| `Metrics.ColumnSumCountsBaskets` | app.py:183-184 | summing an item's presence column counts the baskets whose item list holds the item |
| `Metrics.AndSumCountsBaskets` | app.py:185 | summing the `&` of two presence columns counts the baskets holding both items |
| `Metrics.Classify` | app.py:203-208 | the interpretation is positive exactly when lift > 1, independent exactly when lift = 1, and negative exactly when lift < 1 |
| `Metrics.FromCounts` | app.py:181-190 | supports are the counts over the basket total; each confidence is the joint count over its antecedent's count, or 0 when that count is 0; the lift is (joint count × total) / (count 1 × count 2) when both counts are non-zero and 0 otherwise; the interpretation classifies the lift |
| `Metrics.SupportLevelFacts` | app.py:181-190 | supports lie in [0,1] with the joint support at most each single support; each confidence is joint support over its antecedent's support and in [0,1], or 0 when that support is 0; lift is non-negative, 0 when either support is 0, and joint support over the product of the supports otherwise; the interpretation is positive iff lift > 1, independent iff lift = 1, negative iff lift < 1 |
| `Metrics.Analyze` | app.py:173-208 | an empty selection stops with `NotSelected`, equal items stop with `SameItem`, and only two different selected items give metrics; those are the metrics of the reference basket counts, with supports in [0,1], joint support at most each support, confidences zero-guarded and in [0,1], lift non-negative, zero-guarded and equal to joint support over the product of supports, and exactly one interpretation fixed by comparing lift with 1 |
| `Metrics.EmptyTableStopsUnselected` | app.py:173-179 | with no transactions at all, an incomplete selection still stops with `NotSelected` |
| `Metrics.FromCountsSymmetric` | app.py:183-190 | exchanging the two single counts exchanges the supports and the confidences and keeps the joint support, lift and interpretation |
| `Metrics.AnalyzeSymmetric` | app.py:181-208 | swapping item 1 and item 2 swaps the supports and the confidences and leaves joint support, lift and interpretation unchanged |
| `Metrics.ClassifyByCounts` | app.py:190-208 | positive iff both counts are non-zero and joint count × total > count 1 × count 2, independent iff they are equal, negative otherwise (including a zero count) |
| `Metrics.AssociationByCounts` | app.py:181-208 | the checker's interpretation of a pair, read off the basket counts as in `ClassifyByCounts` |
| `Metrics.MilkAndBread` | app.py:181-208 | for baskets {milk, bread}, {milk}, {bread}, {milk, bread, eggs} the checker gives supports 3/4, 3/4, 1/2, confidences 2/3, lift 8/9 and a negative association |
| `Filters.Keep` | app.py:155-159 | a boolean-mask selection holds exactly the rows meeting the condition and is no longer than the table |
| `Filters.KeepMultiplicity` | app.py:155-159 | every row meeting the condition keeps its multiplicity and every other row is gone |
| `Filters.KeepConcat` | app.py:155-159 | a boolean-mask selection of two blocks of rows is the selection of each block, in order, so kept rows keep their relative order |
| `Filters.KeepTwice` | app.py:155-159 | selecting by one condition and then another is selecting by both at once |
| `Filters.FilterItemsets` | app.py:155 | the itemset view holds exactly the itemsets whose support reaches the minimum support, with their multiplicities |
| `Filters.FilterRules` | app.py:156-159 | the rule view holds exactly the rules whose support reaches the minimum support and whose confidence reaches the minimum confidence, with their multiplicities |
| `Filters.FilterItemsetsKeepsOrder` | app.py:155 | the itemset view keeps the table's row order |
| `Filters.FilterRulesKeepsOrder` | app.py:156-159 | the rule view keeps the table's row order |
| `Filters.FilterItemsetsTwice` | app.py:155 | filtering itemsets at two support limits equals filtering once at the larger |
| `Filters.FilterRulesTwice` | app.py:156-159 | filtering rules at two pairs of limits equals filtering once at the larger support and the larger confidence limit |

## Left out

- The chatbot (app.py:118-125): a single call to `difflib.get_close_matches`, whose similarity algorithm is library code outside this repository.
- The login gate and session state (app.py:9-10, 132-142): UI state and a dictionary lookup of credentials.
- Loading the CSV and joblib files and Streamlit caching (app.py:27-59): input/output. The records, itemsets and rules are parameters of the model.
- The mining of the frequent itemsets and rules: it happened before the application runs and is not part of its code.
- Page layout, tabs, sliders, select boxes, the four-decimal display, the background CSS and the top-10 frequency chart (app.py:12-24, 61-113, 161-165, 192-200): presentation.
- `st.stop` after a refused selection is modelled as a `Failure` result; the rerun mechanics of Streamlit are not.
- Floating point: supports, confidences, lift and slider thresholds are exact `real` values; rounding of the pandas divisions is not modelled. Every statement about the lift's value, its comparison with 1 and the resulting interpretation holds in exact arithmetic only.
- Metrics.Classify: in double precision a lift that is exactly 1 can round to either side of 1, so the code can report a positive or negative association where the model reports independence. With 15 baskets, counts 5 and 9 and joint count 3 the exact lift is 1, but `(0.2 / (1/3)) / 0.6` evaluates to 1.0000000000000002 and is read as positive.
- Metrics.AnalyzeSymmetric: swapping the items keeps the lift only in exact arithmetic. With 33 baskets, counts 11 and 27 and joint count 9 the two orders evaluate to 0.9999999999999999 and 1.0, so the code gives two different interpretations.
- Metrics.ClassifyByCounts: the count criterion (joint count × total against count 1 × count 2) decides the exact interpretation; the code's double-precision interpretation can differ from it when the two products are equal, as in the examples above.
- Encoding.Encode: item names equal to the table's own column labels `Member_number`, `Date` or `itemDescription` are not modelled. app.py:42 writes each item's presence column into the grouped table itself, so such a name overwrites the key or item-list column; after `itemDescription` is overwritten, every later item's membership test runs on an integer and raises `TypeError`. The model keeps the presence matrix apart from the baskets.
- pandas specifics: missing values in the item, member or date columns, and column dtypes. `Member_number` is an integer and `Date` a string compared as text, as the CSV reader yields them; `&` on 0/1 cells is logical AND.
- Columns of the itemset and rule tables other than the itemsets, rules, support and confidence: the filters keep whole rows, so the other columns travel unchanged.
- Metrics.Analyze: requires selected items from the universe, and at least one basket when two different items are selected, instead of reporting errors, because the code has no such checks (see above).
- Metrics.Analyze: states the lift through `LiftIsJointOverProduct` as lift × (support 1 × support 2) = joint support, which fixes the lift uniquely when both supports are positive, instead of as a quotient.
