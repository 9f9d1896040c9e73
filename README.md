# House price estimator: verified model of its non-GUI logic

`HousePricePrediction.py` is a desktop form that lets a user enter eight facts about a
property and shows an estimated price. Almost all of it is widget code or a
regression model. This project models the small pieces of plain logic inside it
and proves what they promise:

- **Indian currency formatting** (`format_indian_currency`). An amount is written
  with commas in the lakh/crore style. Only the last seven digits are grouped,
  as 2-2-3; anything above a crore stays one ungrouped prefix. Module
  `IndianCurrency`, with `Decimal` for `str(n)` / `int(s)` and `Text` for
  `strip`, `in` and `replace(',', '')`. The formatter builds its text with
  `a + ',' + b` chains; `Text.Join` and `Text.Split` are the model's own way of
  writing that text as groups and reading it back, not calls the program makes.
- **The animated price reveal** (`animate_price`). The result popup reads the
  target back from the formatted text and counts up to it in steps of
  `target // 20`. Module `Animation`.
- **Input validation** (the loop at the start of `predict_price`). The eight fields
  are visited in their fixed order. Each is stripped, rejected when blank, parsed
  as a float and rejected when the parse fails or the number is negative. The
  first failing field decides the message `predict_price` raises. Module `Validation`; the loop is the
  method `CollectInputs`.
- **The field icon lookup** (`get_feature_icon`). This is a first-match scan of a
  key/icon table by substring. Module `FeatureIcons`.

Python's `float()` is a parameter `parse: string -> Option<real>` of the
validation, where `None` means it raised `ValueError`. Only whether it succeeds
and the sign of its result matter to the code. `str.strip()` uses the full set of
characters CPython's `str.isspace` accepts. `p in s` on strings is substring
search (`Text.Contains`).

The "cannot be negative" error is raised inside the inner `try` and caught by its
own `except ValueError`. It therefore never leaves the loop: for a negative
number the message `predict_price` raises is "Please enter a valid number for
<field>". The model keeps this behaviour and proves it
(`Validation.NegativeReportedAsInvalid`).

## Model

| member | source | states |
|---|---|---|
| Text.Strip | HousePricePrediction.py:309 | the stripped text is no longer than the input and neither starts nor ends with white space |
| Text.StripIsSlice | HousePricePrediction.py:309-310 | the stripped text is a slice with only white space around it; it is empty exactly when the entry is all white space |
| Text.WithoutCommas | HousePricePrediction.py:375 | `replace(',', '')` removes exactly the commas: no comma remains, the length drops by the comma count, comma-free text is unchanged |
| Text.Contains | HousePricePrediction.py:463 | `key in feature`: a pattern occurs only in a text at least as long as itself; the empty pattern and the text itself always occur |
| Text.SplitJoin | HousePricePrediction.py:341-347 | reading the pieces between the commas of a text built as `a + ',' + b + …` from comma-free pieces gives those pieces back |
| Decimal.ToDecimal | HousePricePrediction.py:336 | `str(n)` is a non-empty digit string that starts with '0' only for zero |
| Decimal.ParseInt | HousePricePrediction.py:375 | `int(s)` on the popup's text succeeds exactly on non-empty digit strings |
| Decimal.DigitsValueOfDecimal | HousePricePrediction.py:336 | the digits `str(n)` writes denote `n` |
| Decimal.ParseDecimal | HousePricePrediction.py:375 | `int(str(n)) == n` |
| Decimal.DecimalLength | HousePricePrediction.py:337 | `len(str(n)) <= k` exactly when `n < 10^k` |
| IndianCurrency.GroupDigits | HousePricePrediction.py:338-349 | the slicing adds exactly `CommasFor(l)` characters (0, 1, 2 or 3 commas) and leaves numerals of up to three digits unchanged; its grouping is stated by GroupDigitsIsJoin, GroupsCover and GroupShape |
| IndianCurrency.FormatIndianCurrency | HousePricePrediction.py:334-350 | the text is `str(abs(amount))` plus its commas, and unchanged below a thousand in magnitude; round trip, sign, comma count and group shape are proved by StripCommasRoundTrip, SignDropped, CommaCount and GroupShape |
| IndianCurrency.GroupDigitsIsJoin | HousePricePrediction.py:338-349 | the formatter's slicing is the comma-join of one, two, three or four digit groups, by length branch |
| IndianCurrency.GroupsCover | HousePricePrediction.py:338-349 | the groups, concatenated, are the numeral again: no digit is lost or repeated |
| IndianCurrency.WithoutCommasJoin | HousePricePrediction.py:341-347 | removing commas from a join of comma-free groups leaves their concatenation |
| IndianCurrency.GroupsAreDigits | HousePricePrediction.py:339-347 | every group is a non-empty run of digits |
| IndianCurrency.StripCommasRoundTrip | HousePricePrediction.py:334-350 | removing the commas from the formatted amount gives `str(abs(amount))`, and `int` of that gives `abs(amount)` back |
| IndianCurrency.SignDropped | HousePricePrediction.py:335 | an amount and its negation format identically |
| IndianCurrency.CommaCount | HousePricePrediction.py:338-349 | no comma below 1,000; one below 1,00,000; two below 1,00,00,000; exactly three above, however large |
| IndianCurrency.GroupShape | HousePricePrediction.py:338-349 | as split on commas: the groups are digits and concatenate to the numeral; the last has 3 digits, middle ones 2, the first 1–2 (or all `l - 7` leading digits past a crore) |
| IndianCurrency.ShortExamples | HousePricePrediction.py:348-349 | 0 and 500 are shown unchanged |
| IndianCurrency.ThousandsExample | HousePricePrediction.py:346-347 | 12345 is shown as "12,345" |
| IndianCurrency.LakhsExample | HousePricePrediction.py:342-345 | -1234567 is shown as "12,34,567" |
| IndianCurrency.CroresExample | HousePricePrediction.py:338-341 | 123456789 is shown as "12,34,56,789" |
| Animation.Increment | HousePricePrediction.py:377 | `target // 20` is the largest step with `20 * step <= target` |
| Animation.Run | HousePricePrediction.py:375-381 | the chain of `after` calls started at :381 keeps the label between its start and the target, and never moves once the start is at or past the target; its closed form is RunValue |
| Animation.Frame | HousePricePrediction.py:376-377 | a call shows a value only when `current < target`; that value lies between them and is the target or `current + step` |
| Animation.NextFrame | HousePricePrediction.py:375-379 | as written, the shown value never leaves `[current, target]`; below a target of 20 it equals `current` |
| Animation.RunValue | HousePricePrediction.py:376-379 | after `k` scheduled calls the label shows `min(current + k * step, target)` |
| Animation.RevealCompletes | HousePricePrediction.py:375-379 | for a target of at least 20 the reveal reaches the target within 40 calls and then stops |
| Animation.StallsBelowTwenty | HousePricePrediction.py:377 | for a target from 1 to 19 the label stays at 0 and every call reschedules another |
| Animation.FixedIncrement | HousePricePrediction.py:377 | the corrected step is at least 1 and equals `target // 20` from 20 on |
| Animation.FixedRevealCompletes | HousePricePrediction.py:375-379 | with the corrected step every target is reached within 40 calls, and from 20 on the run is the one as written |
| Animation.RevealShowsPrice | HousePricePrediction.py:375-378 | the target the popup computes, `int` of the price text without its commas, always parses, and the reveal's last frame shows the same text as the price (target at least 20) |
| Animation.FixedRevealShowsPrice | HousePricePrediction.py:375-378 | with the corrected step, starting from the target the popup parses, the last frame shows the formatted price for every amount |
| Validation.FieldNamesDistinct | HousePricePrediction.py:48-57 | the form has eight fields, each named once |
| Validation.TryBlock | HousePricePrediction.py:312-316 | the inner block succeeds exactly when the parse succeeds with a non-negative number, and yields that number |
| Validation.ExceptClause | HousePricePrediction.py:317-318 | any error of the inner block becomes "Please enter a valid number for <field>"; a success passes through |
| Validation.CheckField | HousePricePrediction.py:309-318 | a field passes exactly when its stripped text is non-blank and parses to a non-negative number; a blank field gets the "enter a value" message, any other failure the "valid number" message |
| Validation.NegativeMessageSwallowed | HousePricePrediction.py:315-318 | the "cannot be negative" message is never the one `predict_price` raises |
| Validation.NegativeReportedAsInvalid | HousePricePrediction.py:313-318 | a negative number is reported as an invalid number for its field |
| Validation.CollectInputs | HousePricePrediction.py:304-318 | over the fields in dictionary order (`FieldNames` on the form), the loop succeeds exactly when every field passes, returning one value per field in that order, each the parse of its stripped text and none negative; otherwise its message is that of the first failing field, all earlier ones having passed |
| FeatureIcons.IconTableKeys | HousePricePrediction.py:448-461 | the table has twelve rows with distinct keys, and each form field is the key of its own row |
| FeatureIcons.FirstMatch | HousePricePrediction.py:462-465 | the index found is of a key that occurs in the name, with no earlier key occurring; none is found only when no key occurs |
| FeatureIcons.FeatureIcon | HousePricePrediction.py:447-465 | the icon is that of the first key, in table order, occurring in the name; the default sparkles when none does |
| FeatureIcons.FieldIcon | HousePricePrediction.py:447-465 | each of the eight form fields gets the icon of its own row, because no earlier key occurs in its name |

## Left out

- The regression pipeline (random training data, `StandardScaler`, `LinearRegression`, HousePricePrediction.py:487-522 and 321-322) is floating-point numerics in foreign libraries.
- The program as written never gets past its constructor. `def initialize_model` (HousePricePrediction.py:484) is indented inside `save_estimate`, and its body is only `np.random.seed(42)` (:486); the training code at 487-522 is `save_estimate`'s own body. So `self.initialize_model()` at :60 raises `AttributeError` before any widget exists, and `self.scaler` and `self.model`, used at 321-322, are never set. The formatter, the popup and its animation are therefore unreachable as written; the model covers them as the program evidently means them to run.
- `interpolate_color` and the gradient helpers (HousePricePrediction.py:82-98, 529-556) only blend colours for drawing.
- Widget construction, styling, hover bindings, popups and scrolling (HousePricePrediction.py:61-302, 352-445, 467-478) are GUI only.
- The outer `except Exception` of `predict_price` (HousePricePrediction.py:328-332) writes to `result_label`, which the program never creates (it appears only at :329 and :475), so the handler itself raises `AttributeError` and no message is ever displayed. The model stops at the message the validation raises.
- Tk's `after` scheduling is modelled as a count of calls (`Animation.Run`). The 50 ms delay, the event loop, and the end of the chain when the popup is closed (HousePricePrediction.py:387) are not modelled.
- The resize handler code after `root.mainloop()` (HousePricePrediction.py:564-585) is module-level code that is never reached as a method.
- `save_estimate` is a stub that does nothing.
- Validation.TryBlock: Python's `float()` grammar (`nan`, `inf`, underscores, exponents) is the abstract `parse` parameter, not a model of CPython's parser.
- IndianCurrency.FormatIndianCurrency: takes an integer. The `abs(int(amount))` truncation of the float prediction is not modelled.
- Decimal.ParseInt: accepts only digit strings, which is all the formatter produces. `int()`'s tolerance of surrounding white space, signs and underscores is not modelled.
- Validation.TryBlock: the text of `float()`'s own error is not kept (`Raised.FloatRejected`), since the `except` clause discards it.
- FeatureIcons.Icon: the icon glyphs are opaque constants named after the pictures they stand for, not their character codes. The source stores them mis-encoded; as written, the strings at HousePricePrediction.py:449 and :452 (Square_Footage, Location_Rating) are identical, and so are those at :450 and :453 (Bedrooms, Age of Property). The model reconstructs the intended pictures and gives those pairs distinct constants, so `FeatureIcons.FieldIcon` tells apart two fields the program as written shows with the same string.

## Findings

| source | as written | input that shows it | evidently intended | confidence | as-written member | corrected member |
|---|---|---|---|---|---|---|
| HousePricePrediction.py:377 | the step `target // 20` is 0 when the target is below 20, so `next_val == current`; since `current < target` still holds, the callback reschedules itself every 50 ms for as long as the popup stays open and the label stays at 0 | a predicted price from 1 to 19, e.g. a target of 7 | the reveal ends at the target; a step of `max(target // 20, 1)` reaches every target within 40 calls | not executed | Animation.StallsBelowTwenty | Animation.FixedRevealCompletes |
