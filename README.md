# Car catalogue filter

A Dafny model of the script behind a static car catalogue page. The page lists car cards.
Each card carries a brand (`data-marca`), an optional model (`data-modelo`) and a price
(`data-precio`). A search field and two price fields narrow the list.

- One filter pass (`aplicarFiltros`) does three things:
  - it normalises the query (lower-cased, then trimmed);
  - it turns the two price fields into an inclusive range, with JavaScript's `||` defaults;
  - it keeps, in their original order, the cards whose brand or model contains the query and whose price lies in the range.
- The presenter (`actualizarResultados`) does three things:
  - it shows each card that is in the result and hides the others;
  - it writes the result count;
  - it shows the "no results" message exactly when the result is empty.
- The price echoes put a comma before every group of three digits, using the regular expression `\B(?=(\d{3})+(?!\d))`.

The project has these modules:

- `Wrappers` holds `Option`.
- `Text` models the ASCII `toLowerCase`, `trim` and `includes`.
- `Sequences` defines subsequence, distinctness and counting.
- `Filtering` holds the criteria, the per-card predicate, the filter and the `filter` call that throws on a card without a brand.
- `Grouping` models the thousands-separator replacement exactly, on every string.
- `Presenter` holds the page as a class:
  - a `displayed` array with one flag per card;
  - the counter;
  - the message flag;
  - the two echo texts.
- `Scenarios` holds worked examples on three cards.

The model keeps the script's quirks exactly as written:

- a maximum that parses to 0 means "no upper bound", just as an empty maximum does;
- a minimum that is NaN or 0 becomes 0;
- a card whose price is NaN never passes;
- a missing model becomes the empty string, which only the empty query matches;
- a card without a brand makes the filter callback throw a TypeError. The pass then stops before anything is presented: the counter, the card displays and the message stay as they were.

## Model

| member | source | states |
|---|---|---|
| Text.Lower | script.js:32 | `toLowerCase` keeps the length of the string (what it does to each character is `Text.LowerAt`) |
| Text.LowerAt | script.js:32 | `toLowerCase` maps each character independently, ASCII capitals to small letters |
| Text.LowerSameUpToCase | script.js:32 | two strings that differ only in letter case have the same lower-case form |
| Text.Trim | script.js:32 | `trim`, as leading then trailing white space removal, never lengthens the string (its full characterisation is `Text.TrimSlice`) |
| Text.TrimSlice | script.js:32 | `trim` returns a slice of its input: everything cut off is white space, and what is left neither starts nor ends with white space |
| Text.TrimPadding | script.js:32 | white space around a string never changes what `trim` returns |
| Text.Contains | script.js:46 | `includes` never holds for a pattern longer than the text |
| Text.ContainsAt | script.js:46 | the recursive `includes` holds iff the pattern equals some slice of the text |
| Filtering.NormalizeQuery | script.js:32 | the query is the field lower-cased then trimmed, never longer than the field |
| Filtering.NormalizedQueryShape | script.js:32 | a normalised query has no capital letter and no white space at either end |
| Filtering.NormalizeIdempotent | script.js:32 | normalising an already normalised query changes nothing |
| Filtering.BlankQueryIsEmpty | script.js:32 | a query field of white space alone normalises to the empty query |
| Filtering.MinPrice | script.js:34 | `parseFloat(min) \|\| 0`: NaN gives 0, and any number gives itself (0 included) |
| Filtering.MaxPrice | script.js:35 | `parseFloat(max) \|\| Infinity`: no bound iff the field is NaN or exactly 0; otherwise the bound is the number |
| Filtering.CriteriaFromFields | script.js:32-35 | the criteria of a pass: the normalised query; a minimum that is 0 iff the field is NaN or 0, and otherwise the parsed number; no upper bound iff the maximum field is NaN or 0, and otherwise the parsed number as the bound |
| Filtering.FieldDefaults | script.js:34-35 | price fields that are empty, unparsable or zero give the range [0, Infinity] |
| Filtering.BrandText | script.js:40 | the lower-cased `data-marca`, of the same length as the attribute |
| Filtering.ModeloText | script.js:41 | the lower-cased `data-modelo`; an absent attribute reads as the empty string |
| Filtering.MatchesQuery | script.js:46 | the text test: the empty query matches every card, and a query longer than both brand and model matches none |
| Filtering.InRange | script.js:49 | the price test: a NaN price never passes, an empty range passes nothing, and a non-negative price passes [min, Infinity] whenever min <= 0 |
| Filtering.Keep | script.js:38-52 | the callback: a kept card is in range, and with the empty query a card is kept iff it is in range |
| Filtering.RunFilter | script.js:38-53 | the `filter` call as it runs: `None` at once when the first card has no `data-marca`, and otherwise no more cards than it was given (the kept cards in order, by `Filtering.RunFilterSpec`) |
| Filtering.RunFilterSpec | script.js:38-53 | the `filter` call throws iff some card has no `data-marca`, and otherwise returns `Filter`'s result |
| Filtering.Filter | script.js:38-53 | the result is no longer than the list of cards |
| Filtering.FilterKeeps | script.js:38-53 | a card is in the result iff it is one of the cards and passes both tests |
| Filtering.FilterMembership | script.js:38-52 | a card passes iff (the query is empty or occurs in the lower-cased brand or model) and min <= price <= max |
| Filtering.FilterEmptyIff | script.js:38-53 | the result is empty iff no card passes the callback |
| Filtering.FilterIsSubsequence | script.js:38-53 | the result keeps the cards' relative order and adds or repeats none |
| Filtering.FilterDistinct | script.js:38-53 | distinct cards stay distinct in the result |
| Filtering.FilterIdempotent | script.js:38-53 | filtering the result again with the same criteria returns it unchanged |
| Filtering.MissingModeloNoWildcard | script.js:41-46 | a card without a model matches a query only on its brand, or when the query is empty |
| Filtering.MissingPriceNeverSelected | script.js:42-49 | a card whose price parses to NaN is never selected |
| Filtering.EmptyRangeSelectsNothing | script.js:49 | a minimum above a finite maximum selects nothing |
| Filtering.UnconstrainedKeepsAll | script.js:46-49 | the empty query with the range [0, Infinity] keeps every card with a valid non-negative price |
| Filtering.DefaultsKeepAll | script.js:30-53 | a blank query field and empty price fields keep the whole list in order, when every card has a valid non-negative price |
| Filtering.QueryNormalization | script.js:32 | queries that differ only in letter case and surrounding white space give equal criteria and an equal result |
| Sequences.CountTrue | script.js:70-75 | the count of shown cards is at most the number of cards, and is 0 iff no card is shown |
| Sequences.SubsequenceElements | script.js:38-53 | every element of a subsequence is an element of the whole, and the subsequence is no longer |
| Presenter.Visibility | script.js:70-75 | card `i` is shown iff it is a member of the list given to the presenter |
| Presenter.KeepMask | script.js:38-53 | card `i` is marked iff it passes the filter callback |
| Presenter.VisibilityOfFilter | script.js:56-75 | presenting the filter's own result shows exactly the cards that pass |
| Presenter.CountKeepMask | script.js:56-75 | the number of cards that pass equals the length of the filter's result |
| Presenter.CountVisibility | script.js:64-75 | for any order-preserving selection of distinct cards, the number of cards shown equals the number in the counter |
| Presenter.CatalogPage.constructor | script.js:21-23 | the card list is captured once; the page starts with every card shown, the counter at the number of cards, the message hidden and both echoes empty |
| Presenter.CatalogPage.UpdateResults | script.js:63-83 | the counter is the list's length, card `i` is shown iff it is in the list, and the message shows iff the list is empty |
| Presenter.CatalogPage.ApplyFilters | script.js:30-57 | the pass throws iff some card has no brand, and then the page is unchanged; otherwise exactly the cards that pass are shown, the counter equals both the result length and the number of cards shown, and the message shows iff no card passes |
| Presenter.CatalogPage.EchoMin | script.js:100-103 | the minimum echo is the field's value with thousands separators inserted |
| Presenter.CatalogPage.EchoMax | script.js:105-107 | the maximum echo is the field's value with thousands separators inserted |
| Presenter.CatalogPage.Load | script.js:110-117 | on load both echoes are formatted, then one filter pass leaves the page as `ApplyFilters` states, the echoes staying set even when the pass throws |
| Presenter.StartupShowsAll | script.js:30-53 | the pass that a blank load runs (blank query, empty price fields) marks and keeps every card with a valid non-negative price |
| Presenter.BlankLoad | script.js:110-117 | on a page whose cards all carry a brand and a valid non-negative price, a blank load does not throw, shows every card, counts them all, shows the message only for an empty page and leaves both echoes empty |
| Grouping.LeadingDigitsSpec | script.js:102 | `LeadingDigits` measures the maximal run of digits at the start of a string (`(\d{3})+(?!\d)`) |
| Grouping.SeparatorAt | script.js:102 | the pattern matches only strictly inside the string, before a digit whose left neighbour is a word character |
| Grouping.SeparatorAtPattern | script.js:102 | `SeparatorAt` holds iff `\B` holds and one or more groups of three digits follow, with no digit after them |
| Grouping.GroupThousands | script.js:102 | the replacement never shortens the string and at most doubles its length |
| Grouping.UngroupGroupThousands | script.js:102 | the formatter only inserts commas: removing them restores any input that had none |
| Grouping.DigitSeparators | script.js:102 | on a digit string, a comma goes before position p iff 0 < p < length and the digits to the right of p number a multiple of three |
| Grouping.GroupThousandsOfDigits | script.js:102 | on a digit string the regular expression produces the usual right-to-left grouping into threes |
| Grouping.GroupingExample | script.js:106 | "25000" is echoed as "25,000" |
| Grouping.GroupingExampleMillions | script.js:112-113 | "1234567" is echoed as "1,234,567" |
| Scenarios.ToyotaUpTo25000 | script.js:38-53 | "toyota" in [0, 25000] selects only the cheaper Toyota of the three cards |
| Scenarios.NothingFrom100kTo200k | script.js:49 | the range [100000, 200000] selects none of the three cards |
| Scenarios.HondaUnbounded | script.js:35-53 | "honda" with no upper bound selects only the Honda |
| Scenarios.EmptyMinUpTo25000 | script.js:34-35 | a minimum that parses to NaN with a maximum of 25000 gives the range [0, 25000] |
| Scenarios.PaddedCapitalsQuery | script.js:32 | " TOYOTA " selects exactly what "toyota" selects |
| Scenarios.FreshPagePass | script.js:30-83 | one pass on a freshly rendered page throws iff some card has no brand; otherwise the displays are the callback's results, the counter is the result's length and the message shows iff it is 0 |
| Scenarios.PageToyotaUpTo25000 | script.js:56-83 | after the "toyota" pass in [0, 25000] the counter shows 1, the message is hidden and only the first card is shown |
| Scenarios.PageNothingFrom100kTo200k | script.js:56-83 | after the pass in [100000, 200000] the counter shows 0, the message is shown and no card is shown |
| Scenarios.PageMissingBrand | script.js:40-56 | a card without a brand makes the pass throw, leaving the counter, the message and the displays as they were |

## Left out

- DOM access and event wiring: button clicks, the Enter key and the `input` and `DOMContentLoaded` events become method calls on `CatalogPage`.
- Reading the fields: the query text and the raw price texts are parameters.
- `parseFloat`: the model takes its result as a parameter, `Option<int>`, where `None` stands for NaN.
  - So the parsing itself is not modelled: leading white space, decimals, exponents, "Infinity" and trailing junk.
  - Prices and bounds are integers, not floating-point numbers.
- `Text.Lower`: lower-cases ASCII letters only, not all of Unicode.
- `Text.Trim`: removes ASCII white space only. It does not remove Unicode white space such as U+00A0, U+FEFF or the line separators.
- `includes` compares DOM nodes by reference, while the model compares cards by value.
  - For the filter's own result the two agree (`Presenter.VisibilityOfFilter`).
  - `Presenter.CountVisibility` holds by value only when the cards are distinct.
- The page as first rendered is not modelled. The constructor assumes its state before any script runs: every card shown, the message hidden, the counter at the number of cards and both echoes empty.
- The TypeError raised for a card without `data-marca` is modelled only as "the pass stops with the page unchanged" (`thrown`). The console message is not modelled, and neither is the handler stopping in the middle.
- `Filtering.Filter` is total: for a card without a brand it uses an empty brand text. The page never reaches that case, because `RunFilter` throws first.
- `style.display` strings are modelled as booleans: `flex`/`none` for cards and `block`/`none` for the message. The counter's `textContent` is modelled as the number itself.
