# Buy-to-let listing evaluator — Dafny model

The system scrapes Belgian property listings from Immoweb and Zimmo and rates
each listing as a buy-to-let investment. This project models its core in Dafny
and proves properties about that model:

- **`sites/immoweb.py`, the Immoweb JSON adapter.**
  - `_clean_int` and `_clean_float` turn loosely typed JSON values into numbers.
  - `walk`, with its `found or None` wrapper, collects every list of dicts
    stored under one of five listing keys anywhere in a parsed page payload.
  - `_normalize_items` maps the raw items to canonical records
    (`price`, `area_m2`, `bedrooms`, `city`, `url`).
- **`immoweb.py` and `zimmo.py`, the HTML card scrapers.**
  - Price text is read by keeping only its digits.
  - Area and bedroom count are read by regular-expression search on the card's
    detail text.
  - The URL of page `k` is derived from the search URL, and relative links are
    resolved against the site's origin.
  - A card is kept when its price is truthy.
  - The page loop skips pages that do not answer with status 200.
- **`app.py`, the evaluator.**
  - `annuity_payment` computes the monthly mortgage payment.
  - `evaluate_listing` derives the purchase, financing, cash-flow and yield
    figures and adds them to the listing's row.
  - The city filter of `fetch_listings` keeps the rows whose city contains
    the requested text, ignoring case.

The modules are:

- `Common`: digits, decimal text, lower-casing and substring tests.
- `JsonModel`: JSON values and Python's truthiness, `or` and `dict.get`.
- `Listings`: the canonical record.
- `Clean`, `ListingSearch`, `Normalize`: the JSON adapter.
- `CardText`, `Cards`, `Scraper`: the HTML scrapers.
- `Evaluate`: the evaluator.

The JSON walk, the item loop and the card and page loops are imperative
methods. Each is proved equal to a specification function, and the lemmas are
stated about those functions. Regular-expression searches are modelled as the
leftmost match of a per-position greedy matcher. Each search is proved
equivalent to a declarative description of the pattern: the leftmost position
where the pattern occurs, with the value that occurrence denotes.

Python behaviour is written out explicitly:

- truthiness, `a or b`, and `dict.get` returning `None`;
- `int()` of a float truncates toward zero;
- `float()` of text accepts digits with at most one point;
- `str(None)` is `"None"`;
- dividing by zero raises `ZeroDivisionError`;
- `float()` of a dict raises `TypeError`, and of other text `ValueError`.

## Model

| member | source | states |
|---|---|---|
| JsonModel.Or | sites/immoweb.py:115-116 | Python's `a or b` returns one of its operands, and is truthy exactly when either operand is |
| JsonModel.Get | sites/immoweb.py:115-125 | `dict.get(k)` returns None or a value actually stored under k; GetFindsFirst says which |
| JsonModel.GetFindsFirst | sites/immoweb.py:115-125 | `dict.get(k)` is None when no entry has key k, and the value of the first entry with key k otherwise |
| JsonModel.PyStr | sites/immoweb.py:27 | `str()` of a text is the text itself, `str(None)` is "None", booleans give "True" and "False", and a non-negative int gives a digit string that reads back as that int |
| Common.DigitsOfDigits | immoweb.py:13 | DigitsOf, which models `re.sub(r"[^\d]", "", s)`, leaves only digits and never lengthens the text |
| Common.DigitsOfEmpty | immoweb.py:13-14 | the digit filter leaves nothing exactly when the text has no digit |
| Common.DigitsOfAppend | immoweb.py:13 | the digit filter distributes over concatenation |
| Common.NatToStringRoundTrip | sites/immoweb.py:28 | `int()` of `str(n)` is n, and `str(n)` has no leading zero |
| Common.DigitsValueRoundTrip | sites/immoweb.py:28 | a digit string without a leading zero is `str()` of its value |
| Common.DigitsValueAppend | immoweb.py:14 | the value of concatenated digits is the left value shifted by the right's length plus the right value |
| Common.ParseDecimalAccepts | sites/immoweb.py:35 | `float()` of digits and points succeeds exactly when there is a digit and at most one point |
| Common.ParseDecimalValue | sites/immoweb.py:35 | `float("w.f")` is w plus f over 10 to the length of f |
| Common.ParseDecimal | sites/immoweb.py:35 | `float()` of digit-and-point text, when it succeeds, is never negative |
| Common.RStripSlash | zimmo.py:24 | `rstrip("/")` removes exactly the trailing slashes |
| Common.LowerStr | immoweb.py:18 | `lower()` keeps the length and lowers each character |
| Common.EuroDigits | immoweb.py:13 | "€ 250.000" filters to "250000" |
| Clean.TruncToZero | sites/immoweb.py:26 | `int()` of a float is within 1 of it and rounds toward zero on both signs |
| Clean.CleanInt | sites/immoweb.py:24-28 | None stays None; an int is kept; a bool is 0/1; a float is truncated; text gives a non-negative number or None |
| Clean.CleanIntTextAbsent | sites/immoweb.py:27-28 | text gives None exactly when it holds no digit |
| Clean.CleanIntReadsRendering | sites/immoweb.py:27-28 | a number written in decimal, surrounded by text without digits, is read back exactly |
| Clean.CleanIntEuroExample | sites/immoweb.py:27-28 | "€ 250.000" reads as 250000, because the thousands point is dropped |
| Clean.DecimalChars | sites/immoweb.py:33 | the filtered text is no longer than the input and holds only digits and points |
| Clean.DecimalCharsAppend | sites/immoweb.py:33 | filtering distributes over concatenation |
| Clean.CleanFloat | sites/immoweb.py:30-37 | None stays None; numbers are converted; text gives a non-negative value or None |
| Clean.DecimalCharsCons | sites/immoweb.py:33 | a digit or '.' is kept, ',' becomes '.', any other character is dropped |
| Clean.DecimalCharsKeeps | sites/immoweb.py:33 | the filtered text has the same digits in the same order, and one point for each '.' and ',' of the input |
| Clean.CleanFloatTextAccepts | sites/immoweb.py:33-37 | text is accepted exactly when, after filtering and turning commas into points, it has a digit and at most one point; equivalently, when the input has a digit and at most one '.' or ',' in all |
| Clean.CleanFloatCommaExample | sites/immoweb.py:33-35 | "87,5 m²" reads as 87.5 |
| Clean.CommaChars | sites/immoweb.py:33 | the filter turns "87,5 m²" into "87.5" |
| Clean.DecimalPointExample | sites/immoweb.py:35 | `float("87.5")` is 87.5 |
| Clean.CleanFloatTwoSeparatorsExample | sites/immoweb.py:33-37 | "1.234,5" is rejected (None), because it becomes "1.234.5" |
| Clean.TwoDotsRejected | sites/immoweb.py:34-37 | `float("1.234.5")` fails, so None is returned |
| Clean.TwoSeparatorChars | sites/immoweb.py:33 | the filter turns "1.234,5" into "1.234.5" |
| Clean.TwoSeparatorTail | sites/immoweb.py:33 | the filter turns "234,5" into "234.5" |
| ListingSearch.CollectOwn | sites/immoweb.py:56-59 | the key loop appends, in key order, the non-empty lists whose first element is a dict |
| ListingSearch.Walk | sites/immoweb.py:53-64 | the recursive walk appends exactly `Collected(obj)` to `found` |
| ListingSearch.WalkValues | sites/immoweb.py:60-61 | walking the values of a dict appends what each value collects, in order |
| ListingSearch.WalkItems | sites/immoweb.py:62-64 | walking a list appends what each element collects, in order |
| ListingSearch.CollectedItemsSnoc | sites/immoweb.py:62-64 | collecting over one more list element appends that element's hits |
| ListingSearch.CollectedFieldsSnoc | sites/immoweb.py:60-61 | collecting over one more dict value appends that value's hits |
| ListingSearch.SearchPayload | sites/immoweb.py:66-67 | the result is None exactly when there is no payload or nothing was collected; otherwise it is the non-empty collection |
| ListingSearch.PreOrder | sites/immoweb.py:53-64 | a pre-order listing of the nodes starts at the root |
| ListingSearch.HitsOfAppend | sites/immoweb.py:53-64 | the hits of two node sequences concatenate |
| ListingSearch.CollectedIsPreOrderHits | sites/immoweb.py:53-64 | `Collected`, the value the walk appends, is each node's own key-loop hits concatenated in pre-order |
| ListingSearch.CollectedItemsIsPreOrderHits | sites/immoweb.py:62-64 | as above, for a list |
| ListingSearch.CollectedFieldsIsPreOrderHits | sites/immoweb.py:60-61 | as above, for the values of a dict |
| ListingSearch.NodeHitsInPlace | sites/immoweb.py:53-64 | the hits of the node at pre-order position p sit between those of the nodes before and after it |
| ListingSearch.HitsOfMember | sites/immoweb.py:53-64 | every hit comes from some node |
| ListingSearch.CollectedMember | sites/immoweb.py:53-64 | every collected item belongs to a qualifying list of some node of the payload |
| ListingSearch.KeyHitsAt | sites/immoweb.py:56-59 | one more key appends the value under it exactly when that value qualifies |
| ListingSearch.KeyHitsOnly | sites/immoweb.py:56-59 | when only one key holds a qualifying list, the key loop yields exactly that list |
| ListingSearch.KeyHitsNone | sites/immoweb.py:56-59 | when no key qualifies, the key loop yields nothing |
| ListingSearch.ListKeysDistinct | sites/immoweb.py:56 | the five listing keys are distinct |
| ListingSearch.OwnHitsSingle | sites/immoweb.py:56-59 | a dict with a single listing key yields that key's list exactly when the list qualifies |
| ListingSearch.EmptyDictExample | sites/immoweb.py:53-61 | an empty dict collects nothing |
| ListingSearch.InnerExample | sites/immoweb.py:56-59 | `{"list": [{}]}` collects `[{}]` |
| ListingSearch.NestedAndMixedExample | sites/immoweb.py:53-64 | the outer list's elements, the non-dicts included, come before the inner hits |
| Listings.ToRow | immoweb.py:69-75 | the row has exactly the keys price, area_m2, bedrooms, city and url; price and city are carried over; a present area, bedroom count or link is stored as a float, int or text, and a missing one becomes None |
| Normalize.NormalizeItem | sites/immoweb.py:113-141 | an item that is not a dict raises; an emitted record has a non-zero integral price |
| Normalize.Outcomes | sites/immoweb.py:113 | there is one outcome per item, in order |
| Normalize.NormalizeItems | sites/immoweb.py:108-142 | the loop computes `NormalizeSpec(items)`: the records, or the first item that raises |
| Normalize.RunPrefixFailed | sites/immoweb.py:113-142 | once a prefix has raised, the rest of the items do not matter |
| Normalize.RunFailsAtFirstRaise | sites/immoweb.py:113-142 | the run fails exactly when some outcome raises, and it reports the first one |
| Normalize.FailsAtFirstRaise | sites/immoweb.py:113-142 | NormalizeSpec, the outcome of the call, fails exactly when some item raises; the reported index is the first such item, with its reason |
| Normalize.EmittingIndices | sites/immoweb.py:134 | the emitting positions lie within the item list |
| Normalize.EmittingIndicesExact | sites/immoweb.py:134 | the emitting positions increase strictly and are exactly the items that emit |
| Normalize.RecordsMatchIndices | sites/immoweb.py:134-141 | the k-th record comes from the k-th emitting item |
| Normalize.NormalizedInOrder | sites/immoweb.py:108-142 | on success, the output holds exactly the emitted records, in item order |
| Normalize.EmittedIffPrice | sites/immoweb.py:120-134 | for a well-shaped item, a record is emitted exactly when the cleaned price is non-zero; otherwise the item is dropped |
| Normalize.MissingLocationRaises | sites/immoweb.py:116-124 | an item without `property` or `realEstate` raises, because `loc` is None |
| Normalize.LocationNotADictRaises | sites/immoweb.py:117-124 | an item whose property dict has no location dict raises at the location lookup |
| Normalize.PriceNotADictRaises | sites/immoweb.py:115-120 | a truthy price that is not a dict raises |
| Normalize.CityRule | sites/immoweb.py:124-127 | locality and postal code give "postal locality"; a locality alone stays as it is; no locality gives "" |
| Normalize.City | sites/immoweb.py:124-127 | the city is either the empty text or a truthy value |
| Normalize.ClassifiedUrl | sites/immoweb.py:132 | every link starts with the classified base "https://www.immoweb.be/en/classified/" |
| Normalize.UrlRule | sites/immoweb.py:132 | a url exists exactly when the id is truthy; it is the classified base followed by `str(id)` |
| Normalize.AreaRule | sites/immoweb.py:137 | the area is None exactly when the cleaned area is None or 0; otherwise it is kept |
| Normalize.EmittedRecord | sites/immoweb.py:115-141 | proof step that unfolds NormalizeItem: the emitted record holds the cleaned price, area and bedrooms, the city and the link |
| Normalize.Item42Example | sites/immoweb.py:108-142 | a typical item becomes the record 300000 / 80 m² / 2 bedrooms / "1000 Brussels" / classified/42 |
| Normalize.Item42Value | sites/immoweb.py:27-28 | "300000" is worth 300000 |
| Normalize.Item42Price | sites/immoweb.py:129 | the example's price text cleans to 300000 |
| Normalize.Item42Url | sites/immoweb.py:132 | the example's link is built from id 42 |
| Normalize.Item42Parts | sites/immoweb.py:115-117 | the example's price object, property and location are found |
| Normalize.Item42Fields | sites/immoweb.py:120-123 | the example's raw price, area and bedrooms are read |
| Normalize.Item42Link | sites/immoweb.py:132 | the example's url is classified/42 |
| Normalize.Item42City | sites/immoweb.py:124-127 | the example's city is "1000 Brussels" |
| Normalize.Item42Numbers | sites/immoweb.py:130-137 | the example's area 80 and bedrooms 2 are cleaned unchanged |
| CardText.ParsePrice | immoweb.py:10-14 | a parsed price is a non-negative whole number |
| CardText.ParsePriceReads | zimmo.py:10-13 | no text gives None; text gives None exactly when it has no digit; otherwise its digits are read as one number |
| CardText.ParsePriceReadsRendering | immoweb.py:10-14 | a number rendered in decimal amid text without digits is read back |
| CardText.ParsePriceEuroExample | immoweb.py:10-14 | "€ 250.000" is 250000 |
| CardText.DigitRun | immoweb.py:18 | `\d+` matches greedily: a maximal run of digits |
| CardText.SpaceRun | immoweb.py:18 | `\s*` matches greedily: a maximal run of whitespace |
| CardText.DigitRunEnd | immoweb.py:18 | a maximal digit run ends where the greedy match ends |
| CardText.SpaceRunEnd | immoweb.py:18 | a maximal space run ends where the greedy match ends |
| CardText.FirstMatch | immoweb.py:18 | a search result is one of the per-position matches |
| CardText.FirstMatchFinds | immoweb.py:18 | the search returns the first position that matches, or None when no position matches |
| CardText.FirstMatchLeftmost | immoweb.py:18 | the leftmost matching position is the one returned |
| CardText.AreaMatchAt | immoweb.py:18 | a match of the area pattern is a well-formed number |
| CardText.AreaMatchSound | immoweb.py:18 | a greedy match at i is an occurrence of `(\d+(?:[.,]\d+)?)\s*m` at i |
| CardText.GroupIsSlice | immoweb.py:18 | the matched group is the slice of the text it was read from |
| CardText.AfterGroup | immoweb.py:18 | after an occurrence's group comes neither a digit nor a separator, and the spaces run up to the `m` |
| CardText.AreaMatchComplete | immoweb.py:18 | every occurrence of the pattern at i is what the greedy match finds at i |
| CardText.NumberOfGroup | immoweb.py:18 | the greedy runs end exactly at the ends of an occurrence's whole and fractional parts |
| CardText.NumberOfFraction | immoweb.py:18 | for a number with a fraction, the digit run stops at the separator and the fraction ends at the number's end |
| CardText.AreaMatches | immoweb.py:18 | there is one match candidate per position of the text |
| CardText.ParseArea | immoweb.py:16-20 | `parse_area` never yields a negative area (the pattern has no sign) |
| CardText.ParseAreaLeftmost | immoweb.py:16-20 | the leftmost occurrence in the lower-cased text decides the area |
| CardText.NoAreaPatternBefore | immoweb.py:18 | no greedy match before i means no occurrence before i |
| CardText.ParseAreaSound | zimmo.py:15-19 | a parsed area is the value of the leftmost occurrence in the lower-cased text |
| CardText.ParseAreaNone | immoweb.py:16-20 | the area is None exactly when the pattern occurs nowhere |
| CardText.AreaValueIsFloat | immoweb.py:20 | an occurrence's value is `float` of its group with the comma replaced by a point |
| CardText.KeywordStart | immoweb.py:60 | a bedroom keyword starts with b-e, s-l or c-h (ignoring case), which is neither a digit nor a space |
| CardText.BedMatchAt | immoweb.py:60 | a bedroom match is a non-empty digit string |
| CardText.BedMatchSound | immoweb.py:60 | a greedy match at i is an occurrence of digits, optional spaces and one of bed, slaap or chambre at i, ignoring case |
| CardText.BedMatchComplete | immoweb.py:60 | every occurrence at i is what the greedy match finds at i |
| CardText.BedMatches | zimmo.py:51 | there is one candidate per position, each made of digits |
| CardText.ParseBedrooms | immoweb.py:58-62 | the bedroom count is never negative |
| CardText.ParseBedroomsLeftmost | immoweb.py:59-62 | the leftmost occurrence gives `int` of its digits |
| CardText.NoBedPatternBefore | immoweb.py:60 | no greedy match before i means no occurrence before i |
| CardText.ParseBedroomsSound | zimmo.py:50-53 | a parsed count is the number read at the leftmost occurrence |
| CardText.ParseBedroomsNone | immoweb.py:59-62 | the count is None exactly when the pattern occurs nowhere, in particular without any keyword |
| CardText.LowerNoUpper | immoweb.py:18 | lower-casing leaves text without capitals unchanged |
| CardText.DetailLower | immoweb.py:18 | the example detail text is already lower-case |
| CardText.DetailMatchAt9 | immoweb.py:18 | "120 m" occurs at position 9 of "3 bdr. · 120 m²" |
| CardText.DetailNoMatchAt0 | immoweb.py:18 | the "3" at position 0 is not followed by `m` |
| CardText.DetailNoDigitsBefore9 | immoweb.py:18 | positions 1 to 8 of the example hold no digit |
| CardText.DetailNothingBefore9 | immoweb.py:18 | the pattern does not occur before position 9 of the example |
| CardText.Value120 | immoweb.py:20 | the group "120" is worth 120.0 |
| CardText.DetailAreaExample | immoweb.py:16-20 | "3 bdr. · 120 m²" has area 120 |
| CardText.DetailAreaNumber | immoweb.py:16-20 | the example's area is the value of its occurrence at position 9 |
| CardText.DetailNoKeyword | immoweb.py:60 | "3 bdr. · 120 m²" contains no bedroom keyword |
| CardText.DetailBedroomsExample | immoweb.py:59-62 | "3 bdr. · 120 m²" gives no bedroom count |
| CardText.SlaapAt2 | zimmo.py:51 | "Slaap" at position 2 of "2 Slaapkamers" is the keyword slaap, ignoring case |
| CardText.CapitalPattern | zimmo.py:51 | "2 Slaapkamers" has an occurrence at 0 with digits "2" |
| CardText.CapitalKeywordExample | zimmo.py:50-53 | "2 Slaapkamers" gives 2 bedrooms |
| CardText.Value2 | zimmo.py:53 | "2" is worth 2 |
| Cards.PageUrl | immoweb.py:29 | page 1 is the search URL itself |
| Cards.PageUrlReadsBack | zimmo.py:24 | page k > 1 is the site's page base followed by the decimal digits of k: "url&page=" for Immoweb, and for Zimmo the url without trailing slashes followed by "/?page=" |
| Cards.PageUrlsDistinct | immoweb.py:28-29 | different pages get different URLs |
| Cards.ResolveLink | immoweb.py:44 | a link is absent exactly when there is no href |
| Cards.ResolveLinkRule | zimmo.py:37-39 | proof step that unfolds ResolveLink: a link starting with "/" is joined to the site origin; any other link is kept; the result never starts with "/" |
| Cards.ResolveLinkIdempotent | immoweb.py:45-46 | resolving twice equals resolving once |
| Cards.CardRecord | immoweb.py:68-75 | a kept card has a positive whole price |
| Cards.CardRecordRule | zimmo.py:41-66 | a card is kept exactly when its price text has a non-zero digit; the record holds the parsed price, area, bedrooms, city and link |
| Cards.NonZeroDigit | immoweb.py:68 | the parsed price is truthy exactly when the text holds a non-zero digit |
| Cards.NonZeroDigitKept | immoweb.py:13 | a non-zero digit survives the digit filter |
| Cards.AllZeroKept | immoweb.py:13 | when every digit is 0, the filtered text is all zeros |
| Cards.DigitsValueZero | immoweb.py:14 | a string of zeros reads as 0 |
| Cards.DigitsValueNonZero | immoweb.py:14 | digits with a non-zero digit read as a positive number |
| Cards.Kept | immoweb.py:68-69 | the kept records are no more than the cards |
| Cards.KeptStep | immoweb.py:68-75 | one loop step appends the card's record exactly when the card is kept |
| Cards.KeptAppend | immoweb.py:41-75 | keeping distributes over concatenation |
| Cards.KeptSound | immoweb.py:68-75 | every kept record comes from some card |
| Cards.KeptComplete | immoweb.py:68-75 | every card with a record is kept |
| Cards.CardOutcomes | immoweb.py:41 | there is one outcome per card, in order |
| Cards.CardRecords | zimmo.py:34 | there are no more records than cards |
| Cards.CardRecordsSound | zimmo.py:34-66 | every record has a positive price and comes from some card |
| Cards.CardRecordsComplete | zimmo.py:34-66 | every card with a truthy price yields its record |
| Cards.CardExample | immoweb.py:41-75 | the card "/en/x", "€ 250.000", "3 bdr. · 120 m²" gives 250000 / 120 m² / no bedrooms / the absolute link |
| Cards.ExampleLink | immoweb.py:45-46 | "/en/x" resolves to "https://www.immoweb.be/en/x" |
| Cards.CardRecordOf | immoweb.py:68-75 | proof step that unfolds CardRecord: a card with a truthy price gives the record built from its fields |
| Scraper.PageRecords | immoweb.py:31-33 | a page without status 200 contributes nothing |
| Scraper.CollectCards | immoweb.py:41-75 | the card loop appends the page's records in card order |
| Scraper.ScrapePage | zimmo.py:24-66 | one page appends the records of the fetched page URL |
| Scraper.Scrape | immoweb.py:26-77 | the page loop returns ScrapeSpec: the concatenated records of pages 1..n |
| Scraper.ConcatPrefix | immoweb.py:28 | results after m pages are a prefix of results after n ≥ m pages |
| Scraper.ConcatSound | immoweb.py:28 | every result comes from some page 1..n |
| Scraper.ConcatComplete | immoweb.py:28 | every record of every page 1..n is in the results |
| Scraper.SkippedPageContinues | zimmo.py:26-28 | a page answering non-200 adds nothing, and the loop goes on to the next page |
| Scraper.ScrapeSound | immoweb.py:28-75 | every result has a positive price and is the record of some card on some page 1..n that answered 200 |
| Scraper.ScrapeComplete | zimmo.py:23-66 | every card with a truthy price on a page 1..n that answered 200 appears in the results |
| Evaluate.AnnuityPayment | app.py:11-17 | a term of 0 years raises ZeroDivisionError, and ZeroDivisionError is the only exception it raises |
| Evaluate.AnnuityRaisesIffNoTerm | app.py:11-17 | the payment raises exactly when the term is 0 years, whatever the rate |
| Evaluate.PowPositive | app.py:17 | powers of a positive base are positive |
| Evaluate.PowAboveOne | app.py:17 | a positive power of a base above 1 is above 1 |
| Evaluate.PyPowNotOne | app.py:17 | `(1+r)**n` is not 1 for r > 0 and n ≠ 0, so the divisor is non-zero |
| Evaluate.BalanceClosedForm | app.py:15-17 | the balance after k payments satisfies r·B = r·P·(1+r)^k − p·((1+r)^k − 1) |
| Evaluate.ClosedFormStep | app.py:15-17 | one more month keeps the closed form |
| Evaluate.AnnuityRepays | app.py:15-17 | for a positive rate and term, n monthly payments at monthly rate r repay the principal exactly |
| Evaluate.PaymentCancels | app.py:17 | at the term, the annuity formula makes the closed form's balance 0 |
| Evaluate.AnnuityZeroRateRepays | app.py:13-14 | with a non-positive rate, n equal payments repay the principal without interest |
| Evaluate.ZeroRateBalance | app.py:13-14 | without interest, the balance after k payments is P − k·p |
| Evaluate.ZeroRateExample | app.py:13-14 | 120000 over 10 years at rate 0 is 1000 a month |
| Evaluate.ToFloat | app.py:20-21 | `float()` keeps ints and floats and raises TypeError on None, lists and dicts |
| Evaluate.RowFloat | app.py:20-21 | a missing or falsy value reads as 0.0 |
| Evaluate.EstimatedRent | app.py:24-30 | the rent never exceeds a set maximum, and reaches a set minimum unless the maximum is below it |
| Evaluate.EstimatedRentBounds | app.py:24-30 | within the bounds the base rent is kept; otherwise the result is the minimum or the maximum |
| Evaluate.EstimatedRentExample | app.py:25-30 | with the default assumptions, 80 m² gives 800, no area gives 1000, a minimum of 900 lifts 800 to 900, and a maximum of 850 lowers 1000 to 850 |
| Evaluate.FiguresRow | app.py:59-70 | the row of figures has exactly the twelve computed keys |
| Evaluate.ComputeFigures | app.py:33-51 | a mortgage term of 0 years raises ZeroDivisionError, and ZeroDivisionError from the annuity is the only exception |
| Evaluate.FiguresRaises | app.py:40 | the figures raise exactly when the mortgage term is 0 years |
| Evaluate.PurchaseFigures | app.py:33-40 | purchase total = price·(1 + registration + notary) + renovation; equity = total − price·LTV; the monthly payment is the annuity on the loan; the rent is the estimate |
| Evaluate.CashFlowFigures | app.py:43-51 | monthly net = rent·(1 − vacancy − maintenance − management) − payment − tax − insurance; annual net = 12 × monthly net |
| Evaluate.RatioFigures | app.py:53-70 | each yield times its divisor gives back its numerator, and a zero divisor gives 0 (price per m²: None) |
| Evaluate.EvaluateListing | app.py:19-71 | the output has the row's keys plus the twelve computed ones; row values outside those keys are unchanged |
| Evaluate.EvaluateRaises | app.py:20-40 | evaluation raises exactly when price or area cannot be read as a float, or the mortgage term is 0 years |
| Evaluate.EvaluateReadsRow | app.py:20-62 | on success, purchase_price is the row's price and est_rent_month is the estimate for the row's area |
| Evaluate.ListingRowEvaluates | app.py:19-21 | a record as the scrapers and the JSON adapter append it reads back its own price and area (a missing area as 0.0), so `evaluate_listing` raises on it only for a term of 0 years and reports its price |
| Evaluate.FiguresRowReads | app.py:59-62 | proof step that unfolds FiguresRow: the row reports the price and rent it was given |
| Evaluate.Select | app.py:86 | a comprehension keeps no more elements than it is given |
| Evaluate.SelectMembers | app.py:86 | an element is kept exactly when it is present and satisfies the condition |
| Evaluate.SelectAppend | app.py:86 | the comprehension distributes over concatenation, so order is kept |
| Evaluate.FilterCity | app.py:86 | filtering never adds rows |
| Evaluate.CityFilter | app.py:85-86 | without a city, or with an empty one, the rows are unchanged |
| Evaluate.FilterCityMembers | app.py:86 | a row is kept exactly when it is present and its lower-cased city text contains the lower-cased filter |
| Evaluate.FilterCityAppend | app.py:86 | the filter keeps the relative order of the rows |
| Evaluate.NoneCityExample | app.py:86 | a row whose city is None matches the filter "NON", because `str(None)` is "None" |

## Left out

- HTTP (`requests`), Playwright, sleeping between pages, and the request headers are left out. A page is a parameter: a `fetch` function from URL to status code and cards.
- Scraper.Scrape: `requests.get` raises on a timeout or a connection error (immoweb.py:30, zimmo.py:25). That exception ends the scrape and discards the results gathered so far. The total `fetch` parameter cannot fail, so the model does not capture this abort.
- BeautifulSoup's CSS selection and `get_text` are left out. A card is taken as its already extracted href, price text, detail text and city text. The fallback selectors (`article`; Zimmo's `a[href*=...]`) only change which cards there are, with one exception. At zimmo.py:36 a fallback card is itself an anchor, and `c.select_one("a[href]")` searches only inside it, so such a card gets the link None even when it has an href. The model takes the href as given and does not reproduce this.
- The script-tag regular expressions and `json.loads` in sites/immoweb.py (`_parse_from_next_data`, `_parse_from_initial_state`) are left out. The payload is a parameter, `Option<Json>`: None stands for "no script tag" or "invalid JSON".
- `_parse_from_window_classifieds` returns the decoded list as it is, without a walk, so it is left out for the same reason.
- The two `walk` copies in sites/immoweb.py (lines 53-64 and 82-92) are identical, so they are modelled once.
- `urljoin` is modelled only for links that start with "/": origin plus path. Protocol-relative "//host" links and dot segments are not resolved.
- Only ASCII digits are digits here; Python's `\d` and `isdigit` also accept other Unicode decimal digits. Lower-casing covers the ASCII and Latin-1 capitals only. Whitespace is the full set of characters for which `str.isspace()` holds.
- Floating point is modelled as exact real arithmetic: no rounding, infinities, NaN or OverflowError. Python raises OverflowError for `float(price)` at sites/immoweb.py:136 on an integer above the float range, and for `(1 + r) ** n` in `annuity_payment` on a very long term; here both give a value. Because of the exact arithmetic, the annuity repays the loan exactly.
- `int` and `float` are not distinguished in the output rows: a price is stored as a real number.
- Evaluate.ToFloat: only text made of digits with at most one point is converted. Signs, exponents, surrounding whitespace, "inf" and "nan" give ValueError here, although Python would accept them.
- JsonModel.PyStr: `str()` is modelled exactly for None, booleans, integers, text and integral floats below 10^16. For lists, dicts and other floats it gives the empty text, while Python gives their repr, which can contain digits.
- Clean.CleanInt: a list or a dict gives None here, while `_clean_int({"amount": 300000})` is 300000 and `_clean_int([3])` is 3, because Python reads the digits of the repr.
- Clean.CleanFloat: a list or a dict gives None here, while `_clean_float` reads the digits, points and commas of its repr.
- Normalize.UrlRule: for an id that is a list, a dict or a non-integral float, the link here is the bare classified base, while Python appends the repr.
- Normalize.NormalizeItem: an item whose raw price is a list or a dict holding a non-zero digit is dropped here, while the code emits it.
- JsonModel.Get: with a repeated key in one object, `Get` returns the first entry, while `json.loads` keeps the last. Payloads with repeated keys are therefore outside the model.
- `main`, argparse, the CSV input and output, pandas ranking and the Streamlit front end are outside this model. The argparse defaults appear only as `DefaultArgs`.
- The end of sites/immoweb.py after line 154 (the fetch helpers and the site entry point) and sites/zimmo.py, which app.py imports, are not part of this model.

## Notes on the code

These are places where the code's behaviour differs from what its comments or
its docs suggest. The model follows the code.

- The bedroom pattern only knows `bed`, `slaap` and `chambre`. A card text such as "3 bdr." yields no bedroom count (`CardText.DetailBedroomsExample`).
- A card is kept when its price is truthy. Because only digits survive `parse_price`, every kept price is positive (`Cards.CardRecord`).
- `_normalize_items` keeps a negative numeric price, since `int(-5)` is truthy.
- `_normalize_items` raises `AttributeError` for an item without `property` or `realEstate`, because `loc` is then None (`Normalize.MissingLocationRaises`).
- Nothing removes duplicates. A non-200 page is skipped and the loop continues (`Scraper.SkippedPageContinues`). Only an exception from `requests.get` ends a scrape early, and then the results so far are lost (see "Left out").
- immoweb.py:49 has mismatched quotes in its selector string, so that file does not parse as written. The model follows the evident intent: a price element's text is read by `parse_price`.
- The city filter compares against `str(x.get("city", ""))`. A row whose city is None is therefore matched by filters such as "non" (`Evaluate.NoneCityExample`).
