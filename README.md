# x-kom product crawler, modelled in Dafny

This project models the per-URL pipeline of the x-kom crawler (`Xkom.parse`).
The crawler first looks the product URL up in an Elasticsearch index that
serves as its cache. On a hit it returns the stored document and does nothing
else. Only the index's not-found answer leads on: the page is fetched with a
fixed header profile, and the name, price, currency, average rating, review
count and reviews are extracted. The product is then handed to the inherited
`save` and returned.

Modules, leaf first:

- `Wrappers` (`wrappers.dfy`): `Option` and `Result`.
- `PyStr` (`pystr.dfy`): the Python string operations the field rules use.
  These are `split` with a one-character separator, `replace(c, "")`, and the
  slices `s[n:]` and `s[-n:]`. `Split` is paired with `Join` and proved to round-trip both ways.
- `Numerals` (`numerals.dfy`): `int(s)` on digit strings (`ParseNat`), proved
  against the printer `ShowNat` in both directions. Also a decimal-literal test
  standing for `float(s)`.
- `Html` (`html.dfy`): the parsed page, abstracted as a map from class selector
  to matching elements in document order. Each element has a text and an
  optional `title`. `FindAll` is `find_all`, the lookup of that map, and `Find`
  is `find`, its first match.
- `FieldRules` (`fields.dfy`): the price, currency, review-count, rating and
  reviews rules.
- `XkomCrawler` (`xkom.dfy`): the selectors, the header profile, the `Product`
  record and the pure specifications `Extract` (page to fields) and `Resolve`
  (one call's result and effects). It also holds class `Xkom`, whose `Parse`
  method runs the pipeline step by step and is proved equal to `Resolve`.
  The store (`store`, `readable`, `writable`) and the shop's pages (`site`) are
  fields of the class. `Get`, `Request` and `Save` are the abstract operations
  on them. Ghost logs record every lookup, every fetch (with the headers sent)
  and every save.

In two places the code is narrower or looser than a plain reading of the field rules, and the model follows the code:

- Currency is the last two characters of the last space-separated token, not
  of the whole string. The two differ when that token is shorter than two
  characters.
- The review count drops the first character of the first token whatever it
  is, not only a non-digit. So `"128 opinii"` reads as 28 (`ReviewCountOf`
  with a digit as the opening character).

## Model

| member | source | states |
|---|---|---|
| `PyStr.Split` | app/crawlers/xkom.py:56-57 | `str.split(sep)` always yields at least one piece, so the `[0]` and `[-1]` of lines 56, 57 and 63 never fail |
| `PyStr.JoinSplit` | app/crawlers/xkom.py:56-57 | joining the pieces of a split with the separator gives the original text back |
| `PyStr.SplitJoin` | app/crawlers/xkom.py:56-57 | splitting separator-free pieces joined by the separator gives exactly those pieces back |
| `PyStr.SplitPiecesLackSep` | app/crawlers/xkom.py:56-57 | no piece of a split contains the separator |
| `PyStr.First` | app/crawlers/xkom.py:56 | `s.split(sep)[0]` is the longest separator-free prefix of `s`: a prefix, without the separator, followed by it when shorter than `s` |
| `PyStr.Last` | app/crawlers/xkom.py:57 | `s.split(sep)[-1]` is the longest separator-free suffix of `s`: a suffix, without the separator, preceded by it when shorter than `s` |
| `PyStr.Remove` | app/crawlers/xkom.py:56 | `replace(c, "")` leaves no `c` and never lengthens the text |
| `PyStr.RemoveIdentity` | app/crawlers/xkom.py:56 | deleting a character leaves the text unchanged exactly when the character does not occur |
| `PyStr.RemoveKeepsOthers` | app/crawlers/xkom.py:56 | deleting `c` keeps every other character as often as it occurred |
| `PyStr.RemoveMembers` | app/crawlers/xkom.py:56 | after deleting `c`, any other character occurs exactly when it occurred before |
| `PyStr.RemoveConcat` | app/crawlers/xkom.py:56 | deleting a character distributes over concatenation |
| `PyStr.RemoveJoin` | app/crawlers/xkom.py:56 | deleting the separator from pieces joined by it runs the pieces together |
| `PyStr.FirstOfRemove` | app/crawlers/xkom.py:56 | deleting spaces before or after taking the part before the first comma gives the same text |
| `PyStr.Drop` | app/crawlers/xkom.py:63 | `s[n:]` is the suffix of length `len(s) - n`, or empty when `n` is past the end |
| `PyStr.TakeLast` | app/crawlers/xkom.py:57 | `s[-n:]` is the suffix of length `n`, or all of `s` when it is shorter |
| `Numerals.ParseNat` | app/crawlers/xkom.py:56 | the integer parser accepts exactly the non-empty strings of ASCII digits, and a number read from `k` digits is below `10^k` |
| `Numerals.ParseShow` | app/crawlers/xkom.py:63 | parsing the decimal form of any `n` gives `n` |
| `Numerals.ShowParse` | app/crawlers/xkom.py:63 | a digit string without a leading zero is the decimal form of the number it parses to |
| `Numerals.ValueOfBound` | app/crawlers/xkom.py:56 | a number read from `k` digits is below `10^k` |
| `Numerals.ValueOfConcat` | app/crawlers/xkom.py:56 | digits written after a digit string shift its value by as many decimal places and add their own value |
| `Numerals.ParseConcat` | app/crawlers/xkom.py:56 | two digit strings parsed as one give the first's value shifted by the second's width plus the second's value |
| `Numerals.ValueOfLeadingZero` | app/crawlers/xkom.py:56 | a leading zero does not change the value |
| `Numerals.StripLeft` | app/crawlers/xkom.py:61 | `lstrip` removes a run of leading ASCII whitespace and leaves a text that is empty or starts with a character that is not ASCII whitespace |
| `Numerals.StripRight` | app/crawlers/xkom.py:61 | `rstrip` removes a run of trailing ASCII whitespace and leaves a text that is empty or ends with a character that is not ASCII whitespace |
| `Numerals.Strip` | app/crawlers/xkom.py:61 | the result is a slice of the text with only whitespace before and after it, and it neither starts nor ends with whitespace: the ASCII whitespace at both ends is removed and nothing else |
| `Numerals.StripLeading` | app/crawlers/xkom.py:61 | a leading whitespace character makes no difference to the stripped text |
| `Numerals.NoPadding` | app/crawlers/xkom.py:61 | a text that neither starts nor ends with whitespace is left as it is |
| `Numerals.DecimalChars` | app/crawlers/xkom.py:61 | a decimal `float` accepts is made of digits and points, has a digit and has at most one point |
| `Numerals.FloatChars` | app/crawlers/xkom.py:61 | of `FloatParses`, standing for `float`: a text is accepted exactly when, once stripped, it is digits and points with at least one digit and at most one point |
| `Numerals.DecimalOfChars` | app/crawlers/xkom.py:61 | every text of digits and points with at least one digit and at most one point (such as `45`, `.5`, `05.5`) is a decimal `float` accepts |
| `Numerals.DecimalOfShow` | app/crawlers/xkom.py:61 | a whole number, a point and a digit string is a decimal `float` accepts |
| `Html.FindStable` | app/crawlers/xkom.py:54-62 | matches added later in the page never change what `find` returns once a match exists, the first added is found when none existed, and other classes are unaffected |
| `FieldRules.PriceParses` | app/crawlers/xkom.py:56 | of `ParsePrice`, line 56 as written: the price parses exactly when the text before the first comma has a digit and only digits and spaces; the price has at most as many digits as that text has characters |
| `FieldRules.SpacesRemoved` | app/crawlers/xkom.py:56 | deleting the spaces leaves a non-empty digit string exactly when the text had a digit and only digits and spaces |
| `FieldRules.Currency` | app/crawlers/xkom.py:57 | currency has at most two characters, exactly two when the last token has two or more; it is a suffix of the last space-separated token and of the price text, and has no space |
| `FieldRules.ReviewCountParses` | app/crawlers/xkom.py:63 | of `ParseReviewCount`, line 63 as written: the count parses exactly when the first token is one character of any kind followed by one or more digits and nothing else; the count is below `10^k` for `k` such digits |
| `FieldRules.ParseRating` | app/crawlers/xkom.py:61 | the rating text exists exactly when the last four characters of the `title` are accepted by `float`; it is that suffix, of length four, or the whole title when shorter |
| `FieldRules.RatingOfSuffix` | app/crawlers/xkom.py:61 | any title ending in four characters `float` accepts has those four characters as its rating, whatever comes before |
| `FieldRules.RatingOfPadded` | app/crawlers/xkom.py:61 | a title ending in a space, a digit, a point and a digit has those four characters, space included, as its rating |
| `FieldRules.RatingWindowFragile` | app/crawlers/xkom.py:61 | the fixed window fails on a one-digit rating: title `"Rated 4"` has no rating, because the window `"ed 4"` holds a letter |
| `FieldRules.Texts` | app/crawlers/xkom.py:67-69 | the reviews have one entry per matched element, in document order, each that element's text |
| `FieldRules.PriceTruncatesFraction` | app/crawlers/xkom.py:56 | price text `whole,fraction` parses as `whole` with spaces deleted, whatever the fraction: the fractional part is truncated |
| `FieldRules.PriceIgnoresSpaces` | app/crawlers/xkom.py:56 | deleting spaces anywhere in the price text does not change the price |
| `FieldRules.PriceOfShown` | app/crawlers/xkom.py:56 | a number written out, then a comma and any fraction, parses as that number |
| `FieldRules.PriceOfGroups` | app/crawlers/xkom.py:56 | any number of digit groups separated by single spaces, then a comma and any fraction, read as the digits of all groups run together |
| `FieldRules.PriceOfTwoGroups` | app/crawlers/xkom.py:56 | a high and a low digit group read as the high group's value shifted by the low group's width plus the low group's value |
| `FieldRules.CurrencyOfPrice` | app/crawlers/xkom.py:57 | a price followed by a space and a code of two or more characters has the code's last two characters as currency |
| `FieldRules.ReviewCountOf` | app/crawlers/xkom.py:63 | any non-space character, then a number, a space and a word, gives that number as the review count |
| `FieldRules.PriceExample` | app/crawlers/xkom.py:56 | `"1 234,00 zł"` has price 1234 |
| `FieldRules.CurrencyExample` | app/crawlers/xkom.py:57 | `"1 234,00 zł"` has currency `"zł"` |
| `FieldRules.ReviewCountExample` | app/crawlers/xkom.py:63 | `"(128 opinii)"` has review count 128 |
| `XkomCrawler.HeaderValue` | app/crawlers/xkom.py:16-32 | a header profile has a value for a name exactly when the name is one of its header names |
| `XkomCrawler.ProfileHeaderNames` | app/crawlers/xkom.py:16-32 | the header profile sends Accept, Accept-Encoding, Accept-Language, Cache-Control, Connection, DNT, Host, Upgrade-Insecure-Requests and User-Agent, in this order |
| `XkomCrawler.ProfileNamesDistinct` | app/crawlers/xkom.py:16-32 | no header name occurs twice in the profile |
| `XkomCrawler.HeaderValueAt` | app/crawlers/xkom.py:16-32 | a header whose name does not occur earlier is looked up with its own value |
| `XkomCrawler.ProfileValues` | app/crawlers/xkom.py:16-32 | of the constant `ProfileHeaders`, the `headers` profile: every header is sent with the value written beside it |
| `XkomCrawler.ProfileHost` | app/crawlers/xkom.py:26 | the Host header is `www.x-kom.pl` |
| `XkomCrawler.FieldsOfSpec` | app/crawlers/xkom.py:54-69 | of `FieldsOf`, the steps of lines 54-69 on the elements found: they succeed exactly when every element is there and every field parses; each field comes from its own element; a missing element is reported by the selector of the first element absent, for each of the four selectors in both directions |
| `XkomCrawler.ToProduct` | app/crawlers/xkom.py:71-79 | the product is keyed by the requested URL |
| `XkomCrawler.ExtractSucceeds` | app/crawlers/xkom.py:54-63 | of `Extract`, the page-to-fields specification: extraction succeeds exactly when the name, price, rating and review-count elements exist, the rating has a title, and price, rating and count parse |
| `XkomCrawler.ExtractedFields` | app/crawlers/xkom.py:54-69 | each extracted field, the rating included, comes from the first matching element; currency has at most two characters; reviews are the texts of all review elements, in order |
| `XkomCrawler.ExtractMissing` | app/crawlers/xkom.py:54-62 | a missing element is reported by one of the four required selectors, and only when the page has no element of that class |
| `XkomCrawler.MissingElementFails` | app/crawlers/xkom.py:54-62 | a page without any one of the four required elements yields no fields |
| `XkomCrawler.ExtractFrame` | app/crawlers/xkom.py:54-69 | two pages that agree on the four required elements extract alike, apart from the reviews |
| `XkomCrawler.FindWithout` | app/crawlers/xkom.py:54-66 | removing one class from the page does not change what `find` returns for any other class |
| `XkomCrawler.ReviewsOptional` | app/crawlers/xkom.py:64-69 | removing every review element changes neither success nor any other field, and leaves the reviews empty |
| `XkomCrawler.HitIsPure` | app/crawlers/xkom.py:41-43 | of `Resolve`, the specification of one call: a store hit returns the stored document unchanged, with no fetch, no save and no store change |
| `XkomCrawler.StoreErrorPropagates` | app/crawlers/xkom.py:41-45 | a store error other than not-found is returned as an error, with no fetch and no save |
| `XkomCrawler.FetchOnlyOnMiss` | app/crawlers/xkom.py:41-48 | a page is fetched exactly when the store answered not-found |
| `XkomCrawler.FailureSavesNothing` | app/crawlers/xkom.py:48-80 | a fetch or extraction failure saves nothing; the store changes only on a successful save, and keeps every earlier entry |
| `XkomCrawler.CacheFill` | app/crawlers/xkom.py:48-82 | a miss on a well-formed page with a working store fetches, saves once and returns the saved product: the page's fields under the requested URL |
| `XkomCrawler.Idempotent` | app/crawlers/xkom.py:41-82 | after a successful call, a second call for the same URL returns the same product from the store without fetching or saving |
| `XkomCrawler.CollectReviews` | app/crawlers/xkom.py:67-69 | the loop collects the text of every review element, in order |
| `XkomCrawler.ExtractFields` | app/crawlers/xkom.py:54-69 | the step-by-step extraction returns the fields, or the first failing step, as `Extract` specifies |
| `XkomCrawler.Xkom.Get` | app/crawlers/xkom.py:42-45 | the lookup returns the stored document, the not-found signal, or a store error, and is logged |
| `XkomCrawler.Xkom.Request` | app/crawlers/xkom.py:48 | the fetch returns the page or a transport error, and logs the URL with the headers sent |
| `XkomCrawler.Xkom.Save` | app/crawlers/xkom.py:80 | the model's reading of the inherited `save`: the product is stored under its own URL when the store accepts writes, and the call reports whether it was; every call is logged, accepted or not |
| `XkomCrawler.Xkom.ExtractAndSave` | app/crawlers/xkom.py:51-80 | on a fetched page, extraction and save give the result, the new store and the save log that `AfterFetch` specifies |
| `XkomCrawler.Xkom.Parse` | app/crawlers/xkom.py:36-82 | one call does one lookup, fetches with the fixed profile only on a miss and saves only after every field is built; its result and the new store are those of `Resolve` |

## Left out

- The index client's construction from cloud settings (app/clients/es.py). It is connection plumbing. The store is the `store` map of `Xkom`, which is reachable for reads or writes or not.
- HTML parsing with BeautifulSoup. The page is the abstract `Html.Document`, and a fetched page is one already parsed.
- The HTTP transport and the persistence behind the inherited `request` and `save`; the base crawler class is not part of this model. Both are abstract effects on the class state. A transport error is a URL missing from `site`. A save fails exactly when the store does not accept writes.
- The header profile `headers` is a constant, `ProfileHeaders`, which is not a function and carries no contract. Its contents are stated by `ProfileHeaderNames`, `ProfileNamesDistinct`, `ProfileValues` and `ProfileHost`.
- Numerals.ParseNat: accepts only non-empty strings of ASCII digits. Python's `int` also accepts a sign, surrounding whitespace, underscores between digits and non-ASCII digits; the model treats those texts as unparsable. In one respect the model is looser than `int`: since Python 3.11 (and 3.10.7, 3.9.14, 3.8.14) `int` raises `ValueError` on a decimal string of more than 4300 digits, while `ParseNat` accepts digit strings of any length. A price text of 4301 digits before the comma therefore makes the source raise at line 56 and save nothing, but makes the model save a product; `FieldRules.PriceParses` and `FieldRules.ReviewCountParses` inherit this gap in their "exactly when" claims.
- FieldRules.ParseRating: keeps the four-character rating text instead of converting it to a float, because floating point is not modelled. `float` is narrowed to decimal literals (digits with at most one point) after ASCII whitespace (space, tab, line feed, carriage return, vertical tab, form feed) is stripped. Signs, exponents, underscores between digits, `inf` and `nan` count as unparsable, and so does a window padded with the other whitespace Python strips: the separators `\x1c` to `\x1f`, `\x85`, the no-break space `\xa0` and the other Unicode spaces. `float` also accepts non-ASCII decimal digits (for example Arabic-Indic or full-width digits), which the model rejects.
- XkomCrawler.Xkom.Save: the base crawler class that defines `save` is not part of this model, so its behaviour is assumed. The model assumes it writes to the same index that `get` reads, under the id `product.url`, which is the URL `parse` was called with. It also assumes a write that does not get through raises, which ends `parse` without a result. `Err(SaveFailed(p))` stands for that exception.
- Html.FindAll: BeautifulSoup's matching of a `class_` string against the `class` attribute is not modelled. The page is given as the list of elements for each selector the crawler uses, so `FindAll` is only a lookup and has no contract of its own. `Find` stands for bs4's `find`: by definition the first element of `FindAll`, or `None` when there is none, so it carries no contract of its own either; `FindStable` states what holds of it as the page grows.
- FieldRules.ParsePrice, FieldRules.ParseReviewCount, Numerals.FloatParses, XkomCrawler.Extract and XkomCrawler.FieldsOf are definitions without contracts of their own. Each is characterized by the lemma whose row names it: `PriceParses`, `ReviewCountParses`, `FloatChars`, `ExtractSucceeds` with `ExtractedFields` and `ExtractMissing`, and `FieldsOfSpec`.
- XkomCrawler.Resolve: a specification function with no contract of its own, and so is `AfterFetch`, its part after the fetch. Their behaviour is stated by the lemmas about `Resolve` (`HitIsPure`, `StoreErrorPropagates`, `FetchOnlyOnMiss`, `FailureSavesNothing`, `CacheFill`, `Idempotent`) and tied to the code by `Xkom.Parse`.
- Pydantic validation of `Product` and its `.dict()` serialisation. `Product` is a plain datatype, returned the same way on a hit and on a miss. A stored document without a `_source` is not modelled.
- User-agent and IP rotation. They are only planned in the source.
- Concurrent calls on the same URL. Each call is one sequential step on the class state.
