# Tabak watch: a verified model of the catalog diff

`scraper.py` watches the product catalogs of several Swiss tobacco shops.
It has two paths:

- The kkiosk path reads every variant of every product from each Shopify
  collection's `products.json`.
- The HTML path scrapes the product cards of the category pages of Ploom,
  Vuse, VELO and glo.

Each product becomes a record keyed `"site:sku"`. `run()` compares every
record with the state saved by the previous run and emits a change line for
each of:

- a product never seen before (NEW);
- a changed price (PRICE);
- a changed image fingerprint (IMAGE);
- on the HTML path only, a changed fingerprint of the card's visible text
  (TEXT).

It then stores the new values and stamps the entry with the run's time.

This project models that core in Dafny and proves what it promises:

- `Prices`: the price parser `price_to_cents`, including the removal of
  currency words, Python's `strip()`, and the two leftmost regular-expression
  searches.
- `Urls`: the kkiosk collection handle and its `products.json` endpoint, and
  the rewrite of protocol-relative image sources (`//host/...`) to `https:`.
- `Catalog`: the state, records, entries and change events as datatypes. One
  record against the state (`Observe`) and a pass over a batch (`Pass`,
  `Diff`) are specification functions. The lemmas state each sensor's
  semantics for one record.
- `CatalogFacts`: properties of whole passes:
  - which keys exist afterwards; no key is ever deleted;
  - which entries change, and how;
  - how many NEW events a key produces;
  - that the kkiosk path never reports TEXT;
  - that a second pass over the same batch is silent when records sharing a
    key agree on price and fingerprints, together with the counterexample
    showing why that condition is needed.
- `DiffEngine`: the loops of `run()` as imperative methods over a `map`
  (the state dictionary) and a `seq` of events (the change list). Each is
  proved equal to the specification functions, so every fact in
  `CatalogFacts` holds of what the loops leave behind. A target whose fetch
  raises ends the run without a report or a saved state.

Time (`int(time.time())`) is the parameter `now`. The image fingerprint that
`fetch_img_hash` computes for a record is an input field of the record
(`imageHash`). Fingerprints are opaque optional strings, compared for
equality and read with Python truthiness (present and non-empty).

## Model

| member | source | states |
|---|---|---|
| Prices.PriceToCents | scraper.py:74-80 | `None` exactly when the text holds no digit (the empty text included); otherwise a non-negative number of centimes, computed on the cleaned text |
| Prices.IsSpace | scraper.py:76 | Python's `str.isspace()` on one character, the set `strip()` removes: tab to carriage return, the four separators 28-31, space, and the Unicode spaces 0x85, 0xA0, 0x1680, 0x2000-0x200A, 0x2028, 0x2029, 0x202F, 0x205F and 0x3000 |
| Prices.RemoveAll | scraper.py:76 | `str.replace(pat, "")`: one left-to-right pass that drops each non-overlapping occurrence and never re-examines the text it leaves; the result is never longer. `RemoveAllFrom` (nothing is introduced), `RemoveAllKeeps` (a character outside the pattern survives) and `RemoveAllAbsent` (a text without the pattern's first character is unchanged) characterise it |
| Prices.Clean | scraper.py:76 | the three replacements `CHF`, `Fr.`, `CHF.` in that order, then `strip()`; the result neither starts nor ends with whitespace |
| Prices.CleanKeepsDigits | scraper.py:76 | removing `CHF`, `Fr.`, `CHF.` and stripping neither loses nor adds a digit |
| Prices.StripKeeps | scraper.py:76 | `strip()` removes whitespace characters only and keeps every other character |
| Prices.LeadingSpace | scraper.py:76 | the length of the longest all-whitespace prefix: every character before it is whitespace, and the one at it (if any) is not |
| Prices.TrailingSpace | scraper.py:76 | the length of the longest all-whitespace suffix: every character in it is whitespace, and the one just before it (if any) is not |
| Prices.Strip | scraper.py:76 | the stripped text is a slice `s[a..b]` of the text with only whitespace before `a` and after `b`, and it neither starts nor ends with whitespace |
| Prices.FrRemovalJoinsCHF | scraper.py:76 | removing `Fr.` can join a `C` and an `HF.` into a new `CHF.`: `CFr.HF.12` becomes `CHF.12` |
| Prices.ThirdReplacementFires | scraper.py:76 | the third replacement then removes that `CHF.`, so `CFr.HF.12` is searched as `12` |
| Prices.CHFRemovalJoinsCHF | scraper.py:76 | removing `CHF` can itself join a `C` and an `HF.` into a new `CHF.`: `CCHFHF.12` becomes `CHF.12` |
| Prices.FirstReplacementFeedsThird | scraper.py:76 | the third replacement removes that `CHF.` too, so `CCHFHF.12` is searched as `12` |
| Prices.DigitsValue | scraper.py:78-80 | `int()` of a string of ASCII digits, leading zeros allowed: a number below `10^len` |
| Prices.RunLength | scraper.py:77-80 | the greedy `\d+` at a position: the digits from there up to the first non-digit or the end, and no further |
| Prices.SearchDecimal | scraper.py:77 | the leftmost position where `(\d+)[\.,](\d{2})` matches, or `None` when it matches nowhere |
| Prices.DecimalMatchIsGreedy | scraper.py:77 | a match at a position always captures the whole digit run there, so the greedy group never backtracks to a shorter split |
| Prices.SearchDigits | scraper.py:79 | the leftmost digit, or `None` when there is none |
| Prices.ParseCleaned | scraper.py:77-80 | on the cleaned text: `None` exactly when no digit occurs; otherwise non-negative |
| Prices.DecimalPriceSplits | scraper.py:77-78 | on a decimal match the result is `int(d+) * 100 + int(dd)`; divided by 100 it gives the francs, and modulo 100 the two fraction digits |
| Prices.WholePriceIsFirstRun | scraper.py:79-80 | without a decimal match the result is the first digit run times 100, a multiple of 100 |
| Prices.PlainDecimalPrice | scraper.py:74-78 | a plain text such as `12.50` or `3,05` gives francs * 100 + centimes |
| Urls.WithScheme | scraper.py:124 | a source starting with `//` gets `https:` prepended; any other source is unchanged (the same rule as lines 129 and 179) |
| Urls.WithSchemeIdempotent | scraper.py:179 | the result never starts with `//`, so rewriting twice equals rewriting once |
| Urls.Split | scraper.py:111 | `split("/")` yields at least one piece, and no piece holds the separator |
| Urls.JoinSplit | scraper.py:111 | joining the pieces of a split gives back the text |
| Urls.SplitJoin | scraper.py:111 | splitting a join of separator-free pieces gives back the pieces |
| Urls.NonEmpty | scraper.py:111 | the filter keeps exactly the non-empty segments |
| Urls.NonEmptyOne | scraper.py:111 | the filter keeps a single piece exactly when it is non-empty |
| Urls.NonEmptyAppend | scraper.py:111 | the filter keeps order: filtering `a + b` is filtering `a` followed by filtering `b` |
| Urls.JoinAppend | scraper.py:111 | joining two lists of pieces is joining each and putting one separator between them |
| Urls.SplitAtSep | scraper.py:111 | splitting `p + "/" + q` gives the pieces of `p` followed by the pieces of `q` |
| Urls.Segments | scraper.py:111 | every path segment kept is non-empty and slash-free |
| Urls.SegmentsOfWord | scraper.py:111 | a non-empty slash-free text is one segment, itself |
| Urls.SegmentsAtSlash | scraper.py:111 | the segments of `p + "/" + q` are the segments of `p` followed by those of `q` |
| Urls.IndexOf | scraper.py:112 | `list.index`: the first position holding the value |
| Urls.CollectionHandle | scraper.py:112 | the segment after the first `collections`, else the last segment; `None` exactly where Python raises `IndexError` (no segments, or the first `collections` is last) |
| Urls.ProductsEndpoint | scraper.py:110-113 | the endpoint is `scheme://netloc/collections/<handle>/products.json`, and it exists exactly when the handle does |
| Urls.SegmentsOfAbsolutePath | scraper.py:111 | the segments of `/a/b/...` are `a`, `b`, ... |
| Urls.CollectionPathHandle | scraper.py:110-112 | a collection URL's path `/collections/<handle>` yields `<handle>` |
| Urls.EndpointKeepsHandle | scraper.py:112-113 | the endpoint path splits into `collections`, the handle and `products.json`, so the handle derived from it is the one it was built from |
| Catalog.Key | scraper.py:224 | the state key `site:sku`; `Catalog.KeyInjective` proves it determines site and sku |
| Catalog.Track | scraper.py:229 | a new entry: every record field, the image fingerprint and `lastSeen = now`; `Catalog.ObserveUnseen` states it |
| Catalog.Refresh | scraper.py:230-239 | the tracked entry after one record: price, image and text overwritten exactly as their sensors fire, `lastSeen = now`, identity fields kept; `Catalog.ObservePrice`, `ObserveImage`, `ObserveText` and `ObserveTracked` state it |
| Catalog.Signals | scraper.py:230-237 | the PRICE, IMAGE and TEXT lines of a tracked record, in that order, each when its sensor fires; `Catalog.ObserveOrder` states it |
| Catalog.Observe | scraper.py:224-239 | one iteration of either loop's body: NEW and `Track` for an unseen key, `Signals` and `Refresh` for a tracked one, no other key touched; the `Catalog.Observe*` lemmas state each case |
| Catalog.Pass | scraper.py:222-239 | the first `n` records of a batch observed in order against a state, events appended in order; `CatalogFacts` proves what it keeps and changes |
| Catalog.Diff | scraper.py:222-266 | a pass over a whole batch: the kkiosk loop with the text sensor off, the HTML loop with it on; `DiffEngine.DiffTargets` is proved to compute it |
| Catalog.KeyInjective | scraper.py:224 | for colon-free site names the key `site:sku` determines site and sku |
| Catalog.ObserveUnseen | scraper.py:227-229 | an unseen key gives exactly one NEW event and is stored with every record field, the image fingerprint and `lastSeen = now`; no other entry changes |
| Catalog.ObservePrice | scraper.py:231-233 | PRICE(old, new) is emitted exactly when the record has a price that differs from the stored one, and then the stored price is replaced; a missing price never fires and never overwrites |
| Catalog.ObserveImage | scraper.py:234-237 | IMAGE is emitted exactly when the fingerprint is truthy and differs, and then image URL and fingerprint are overwritten together; otherwise both stay |
| Catalog.ObserveText | scraper.py:262-264 | with the text sensor on, TEXT is emitted exactly when the card fingerprint is truthy and differs, and only `textHash` is overwritten; with it off, TEXT never occurs |
| Catalog.ObserveTracked | scraper.py:238-239 | a tracked key is stamped with `now`, keeps site, sku, name and URL, emits no NEW event and at most three events; no other entry changes |
| Catalog.ObserveOrder | scraper.py:230-237 | every event of a record carries the record's key; the kinds come in the order NEW, PRICE, IMAGE, TEXT, each at most once |
| Catalog.ObserveIdempotent | scraper.py:230-239 | observing the same record again at once emits nothing and changes nothing |
| CatalogFacts.ObserveEntry | scraper.py:227-239 | one record stamps its own key with `now`, leaves every other entry alone, and keeps a tracked entry's site, sku, name and URL |
| CatalogFacts.PassKeys | scraper.py:222-239 | after a pass the state's keys are the old keys plus the keys of the records seen: no key is ever deleted |
| CatalogFacts.PassEntry | scraper.py:222-239 | every key seen is stamped with `now`; an unseen key keeps its entry; a tracked key keeps site, sku, name and URL |
| CatalogFacts.ObserveNewCount | scraper.py:227-228 | one record adds a NEW event for a key exactly when it carries that key and the key is not tracked yet |
| CatalogFacts.PassNewOnce | scraper.py:227-228 | over a pass a key gets exactly one NEW event when it was not stored before and a record mentions it, and none otherwise, even if it repeats |
| CatalogFacts.PassEventKeys | scraper.py:224-237 | every event of a pass names a key of the records seen |
| CatalogFacts.PassNoTextWithoutSensor | scraper.py:222-239 | the kkiosk loop never emits a TEXT event |
| CatalogFacts.PassQuietsAll | scraper.py:230-239 | after a pass over records in which records sharing a key agree on price and fingerprints, no sensor fires for any of them against the resulting state |
| CatalogFacts.ObserveQuiet | scraper.py:230-239 | a quiet record emits nothing and only stamps its entry with `now`, also against an entry that differs from the reference entry only in `lastSeen` |
| CatalogFacts.PassOfQuietRecords | scraper.py:230-239 | quiet records emit nothing and add no key |
| CatalogFacts.PassOfQuietEntry | scraper.py:238-239 | quiet records only change the `lastSeen` stamp of the keys they mention |
| CatalogFacts.DiffIdempotent | scraper.py:222-239 | a second pass over a batch, in which records sharing a key agree on price and fingerprints, emits nothing and changes only the `lastSeen` stamps; at the same time it changes nothing |
| CatalogFacts.RepeatedKeyBreaksIdempotence | scraper.py:224-233 | a key listed twice with two different prices keeps the second, so a second pass reports the first price again |
| DiffEngine.Compare | scraper.py:230-239 | the tracked-record branch stores exactly `Catalog.Refresh` of the entry and emits exactly the sensor events of `Catalog.Signals` |
| DiffEngine.ObserveRecord | scraper.py:224-239 | one loop iteration takes the state and change list of the first `n` records of a pass to those of the first `n + 1` |
| DiffEngine.DiffBatch | scraper.py:223-239 | the inner loop over one target's records extends the pass by exactly those records |
| DiffEngine.DiffTargets | scraper.py:222-266 | an outer loop over the targets completes exactly when every fetch succeeds, and then it computes `Catalog.Diff` of all their records in order and keeps every old key |
| DiffEngine.Run | scraper.py:216-274 | there is a report exactly when every fetch of both loops succeeds; then the saved state and the change list are the kkiosk pass (sensor off) followed by the HTML pass (sensor on), both at the same `now`; the kkiosk lines hold no TEXT; the saved keys are the loaded keys plus every key seen |

## Left out

- Fetching: HTTP requests, headers and pagination (lines 89-94 and 114-117) are not modelled. A target's fetch result is an input: its records, or `None` when the fetch raises. That covers an HTTP error from `raise_for_status` (line 93), a timeout, a body that is not JSON (line 116) and the `IndexError` of a URL without a handle (line 112). Which of these occurred is not modelled.
- `urlparse` (line 110) is not modelled. `Urls.ParsedUrl` takes its scheme, netloc and path as given.
- Reading Shopify JSON into records (lines 118-148) is not modelled: variant SKU and name assembly, the image-by-id table, and the float price `int(float(price) * 100)`, which truncates toward zero after a floating-point multiply (`19.99` gives 1998).
- HTML scraping with BeautifulSoup (lines 153-196) is not modelled: card, name, price and image selectors and the key fallbacks. It produces the records. The price text it finds goes through `Prices.PriceToCents`.
- Image and text fingerprints are not modelled: PIL decoding, SHA-1 and whitespace normalisation (lines 82-105). They are opaque optional strings. `fetch_img_hash` returning `None` on a missing URL or a failed fetch is `imageHash = None`.
- Message text is not modelled: `price_str` and the formatting of change lines (lines 71-72, 228-263). An event carries the fields its line shows.
- Loading and saving `state.json` (lines 65-69) and sending e-mail (lines 199-213) are I/O and are not modelled. The state is the loaded map, and the report is the event list.
- `Catalog.Observe` tests `key !in state` where the source tests `not old`. An entry the scraper stores is a non-empty dictionary, so it is always truthy.
- DiffEngine.Run: in the HTML loop the source forms the key and the line URL from the target's `site` and `url`. The fetcher copies those two values into every record (lines 188 and 193), so the model reads them from the record.
- Prices.IsDigit: Python's `\d` also matches non-ASCII decimal digits. The model accepts ASCII digits only.
- CatalogFacts.DiffIdempotent: silence on a second pass is proved for batches in which records sharing a key agree on price, image fingerprint and text fingerprint; repeated keys are allowed. It can fail when two records with one key carry different prices or fingerprints, as `CatalogFacts.RepeatedKeyBreaksIdempotence` shows.
- The three replacements of `price_to_cents` are modelled as written, as three passes in order. The third pass only removes a `CHF.` that an earlier pass created. Removing `CHF` can join a `C` and an `HF.` (`CCHFHF.12` becomes `CHF.12`, `Prices.FirstReplacementFeedsThird`), and removing `Fr.` can too (`CFr.HF.12`, `Prices.ThirdReplacementFires`). A `CHF.` already in the text loses its `CHF` in the first pass.
- Prices.PriceToCents: Python's `int()` raises `ValueError` on a decimal string longer than 4300 digits (the default integer-string conversion limit of CPython 3.11 and later). At lines 78 and 80 such a digit run would end `run()` before the state is saved, as a failed fetch does. The model has unbounded integers and returns the value instead.
