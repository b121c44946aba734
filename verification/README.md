# Product-page scraper: decision logic

A functional Dafny model of the decisions a Puppeteer product-page scraper
makes between its browser calls. The browser is replaced by snapshots of
what the scraper reads from the page: optional element texts (`Option<string>`)
and lists of texts or flags (`seq`). The model covers these parts:

- **Region selection** (`setRegion`). If the displayed region label, trimmed,
  equals the requested region, nothing happens. Otherwise the first list item,
  in document order, whose trimmed text contains the region is clicked. If no item
  contains it, the run fails with "region not found".
- **Price extraction** (`getPriceInfo`). The information block is classified
  into a four-field record `{oldPrice, newPrice, singlePrice, unit}`: all null,
  the single-price layout, or the discount layout.
- **Old-price rewrite.** When the old price and the unit are both truthy, the
  old price becomes its amount characters, a space and the unit.
- **Rating and reviews** (`getRatingAndReviews`). Each field falls back to
  "Нет данных" on its own. The review count keeps only its digits.
- **Accordion expansion** (`savePrepare`). Only the closed accordions are clicked.
- **Report text** (`writeProductData`). One of three price templates, then the
  rating line and the review-count line.
- **The run** (`scrapeProduct`). Region step, both extractors and the rewrite,
  then page preparation. Any error ends the run without a report.

Modules: `Wrappers` (Option, Result), `Text` (the regex classes `\d` and `\s`,
character-class `replace` as a filter, `trim`, `includes`), `Region`, `Prices`,
`Rating`, `Accordions`, `Report`, `Scraper`.

Element texts are raw `textContent`, and the model applies `trim` itself.
`\s` and `trim` use the exact ECMAScript WhiteSpace and LineTerminator code
points. `\d` is ASCII `0`–`9`.

Two places where the code does less than its own comments and log messages
suggest. The model follows the code:

- The tooltip. The comment at index.js:170 says the tooltip is closed only
  "if it is present". The wait for it (index.js:173-175) catches its timeout
  and logs "Tooltip not found". The click at index.js:176 still runs
  unconditionally. With no tooltip on the page, that click fails, and the run
  ends at index.js:224 with no report. `Scraper.ScrapeProduct` fails with
  `TooltipMissing`.
- The unit. The class `[\d.,\s]` at index.js:70 and :82 removes only digits,
  `.`, `,` and whitespace. Other punctuation, such as the `/` of a
  per-kilogram unit, stays in the unit. `Prices.IsUnitChar` is that class's
  complement.

## Model

| member | source | states |
|---|---|---|
| Text.Includes | index.js:35 | `includes` is true exactly when the region occurs as a contiguous, case-sensitive piece of the item text |
| Text.DigitClass | index.js:116 | `\d` (`Text.IsDigit`) is exactly the ten ASCII digits |
| Text.SpaceClass | index.js:214 | the ASCII members of `\s` (`Text.IsSpace`) are tab, line feed, vertical tab, form feed, carriage return and space, and no digit is whitespace |
| Text.Filter | index.js:116 | a character-class `replace(..., "")` leaves only accepted characters and never lengthens the text |
| Text.FilterCounts | index.js:214 | the filter keeps every occurrence of an accepted character and no occurrence of a rejected one |
| Text.FilterAppend | index.js:116 | filtering distributes over concatenation, so the kept characters stay in their original order |
| Text.FilterKeepsAll | index.js:214 | a text made only of accepted characters passes through unchanged |
| Text.FilterDropsAll | index.js:70 | a text made only of rejected characters filters to the empty string |
| Text.FilterIdempotent | index.js:116 | filtering a second time changes nothing |
| Text.LeadingSpaces | index.js:11 | the run `trim` removes at the front is whitespace, and it is followed by a non-space or the end |
| Text.TrailingSpaces | index.js:11 | the run `trim` removes at the back is whitespace, and it is preceded by a non-space or the start |
| Text.Trim | index.js:11 | `trim` never lengthens its input; what it removes and what it keeps is pinned by the split and end lemmas below |
| Text.TrimSplits | index.js:11 | the input is the trimmed text with whitespace only before and after it |
| Text.TrimmedEnds | index.js:11 | the trimmed text neither starts nor ends with whitespace |
| Text.TrimNoSpace | index.js:214 | the `trim` after the amount filter changes nothing, because a text without whitespace is its own trim |
| Text.TrimOfPadded | index.js:32 | a text with no whitespace at its ends, padded with whitespace on either side, trims back to exactly that text |
| Text.TrimIdempotent | index.js:65 | trimming an already trimmed text changes nothing |
| Text.FilterIgnoresTrim | index.js:70 | a filter that drops whitespace gives the same result on the trimmed and the untrimmed text |
| Region.TrimAll | index.js:30-34 | the loop compares the trimmed text of every item, in order, one for one |
| Region.FirstMatch | index.js:29-41 | over the trimmed item texts, the index found is the least one whose text contains the region; none is found only when no text contains it |
| Region.ChooseRegion | index.js:5-43 | already-selected exactly when the trimmed label equals the region; otherwise the least item whose trimmed text contains the region is selected; otherwise region-not-found, exactly when no trimmed item contains the region |
| Region.SelectIsLeastMatch | index.js:30-40 | the selection is determined: any least containing item is the one chosen |
| Region.ExactItemMatches | index.js:32-35 | when the label does not show the region, an item whose trimmed text spells the region exactly guarantees a selection, at its own index or an earlier one |
| Region.PaddedLabelIsSelected | index.js:11-16 | a label that is the region padded with whitespace already shows it, so nothing is clicked |
| Region.PaddedItemMatches | index.js:32-35 | an item that is the region padded with whitespace is selected, or an earlier item is |
| Prices.UnitOf | index.js:66-70 | a unit exists exactly when the fraction sub-element does; it is the fraction text without digits, `.`, `,` and whitespace, with or without the trim |
| Prices.GetPriceInfo | index.js:46-95 | no block gives all-null; a single price and a discount pair are never both set; the unit is always clean; the regular element gives the single price; otherwise new and old price are set independently, each exactly when its own element is present |
| Prices.UnitComesFromChosenElement | index.js:64-83 | a non-null unit always comes from the fraction of the element whose price was taken |
| Prices.NormalizeOldPrice | index.js:213-216 | if old price and unit are both truthy, the old price becomes its amount characters, one space and the unit; otherwise the record is unchanged; the other fields never change |
| Prices.NormalizedOldPriceSplits | index.js:214-215 | with a clean unit, the rewritten old price has exactly one space, with only amount characters before it and exactly the unit after it |
| Prices.NormalizeIdempotent | index.js:213-216 | with a clean unit, applying the rewrite to its own output changes nothing |
| Prices.AmountOfRewritten | index.js:214 | filtering a rewritten old price back to amount characters recovers the amount |
| Prices.AmountHasNoSpace | index.js:214 | amount characters are never whitespace |
| Prices.AmountClass | index.js:214 | the class `[\d.,]` (`Prices.IsAmountChar`) is exactly the digits, `.` and `,`, and none of them is whitespace |
| Prices.UnitClass | index.js:70 | a character survives the class `[\d.,\s]` (`Prices.IsUnitChar`) exactly when it is neither an amount character nor whitespace |
| Prices.DiscountBlockPrices | index.js:71-90 | a discount block gives exactly the new price, the old price and the unit, with no single price |
| Prices.RewritePlainAmount | index.js:213-216 | an old price that is already a plain amount only gets the space and the unit appended |
| Prices.ScrapedPricesWellFormed | index.js:208-216 | after extraction and the rewrite, the layouts stay exclusive, the unit stays clean, and a second rewrite is a no-op |
| Rating.ReviewCount | index.js:115-116 | the review count is all digits, and it is the digits of the element text, in order |
| Rating.GetRatingAndReviews | index.js:98-121 | no block gives the placeholder in both fields; otherwise each field falls back to the placeholder on its own |
| Rating.ReviewsReadIffDigits | index.js:103-116 | the reviews field is all digits exactly when the reviews element was present, so a count is never confused with the placeholder |
| Rating.ReviewCountExample | index.js:116 | "1,234 отзыва" becomes "1234" |
| Rating.DigitsAcrossSeparators | index.js:116 | digits on both sides of a separator are joined, and a trailing word is dropped |
| Accordions.ExpandAccordions | index.js:157-168 | the clicks are in document order and are exactly the closed accordions; afterwards all accordions are open; over all-open accordions nothing is clicked, so a second pass is a no-op |
| Accordions.Click | index.js:166 | a click changes the state of the clicked accordion and of no other |
| Accordions.ClickTwice | index.js:166 | clicking the same accordion twice restores the original state |
| Accordions.ApplyClicks | index.js:159-167 | clicks performed in order keep the number of accordions |
| Accordions.UnclickedUnchanged | index.js:159-167 | an accordion that is never clicked keeps its state |
| Accordions.ClickedAreToggled | index.js:159-167 | when no accordion is clicked twice, in whatever order, every clicked one ends in the opposite state |
| Report.RenderReport | index.js:129-139 | both old and new price truthy gives the two-line form; else a truthy single price gives exactly "Цена: " and the price, then the rating and review lines; else exactly "Цены не найдены", then those lines; every report ends with the rating line and the review-count line |
| Report.DiscountReportText | index.js:131-139 | the full text of a discount-layout report, line by line |
| Report.ReadLayoutOfRender | index.js:131-137 | the report's opening identifies which of the three templates was used |
| Report.LayoutOf | index.js:131-137 | the two-line template is chosen exactly when old and new price are both truthy; a template is chosen only when the fields it prints are present; on a record from the extractor a truthy single price always gives the single-price template |
| Scraper.ScrapeProduct | index.js:188-229 | region-not-found exactly when the trimmed label differs and no trimmed item contains the region; a missing cookie button, details container or tooltip icon fails in that order; a success selects the least matching item, clicks exactly the closed accordions and produces the page's report |
| Scraper.ReportFor | index.js:208-223 | the report of a page: "Цены не найдены" first when there is no price block, the placeholder rating and review lines last when there is no rating block, and an opening that names the layout of the rewritten prices |
| Scraper.DiscountPagePrices | index.js:208-216 | a discount page with a plain-amount old price ends with the old price followed by one space and the unit |
| Scraper.DiscountPageReport | index.js:208-223 | the same page without a rating block reports the old price with its unit, the new price, and the placeholder for rating and reviews |
| Scraper.DiscountPageExample | index.js:208-223 | old price 1000, new price 800 and unit RUB give the lines "Старая цена: 1000 RUB" and "Новая цена: 800", then the placeholder rating and review lines |

## Left out

- Browser launch, user agent, viewport, `goto`, `waitForSelector`,
  `waitForNavigation` and `browser.close` are browser I/O. A successful wait is
  modelled as the element being present in the snapshot. The waits for the
  region control and the region list (index.js:20-26) are assumed to succeed.
- Navigation after a region click reloads the page. The run therefore takes the
  product page as it stands after the region step as a separate snapshot.
- Clicks are not performed. The model returns which region item and which
  accordions are clicked. A click on an accordion is modelled as toggling its
  `open` flag.
- The concurrent `Promise.all` of the two extractors is modelled as two pure
  functions of one snapshot. They read the same state and write nothing.
- The screenshot, `fs.writeFileSync` and console logging are I/O. Only the
  report string is modelled.
- Hiding the sticky element and resetting the scroll position have no effect on
  any modelled value.
- The command-line argument check and `process.exit` are process plumbing.
- How `textContent` joins the text of child nodes is not modelled. Each
  element's `textContent` is an opaque input string.
- Scraper.ScrapeProduct: a timeout on a required wait (cookie button, details
  container) is modelled as that element being absent. Timing is not modelled.
