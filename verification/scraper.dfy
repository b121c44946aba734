/**
 * The run of `scrapeProduct` from the region step to the report text. The
 * browser is abstracted to two snapshots: the region controls of the landing
 * page, and the product page as it stands after the region step. Navigation,
 * waits, the screenshot and the file writes are not modelled.
 */
module Scraper {
  import opened Wrappers
  import opened Text
  import opened Region
  import opened Prices
  import opened Rating
  import opened Accordions
  import opened Report

  /** What the region selector reads: the displayed region label and the list items' texts. */
  datatype RegionView = RegionView(shown: Option<string>, items: seq<string>)

  /**
   * What extraction and page preparation read: the price and rating blocks,
   * whether the cookie-consent button, the details container and the tooltip
   * close icon are on the page, and the accordions' `open` flags.
   */
  datatype ProductPage = ProductPage(
    info: Option<InfoBlock>,
    ratings: Option<RatingBlock>,
    cookieButton: bool,
    detailsContainer: bool,
    accordions: seq<bool>,
    tooltipClose: bool)

  /** The errors that end a run before the report is written. */
  datatype ScrapeError =
    | RegionNotFound
    | CookieButtonMissing
    | DetailsMissing
    | TooltipMissing

  /** What a successful run did and produced. */
  datatype Output = Output(regionClick: Option<nat>, accordionClicks: seq<nat>, report: string)

  /**
   * The report text for a product page: both extractors, the old-price
   * rewrite, then the template. A page without a price block reports that no
   * prices were found, and a page without a rating block ends with the
   * placeholder for rating and reviews.
   */
  function ReportFor(page: ProductPage): (r: string)
    ensures page.info.None? ==> NoPricesLine + "\n" <= r
    ensures page.ratings.None? ==>
      EndsWith(r, "\n" + RatingLabel + NoData + "\n" + ReviewsLabel + NoData + "\n")
    ensures ReadLayout(r) == LayoutOf(NormalizeOldPrice(GetPriceInfo(page.info)))
  {
    var prices := NormalizeOldPrice(GetPriceInfo(page.info));
    var rr := GetRatingAndReviews(page.ratings);
    ReadLayoutOfRender(prices, rr.rating, rr.reviews);
    RenderReport(prices, rr.rating, rr.reviews)
  }

  /**
   * One run. It fails with `RegionNotFound` exactly when the trimmed label
   * differs from the region and no trimmed list item contains it; otherwise a missing
   * cookie button, details container or tooltip icon ends it, in that order.
   * A successful run clicked the first matching region item (none when the
   * region was already shown), clicked exactly the closed accordions, and
   * produced the report of the page's prices and rating.
   */
  method ScrapeProduct(region: string, landing: RegionView, page: ProductPage)
    returns (r: Result<Output, ScrapeError>)
    ensures r == Err(RegionNotFound) <==>
      && !Shows(landing.shown, region)
      && forall j :: 0 <= j < |landing.items| ==> !ItemMatches(landing.items[j], region)
    ensures r.Err? && r.error != RegionNotFound ==>
      r.error == (if !page.cookieButton then CookieButtonMissing
                  else if !page.detailsContainer then DetailsMissing
                  else TooltipMissing)
    ensures r.Ok? <==>
      && (Shows(landing.shown, region)
          || exists j :: 0 <= j < |landing.items| && ItemMatches(landing.items[j], region))
      && page.cookieButton && page.detailsContainer && page.tooltipClose
    ensures r.Ok? ==> (r.value.regionClick.None? <==> Shows(landing.shown, region))
    ensures r.Ok? && r.value.regionClick.Some? ==>
      var i := r.value.regionClick.value;
      && i < |landing.items|
      && ItemMatches(landing.items[i], region)
      && forall j :: 0 <= j < i ==> !ItemMatches(landing.items[j], region)
    ensures r.Ok? ==>
      && ValidClicks(r.value.accordionClicks, |page.accordions|)
      && forall i :: 0 <= i < |page.accordions| ==>
           (i in r.value.accordionClicks <==> !page.accordions[i])
    ensures r.Ok? ==> r.value.report == ReportFor(page)
  {
    var regionClick: Option<nat>;
    match ChooseRegion(landing.shown, landing.items, region) {
      case NotFound =>
        return Err(RegionNotFound);
      case AlreadySelected =>
        regionClick := None;
      case Select(i) =>
        regionClick := Some(i);
    }
    var report := ReportFor(page);
    if !page.cookieButton {
      return Err(CookieButtonMissing);
    }
    if !page.detailsContainer {
      return Err(DetailsMissing);
    }
    var clicks := ExpandAccordions(page.accordions);
    if !page.tooltipClose {
      return Err(TooltipMissing);
    }
    return Ok(Output(regionClick, clicks, report));
  }

  /**
   * A discount page whose old price is already a plain amount and whose unit
   * is clean: extraction fills the discount pair and the unit, and the
   * rewrite appends the unit to the old price after one space.
   */
  lemma DiscountPagePrices(newText: string, unit: string, oldText: string)
    requires Trim(newText) == newText
    requires unit != "" && AllSatisfy(unit, IsUnitChar)
    requires oldText != "" && AllSatisfy(oldText, IsAmountChar)
    ensures NormalizeOldPrice(GetPriceInfo(
      Some(InfoBlock(None, Some(PriceElement(newText, Some(unit))), Some(oldText)))))
      == PriceRecord(Some(oldText + " " + unit), Some(newText), None, Some(unit))
  {
    AmountHasNoSpace(oldText);
    TrimNoSpace(oldText);
    DiscountBlockPrices(newText, unit, oldText);
    RewritePlainAmount(PriceRecord(Some(oldText), Some(newText), None, Some(unit)));
  }

  /**
   * The same page without a rating block: the report gives the old price
   * followed by the unit, the new price, and the no-data placeholder for
   * rating and reviews.
   */
  lemma DiscountPageReport(newText: string, unit: string, oldText: string, page: ProductPage)
    requires newText != "" && Trim(newText) == newText
    requires unit != "" && AllSatisfy(unit, IsUnitChar)
    requires oldText != "" && AllSatisfy(oldText, IsAmountChar)
    requires page.info == Some(InfoBlock(None, Some(PriceElement(newText, Some(unit))), Some(oldText)))
    requires page.ratings.None?
    ensures ReportFor(page)
      == OldPriceLabel + oldText + " " + unit + "\n" + NewPriceLabel + newText + "\n"
         + RatingLabel + NoData + "\n" + ReviewsLabel + NoData + "\n"
  {
    var rewritten := PriceRecord(Some(oldText + " " + unit), Some(newText), None, Some(unit));
    assert ReportFor(page) == RenderReport(rewritten, NoData, NoData) by {
      DiscountPagePrices(newText, unit, oldText);
      assert GetRatingAndReviews(page.ratings) == RatingRecord(NoData, NoData);
    }
    assert RenderReport(rewritten, NoData, NoData)
      == OldPriceLabel + (oldText + " " + unit) + "\n" + NewPriceLabel + newText + "\n"
         + RatingLabel + NoData + "\n" + ReviewsLabel + NoData + "\n" by {
      DiscountReportText(rewritten, NoData, NoData);
    }
    Regroup(OldPriceLabel, oldText, " ", unit);
  }

  /** Concatenation regrouped. */
  lemma Regroup(a: string, b: string, c: string, d: string)
    ensures a + (b + c + d) == a + b + c + d
  {
  }

  /** The discount page with old price 1000, new price 800 and unit RUB. */
  lemma DiscountPageExample(page: ProductPage)
    requires page.info == Some(InfoBlock(None, Some(PriceElement("800", Some("RUB"))), Some("1000")))
    requires page.ratings.None?
    ensures ReportFor(page)
      == OldPriceLabel + "1000 RUB" + "\n" + NewPriceLabel + "800" + "\n"
         + RatingLabel + NoData + "\n" + ReviewsLabel + NoData + "\n"
  {
    assert "1000" + " " + "RUB" == "1000 RUB";
    assert ReportFor(page)
      == OldPriceLabel + "1000" + " " + "RUB" + "\n" + NewPriceLabel + "800" + "\n"
         + RatingLabel + NoData + "\n" + ReviewsLabel + NoData + "\n" by {
      assert NoSpace("800");
      TrimNoSpace("800");
      assert AllSatisfy("RUB", IsUnitChar);
      assert AllSatisfy("1000", IsAmountChar);
      DiscountPageReport("800", "RUB", "1000", page);
    }
    Regroup(OldPriceLabel, "1000", " ", "RUB");
  }
}
