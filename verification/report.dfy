/** The text of the product report (`writeProductData`), without the file write. */
module Report {
  import opened Wrappers
  import opened Prices

  /** Which of the three price templates a report uses. */
  datatype Layout = DiscountLayout | SingleLayout | NoPriceLayout

  /**
   * The template choice, by JavaScript truthiness, in the order the writer
   * tests it. A template is only chosen when the fields it prints are
   * present, and on a record whose layouts are exclusive a truthy single
   * price always selects the single-price template.
   */
  function LayoutOf(p: PriceRecord): (r: Layout)
    ensures r == DiscountLayout <==> Truthy(p.oldPrice) && Truthy(p.newPrice)
    ensures r == DiscountLayout ==> p.oldPrice.Some? && p.newPrice.Some?
    ensures r == SingleLayout ==> p.singlePrice.Some? && p.singlePrice.value != []
    ensures LayoutExclusive(p) && Truthy(p.singlePrice) ==> r == SingleLayout
    ensures r == NoPriceLayout ==> !Truthy(p.singlePrice)
  {
    if Truthy(p.oldPrice) && Truthy(p.newPrice) then DiscountLayout
    else if Truthy(p.singlePrice) then SingleLayout
    else NoPriceLayout
  }

  const OldPriceLabel: string := "Старая цена: "
  const NewPriceLabel: string := "Новая цена: "
  const PriceLabel: string := "Цена: "
  const NoPricesLine: string := "Цены не найдены"
  const RatingLabel: string := "Рейтинг: "
  const ReviewsLabel: string := "Количество отзывов: "

  /** The price part of the report. */
  function PriceSection(p: PriceRecord): string {
    match LayoutOf(p)
    case DiscountLayout => OldPriceLabel + p.oldPrice.value + "\n" + NewPriceLabel + p.newPrice.value
    case SingleLayout => PriceLabel + p.singlePrice.value
    case NoPriceLayout => NoPricesLine
  }

  /** The two lines every report ends with: the rating line and the review-count line, each ending in a newline. */
  function RatingLines(rating: string, reviews: string): string {
    "\n" + RatingLabel + rating + "\n" + ReviewsLabel + reviews + "\n"
  }

  /** `s` ends with `suffix`. */
  predicate EndsWith(s: string, suffix: string) {
    |suffix| <= |s| && s[|s| - |suffix|..] == suffix
  }

  /**
   * The report: the price lines of the record's layout, then the rating
   * line and the review-count line, each ending in a newline.
   */
  function RenderReport(p: PriceRecord, rating: string, reviews: string): (r: string)
    ensures LayoutOf(p) == DiscountLayout ==>
      OldPriceLabel + p.oldPrice.value + "\n" + NewPriceLabel + p.newPrice.value + "\n" <= r
    ensures LayoutOf(p) == SingleLayout ==> r == PriceLabel + p.singlePrice.value + RatingLines(rating, reviews)
    ensures LayoutOf(p) == NoPriceLayout ==> r == NoPricesLine + RatingLines(rating, reviews)
    ensures EndsWith(r, RatingLines(rating, reviews))
  {
    PriceSection(p) + RatingLines(rating, reviews)
  }

  /** The whole text of a discount-layout report, line by line. */
  lemma DiscountReportText(p: PriceRecord, rating: string, reviews: string)
    requires LayoutOf(p) == DiscountLayout
    ensures RenderReport(p, rating, reviews)
      == OldPriceLabel + p.oldPrice.value + "\n" + NewPriceLabel + p.newPrice.value + "\n"
         + RatingLabel + rating + "\n" + ReviewsLabel + reviews + "\n"
  {
    assert PriceSection(p) == OldPriceLabel + p.oldPrice.value + "\n" + NewPriceLabel + p.newPrice.value;
    Flatten(OldPriceLabel, p.oldPrice.value, "\n", NewPriceLabel, p.newPrice.value,
            RatingLabel, rating, ReviewsLabel, reviews);
  }

  /**
   * Regrouping the discount price lines `a`..`e` followed by the rating
   * lines, each introduced by `nl`, into one left-nested concatenation.
   */
  lemma Flatten(a: string, b: string, nl: string, d: string, e: string,
                f: string, g: string, h: string, i: string)
    ensures (a + b + nl + d + e) + (nl + f + g + nl + h + i + nl)
         == a + b + nl + d + e + nl + f + g + nl + h + i + nl
  {
  }

  /** Recover the template from the report's first characters. */
  function ReadLayout(report: string): Layout {
    if OldPriceLabel <= report then DiscountLayout
    else if PriceLabel <= report then SingleLayout
    else NoPriceLayout
  }

  /** The three templates are told apart by their openings, so the report determines its layout. */
  lemma ReadLayoutOfRender(p: PriceRecord, rating: string, reviews: string)
    ensures ReadLayout(RenderReport(p, rating, reviews)) == LayoutOf(p)
  {
    var r := RenderReport(p, rating, reviews);
    match LayoutOf(p)
    case DiscountLayout =>
      assert OldPriceLabel <= r;
    case SingleLayout =>
      assert PriceLabel <= r;
      assert r[0] != OldPriceLabel[0];
    case NoPriceLayout =>
      assert NoPricesLine <= r;
      assert r[0] != OldPriceLabel[0];
      assert r[3] != PriceLabel[3];
  }
}
