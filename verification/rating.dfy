/**
 * Rating and review-count extraction (`getRatingAndReviews`). The page is
 * abstracted to the ratings/actions block and its two text elements, each
 * absent or present with its raw `textContent`.
 */
module Rating {
  import opened Wrappers
  import opened Text

  /** The ratings/actions block: the stars element and the reviews element. */
  datatype RatingBlock = RatingBlock(stars: Option<string>, reviews: Option<string>)

  /** The extracted pair; a field that could not be read holds `NoData`. */
  datatype RatingRecord = RatingRecord(rating: string, reviews: string)

  /** The placeholder written for a missing field ("no data"). */
  const NoData: string := "Нет данных"

  /** The text of the reviews element reduced to its digits (`replace(/[^\d]/g, "")`). */
  function ReviewCount(text: string): (r: string)
    ensures AllSatisfy(r, IsDigit)
    ensures r == Filter(text, IsDigit)
  {
    FilterIgnoresTrim(text, IsDigit);
    Filter(Trim(text), IsDigit)
  }

  /** `getRatingAndReviews`: each field falls back to `NoData` on its own. */
  function GetRatingAndReviews(block: Option<RatingBlock>): (r: RatingRecord)
    ensures block.None? ==> r == RatingRecord(NoData, NoData)
    ensures block.Some? ==>
      r.rating == (if block.value.stars.Some? then Trim(block.value.stars.value) else NoData)
    ensures block.Some? && block.value.reviews.Some? ==>
      r.reviews == Filter(block.value.reviews.value, IsDigit)
    ensures block.Some? && block.value.reviews.None? ==> r.reviews == NoData
  {
    match block
    case None => RatingRecord(NoData, NoData)
    case Some(b) =>
      var rating := if b.stars.Some? then Trim(b.stars.value) else NoData;
      var reviews := if b.reviews.Some? then ReviewCount(b.reviews.value) else NoData;
      RatingRecord(rating, reviews)
  }

  /**
   * The reviews field tells a read count from the placeholder: it is all
   * digits exactly when the reviews element was present.
   */
  lemma ReviewsReadIffDigits(block: Option<RatingBlock>)
    ensures AllSatisfy(GetRatingAndReviews(block).reviews, IsDigit) <==>
      block.Some? && block.value.reviews.Some?
  {
    assert !IsDigit(NoData[0]);
  }

  /** A review count written with a thousands separator and a word loses both. */
  lemma ReviewCountExample()
    ensures ReviewCount("1,234 отзыва") == "1234"
  {
    assert Filter("1" + "," + "234" + " отзыва", IsDigit) == "1234" by {
      DigitsAcrossSeparators("1", ",", "234", " отзыва");
    }
    assert "1,234 отзыва" == "1" + "," + "234" + " отзыва";
  }

  /** Digits on either side of a non-digit separator and a trailing word are joined. */
  lemma DigitsAcrossSeparators(head: string, sep: string, tail: string, word: string)
    requires AllSatisfy(head, IsDigit) && AllSatisfy(tail, IsDigit)
    requires NoneSatisfy(sep, IsDigit) && NoneSatisfy(word, IsDigit)
    ensures Filter(head + sep + tail + word, IsDigit) == head + tail
  {
    var a := head + sep;
    var b := a + tail;
    assert Filter(a, IsDigit) == head by {
      FilterKeepsAll(head, IsDigit);
      FilterDropsAll(sep, IsDigit);
      FilterAppend(head, sep, IsDigit);
    }
    assert Filter(b, IsDigit) == head + tail by {
      FilterKeepsAll(tail, IsDigit);
      FilterAppend(a, tail, IsDigit);
    }
    FilterDropsAll(word, IsDigit);
    FilterAppend(b, word, IsDigit);
  }
}
