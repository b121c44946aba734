/**
 * Price extraction (`getPriceInfo`) and the rewrite of the old price that the
 * caller applies afterwards. The page is abstracted to the information block
 * and, inside it, the three price elements the extractor looks up; each text
 * is the element's raw `textContent`.
 */
module Prices {
  import opened Wrappers
  import opened Text

  /** A price element: its text and, when present, the text of its fraction sub-element. */
  datatype PriceElement = PriceElement(text: string, fraction: Option<string>)

  /**
   * The information block: the regular-price element, the discount-price
   * element and the price element inside the old-price box, each absent or present.
   */
  datatype InfoBlock = InfoBlock(
    regular: Option<PriceElement>,
    discount: Option<PriceElement>,
    oldPrice: Option<string>)

  /** The four-field price record; `None` is `null`. */
  datatype PriceRecord = PriceRecord(
    oldPrice: Option<string>,
    newPrice: Option<string>,
    singlePrice: Option<string>,
    unit: Option<string>)

  /** The record the extractor starts from: every field `null`. */
  const NoPrices := PriceRecord(None, None, None, None)

  /** Characters kept in an amount: `\d`, `.` and `,`. */
  predicate IsAmountChar(c: char) {
    IsDigit(c) || c == '.' || c == ','
  }

  /** Characters kept in a unit: everything but `\d`, `.`, `,` and `\s`. */
  predicate IsUnitChar(c: char) {
    !(IsDigit(c) || c == '.' || c == ',' || IsSpace(c))
  }

  /** The class `[\d.,]` is exactly the digits, `.` and `,`, none of them whitespace. */
  lemma AmountClass(c: char)
    ensures IsAmountChar(c) <==> c in "0123456789.,"
    ensures IsAmountChar(c) ==> !IsSpace(c)
  {
  }

  /** Every character is exactly one of amount character, whitespace or unit character. */
  lemma UnitClass(c: char)
    ensures IsUnitChar(c) <==> !IsAmountChar(c) && !IsSpace(c)
    ensures !(IsAmountChar(c) && IsSpace(c))
  {
  }

  /** A unit, when present, holds no digit, `.`, `,` or whitespace. */
  predicate UnitClean(unit: Option<string>) {
    unit.Some? ==> AllSatisfy(unit.value, IsUnitChar)
  }

  /** The single-price layout and the discount layout are never both populated. */
  predicate LayoutExclusive(p: PriceRecord) {
    !(p.singlePrice.Some? && (p.oldPrice.Some? || p.newPrice.Some?))
  }

  /** The unit read from a price element: its trimmed fraction text with amount characters and whitespace removed. */
  function UnitOf(e: PriceElement): (u: Option<string>)
    ensures u.Some? <==> e.fraction.Some?
    ensures u.Some? ==> u.value == Filter(e.fraction.value, IsUnitChar)
  {
    match e.fraction
    case None => None
    case Some(f) =>
      FilterIgnoresTrim(f, IsUnitChar);
      Some(Filter(Trim(f), IsUnitChar))
  }

  /** `getPriceInfo`: classify the information block into a price record. */
  function GetPriceInfo(block: Option<InfoBlock>): (r: PriceRecord)
    ensures block.None? ==> r == NoPrices
    ensures LayoutExclusive(r)
    ensures UnitClean(r.unit)
    // single-price layout: the regular element wins and the discount branch is never read
    ensures block.Some? && block.value.regular.Some? ==>
      && r.singlePrice == Some(Trim(block.value.regular.value.text))
      && r.oldPrice.None? && r.newPrice.None?
      && r.unit == UnitOf(block.value.regular.value)
    // otherwise: new and old price independently, each exactly when its element is present
    ensures block.Some? && block.value.regular.None? ==>
      && r.singlePrice.None?
      && (r.newPrice.Some? <==> block.value.discount.Some?)
      && (r.newPrice.Some? ==> r.newPrice.value == Trim(block.value.discount.value.text))
      && (r.oldPrice.Some? <==> block.value.oldPrice.Some?)
      && (r.oldPrice.Some? ==> r.oldPrice.value == Trim(block.value.oldPrice.value))
      && r.unit == (if block.value.discount.Some? then UnitOf(block.value.discount.value) else None)
  {
    match block
    case None => NoPrices
    case Some(b) =>
      match b.regular
      case Some(single) =>
        NoPrices.(singlePrice := Some(Trim(single.text)), unit := UnitOf(single))
      case None =>
        var withNew :=
          match b.discount
          case None => NoPrices
          case Some(d) => NoPrices.(newPrice := Some(Trim(d.text)), unit := UnitOf(d));
        match b.oldPrice
        case None => withNew
        case Some(o) => withNew.(oldPrice := Some(Trim(o)))
  }

  /** The unit, when there is one, is the cleaned fraction text of the element whose price was taken. */
  lemma UnitComesFromChosenElement(block: Option<InfoBlock>)
    ensures GetPriceInfo(block).unit.Some? ==>
      exists e :: e in ChosenElements(block) && e.fraction.Some?
        && GetPriceInfo(block).unit.value == Filter(e.fraction.value, IsUnitChar)
  {
  }

  /** The element whose price and unit the extractor reads: the regular one if present, else the discount one. */
  function ChosenElements(block: Option<InfoBlock>): set<PriceElement> {
    match block
    case None => {}
    case Some(b) =>
      if b.regular.Some? then {b.regular.value}
      else if b.discount.Some? then {b.discount.value}
      else {}
  }

  /** JavaScript truthiness of a nullable string: present and non-empty. */
  predicate Truthy(s: Option<string>) {
    s.Some? && s.value != ""
  }

  /**
   * The old-price rewrite done after extraction: when the old price and the
   * unit are both truthy, the old price becomes its amount characters, a
   * space and the unit; otherwise the record is left alone.
   */
  function NormalizeOldPrice(p: PriceRecord): (r: PriceRecord)
    ensures r.newPrice == p.newPrice && r.singlePrice == p.singlePrice && r.unit == p.unit
    ensures Truthy(p.oldPrice) && Truthy(p.unit) ==>
      r.oldPrice == Some(Filter(p.oldPrice.value, IsAmountChar) + " " + p.unit.value)
    ensures !(Truthy(p.oldPrice) && Truthy(p.unit)) ==> r == p
    ensures LayoutExclusive(p) ==> LayoutExclusive(r)
  {
    if Truthy(p.oldPrice) && Truthy(p.unit) then
      var amount := Filter(p.oldPrice.value, IsAmountChar);
      AmountHasNoSpace(amount);
      TrimNoSpace(amount);
      p.(oldPrice := Some(Trim(amount) + " " + p.unit.value))
    else
      p
  }

  /** A rewritten old price splits back into its amount and its unit at the one space it contains. */
  lemma NormalizedOldPriceSplits(p: PriceRecord)
    requires UnitClean(p.unit)
    requires Truthy(p.oldPrice) && Truthy(p.unit)
    ensures var s := NormalizeOldPrice(p).oldPrice.value;
      var k := |Filter(p.oldPrice.value, IsAmountChar)|;
      && k < |s| && s[k] == ' '
      && AllSatisfy(s[..k], IsAmountChar)
      && s[k + 1..] == p.unit.value
      && forall i :: 0 <= i < |s| && i != k ==> s[i] != ' '
  {
    var amount := Filter(p.oldPrice.value, IsAmountChar);
    var s := NormalizeOldPrice(p).oldPrice.value;
    assert s == amount + " " + p.unit.value;
    assert s[..|amount|] == amount;
    assert s[|amount| + 1..] == p.unit.value;
    forall i | 0 <= i < |s| && i != |amount| ensures s[i] != ' ' {
      if i < |amount| {
        assert IsAmountChar(amount[i]);
      } else {
        assert s[i] == p.unit.value[i - |amount| - 1];
        assert IsUnitChar(p.unit.value[i - |amount| - 1]);
      }
    }
  }

  /**
   * With a clean unit the rewrite is idempotent: applying it to its own
   * output changes nothing, because the space and the unit are dropped again
   * by the amount filter.
   */
  lemma NormalizeIdempotent(p: PriceRecord)
    requires UnitClean(p.unit)
    ensures NormalizeOldPrice(NormalizeOldPrice(p)) == NormalizeOldPrice(p)
  {
    var q := NormalizeOldPrice(p);
    if Truthy(p.oldPrice) && Truthy(p.unit) {
      var amount := Filter(p.oldPrice.value, IsAmountChar);
      AmountOfRewritten(amount, p.unit.value);
      assert Filter(q.oldPrice.value, IsAmountChar) == amount;
    }
  }

  /** Filtering `amount + " " + unit` back to amount characters recovers `amount`. */
  lemma AmountOfRewritten(amount: string, unit: string)
    requires AllSatisfy(amount, IsAmountChar)
    requires AllSatisfy(unit, IsUnitChar)
    ensures Filter(amount + " " + unit, IsAmountChar) == amount
  {
    FilterAppend(amount + " ", unit, IsAmountChar);
    FilterAppend(amount, " ", IsAmountChar);
    FilterKeepsAll(amount, IsAmountChar);
    assert NoneSatisfy(" ", IsAmountChar);
    FilterDropsAll(" ", IsAmountChar);
    assert NoneSatisfy(unit, IsAmountChar) by {
      forall i | 0 <= i < |unit| ensures !IsAmountChar(unit[i]) {
        assert IsUnitChar(unit[i]);
      }
    }
    FilterDropsAll(unit, IsAmountChar);
  }

  /** Amount characters are never whitespace. */
  lemma AmountHasNoSpace(s: string)
    requires AllSatisfy(s, IsAmountChar)
    ensures NoSpace(s)
  {
  }

  /**
   * A discount block whose texts are already trimmed and whose fraction text
   * is clean yields exactly the discount pair and that unit.
   */
  lemma DiscountBlockPrices(newText: string, unit: string, oldText: string)
    requires Trim(newText) == newText && Trim(oldText) == oldText
    requires AllSatisfy(unit, IsUnitChar)
    ensures GetPriceInfo(Some(InfoBlock(None, Some(PriceElement(newText, Some(unit))), Some(oldText))))
      == PriceRecord(Some(oldText), Some(newText), None, Some(unit))
  {
    FilterKeepsAll(unit, IsUnitChar);
  }

  /** An old price that is already a plain amount only gets the unit appended. */
  lemma RewritePlainAmount(p: PriceRecord)
    requires Truthy(p.oldPrice) && Truthy(p.unit)
    requires AllSatisfy(p.oldPrice.value, IsAmountChar)
    ensures NormalizeOldPrice(p) == p.(oldPrice := Some(p.oldPrice.value + " " + p.unit.value))
  {
    FilterKeepsAll(p.oldPrice.value, IsAmountChar);
  }

  /** Extraction followed by the rewrite keeps both record invariants. */
  lemma ScrapedPricesWellFormed(block: Option<InfoBlock>)
    ensures LayoutExclusive(NormalizeOldPrice(GetPriceInfo(block)))
    ensures UnitClean(NormalizeOldPrice(GetPriceInfo(block)).unit)
    ensures NormalizeOldPrice(NormalizeOldPrice(GetPriceInfo(block))) == NormalizeOldPrice(GetPriceInfo(block))
  {
    NormalizeIdempotent(GetPriceInfo(block));
  }
}
