/**
 * Region selection (`setRegion`). The page is abstracted to the raw
 * `textContent` of the label that shows the current region and of the items
 * of the region list, in document order; the clicks and waits are left to
 * the caller. Both the label and every item are trimmed before comparison.
 */
module Region {
  import opened Wrappers
  import opened Text

  /** What the selector does: nothing, click the item at `index`, or fail. */
  datatype Choice = AlreadySelected | Select(index: nat) | NotFound

  /** The label, missing or not, shows `region` once trimmed. */
  predicate Shows(current: Option<string>, region: string) {
    current.Some? && Trim(current.value) == region
  }

  /** An item matches when its trimmed text contains `region`. */
  ghost predicate ItemMatches(item: string, region: string) {
    IsSubstring(region, Trim(item))
  }

  /** The item texts as the loop reads them, each trimmed. */
  function TrimAll(items: seq<string>): (r: seq<string>)
    ensures |r| == |items|
    ensures forall j :: 0 <= j < |items| ==> r[j] == Trim(items[j])
  {
    if items == [] then [] else [Trim(items[0])] + TrimAll(items[1..])
  }

  /** The index of the first text, in document order, that contains `region`. */
  function FirstMatch(texts: seq<string>, region: string): (r: Option<nat>)
    ensures r.Some? ==> r.value < |texts| && IsSubstring(region, texts[r.value])
    ensures r.Some? ==> forall j :: 0 <= j < r.value ==> !IsSubstring(region, texts[j])
    ensures r.None? ==> forall j :: 0 <= j < |texts| ==> !IsSubstring(region, texts[j])
  {
    if texts == [] then None
    else if Includes(texts[0], region) then Some(0)
    else
      match FirstMatch(texts[1..], region)
      case None => None
      case Some(k) => Some(k + 1)
  }

  /**
   * The decision of `setRegion` for the displayed label `current` (absent
   * when the label element is missing), the item texts `items` and the
   * requested `region`.
   */
  function ChooseRegion(current: Option<string>, items: seq<string>, region: string): (r: Choice)
    ensures r.AlreadySelected? <==> current.Some? && Trim(current.value) == region
    ensures r.Select? ==>
      && r.index < |items|
      && IsSubstring(region, Trim(items[r.index]))
      && forall j :: 0 <= j < r.index ==> !IsSubstring(region, Trim(items[j]))
    ensures r.NotFound? <==>
      && !(current.Some? && Trim(current.value) == region)
      && forall j :: 0 <= j < |items| ==> !IsSubstring(region, Trim(items[j]))
  {
    if Shows(current, region) then AlreadySelected
    else
      match FirstMatch(TrimAll(items), region)
      case None => NotFound
      case Some(i) => Select(i)
  }

  /** The item chosen is unique: any item index with the least-match property is the chosen one. */
  lemma SelectIsLeastMatch(current: Option<string>, items: seq<string>, region: string, i: nat)
    requires !Shows(current, region)
    requires i < |items| && ItemMatches(items[i], region)
    requires forall j :: 0 <= j < i ==> !ItemMatches(items[j], region)
    ensures ChooseRegion(current, items, region) == Select(i)
  {
  }

  /**
   * Selection matches by containment: an item whose trimmed text spells the
   * region exactly is always a match.
   */
  lemma ExactItemMatches(current: Option<string>, items: seq<string>, region: string, i: nat)
    requires !Shows(current, region)
    requires i < |items| && Trim(items[i]) == region
    ensures ChooseRegion(current, items, region).Select?
    ensures ChooseRegion(current, items, region).index <= i
  {
    assert OccursAt(region, Trim(items[i]), 0);
  }

  /**
   * Whitespace around the label text does not matter: a label that is the
   * region padded with whitespace already shows it, whatever the list holds.
   */
  lemma PaddedLabelIsSelected(pre: string, region: string, post: string, items: seq<string>)
    requires AllSpace(pre) && AllSpace(post)
    requires region == [] || (!IsSpace(region[0]) && !IsSpace(region[|region| - 1]))
    ensures ChooseRegion(Some(pre + region + post), items, region) == AlreadySelected
  {
    TrimOfPadded(pre, region, post);
  }

  /** The same for the items: padding around an item's text does not stop it matching. */
  lemma PaddedItemMatches(current: Option<string>, items: seq<string>, region: string, i: nat,
                          pre: string, post: string)
    requires !Shows(current, region)
    requires AllSpace(pre) && AllSpace(post)
    requires region == [] || (!IsSpace(region[0]) && !IsSpace(region[|region| - 1]))
    requires i < |items| && items[i] == pre + region + post
    ensures ChooseRegion(current, items, region).Select?
    ensures ChooseRegion(current, items, region).index <= i
  {
    TrimOfPadded(pre, region, post);
    ExactItemMatches(current, items, region, i);
  }
}
