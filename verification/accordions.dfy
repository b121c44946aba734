/**
 * Accordion expansion in `savePrepare`. Each accordion is a `<details>`
 * element; the page is abstracted to their `open` flags in document order,
 * and a click toggles the flag of the element clicked.
 */
module Accordions {

  /** Every accordion is open. */
  predicate AllOpen(open: seq<bool>) {
    forall i :: 0 <= i < |open| ==> open[i]
  }

  /** Each index is a valid position and the indices strictly increase (document order, no repeats). */
  predicate ValidClicks(clicks: seq<nat>, n: nat) {
    && (forall k :: 0 <= k < |clicks| ==> clicks[k] < n)
    && (forall k, l :: 0 <= k < l < |clicks| ==> clicks[k] < clicks[l])
  }

  /** The effect of a click: the clicked accordion changes state, no other does. */
  function Click(open: seq<bool>, i: nat): (r: seq<bool>)
    requires i < |open|
    ensures |r| == |open|
    ensures r[i] == !open[i]
    ensures forall j :: 0 <= j < |open| && j != i ==> r[j] == open[j]
  {
    open[i := !open[i]]
  }

  /** Clicking the same accordion twice restores it. */
  lemma ClickTwice(open: seq<bool>, i: nat)
    requires i < |open|
    ensures Click(Click(open, i), i) == open
  {
  }

  /** The open flags after the clicks `clicks`, performed in order. */
  function ApplyClicks(open: seq<bool>, clicks: seq<nat>): (r: seq<bool>)
    requires forall k :: 0 <= k < |clicks| ==> clicks[k] < |open|
    ensures |r| == |open|
  {
    if clicks == [] then open
    else Click(ApplyClicks(open, clicks[..|clicks| - 1]), clicks[|clicks| - 1])
  }

  /** An accordion that is never clicked keeps its state. */
  lemma {:induction false} UnclickedUnchanged(open: seq<bool>, clicks: seq<nat>)
    requires forall k :: 0 <= k < |clicks| ==> clicks[k] < |open|
    ensures forall j :: 0 <= j < |open| && j !in clicks ==> ApplyClicks(open, clicks)[j] == open[j]
  {
    if clicks != [] {
      var init := clicks[..|clicks| - 1];
      UnclickedUnchanged(open, init);
      assert forall j :: j in init ==> j in clicks;
    }
  }

  /** When no accordion is clicked twice, every clicked one ends in the opposite state. */
  lemma {:induction false} ClickedAreToggled(open: seq<bool>, clicks: seq<nat>)
    requires forall k :: 0 <= k < |clicks| ==> clicks[k] < |open|
    requires forall k, l :: 0 <= k < l < |clicks| ==> clicks[k] != clicks[l]
    ensures forall j :: j in clicks ==> ApplyClicks(open, clicks)[j] == !open[j]
  {
    if clicks != [] {
      var init, last := clicks[..|clicks| - 1], clicks[|clicks| - 1];
      ClickedAreToggled(open, init);
      UnclickedUnchanged(open, init);
      assert last !in init;
      assert clicks == init + [last];
    }
  }

  /**
   * The state of the loop after it has examined the first `i` accordions:
   * it clicked exactly the closed ones among them, in order; those are now
   * open and the rest are untouched.
   */
  predicate Progress(open: seq<bool>, clicks: seq<nat>, state: seq<bool>, i: nat) {
    && i <= |open| == |state|
    && ValidClicks(clicks, i)
    && (forall j :: 0 <= j < i ==> state[j])
    && (forall j :: i <= j < |open| ==> state[j] == open[j])
    && (forall j :: 0 <= j < i ==> (j in clicks <==> !open[j]))
  }

  /** Examining a closed accordion: click it. */
  lemma StepClosed(open: seq<bool>, clicks: seq<nat>, state: seq<bool>, i: nat)
    requires Progress(open, clicks, state, i) && i < |open| && !state[i]
    ensures Progress(open, clicks + [i], Click(state, i), i + 1)
  {
    SnocValid(clicks, i);
    SnocMembers(clicks, i);
  }

  /** Appending the next index keeps the clicks in range and increasing. */
  lemma SnocValid(clicks: seq<nat>, i: nat)
    requires ValidClicks(clicks, i)
    ensures ValidClicks(clicks + [i], i + 1)
  {
    assert forall k :: 0 <= k < |clicks| ==> (clicks + [i])[k] == clicks[k];
  }

  /** The members of `clicks + [i]` are those of `clicks` and `i`. */
  lemma SnocMembers(clicks: seq<nat>, i: nat)
    ensures forall j :: j in clicks + [i] <==> j in clicks || j == i
  {
  }

  /** Examining an open accordion: leave it. */
  lemma StepOpen(open: seq<bool>, clicks: seq<nat>, state: seq<bool>, i: nat)
    requires Progress(open, clicks, state, i) && i < |open| && state[i]
    ensures Progress(open, clicks, state, i + 1)
  {
  }

  /**
   * After the last accordion, the clicks give everything the method
   * promises: performing them opens every accordion.
   */
  lemma Finish(open: seq<bool>, clicks: seq<nat>, state: seq<bool>)
    requires Progress(open, clicks, state, |open|)
    ensures ValidClicks(clicks, |open|)
    ensures forall i :: 0 <= i < |open| ==> (i in clicks <==> !open[i])
    ensures AllOpen(ApplyClicks(open, clicks))
    ensures AllOpen(open) ==> clicks == []
  {
    UnclickedUnchanged(open, clicks);
    ClickedAreToggled(open, clicks);
    if clicks != [] {
      assert clicks[0] in clicks;
    }
  }

  /**
   * The loop over the accordions: read each one's `open` attribute from the
   * current page state and click it only when it is closed. The clicks are
   * exactly the accordions that were closed, after them every accordion is
   * open, and a pass over accordions that are all open clicks nothing, so a
   * second pass is a no-op.
   */
  method ExpandAccordions(open: seq<bool>) returns (clicks: seq<nat>)
    ensures ValidClicks(clicks, |open|)
    ensures forall i :: 0 <= i < |open| ==> (i in clicks <==> !open[i])
    ensures AllOpen(ApplyClicks(open, clicks))
    ensures AllOpen(open) ==> clicks == []
  {
    var state := open;
    clicks := [];
    var i := 0;
    while i < |open|
      invariant Progress(open, clicks, state, i)
    {
      if !state[i] {
        StepClosed(open, clicks, state, i);
        state := Click(state, i);
        clicks := clicks + [i];
      } else {
        StepOpen(open, clicks, state, i);
      }
      i := i + 1;
    }
    Finish(open, clicks, state);
  }
}
