/**
  The PRIORITY block of main.py (lines 152-156): scan the priority list and
  take the first label that was detected.
 */
module Arbiter {
  import opened Options
  import opened Gestures

  /** The index the `for p in PRIORITY` loop breaks at, or |order| when it
      runs to completion. */
  function FirstIndex(order: seq<Gesture>, detected: seq<Gesture>): (k: nat)
    ensures k <= |order|
    ensures forall j :: 0 <= j < k ==> order[j] !in detected
    ensures k < |order| ==> order[k] in detected
    decreases |order|
  {
    if |order| == 0 then 0
    else if order[0] in detected then 0
    else 1 + FirstIndex(order[1..], detected)
  }

  /** The winning label of a frame: the detected label of least rank, or none
      when nothing was detected. */
  function Arbitrate(detected: seq<Gesture>): (r: Option<Gesture>)
    ensures r.Some? ==> r.value in detected
    ensures r.Some? ==> forall g :: g in detected ==> Rank(r.value) <= Rank(g)
    ensures r.None? <==> |detected| == 0
  {
    FullScanFindsDetected(detected);
    var k := FirstIndex(Priority, detected);
    if k < |Priority| then
      RankOfPosition(k);
      Some(Priority[k])
    else
      None
  }

  /** Priority lists every label, so a non-empty `detected` stops the scan. */
  lemma FullScanFindsDetected(detected: seq<Gesture>)
    ensures |detected| > 0 ==> FirstIndex(Priority, detected) < |Priority|
  {
    if |detected| > 0 {
      assert Priority[Rank(detected[0])] in detected;
    }
  }

  /** The winner is determined by the detected labels alone: any detected
      label ranked no lower than every other detected label is the winner. */
  lemma {:induction false} ArbitrateIsLeastRanked(detected: seq<Gesture>, g: Gesture)
    requires g in detected
    requires forall h :: h in detected ==> Rank(g) <= Rank(h)
    ensures Arbitrate(detected) == Some(g)
  {
    var w := Arbitrate(detected).value;
    assert Rank(w) == Rank(g);
  }

  /** Order and repetition in `detected` do not matter. */
  lemma SameLabelsSameWinner(d1: seq<Gesture>, d2: seq<Gesture>)
    requires forall g :: g in d1 <==> g in d2
    ensures Arbitrate(d1) == Arbitrate(d2)
  {
    if |d1| > 0 {
      var w := Arbitrate(d1).value;
      ArbitrateIsLeastRanked(d2, w);
    }
  }

  /** When the detected labels are already in priority order, the winner is
      simply the first of them. */
  lemma WinnerIsHead(detected: seq<Gesture>)
    requires forall i, j :: 0 <= i < j < |detected| ==> Rank(detected[i]) < Rank(detected[j])
    ensures Arbitrate(detected) == if |detected| == 0 then None else Some(detected[0])
  {
    if |detected| > 0 {
      forall h | h in detected
        ensures Rank(detected[0]) <= Rank(h)
      {
        var j :| 0 <= j < |detected| && detected[j] == h;
      }
      ArbitrateIsLeastRanked(detected, detected[0]);
    }
  }
}
