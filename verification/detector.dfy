/**
  The GESTURES block of main.py (lines 127-149): independent rules over one
  frame's features, each appending its label to the `detected` list.
 */
module Detector {
  import opened Gestures
  import opened Features

  /** Labels in `detected` appear in strictly increasing priority rank. */
  predicate InPriorityOrder(d: seq<Gesture>) {
    forall i, j :: 0 <= i < j < |d| ==> Rank(d[i]) < Rank(d[j])
  }

  /** The rule table: whether the rule for g holds of the frame's features.
      angry and devious have no rule. */
  predicate Fires(fs: FeatureSet, g: Gesture) {
    match g
    case Shock => fs.handsCount == 2 && fs.handsHead
    case Angry => false
    case AbsoluteCinema => fs.handsCount == 2
    case Thumb => fs.thumbsUpCount == 1
    case Devious => false
    case Laugh => fs.mouthOpen
    case Monkey => fs.fingerLips
    case LemmeKnow => fs.eyeClosed && fs.headUp && fs.handsCount == 0
  }

  /** Every label in d ranks strictly below k. */
  predicate AllRankedBelow(d: seq<Gesture>, k: nat) {
    forall h :: h in d ==> Rank(h) < k
  }

  /** `if condition: detected.append(g)`. */
  function AppendIf(d: seq<Gesture>, condition: bool, g: Gesture): (r: seq<Gesture>)
    ensures forall h :: h in r <==> h in d || (condition && h == g)
    ensures InPriorityOrder(d) && AllRankedBelow(d, Rank(g)) ==> InPriorityOrder(r)
  {
    if condition then d + [g] else d
  }

  /** The labels that have a rule, in the order main.py evaluates the rules;
      angry and devious have none. */
  const RuleOrder: seq<Gesture> := [Shock, AbsoluteCinema, Thumb, Laugh, Monkey, LemmeKnow]

  /** The `detected` list after evaluating `rules` in order, each appending its
      label when it fires. */
  function Collect(fs: FeatureSet, rules: seq<Gesture>): (d: seq<Gesture>)
    ensures forall g :: g in d <==> g in rules && Fires(fs, g)
    ensures InPriorityOrder(rules) ==> InPriorityOrder(d)
    decreases |rules|
  {
    if |rules| == 0 then
      []
    else
      var prefix := rules[..|rules| - 1];
      var last := rules[|rules| - 1];
      var before := Collect(fs, prefix);
      assert InPriorityOrder(rules) ==> AllRankedBelow(before, Rank(last)) by {
        if InPriorityOrder(rules) {
          forall h | h in before ensures Rank(h) < Rank(last) {
            var i :| 0 <= i < |prefix| && prefix[i] == h;
            assert rules[i] == h;
          }
        }
      }
      assert InPriorityOrder(rules) ==> InPriorityOrder(prefix) by {
        if InPriorityOrder(rules) {
          forall i, j | 0 <= i < j < |prefix| ensures Rank(prefix[i]) < Rank(prefix[j]) {
            assert prefix[i] == rules[i] && prefix[j] == rules[j];
          }
        }
      }
      AppendIf(before, Fires(fs, last), last)
  }

  /** The `detected` list of a frame (main.py lines 127-149): exactly the
      labels whose rule fires, in priority order. */
  function Detect(fs: FeatureSet): (d: seq<Gesture>)
    ensures forall g :: g in d <==> Fires(fs, g)
    ensures InPriorityOrder(d)
  {
    assert InPriorityOrder(RuleOrder);
    assert forall g :: Fires(fs, g) ==> g in RuleOrder;
    Collect(fs, RuleOrder)
  }

  /** Two feature sets agree on every signal a detection rule reads. */
  predicate SameRuleInputs(a: FeatureSet, b: FeatureSet) {
    && a.mouthOpen == b.mouthOpen
    && a.eyeClosed == b.eyeClosed
    && a.headUp == b.headUp
    && a.handsCount == b.handsCount
    && a.handsHead == b.handsHead
    && a.fingerLips == b.fingerLips
    && a.thumbsUpCount == b.thumbsUpCount
  }

  /** smile, fist, hands_close and fist_near_mouth are computed but read by
      no rule: feature sets differing only in them detect the same labels. */
  lemma UnusedSignalsIgnored(a: FeatureSet, b: FeatureSet)
    requires SameRuleInputs(a, b)
    ensures Detect(a) == Detect(b)
  {
    SameFiringSameList(a, b, RuleOrder);
  }

  /** Feature sets on which every rule agrees build the same list. */
  lemma {:induction false} SameFiringSameList(a: FeatureSet, b: FeatureSet, rules: seq<Gesture>)
    requires forall g :: Fires(a, g) == Fires(b, g)
    ensures Collect(a, rules) == Collect(b, rules)
    decreases |rules|
  {
    if |rules| > 0 {
      SameFiringSameList(a, b, rules[..|rules| - 1]);
    }
  }
}
