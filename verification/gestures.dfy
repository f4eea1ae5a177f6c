/**
  The gesture labels of main.py, the fixed priority order in which the
  arbiter scans them, and the keys of the IMAGES table the display looks
  latched labels up in.
 */
module Gestures {

  /** One constructor per string label of the PRIORITY list. */
  datatype Gesture = Shock | Angry | AbsoluteCinema | Thumb | Devious | Laugh | Monkey | LemmeKnow

  /** The string each label has in the source. */
  function Label(g: Gesture): string {
    match g
    case Shock => "shock"
    case Angry => "angry"
    case AbsoluteCinema => "Absolute Cinema"
    case Thumb => "thumb"
    case Devious => "devious"
    case Laugh => "laugh"
    case Monkey => "monkey"
    case LemmeKnow => "lemme know"
  }

  /** Distinct labels have distinct strings, so the enumeration loses nothing
      against the source's string comparisons. */
  lemma LabelInjective(g: Gesture, h: Gesture)
    ensures Label(g) == Label(h) <==> g == h
  {
  }

  /** The arbitration order, highest priority first. */
  const Priority: seq<Gesture> := [Shock, Angry, AbsoluteCinema, Thumb, Devious, Laugh, Monkey, LemmeKnow]

  /** The position of a label in Priority; every label occurs there. */
  function Rank(g: Gesture): (k: nat)
    ensures k < |Priority| && Priority[k] == g
  {
    match g
    case Shock => 0
    case Angry => 1
    case AbsoluteCinema => 2
    case Thumb => 3
    case Devious => 4
    case Laugh => 5
    case Monkey => 6
    case LemmeKnow => 7
  }

  /** Priority lists every label exactly once: Rank and indexing are inverse. */
  lemma RankOfPosition(i: int)
    requires 0 <= i < |Priority|
    ensures Rank(Priority[i]) == i
  {
  }

  /** The keys of the IMAGES table. */
  const ImageKeys: set<string> := {"shock", "laugh", "monkey", "lemme know", "Absolute Cinema", "thumb"}

  /** The display can look this label up without a KeyError. */
  predicate HasImage(g: Gesture) {
    Label(g) in ImageKeys
  }

  /** Exactly the two labels without a detection rule lack an image. */
  lemma HasImageIffNotInert(g: Gesture)
    ensures HasImage(g) <==> g != Angry && g != Devious
  {
  }
}
