/** The presence label shown under the camera preview.
    The detector reports each hand with a handedness seen from the camera; the
    preview is mirrored, so a single hand is announced with the opposite side. */
module HandLabels {

  /** One hand as the detector reports it: only its handedness is read. */
  datatype Hand = Hand(handedness: string)

  /** The two sides the detector names. */
  datatype Side = Left | Right

  const BothHands: string := "Both Hands Detected"
  const LeftHand: string := "Left Hand Detected"
  const RightHand: string := "Right Hand Detected"
  const NoHands: string := "No Hands Detected"

  /** The detector's name for a side. */
  function SideName(side: Side): string {
    match side
    case Left => "Left"
    case Right => "Right"
  }

  /** The other side: what a mirrored preview shows. */
  function Mirror(side: Side): (m: Side)
    ensures m != side
  {
    match side
    case Left => Right
    case Right => Left
  }

  /** The label announcing a single hand on `side`. */
  function SideLabel(side: Side): string {
    SideName(side) + " Hand Detected"
  }

  /** Whether a sample with `count` hands counts as presence. */
  predicate HandsPresent(count: nat) {
    count == 1 || count == 2
  }

  /** The label chosen for one detector sample. */
  function Label(hands: seq<Hand>): (r: string)
    ensures r == BothHands || r == LeftHand || r == RightHand || r == NoHands
  {
    if |hands| == 2 then BothHands
    else if |hands| == 1 then
      (if hands[0].handedness == "Right" then LeftHand else RightHand)
    else NoHands
  }

  /** A single hand is announced on the side opposite to the detector's. */
  lemma SingleHandMirrored(side: Side, h: Hand)
    requires h.handedness == SideName(side)
    ensures Label([h]) == SideLabel(Mirror(side))
  {
    match side
    case Left =>
      assert SideName(Left) != "Right";
    case Right =>
  }

  /** A handedness the detector does not name as "Right" (including an
      unexpected string) is announced as the right hand. */
  lemma NonRightIsRightLabel(h: Hand)
    requires h.handedness != SideName(Right)
    ensures Label([h]) == SideLabel(Right)
  {
  }

  /** The label says "no hands" exactly when the sample does not count as
      presence, i.e. exactly when the timer is told to stop. */
  lemma LabelMatchesPresence(hands: seq<Hand>)
    ensures Label(hands) != NoHands <==> HandsPresent(|hands|)
    ensures Label(hands) == BothHands <==> |hands| == 2
  {
    assert NoHands != BothHands && NoHands != LeftHand && NoHands != RightHand;
    assert BothHands != LeftHand && BothHands != RightHand;
  }
}
