/**
 * The values a swipe session records: the two user slots sharing one device,
 * the two swipe directions, and one swipe decision.
 */
module SwipeTypes {

  /** The two user slots. */
  datatype User = A | B

  /** Left rejects a venue, right accepts it. */
  datatype Direction = Left | Right

  /** One swipe: which venue, which way, whether that means "liked", and when. */
  datatype Decision = Decision(venueId: string, direction: Direction, liked: bool, timestamp: int)

  /** The slot that is not `u`. */
  function Other(u: User): (v: User)
    ensures v != u
  {
    if u == A then B else A
  }

  /** A decision is consistent when it counts as liked exactly for a right swipe. */
  ghost predicate Consistent(d: Decision)
  {
    d.liked <==> d.direction == Right
  }

  /** The decision `recordSwipe` builds; the clock reading is passed in. */
  function MakeDecision(venueId: string, direction: Direction, timestamp: int): (d: Decision)
    ensures Consistent(d)
    ensures d.venueId == venueId && d.direction == direction && d.timestamp == timestamp
  {
    Decision(venueId, direction, direction == Right, timestamp)
  }

  /** Every decision of a log is consistent. */
  ghost predicate ConsistentLog(log: seq<Decision>)
  {
    forall i :: 0 <= i < |log| ==> Consistent(log[i])
  }
}
