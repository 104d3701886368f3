/**
 * The swipe session as a value: whose turn it is, the card index, and the two
 * decision logs; the three operations that change it, as functions from the
 * old session to the new one; the three queries; and what sequences of
 * operations do.
 */
module SessionModel {
  import opened SwipeTypes
  import opened MatchResolver

  /** The two per-slot decision logs, oldest decision first. */
  datatype SwipeHistory = SwipeHistory(userA: seq<Decision>, userB: seq<Decision>)

  datatype Session = Session(currentUser: User, currentIndex: nat, history: SwipeHistory)

  /** What `getProgress` reports: each slot's decision count and the catalogue size. */
  datatype Progress = Progress(userA: nat, userB: nat, total: int)

  /** A fresh session: slot A to play, index 0, both logs empty. */
  const InitialSession := Session(A, 0, SwipeHistory([], []))

  /** The log of slot `u`. */
  function LogOf(h: SwipeHistory, u: User): (log: seq<Decision>)
  {
    if u == A then h.userA else h.userB
  }

  /**
   * `recordSwipe`: the new decision goes at the end of the active slot's log,
   * the other log and the active slot stay as they were, the index advances.
   */
  function RecordSwipe(s: Session, venueId: string, direction: Direction, timestamp: int): (t: Session)
    ensures t.currentUser == s.currentUser
    ensures t.currentIndex == s.currentIndex + 1
    ensures LogOf(t.history, s.currentUser)
         == LogOf(s.history, s.currentUser) + [MakeDecision(venueId, direction, timestamp)]
    ensures LogOf(t.history, Other(s.currentUser)) == LogOf(s.history, Other(s.currentUser))
  {
    var d := MakeDecision(venueId, direction, timestamp);
    var h := s.history;
    var h' := if s.currentUser == A then h.(userA := h.userA + [d]) else h.(userB := h.userB + [d]);
    s.(history := h', currentIndex := s.currentIndex + 1)
  }

  /** `toggleUser`: the active slot becomes `user`; nothing else changes. */
  function ToggleUser(s: Session, user: User): (t: Session)
    ensures t.currentUser == user
    ensures t.currentIndex == s.currentIndex && t.history == s.history
  {
    s.(currentUser := user)
  }

  /** `resetSession`: both logs emptied, index 0, slot A to play. */
  function ResetSession(s: Session): (t: Session)
    ensures t.history.userA == [] && t.history.userB == []
    ensures t.currentIndex == 0 && t.currentUser == A
  {
    InitialSession
  }

  /** `getProgress`: each slot's decision count, and the total echoed back. */
  function GetProgress(h: SwipeHistory, totalVenues: int): (p: Progress)
    ensures p.userA == |h.userA| && p.userB == |h.userB| && p.total == totalVenues
  {
    Progress(|h.userA|, |h.userB|, totalVenues)
  }

  /** `isBothUsersComplete`: whether each slot has recorded `totalVenues` decisions. */
  function IsBothUsersComplete(h: SwipeHistory, totalVenues: int): (b: bool)
    ensures b <==> GetProgress(h, totalVenues).userA == totalVenues && GetProgress(h, totalVenues).userB == totalVenues
  {
    |h.userA| == totalVenues && |h.userB| == totalVenues
  }

  /**
   * `getMatches`: the venues both slots liked, each once, exactly those some
   * decision of each log likes, in the order of their first like in slot A's log.
   */
  function GetMatches(h: SwipeHistory): (r: seq<string>)
    ensures NoDuplicates(r)
    ensures forall x :: x in r <==> LikedIn(h.userA, x) && LikedIn(h.userB, x)
    ensures OrderedByFirstLike(r, h.userA)
  {
    Matches(h.userA, h.userB)
  }

  /** One call the presentation layer makes on the session. */
  datatype Op =
    | Swipe(venueId: string, direction: Direction, timestamp: int)
    | Toggle(user: User)
    | Reset

  function Apply(s: Session, op: Op): (t: Session)
  {
    match op
    case Swipe(v, dir, ts) => RecordSwipe(s, v, dir, ts)
    case Toggle(u) => ToggleUser(s, u)
    case Reset => ResetSession(s)
  }

  /** The session after the calls `ops`, first call first. */
  function Run(s: Session, ops: seq<Op>): (t: Session)
    decreases |ops|
  {
    if ops == [] then s else Run(Apply(s, ops[0]), ops[1..])
  }

  // ---------------------------------------------------------------------------
  // The session invariant

  /**
   * What every session reachable from a fresh one satisfies: every decision
   * is liked exactly when it is a right swipe, and the card index counts the
   * decisions of both slots together (`toggleUser` does not reset it).
   */
  ghost predicate Invariant(s: Session)
  {
    && ConsistentLog(s.history.userA)
    && ConsistentLog(s.history.userB)
    && s.currentIndex == |s.history.userA| + |s.history.userB|
  }

  lemma InitialSessionInvariant()
    ensures Invariant(InitialSession)
  {
  }

  /** Each operation keeps the invariant. */
  lemma ApplyKeepsInvariant(s: Session, op: Op)
    requires Invariant(s)
    ensures Invariant(Apply(s, op))
  {
  }

  /** Any sequence of calls keeps the invariant. */
  lemma {:induction false} RunKeepsInvariant(s: Session, ops: seq<Op>)
    requires Invariant(s)
    ensures Invariant(Run(s, ops))
    decreases |ops|
  {
    if ops != [] {
      ApplyKeepsInvariant(s, ops[0]);
      RunKeepsInvariant(Apply(s, ops[0]), ops[1..]);
    }
  }

  // ---------------------------------------------------------------------------
  // Counting swipes

  /** The decisions a run of swipes records, in order. */
  function DecisionsOf(ops: seq<Op>): (ds: seq<Decision>)
    requires forall i :: 0 <= i < |ops| ==> ops[i].Swipe?
  {
    if ops == [] then []
    else [MakeDecision(ops[0].venueId, ops[0].direction, ops[0].timestamp)] + DecisionsOf(ops[1..])
  }

  /**
   * A run of swipes with slot `u` active appends exactly the swiped decisions,
   * in order, to `u`'s log; the other log and the active slot do not change,
   * and the index advances once per swipe.
   */
  lemma {:induction false} SwipesAppendToActiveLog(s: Session, ops: seq<Op>)
    requires forall i :: 0 <= i < |ops| ==> ops[i].Swipe?
    ensures Run(s, ops).currentUser == s.currentUser
    ensures Run(s, ops).currentIndex == s.currentIndex + |ops|
    ensures LogOf(Run(s, ops).history, s.currentUser) == LogOf(s.history, s.currentUser) + DecisionsOf(ops)
    ensures |LogOf(Run(s, ops).history, s.currentUser)| == |LogOf(s.history, s.currentUser)| + |ops|
    ensures LogOf(Run(s, ops).history, Other(s.currentUser)) == LogOf(s.history, Other(s.currentUser))
    decreases |ops|
  {
    LengthOfDecisions(ops);
    if ops != [] {
      var op := ops[0];
      var u := s.currentUser;
      var d := MakeDecision(op.venueId, op.direction, op.timestamp);
      var s' := RecordSwipe(s, op.venueId, op.direction, op.timestamp);
      assert Apply(s, op) == s';
      assert Run(s, ops) == Run(s', ops[1..]);
      assert DecisionsOf(ops) == [d] + DecisionsOf(ops[1..]);
      SwipesAppendToActiveLog(s', ops[1..]);
      assert LogOf(Run(s, ops).history, u) == (LogOf(s.history, u) + [d]) + DecisionsOf(ops[1..]);
    }
  }

  lemma {:induction false} LengthOfDecisions(ops: seq<Op>)
    requires forall i :: 0 <= i < |ops| ==> ops[i].Swipe?
    ensures |DecisionsOf(ops)| == |ops|
    decreases |ops|
  {
    if ops != [] {
      LengthOfDecisions(ops[1..]);
    }
  }

  /** The number of swipes of `ops` made while slot `u` is active, starting with `current` active. */
  function SwipesWhileActive(current: User, ops: seq<Op>, u: User): (n: nat)
    decreases |ops|
  {
    if ops == [] then 0
    else
      match ops[0]
      case Swipe(_, _, _) => (if current == u then 1 else 0) + SwipesWhileActive(current, ops[1..], u)
      case Toggle(v) => SwipesWhileActive(v, ops[1..], u)
      case Reset => SwipesWhileActive(A, ops[1..], u)
  }

  /**
   * A counter for slot `u` that looks at no decision: it starts at `count`,
   * adds one for each swipe made while `u` is active (`current` at first),
   * and restarts at 0, with slot A active, on a reset.
   */
  function SwipesSinceReset(count: nat, current: User, ops: seq<Op>, u: User): (n: nat)
    decreases |ops|
  {
    if ops == [] then count
    else
      match ops[0]
      case Swipe(_, _, _) => SwipesSinceReset(count + (if current == u then 1 else 0), current, ops[1..], u)
      case Toggle(v) => SwipesSinceReset(count, v, ops[1..], u)
      case Reset => SwipesSinceReset(0, A, ops[1..], u)
  }

  /** Without a reset, the counter adds exactly the swipes made while `u` is active. */
  lemma {:induction false} SwipesSinceResetWithoutReset(count: nat, current: User, ops: seq<Op>, u: User)
    requires forall i :: 0 <= i < |ops| ==> !ops[i].Reset?
    ensures SwipesSinceReset(count, current, ops, u) == count + SwipesWhileActive(current, ops, u)
    decreases |ops|
  {
    if ops != [] {
      match ops[0]
      case Swipe(_, _, _) =>
        SwipesSinceResetWithoutReset(count + (if current == u then 1 else 0), current, ops[1..], u);
      case Toggle(v) =>
        SwipesSinceResetWithoutReset(count, v, ops[1..], u);
    }
  }

  /**
   * For every sequence of calls, each slot's log length is what the counter
   * gives: one per swipe made while that slot was active, since the last reset.
   */
  lemma {:induction false} LogLengthCountsSwipesSinceReset(s: Session, ops: seq<Op>, u: User)
    ensures |LogOf(Run(s, ops).history, u)| == SwipesSinceReset(|LogOf(s.history, u)|, s.currentUser, ops, u)
    decreases |ops|
  {
    if ops != [] {
      var s' := Apply(s, ops[0]);
      LogLengthCountsSwipesSinceReset(s', ops[1..], u);
      match ops[0]
      case Swipe(_, _, _) =>
        if s.currentUser == u {
          assert |LogOf(s'.history, u)| == |LogOf(s.history, u)| + 1;
        } else {
          assert u == Other(s.currentUser) by { if u == A {} }
          assert LogOf(s'.history, u) == LogOf(s.history, u);
        }
      case Toggle(v) =>
      case Reset =>
        assert |LogOf(s'.history, u)| == 0 && s'.currentUser == A;
    }
  }

  /**
   * Without a reset in between, each slot's log grows by exactly the number of
   * swipes made while that slot was active, however the turns were toggled.
   */
  lemma LogGrowthCountsActiveSwipes(s: Session, ops: seq<Op>, u: User)
    requires forall i :: 0 <= i < |ops| ==> !ops[i].Reset?
    ensures |LogOf(Run(s, ops).history, u)| == |LogOf(s.history, u)| + SwipesWhileActive(s.currentUser, ops, u)
  {
    LogLengthCountsSwipesSinceReset(s, ops, u);
    SwipesSinceResetWithoutReset(|LogOf(s.history, u)|, s.currentUser, ops, u);
  }

  /**
   * From a fresh session, whatever the calls, each slot's log holds one
   * decision per swipe made while that slot was active since the last reset.
   */
  lemma FreshSessionCountsActiveSwipes(ops: seq<Op>)
    ensures |Run(InitialSession, ops).history.userA| == SwipesSinceReset(0, A, ops, A)
    ensures |Run(InitialSession, ops).history.userB| == SwipesSinceReset(0, A, ops, B)
  {
    LogLengthCountsSwipesSinceReset(InitialSession, ops, A);
    LogLengthCountsSwipesSinceReset(InitialSession, ops, B);
  }

  // ---------------------------------------------------------------------------
  // Toggling, resetting and the queries

  /** Toggling to the same slot twice is toggling once. */
  lemma ToggleUserIdempotent(s: Session, u: User)
    ensures ToggleUser(ToggleUser(s, u), u) == ToggleUser(s, u)
  {
  }

  /** Resetting twice is resetting once, and a reset session is a fresh one. */
  lemma ResetSessionIdempotent(s: Session)
    ensures ResetSession(ResetSession(s)) == ResetSession(s)
    ensures ResetSession(s) == InitialSession
  {
  }

  /** After a reset, progress is zero for both slots and echoes the total. */
  lemma ResetThenProgress(s: Session, totalVenues: int)
    ensures GetProgress(ResetSession(s).history, totalVenues) == Progress(0, 0, totalVenues)
  {
  }

  /**
   * Both slots are complete exactly when progress shows both counts at the
   * total; a fresh or reset session is complete only for an empty catalogue.
   */
  lemma CompleteIffProgressAtTotal(h: SwipeHistory, totalVenues: int)
    ensures IsBothUsersComplete(h, totalVenues)
        <==> GetProgress(h, totalVenues).userA == totalVenues && GetProgress(h, totalVenues).userB == totalVenues
    ensures h == InitialSession.history ==> (IsBothUsersComplete(h, totalVenues) <==> totalVenues == 0)
  {
  }

  /** Toggling never changes any query. */
  lemma ToggleKeepsQueries(s: Session, u: User, totalVenues: int)
    ensures GetProgress(ToggleUser(s, u).history, totalVenues) == GetProgress(s.history, totalVenues)
    ensures IsBothUsersComplete(ToggleUser(s, u).history, totalVenues) == IsBothUsersComplete(s.history, totalVenues)
    ensures GetMatches(ToggleUser(s, u).history) == GetMatches(s.history)
  {
  }

  /** Slot `u`'s log has a right swipe on venue `x`. */
  ghost predicate SwipedRight(log: seq<Decision>, x: string)
  {
    exists i :: 0 <= i < |log| && log[i].direction == Right && log[i].venueId == x
  }

  /** In a consistent log, liking a venue is the same as swiping right on it. */
  lemma LikedIffSwipedRight(log: seq<Decision>, x: string)
    requires ConsistentLog(log)
    ensures LikedIn(log, x) <==> SwipedRight(log, x)
  {
    if LikedIn(log, x) {
      var i :| 0 <= i < |log| && log[i].liked && log[i].venueId == x;
      assert Consistent(log[i]);
    }
    if SwipedRight(log, x) {
      var i :| 0 <= i < |log| && log[i].direction == Right && log[i].venueId == x;
      assert Consistent(log[i]);
    }
  }

  /**
   * In every session the invariant holds for, a venue is a match exactly when
   * each slot swiped right on it at least once.
   */
  lemma MatchesAreCommonRightSwipes(s: Session, x: string)
    requires Invariant(s)
    ensures x in GetMatches(s.history) <==> SwipedRight(s.history.userA, x) && SwipedRight(s.history.userB, x)
  {
    LikedIffSwipedRight(s.history.userA, x);
    LikedIffSwipedRight(s.history.userB, x);
  }

  /** A reset session has no matches. */
  lemma ResetThenNoMatches(s: Session)
    ensures GetMatches(ResetSession(s).history) == []
  {
    assert Likes([]) == [] && Dedup([]) == [];
  }
}
