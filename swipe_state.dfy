/**
 * The `useSwipeState` hook as an object: the four pieces of state it holds,
 * the three operations that update them in place, and the three queries over
 * them. Each operation is proved against the matching function of
 * `SessionModel`, so the lemmas proved there are facts about this object.
 */
module UseSwipeState {
  import opened SwipeTypes
  import opened MatchResolver
  import opened SessionModel

  class SwipeState {
    var currentUser: User
    var currentIndex: nat
    var userA: seq<Decision>
    var userB: seq<Decision>

    /** The held state as a value. */
    function State(): (s: Session)
      reads this
    {
      Session(currentUser, currentIndex, SwipeHistory(userA, userB))
    }

    ghost predicate Valid()
      reads this
    {
      Invariant(State())
    }

    /** The hook's initial state: slot A, index 0, empty logs. */
    constructor ()
      ensures Valid()
      ensures State() == InitialSession
    {
      currentUser := A;
      currentIndex := 0;
      userA := [];
      userB := [];
    }

    /** Appends the decision to the active slot's log and moves to the next card. */
    method RecordSwipe(venueId: string, direction: Direction, timestamp: int)
      requires Valid()
      modifies this
      ensures Valid()
      ensures State() == SessionModel.RecordSwipe(old(State()), venueId, direction, timestamp)
      ensures currentUser == old(currentUser) && currentIndex == old(currentIndex) + 1
      ensures old(currentUser) == A ==>
        userA == old(userA) + [MakeDecision(venueId, direction, timestamp)] && userB == old(userB)
      ensures old(currentUser) == B ==>
        userB == old(userB) + [MakeDecision(venueId, direction, timestamp)] && userA == old(userA)
    {
      ApplyKeepsInvariant(State(), Swipe(venueId, direction, timestamp));
      var decision := MakeDecision(venueId, direction, timestamp);
      if currentUser == A {
        userA := userA + [decision];
      } else {
        userB := userB + [decision];
      }
      currentIndex := currentIndex + 1;
    }

    /** Makes `user` the active slot. */
    method ToggleUser(user: User)
      requires Valid()
      modifies this
      ensures Valid()
      ensures State() == SessionModel.ToggleUser(old(State()), user)
      ensures currentUser == user
      ensures currentIndex == old(currentIndex) && userA == old(userA) && userB == old(userB)
    {
      currentUser := user;
    }

    /** Returns to the initial state. */
    method ResetSession()
      requires Valid()
      modifies this
      ensures Valid()
      ensures State() == SessionModel.ResetSession(old(State()))
      ensures currentUser == A && currentIndex == 0 && userA == [] && userB == []
    {
      currentIndex := 0;
      userA := [];
      userB := [];
      currentUser := A;
    }

    /**
     * The venues both slots liked: each once, exactly those some decision of
     * each log likes, in the order of their first like in slot A's log.
     */
    function GetMatches(): (r: seq<string>)
      reads this
      ensures NoDuplicates(r)
      ensures forall x :: x in r <==> LikedIn(userA, x) && LikedIn(userB, x)
      ensures OrderedByFirstLike(r, userA)
    {
      SessionModel.GetMatches(State().history)
    }

    /** Whether each slot has recorded `totalVenues` decisions. */
    function IsBothUsersComplete(totalVenues: int): (b: bool)
      reads this
      ensures b <==> GetProgress(totalVenues).userA == totalVenues && GetProgress(totalVenues).userB == totalVenues
    {
      SessionModel.IsBothUsersComplete(State().history, totalVenues)
    }

    /** Each slot's decision count, and the total echoed back. */
    function GetProgress(totalVenues: int): (p: Progress)
      reads this
      ensures p.userA == |userA| && p.userB == |userB| && p.total == totalVenues
    {
      SessionModel.GetProgress(State().history, totalVenues)
    }
  }

  // Three example sessions: what a caller can conclude about the hook's
  // answers from the contracts above alone.

  /** A dislike on one side is no match. */
  method ScenarioDislikeIsNoMatch(t1: int, t2: int)
  {
    var s := new SwipeState();
    s.RecordSwipe("venue_1", Right, t1);
    s.ToggleUser(B);
    s.RecordSwipe("venue_1", Left, t2);
    assert s.userB[0].venueId == "venue_1" && !s.userB[0].liked;
    NoLikesNoMatches(s.userA, s.userB);
    assert s.GetMatches() == [];
    s.ResetSession();
    assert s.GetProgress(15) == Progress(0, 0, 15);
  }

  /** Only the venue both liked is a match. */
  method ScenarioCommonLike(t1: int, t2: int, t3: int, t4: int)
  {
    var s := new SwipeState();
    s.RecordSwipe("venue_1", Right, t1);
    s.RecordSwipe("venue_2", Right, t2);
    s.ToggleUser(B);
    s.ToggleUser(B);
    assert s.currentUser == B;
    s.RecordSwipe("venue_1", Right, t3);
    s.RecordSwipe("venue_2", Left, t4);
    assert s.GetProgress(2) == Progress(2, 2, 2);
    assert s.IsBothUsersComplete(2);
    assert s.userA == [MakeDecision("venue_1", Right, t1), MakeDecision("venue_2", Right, t2)];
    assert s.userB == [MakeDecision("venue_1", Right, t3), MakeDecision("venue_2", Left, t4)];
    CommonLikeMatches(t1, t2, t3, t4);
    assert s.GetMatches() == ["venue_1"];
  }

  /** One venue, liked by both: complete and matched; an empty catalogue is complete at once. */
  method ScenarioSingleVenue(t1: int, t2: int)
  {
    var s := new SwipeState();
    assert s.IsBothUsersComplete(0);
    s.RecordSwipe("venue_3", Right, t1);
    s.ToggleUser(B);
    s.RecordSwipe("venue_3", Right, t2);
    assert s.IsBothUsersComplete(1);
    assert s.userA == [MakeDecision("venue_3", Right, t1)] && s.userB == [MakeDecision("venue_3", Right, t2)];
    SameLikeMatches(t1, t2);
    assert s.GetMatches() == ["venue_3"];
  }
}
