# NightSwipe swipe session, in Dafny

NightSwipe is a venue-matching app prototype. It is meant to let two people,
in slots A and B, take turns on one device. Each would swipe right (yes) or
left (no) on a shared deck of venue cards, and the app would then show the
venues both liked as matches. The swipe and result screens are still
placeholders, and no screen calls the hook yet.

This project models the app's one component with logic: the `useSwipeState`
hook in `hooks/useSwipeState.ts`. It also models the venue catalogue and the
price-tier helper in `data/mockVenues.ts`.

- `Venues` (venues.dfy): the `Venue` record and the fifteen-entry mock
  catalogue. A lemma proves the catalogue has 15 entries, distinct ids and
  price tiers in 0..4. `PriceLevelDisplay` turns a tier into dollar signs: it
  clamps the tier into 1..4 and repeats `'$'` that many times.
- `SwipeTypes` (swipe_types.dfy): the slots `A | B`, the directions
  `Left | Right` and a `Decision` (venue id, direction, `liked`, timestamp).
  A built decision is liked exactly when it is a right swipe.
- `MatchResolver` (match_resolver.dfy): `getMatches` as a pure function of
  the two logs. It runs the same three steps as the hook:
  1. filter the liked decisions and take their venue ids (`Likes`);
  2. build an insertion-ordered set, as a JS `Set` is (`Dedup`);
  3. keep the ids that B's set contains (`Keep`).

  The result has three proved properties. Each id appears at most once. An id
  is in it exactly when both logs like it. The ids come in the order of their
  first like in slot A's log. A lemma proves these three properties fix the
  result exactly. Swapping the logs gives the same ids.
- `SessionModel` (session_model.dfy): the session as a value, with
  `recordSwipe`, `toggleUser` and `resetSession` as functions from the old
  session to the new one, and the three queries. `Run` applies a sequence of
  such calls. Lemmas over `Run` cover:
  - the swipe counts each slot accumulates;
  - an invariant every reachable session keeps;
  - idempotence of toggling and resetting;
  - what the queries report after a reset.

  The invariant says more than the hook's comments: `currentIndex` always
  equals the two logs' lengths added together, because `toggleUser` does not
  reset it.
- `UseSwipeState` (swipe_state.dfy): the hook as a class, `SwipeState`. It has
  the four fields `currentUser`, `currentIndex`, `userA` and `userB`. Each
  method updates the fields in place. Its contract gives the new state as the
  matching `SessionModel` function of the old state, and it says field by
  field what changed. Three client methods (`ScenarioDislikeIsNoMatch`,
  `ScenarioCommonLike`, `ScenarioSingleVenue`) replay three example sessions
  against the class contracts.

The clock reading `Date.now()` is a `timestamp` parameter of `RecordSwipe`.
No operation validates venue ids or rejects a duplicate swipe, and the hook
does neither, so no contract requires either.

A JS `Set` iterates in insertion order, so matches come in the order of their
first like in slot A's log, and the model states that order. The hook's card
index `currentIndex` is modelled.

## Model

| member | source | states |
|---|---|---|
| Venues.MockVenuesWellFormed | data/mockVenues.ts:20-156 | the mock catalogue has 15 venues, no two share an id, and every price tier is in 0..4 |
| Venues.MockIdsNumbered | data/mockVenues.ts:20-156 | the venue at index i has a nine-character id ending in the number i + 1 |
| Venues.MockPriceLevelInRange | data/mockVenues.ts:20-156 | the venue at index i has a price tier in 0..4 |
| Venues.Repeat | data/mockVenues.ts:162 | `String.repeat` on one character: the result has length `n` and every character is that one |
| Venues.PriceLevelDisplay | data/mockVenues.ts:161-163 | the display is only `'$'` characters; its length is in 1..4; it equals the tier for tiers 1..4; it is `"$"` for tiers up to 1 and `"$$$$"` for tiers from 4 up |
| Venues.PriceLevelDisplayMonotone | data/mockVenues.ts:162 | a higher tier never shows fewer dollar signs |
| SwipeTypes.MakeDecision | hooks/useSwipeState.ts:34-39 | a recorded decision keeps the given venue id, direction and timestamp, and is liked exactly when the direction is right |
| MatchResolver.Likes | hooks/useSwipeState.ts:74 | the filter-then-map of the liked venue ids: an id is in the result exactly when some liked decision of the log has it |
| MatchResolver.Dedup | hooks/useSwipeState.ts:73-75 | the insertion-ordered set built from the ids: no duplicates, the same members, ordered by first occurrence |
| MatchResolver.Keep | hooks/useSwipeState.ts:80 | filtering by membership in B's set keeps exactly the ids in both, and adds no duplicate |
| MatchResolver.KeepOrdered | hooks/useSwipeState.ts:80 | the filter keeps the relative order of the ids it keeps |
| MatchResolver.LikesFirstOrder | hooks/useSwipeState.ts:74 | of two liked ids, the one that comes first among the liked ids is liked first in the log |
| MatchResolver.LikesOrderIsLogOrder | hooks/useSwipeState.ts:73-74 | ordered by first occurrence among the liked ids is the same as ordered by first like in the log |
| MatchResolver.Matches | hooks/useSwipeState.ts:72-81 | the matches have no duplicates; an id is a match exactly when some decision of A's log and some decision of B's log like it; matches are ordered by first like in A's log |
| MatchResolver.MatchesUnique | hooks/useSwipeState.ts:72-81 | any sequence with those three properties is the result of `Matches`, so they determine it completely |
| MatchResolver.OrderedUnique | hooks/useSwipeState.ts:80 | two duplicate-free sequences with the same members, both ordered by first like in one log, are equal |
| MatchResolver.MatchesSymmetric | hooks/useSwipeState.ts:72-81 | swapping the two logs yields the same matches as a multiset (so the same set of ids) |
| MatchResolver.NoLikesIsEmpty | hooks/useSwipeState.ts:74 | a log with no liked decision yields no liked ids |
| MatchResolver.KeepNothing | hooks/useSwipeState.ts:80 | filtering by an empty set keeps nothing |
| MatchResolver.NoLikesNoMatches | hooks/useSwipeState.ts:72-81 | when either slot liked nothing there are no matches (a like against a dislike gives `[]`) |
| MatchResolver.CommonLikeMatches | hooks/useSwipeState.ts:72-81 | A likes venue_1 and venue_2, B likes venue_1 and rejects venue_2: the matches are exactly `["venue_1"]` |
| MatchResolver.SameLikeMatches | hooks/useSwipeState.ts:72-81 | both slots like venue_3: the matches are exactly `["venue_3"]` |
| SessionModel.RecordSwipe | hooks/useSwipeState.ts:33-51 | the active slot's log gains exactly the new decision at its end; the other log and the active slot are unchanged; the index grows by 1 |
| SessionModel.ToggleUser | hooks/useSwipeState.ts:56-58 | the active slot becomes the given one; the logs and the index are unchanged |
| SessionModel.ResetSession | hooks/useSwipeState.ts:63-67 | both logs are empty, the index is 0 and slot A is active |
| SessionModel.GetProgress | hooks/useSwipeState.ts:93-99 | reports the two log lengths and echoes the total |
| SessionModel.IsBothUsersComplete | hooks/useSwipeState.ts:86-88 | true exactly when both progress counts reach the total |
| SessionModel.GetMatches | hooks/useSwipeState.ts:72-81 | no duplicates, exactly the ids both logs like, in the order of first like in slot A's log |
| SessionModel.InitialSessionInvariant | hooks/useSwipeState.ts:23-28 | the initial state satisfies the session invariant |
| SessionModel.ApplyKeepsInvariant | hooks/useSwipeState.ts:33-67 | every operation keeps the invariant: every decision is liked exactly when it is a right swipe, and the index equals the two log lengths added together |
| SessionModel.RunKeepsInvariant | hooks/useSwipeState.ts:33-67 | every sequence of operations keeps that invariant |
| SessionModel.SwipesAppendToActiveLog | hooks/useSwipeState.ts:41-50 | n swipes while slot X is active append exactly those n decisions, in order, to X's log; X's log grows by n; the other log and the active slot are unchanged; the index grows by n |
| SessionModel.LengthOfDecisions | hooks/useSwipeState.ts:41-47 | n swipes record n decisions |
| SessionModel.SwipesSinceResetWithoutReset | hooks/useSwipeState.ts:41-58 | without a reset, the per-slot counter adds exactly the swipes made while that slot is active |
| SessionModel.LogLengthCountsSwipesSinceReset | hooks/useSwipeState.ts:33-67 | for every sequence of calls, each slot's log length is the counter that adds one per swipe made while that slot is active and restarts at 0 on a reset |
| SessionModel.LogGrowthCountsActiveSwipes | hooks/useSwipeState.ts:41-58 | without a reset, however turns are toggled, each slot's log grows by exactly the number of swipes made while that slot was active |
| SessionModel.FreshSessionCountsActiveSwipes | hooks/useSwipeState.ts:23-67 | from a fresh session and for every sequence of calls, each slot's log length is the number of swipes made while that slot was active since the last reset |
| SessionModel.ToggleUserIdempotent | hooks/useSwipeState.ts:56-58 | toggling to the same slot twice is the same as toggling once |
| SessionModel.ResetSessionIdempotent | hooks/useSwipeState.ts:63-67 | resetting twice is resetting once, and a reset session equals a fresh one |
| SessionModel.ResetThenProgress | hooks/useSwipeState.ts:93-99 | after a reset, progress for total n is (0, 0, n) |
| SessionModel.CompleteIffProgressAtTotal | hooks/useSwipeState.ts:86-99 | both slots are complete exactly when both progress counts equal the total; a fresh session is complete exactly for total 0 |
| SessionModel.ToggleKeepsQueries | hooks/useSwipeState.ts:56-99 | toggling the slot changes neither progress, nor completion, nor the matches |
| SessionModel.LikedIffSwipedRight | hooks/useSwipeState.ts:34-39 | in a log whose decisions were built by `recordSwipe`, a venue is liked exactly when some decision swipes right on it |
| SessionModel.MatchesAreCommonRightSwipes | hooks/useSwipeState.ts:33-81 | in every session that keeps the invariant, a venue is a match exactly when both slots swiped right on it |
| SessionModel.ResetThenNoMatches | hooks/useSwipeState.ts:63-81 | a reset session has no matches |
| UseSwipeState.SwipeState.constructor | hooks/useSwipeState.ts:23-28 | the hook starts with slot A, index 0 and two empty logs, and satisfies the invariant |
| UseSwipeState.SwipeState.RecordSwipe | hooks/useSwipeState.ts:33-51 | in place: the new state is `SessionModel.RecordSwipe` of the old; only the active slot's log grows, by the built decision; the index grows by 1 |
| UseSwipeState.SwipeState.ToggleUser | hooks/useSwipeState.ts:56-58 | in place: only `currentUser` changes, to the given slot |
| UseSwipeState.SwipeState.ResetSession | hooks/useSwipeState.ts:63-67 | in place: index 0, both logs empty, slot A active |
| UseSwipeState.SwipeState.GetMatches | hooks/useSwipeState.ts:72-81 | reads the fields only; no duplicates, exactly the ids both logs like, in the order of first like in `userA` |
| UseSwipeState.SwipeState.IsBothUsersComplete | hooks/useSwipeState.ts:86-88 | reads the fields only; true exactly when both progress counts reach the total |
| UseSwipeState.SwipeState.GetProgress | hooks/useSwipeState.ts:93-99 | reads the fields only; reports the two log lengths and echoes the total |

## Left out

- React's state handling is not modelled. Updates are deferred and batched, and handlers read `currentUser` from the render they were created in. Each operation here applies at once, one after another.
- `Date.now()` is not modelled. Its reading is the `timestamp` parameter.
- JavaScript's number type is not modelled. Counts, the index and timestamps are unbounded integers, so the 2^53 precision limit is not modelled.
- Direction values other than `'left'` and `'right'` are left out. The source's type admits only those two, and `Direction` has only those two cases.
- Non-integer price tiers are left out. `'$'.repeat` would truncate one, but the tier is typed as an integer here.
- Floating-point ratings are not modelled. A venue's `rating` is a decimal `real` literal, and nothing computes with it, because the app only displays it.
- `String.repeat`'s error on a negative count is not modelled. The clamp to 1..4 means it cannot happen here.
- SessionModel.LogGrowthCountsActiveSwipes: stated for runs without a reset, because a reset empties both logs. `LogLengthCountsSwipesSinceReset` states the count for every run, resets included.
- The loading timer in hooks/useVenues.ts is not part of this model. It is timing plumbing.
- The card-stack gesture and animation in components/SwipeCard.tsx is not part of this model. It is UI driven by floating-point device dimensions.
- The screens, the presentational components and the theme constants are not part of this model. They only render or navigate.
