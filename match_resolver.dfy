/**
 * The match resolver: which venues both users liked.
 *
 * The app collects the ids of slot A's liked decisions into an
 * insertion-ordered set, does the same for slot B, and keeps those of A's set
 * that B's set contains. Here the three steps are `Likes` (filter the liked
 * decisions and take their ids), `Dedup` (building an insertion-ordered set and
 * reading it back) and `Keep` (filtering by membership in B's set).
 */
module MatchResolver {
  import opened SwipeTypes

  /** Some decision of `log` likes venue `x`. */
  ghost predicate LikedIn(log: seq<Decision>, x: string)
  {
    exists i :: 0 <= i < |log| && log[i].liked && log[i].venueId == x
  }

  ghost predicate NoDuplicates(s: seq<string>)
  {
    forall i, j :: 0 <= i < j < |s| ==> s[i] != s[j]
  }

  /** The position of the first decision of `log` that likes `x`. */
  ghost function FirstLike(log: seq<Decision>, x: string): (k: nat)
    requires LikedIn(log, x)
    ensures k < |log| && log[k].liked && log[k].venueId == x
    ensures forall j :: 0 <= j < k ==> !(log[j].liked && log[j].venueId == x)
  {
    if log[0].liked && log[0].venueId == x then 0
    else
      assert LikedIn(log[1..], x) by {
        var i :| 0 <= i < |log| && log[i].liked && log[i].venueId == x;
        assert log[1..][i - 1] == log[i];
      }
      1 + FirstLike(log[1..], x)
  }

  /** Both venues are liked in `log`, and `x` is liked first. */
  ghost predicate LikedBefore(log: seq<Decision>, x: string, y: string)
  {
    LikedIn(log, x) && LikedIn(log, y) && FirstLike(log, x) < FirstLike(log, y)
  }

  /** `r` lists venues in the order of their first like in `log`. */
  ghost predicate OrderedByFirstLike(r: seq<string>, log: seq<Decision>)
  {
    forall i, j :: 0 <= i < j < |r| ==> LikedBefore(log, r[i], r[j])
  }

  /** The position of the first occurrence of `x` in `s`. */
  ghost function FirstIndex(s: seq<string>, x: string): (k: nat)
    requires x in s
    ensures k < |s| && s[k] == x
    ensures forall j :: 0 <= j < k ==> s[j] != x
  {
    if s[0] == x then 0 else 1 + FirstIndex(s[1..], x)
  }

  /** Both elements occur in `s`, and `x` occurs first. */
  ghost predicate OccursBefore(s: seq<string>, x: string, y: string)
  {
    x in s && y in s && FirstIndex(s, x) < FirstIndex(s, y)
  }

  /** `r` lists elements of `s` in the order of their first occurrence in `s`. */
  ghost predicate OrderedBy(r: seq<string>, s: seq<string>)
  {
    forall i, j :: 0 <= i < j < |r| ==> OccursBefore(s, r[i], r[j])
  }

  /** The venue ids of the liked decisions of `log`, in log order. */
  function Likes(log: seq<Decision>): (r: seq<string>)
    ensures |r| <= |log|
    ensures forall x :: x in r <==> LikedIn(log, x)
  {
    if log == [] then []
    else
      var rest := Likes(log[1..]);
      assert forall x :: LikedIn(log, x) <==>
          (log[0].liked && log[0].venueId == x) || LikedIn(log[1..], x) by {
        forall x ensures LikedIn(log, x) ==> (log[0].liked && log[0].venueId == x) || LikedIn(log[1..], x) {
          if LikedIn(log, x) && !(log[0].liked && log[0].venueId == x) {
            var i :| 0 <= i < |log| && log[i].liked && log[i].venueId == x;
            assert log[1..][i - 1] == log[i];
          }
        }
        forall x ensures LikedIn(log[1..], x) ==> LikedIn(log, x) {
          if LikedIn(log[1..], x) {
            var i :| 0 <= i < |log[1..]| && log[1..][i].liked && log[1..][i].venueId == x;
            assert log[i + 1] == log[1..][i];
          }
        }
      }
      (if log[0].liked then [log[0].venueId] else []) + rest
  }

  /** The first occurrence of an element of `s` does not move when `s` is extended. */
  lemma FirstIndexExtend(s: seq<string>, t: seq<string>, x: string)
    requires x in s
    ensures x in s + t && FirstIndex(s + t, x) == FirstIndex(s, x)
  {
    var k := FirstIndex(s, x);
    assert (s + t)[k] == x;
  }

  /**
   * A JS `Set` built from `s` and read back with `Array.from`: each element
   * once, in the order it was first inserted.
   */
  function Dedup(s: seq<string>): (r: seq<string>)
    ensures NoDuplicates(r)
    ensures forall x :: x in r <==> x in s
    ensures OrderedBy(r, s)
  {
    if s == [] then []
    else
      var init := s[..|s| - 1];
      var y := s[|s| - 1];
      assert s == init + [y];
      var prev := Dedup(init);
      forall x | x in init ensures FirstIndex(s, x) == FirstIndex(init, x) {
        FirstIndexExtend(init, [y], x);
      }
      if y in prev then prev
      else
        assert FirstIndex(s, y) == |s| - 1;
        prev + [y]
  }

  /** The elements of `ids` that `likes` contains, in the order of `ids`. */
  function Keep(ids: seq<string>, likes: set<string>): (r: seq<string>)
    ensures forall x :: x in r <==> x in ids && x in likes
    ensures NoDuplicates(ids) ==> NoDuplicates(r)
  {
    if ids == [] then []
    else
      var rest := Keep(ids[1..], likes);
      assert NoDuplicates(ids) ==> NoDuplicates(ids[1..]) && ids[0] !in ids[1..];
      (if ids[0] in likes then [ids[0]] else []) + rest
  }

  /** Filtering keeps the relative order of what it keeps. */
  lemma {:induction false} KeepOrdered(ids: seq<string>, likes: set<string>, s: seq<string>)
    requires OrderedBy(ids, s)
    ensures OrderedBy(Keep(ids, likes), s)
  {
    if ids != [] {
      assert OrderedBy(ids[1..], s) by {
        forall i, j | 0 <= i < j < |ids[1..]| ensures OccursBefore(s, ids[1..][i], ids[1..][j]) {
          assert ids[1..][i] == ids[i + 1] && ids[1..][j] == ids[j + 1];
        }
      }
      KeepOrdered(ids[1..], likes, s);
      var rest := Keep(ids[1..], likes);
      if ids[0] in likes {
        var r := [ids[0]] + rest;
        forall i, j | 0 <= i < j < |r| ensures OccursBefore(s, r[i], r[j]) {
          if i == 0 {
            assert r[j] in ids[1..];
            var m :| 0 <= m < |ids[1..]| && ids[1..][m] == r[j];
            assert ids[m + 1] == r[j];
          } else {
            assert r[i] == rest[i - 1] && r[j] == rest[j - 1];
          }
        }
      }
    }
  }

  /** An earlier first occurrence among the liked ids is an earlier first like in the log. */
  lemma {:induction false} LikesFirstOrder(log: seq<Decision>, x: string, y: string)
    requires OccursBefore(Likes(log), x, y)
    ensures LikedBefore(log, x, y)
  {
    var l := Likes(log);
    var rest := Likes(log[1..]);
    var v := log[0].venueId;
    if log[0].liked && v == x {
      assert FirstLike(log, x) == 0;
    } else if log[0].liked && v == y {
      assert false;
    } else {
      if log[0].liked {
        assert l == [v] + rest;
        assert l[1..] == rest;
      } else {
        assert l == rest;
      }
      LikesFirstOrder(log[1..], x, y);
    }
  }

  /** Order by first occurrence among the liked ids is order by first like in the log. */
  lemma LikesOrderIsLogOrder(log: seq<Decision>, r: seq<string>)
    requires OrderedBy(r, Likes(log))
    ensures OrderedByFirstLike(r, log)
  {
    forall i, j | 0 <= i < j < |r| ensures LikedBefore(log, r[i], r[j]) {
      LikesFirstOrder(log, r[i], r[j]);
    }
  }

  /**
   * The venues liked by both logs: each at most once, exactly those some
   * decision of each log likes, in the order of their first like in `a`.
   */
  function Matches(a: seq<Decision>, b: seq<Decision>): (r: seq<string>)
    ensures NoDuplicates(r)
    ensures forall x :: x in r <==> LikedIn(a, x) && LikedIn(b, x)
    ensures OrderedByFirstLike(r, a)
  {
    var likedA := Likes(a);
    var uniqueA := Dedup(likedA);
    var likedB := set x | x in Likes(b);
    KeepOrdered(uniqueA, likedB, likedA);
    LikesOrderIsLogOrder(a, Keep(uniqueA, likedB));
    Keep(uniqueA, likedB)
  }

  /** A log without a liked decision has no liked ids. */
  lemma {:induction false} NoLikesIsEmpty(log: seq<Decision>)
    requires forall i :: 0 <= i < |log| ==> !log[i].liked
    ensures Likes(log) == []
  {
    if log != [] {
      NoLikesIsEmpty(log[1..]);
    }
  }

  /** Filtering by an empty set keeps nothing. */
  lemma {:induction false} KeepNothing(ids: seq<string>)
    ensures Keep(ids, {}) == []
  {
    if ids != [] {
      KeepNothing(ids[1..]);
    }
  }

  /** When one slot liked nothing, there are no matches. */
  lemma NoLikesNoMatches(a: seq<Decision>, b: seq<Decision>)
    requires (forall i :: 0 <= i < |a| ==> !a[i].liked) || (forall i :: 0 <= i < |b| ==> !b[i].liked)
    ensures Matches(a, b) == []
  {
    if forall i :: 0 <= i < |b| ==> !b[i].liked {
      NoLikesIsEmpty(b);
      assert (set x | x in Likes(b)) == {};
      KeepNothing(Dedup(Likes(a)));
    } else {
      NoLikesIsEmpty(a);
      assert Dedup(Likes(a)) == [];
    }
  }

  /** Each element of a duplicate-free sequence occurs in it once. */
  lemma {:induction false} NoDuplicatesCount(s: seq<string>, x: string)
    requires NoDuplicates(s)
    ensures multiset(s)[x] == if x in s then 1 else 0
  {
    if s != [] {
      assert s == [s[0]] + s[1..];
      assert NoDuplicates(s[1..]) by {
        forall i, j | 0 <= i < j < |s[1..]| ensures s[1..][i] != s[1..][j] {
          assert s[1..][i] == s[i + 1] && s[1..][j] == s[j + 1];
        }
      }
      assert s[0] !in s[1..];
      NoDuplicatesCount(s[1..], x);
    }
  }

  /** A duplicate-free sequence whose only element is `v` is `[v]`. */
  lemma OnlyElement(r: seq<string>, v: string)
    requires NoDuplicates(r)
    requires forall x :: x in r <==> x == v
    ensures r == [v]
  {
    forall x ensures multiset(r)[x] == multiset{v}[x] {
      NoDuplicatesCount(r, x);
    }
    assert multiset(r) == multiset{v};
    assert |r| == |multiset(r)| == 1;
    assert r[0] in r;
  }

  /** Both like venue_1, only A likes venue_2: the one match is venue_1. */
  lemma CommonLikeMatches(t1: int, t2: int, t3: int, t4: int)
    ensures Matches([MakeDecision("venue_1", Right, t1), MakeDecision("venue_2", Right, t2)],
                    [MakeDecision("venue_1", Right, t3), MakeDecision("venue_2", Left, t4)])
         == ["venue_1"]
  {
    var a := [MakeDecision("venue_1", Right, t1), MakeDecision("venue_2", Right, t2)];
    var b := [MakeDecision("venue_1", Right, t3), MakeDecision("venue_2", Left, t4)];
    assert LikedIn(a, "venue_1") && LikedIn(b, "venue_1") by { assert a[0].liked && b[0].liked; }
    assert forall x :: LikedIn(b, x) ==> x == "venue_1";
    OnlyElement(Matches(a, b), "venue_1");
  }

  /** Both like venue_3: the one match is venue_3. */
  lemma SameLikeMatches(t: int, t': int)
    ensures Matches([MakeDecision("venue_3", Right, t)], [MakeDecision("venue_3", Right, t')]) == ["venue_3"]
  {
    var a := [MakeDecision("venue_3", Right, t)];
    var b := [MakeDecision("venue_3", Right, t')];
    assert LikedIn(a, "venue_3") && LikedIn(b, "venue_3") by { assert a[0].liked && b[0].liked; }
    assert forall x :: LikedIn(b, x) ==> x == "venue_3";
    OnlyElement(Matches(a, b), "venue_3");
  }

  /** Swapping the two logs yields the same matches, up to order. */
  lemma MatchesSymmetric(a: seq<Decision>, b: seq<Decision>)
    ensures multiset(Matches(a, b)) == multiset(Matches(b, a))
  {
    var ab, ba := Matches(a, b), Matches(b, a);
    forall x ensures multiset(ab)[x] == multiset(ba)[x] {
      NoDuplicatesCount(ab, x);
      NoDuplicatesCount(ba, x);
    }
  }

  /**
   * The three properties of `Matches` determine its result: any sequence
   * without duplicates, holding exactly the venues both logs like and ordered
   * by first like in `a`, is `Matches(a, b)`.
   */
  lemma MatchesUnique(a: seq<Decision>, b: seq<Decision>, r: seq<string>)
    requires NoDuplicates(r)
    requires forall x :: x in r <==> LikedIn(a, x) && LikedIn(b, x)
    requires OrderedByFirstLike(r, a)
    ensures r == Matches(a, b)
  {
    OrderedUnique(r, Matches(a, b), a);
  }

  /** Two duplicate-free sequences with the same elements and the same order by first like are equal. */
  lemma {:induction false} OrderedUnique(r1: seq<string>, r2: seq<string>, log: seq<Decision>)
    requires NoDuplicates(r1) && NoDuplicates(r2)
    requires forall x :: x in r1 <==> x in r2
    requires OrderedByFirstLike(r1, log) && OrderedByFirstLike(r2, log)
    ensures r1 == r2
  {
    if r1 != [] || r2 != [] {
      var z := if r1 != [] then r1[0] else r2[0];
      assert z in r1 && z in r2;
      var x, y := r1[0], r2[0];
      // Each head is the element with the earliest first like, so they agree.
      assert y in r1 && x in r2;
      if x != y {
        assert false;
      }
      var t1, t2 := r1[1..], r2[1..];
      assert r1 == [x] + t1 && r2 == [y] + t2;
      forall z ensures z in t1 <==> z in t2 {
        if z in t1 {
          var k :| 0 <= k < |t1| && t1[k] == z;
          assert r1[k + 1] == z && r1[0] == x;
          assert z in r2 && z != y;
        }
        if z in t2 {
          var k :| 0 <= k < |t2| && t2[k] == z;
          assert r2[k + 1] == z && r2[0] == y;
          assert z in r1 && z != x;
        }
      }
      assert NoDuplicates(t1) && OrderedByFirstLike(t1, log) by {
        forall i, j | 0 <= i < j < |t1| ensures t1[i] == r1[i + 1] && t1[j] == r1[j + 1] { }
      }
      assert NoDuplicates(t2) && OrderedByFirstLike(t2, log) by {
        forall i, j | 0 <= i < j < |t2| ensures t2[i] == r2[i + 1] && t2[j] == r2[j + 1] { }
      }
      OrderedUnique(t1, t2, log);
    }
  }
}
