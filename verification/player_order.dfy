/** LINQ's `OrderBy(p => p.PointsPerGame)` and
    `OrderByDescending(p => p.PointsPerGame)` on a list of players: a stable
    sort, so players with the same average keep their relative order. */
module PlayerOrder {

  import opened Models

  /** The sort key: the average itself, or its negation when descending. */
  function Key(p: Player, descending: bool): int {
    if descending then -p.pointsPerGame else p.pointsPerGame
  }

  /** Each player's key is at most the next player's. */
  ghost predicate Ordered(s: seq<Player>, descending: bool) {
    forall i, j :: 0 <= i && j == i + 1 && j < |s| ==> Key(s[i], descending) <= Key(s[j], descending)
  }

  /** Ordered by neighbours means ordered between every earlier and later player. */
  lemma {:induction false} OrderedAllPairs(s: seq<Player>, descending: bool, i: int, j: int)
    requires Ordered(s, descending)
    requires 0 <= i <= j < |s|
    ensures Key(s[i], descending) <= Key(s[j], descending)
    decreases j - i
  {
    if i < j {
      OrderedAllPairs(s, descending, i + 1, j);
    }
  }

  /** The players whose average is `k`, in the order they appear in `s`. */
  function WithPoints(s: seq<Player>, k: int): seq<Player> {
    if s == [] then []
    else WithPoints(s[..|s| - 1], k) + (if s[|s| - 1].pointsPerGame == k then [s[|s| - 1]] else [])
  }

  /** Places `x` after every player of the ordered `s` whose key is not
      greater than its own. */
  function InsertAfterTies(x: Player, s: seq<Player>, descending: bool): (r: seq<Player>)
    requires Ordered(s, descending)
    ensures Ordered(r, descending)
    ensures multiset(r) == multiset(s) + multiset{x}
    ensures r[0] == x || (s != [] && r[0] == s[0])
  {
    if s == [] then [x]
    else if Key(x, descending) < Key(s[0], descending) then
      OrderedCons(x, s, descending);
      [x] + s
    else
      OrderedTail(s, descending);
      var rest := InsertAfterTies(x, s[1..], descending);
      OrderedCons(s[0], rest, descending);
      ConsMultiset(s, rest, x);
      [s[0]] + rest
  }

  /** Helper: putting the head of `s` back in front of a rearrangement of
      its tail plus `x` gives a rearrangement of `s` plus `x`. */
  lemma ConsMultiset(s: seq<Player>, rest: seq<Player>, x: Player)
    requires s != [] && multiset(rest) == multiset(s[1..]) + multiset{x}
    ensures multiset([s[0]] + rest) == multiset(s) + multiset{x}
  {
    HeadPlusTail(s);
    assert multiset(s) == multiset{s[0]} + multiset(s[1..]);
  }

  /** Helper: dropping the first player keeps a list ordered. */
  lemma OrderedTail(s: seq<Player>, descending: bool)
    requires Ordered(s, descending) && s != []
    ensures Ordered(s[1..], descending)
  {
    var t := s[1..];
    forall i | 0 <= i < |t| - 1 ensures Key(t[i], descending) <= Key(t[i + 1], descending) {
      assert t[i] == s[i + 1] && t[i + 1] == s[i + 2];
    }
  }

  /** Helper: a player no later than the head of an ordered list can go in
      front of it. */
  lemma OrderedCons(h: Player, t: seq<Player>, descending: bool)
    requires Ordered(t, descending)
    requires t != [] ==> Key(h, descending) <= Key(t[0], descending)
    ensures Ordered([h] + t, descending)
  {
    var r := [h] + t;
    forall i | 0 <= i < |r| - 1 ensures Key(r[i], descending) <= Key(r[i + 1], descending) {
      if i > 0 {
        assert r[i] == t[i - 1] && r[i + 1] == t[i];
      }
    }
  }

  /** The stable sort: the players ordered by key, ties in input order. */
  function SortByPoints(s: seq<Player>, descending: bool): (r: seq<Player>)
    ensures Ordered(r, descending)
    ensures multiset(r) == multiset(s)
  {
    if s == [] then []
    else
      assert s == s[..|s| - 1] + [s[|s| - 1]];
      InsertAfterTies(s[|s| - 1], SortByPoints(s[..|s| - 1], descending), descending)
  }

  /** Non-decreasing in points between every earlier and later player. */
  ghost predicate NonDecreasingPoints(s: seq<Player>) {
    forall i, j :: 0 <= i < j < |s| ==> s[i].pointsPerGame <= s[j].pointsPerGame
  }

  /** Non-increasing in points between every earlier and later player. */
  ghost predicate NonIncreasingPoints(s: seq<Player>) {
    forall i, j :: 0 <= i < j < |s| ==> s[i].pointsPerGame >= s[j].pointsPerGame
  }

  /** What `Ordered` means for the averages themselves in each direction. */
  lemma OrderedPoints(s: seq<Player>, descending: bool)
    requires Ordered(s, descending)
    ensures !descending ==> NonDecreasingPoints(s)
    ensures descending ==> NonIncreasingPoints(s)
  {
    forall i, j | 0 <= i < j < |s|
      ensures Key(s[i], descending) <= Key(s[j], descending)
    {
      OrderedAllPairs(s, descending, i, j);
    }
  }

  lemma {:induction false} WithPointsAppend(a: seq<Player>, b: seq<Player>, k: int)
    ensures WithPoints(a + b, k) == WithPoints(a, k) + WithPoints(b, k)
    decreases |b|
  {
    if b == [] {
      assert a + b == a;
    } else {
      var n := |b| - 1;
      assert (a + b)[..|a + b| - 1] == a + b[..n];
      WithPointsAppend(a, b[..n], k);
    }
  }

  lemma {:induction false} WithPointsNone(s: seq<Player>, k: int)
    requires forall i :: 0 <= i < |s| ==> s[i].pointsPerGame != k
    ensures WithPoints(s, k) == []
  {
    if s != [] {
      WithPointsNone(s[..|s| - 1], k);
    }
  }

  /** The tie group of `[x]`: `x` itself or nothing. */
  lemma WithPointsSingle(x: Player, k: int)
    ensures WithPoints([x], k) == if x.pointsPerGame == k then [x] else []
  {
    assert [x][..0] == [];
  }

  /** Inserting `x` adds it at the end of its own tie group and leaves every
      other group as it was. */
  lemma {:induction false} InsertAfterTiesStable(x: Player, s: seq<Player>, descending: bool, k: int)
    requires Ordered(s, descending)
    ensures WithPoints(InsertAfterTies(x, s, descending), k)
            == WithPoints(s, k) + (if x.pointsPerGame == k then [x] else [])
    decreases |s|
  {
    var r := InsertAfterTies(x, s, descending);
    WithPointsSingle(x, k);
    if s == [] {
      assert r == [x];
    } else if Key(x, descending) < Key(s[0], descending) {
      assert r == [x] + s;
      InsertBeforeGroupStable(x, s, descending, k);
    } else {
      OrderedTail(s, descending);
      InsertAfterTiesStable(x, s[1..], descending, k);
      assert r == [s[0]] + InsertAfterTies(x, s[1..], descending);
      HeadPlusTail(s);
      ConsKeepsTieGroups(s[0], InsertAfterTies(x, s[1..], descending), s[1..],
                         if x.pointsPerGame == k then [x] else [], k);
    }
  }

  /** Helper: putting the same player in front of two lists keeps a relation
      between their tie groups. */
  lemma ConsKeepsTieGroups(h: Player, u: seq<Player>, v: seq<Player>, tie: seq<Player>, k: int)
    requires WithPoints(u, k) == WithPoints(v, k) + tie
    ensures WithPoints([h] + u, k) == WithPoints([h] + v, k) + tie
  {
    WithPointsAppend([h], u, k);
    WithPointsAppend([h], v, k);
    var head := WithPoints([h], k);
    assert head + (WithPoints(v, k) + tie) == (head + WithPoints(v, k)) + tie;
  }

  /** Helper: a player whose key is below the whole ordered `s` starts its
      own tie group when placed in front. */
  lemma InsertBeforeGroupStable(x: Player, s: seq<Player>, descending: bool, k: int)
    requires Ordered(s, descending) && s != []
    requires Key(x, descending) < Key(s[0], descending)
    ensures WithPoints([x] + s, k) == WithPoints(s, k) + (if x.pointsPerGame == k then [x] else [])
  {
    WithPointsAppend([x], s, k);
    WithPointsSingle(x, k);
    if x.pointsPerGame == k {
      forall i | 0 <= i < |s| ensures s[i].pointsPerGame != k {
        OrderedAllPairs(s, descending, 0, i);
      }
      WithPointsNone(s, k);
    }
  }

  /** Stability: for every average `k`, the players with average `k` appear
      in the sorted list in exactly the order they had before. */
  lemma {:induction false} SortByPointsStable(s: seq<Player>, descending: bool, k: int)
    ensures WithPoints(SortByPoints(s, descending), k) == WithPoints(s, k)
  {
    if s != [] {
      var init := s[..|s| - 1];
      SortByPointsStable(init, descending, k);
      InsertAfterTiesStable(s[|s| - 1], SortByPoints(init, descending), descending, k);
    }
  }

  /** Stability for all averages at once. */
  lemma SortByPointsStableAll(s: seq<Player>, descending: bool)
    ensures forall k :: WithPoints(SortByPoints(s, descending), k) == WithPoints(s, k)
  {
    forall k ensures WithPoints(SortByPoints(s, descending), k) == WithPoints(s, k) {
      SortByPointsStable(s, descending, k);
    }
  }

  /** Sorted order and per-average order together fix the sequence: the
      stable sort is the only ordered rearrangement that keeps every tie
      group in input order. */
  lemma {:induction false} OrderedTieGroupsDetermine(a: seq<Player>, b: seq<Player>, descending: bool)
    requires Ordered(a, descending) && Ordered(b, descending)
    requires forall k :: WithPoints(a, k) == WithPoints(b, k)
    ensures a == b
    decreases |a| + |b|
  {
    LastStartsTieGroup(a);
    LastStartsTieGroup(b);
    if a != [] && b != [] {
      var a', b' := a[..|a| - 1], b[..|b| - 1];
      PeelLast(a, a', b, b', descending);
      OrderedTieGroupsDetermine(a', b', descending);
      InitPlusLast(a);
      InitPlusLast(b);
    }
  }

  /** Helper: the step of `OrderedTieGroupsDetermine`: the last players
      agree, and what is left is again ordered with matching tie groups. */
  lemma PeelLast(a: seq<Player>, a': seq<Player>, b: seq<Player>, b': seq<Player>, descending: bool)
    requires a != [] && b != [] && a' == a[..|a| - 1] && b' == b[..|b| - 1]
    requires Ordered(a, descending) && Ordered(b, descending)
    requires forall k :: WithPoints(a, k) == WithPoints(b, k)
    ensures a[|a| - 1] == b[|b| - 1]
    ensures Ordered(a', descending) && Ordered(b', descending)
    ensures forall k :: WithPoints(a', k) == WithPoints(b', k)
  {
    var x, y := a[|a| - 1], b[|b| - 1];
    LastsShareAverage(a, b, descending);
    InitPlusLast(a);
    InitPlusLast(b);
    DropLastKeepsTieGroups(a, a', x, b, b', y);
    OrderedInit(a, descending);
    OrderedInit(b, descending);
  }

  /** Helper: a non-empty list is its head followed by its tail. */
  lemma HeadPlusTail(s: seq<Player>)
    requires s != []
    ensures s == [s[0]] + s[1..]
  {
  }

  /** Helper: a non-empty list is its front followed by its last element. */
  lemma InitPlusLast(s: seq<Player>)
    requires s != []
    ensures s == s[..|s| - 1] + [s[|s| - 1]]
  {
  }

  /** Helper: dropping the last player keeps a list ordered. */
  lemma OrderedInit(s: seq<Player>, descending: bool)
    requires Ordered(s, descending) && s != []
    ensures Ordered(s[..|s| - 1], descending)
  {
    var t := s[..|s| - 1];
    forall i | 0 <= i < |t| - 1 ensures Key(t[i], descending) <= Key(t[i + 1], descending) {
      assert t[i] == s[i] && t[i + 1] == s[i + 1];
    }
  }

  /** Helper: two ordered lists with the same tie groups end in players with
      the same average. */
  lemma LastsShareAverage(a: seq<Player>, b: seq<Player>, descending: bool)
    requires a != [] && b != []
    requires Ordered(a, descending) && Ordered(b, descending)
    requires forall k :: WithPoints(a, k) == WithPoints(b, k)
    ensures a[|a| - 1].pointsPerGame == b[|b| - 1].pointsPerGame
  {
    LastHasGreatestKey(a, b, descending);
    LastHasGreatestKey(b, a, descending);
  }

  /** Helper: the last player of a non-empty list is in its own tie group. */
  lemma LastStartsTieGroup(s: seq<Player>)
    ensures s != [] ==> WithPoints(s, s[|s| - 1].pointsPerGame) != []
  {
  }

  /** Helper: when two lists have the same tie groups and their last players
      share an average, those last players are equal and the rest of the two
      lists again have the same tie groups. */
  lemma DropLastKeepsTieGroups(a: seq<Player>, a': seq<Player>, x: Player,
                               b: seq<Player>, b': seq<Player>, y: Player)
    requires a == a' + [x] && b == b' + [y]
    requires x.pointsPerGame == y.pointsPerGame
    requires forall k :: WithPoints(a, k) == WithPoints(b, k)
    ensures x == y
    ensures forall k :: WithPoints(a', k) == WithPoints(b', k)
  {
    WithPointsSnoc(a', x, x.pointsPerGame);
    WithPointsSnoc(b', y, x.pointsPerGame);
    assert WithPoints(a, x.pointsPerGame) == WithPoints(b, x.pointsPerGame);
    var u0, v0 := WithPoints(a', x.pointsPerGame), WithPoints(b', x.pointsPerGame);
    assert u0 + [x] == v0 + [y];
    assert x == (u0 + [x])[|u0 + [x]| - 1] == (v0 + [y])[|v0 + [y]| - 1] == y;
    forall k ensures WithPoints(a', k) == WithPoints(b', k) {
      WithPointsSnoc(a', x, k);
      WithPointsSnoc(b', y, k);
      assert WithPoints(a, k) == WithPoints(b, k);
      var u, v := WithPoints(a', k), WithPoints(b', k);
      if x.pointsPerGame == k {
        assert u + [x] == v + [y];
        assert |u| + 1 == |u + [x]| == |v + [y]| == |v| + 1;
        assert u == (u + [x])[..|u|] == (v + [y])[..|v|] == v;
      } else {
        assert y.pointsPerGame != k;
        assert WithPoints(a, k) == u + [] == u;
        assert WithPoints(b, k) == v + [] == v;
      }
    }
  }

  /** Helper: the tie groups of a list with one player appended. */
  lemma WithPointsSnoc(a: seq<Player>, x: Player, k: int)
    ensures WithPoints(a + [x], k) == WithPoints(a, k) + (if x.pointsPerGame == k then [x] else [])
  {
    assert (a + [x])[..|a|] == a;
  }

  /** Helper: the last element of a non-empty ordered `a` has a key at least
      that of any element of `b` whose tie groups all match `a`'s. */
  lemma {:induction false} LastHasGreatestKey(a: seq<Player>, b: seq<Player>, descending: bool)
    requires a != [] && b != []
    requires Ordered(a, descending)
    requires forall k :: WithPoints(a, k) == WithPoints(b, k)
    ensures Key(b[|b| - 1], descending) <= Key(a[|a| - 1], descending)
  {
    var y := b[|b| - 1];
    var k := y.pointsPerGame;
    WithPointsAppend(b[..|b| - 1], [y], k);
    assert b[..|b| - 1] + [y] == b;
    assert WithPoints([y], k) == [y];
    assert WithPoints(a, k) != [];
    var i := WithPointsWitness(a, k);
    OrderedAllPairs(a, descending, i, |a| - 1);
  }

  /** Helper: a non-empty tie group names a position of `s` with that average. */
  lemma {:induction false} WithPointsWitness(s: seq<Player>, k: int) returns (i: nat)
    requires WithPoints(s, k) != []
    ensures i < |s| && s[i].pointsPerGame == k
  {
    if s[|s| - 1].pointsPerGame == k {
      i := |s| - 1;
    } else {
      i := WithPointsWitness(s[..|s| - 1], k);
    }
  }
}
