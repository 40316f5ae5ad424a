/** The roster service of Controllers/PlayersController.cs: the seeded table
    of players, the three read-only queries over it, and the controller
    object whose add and delete operations change the table in place. */
module Controllers {

  import opened Wrappers
  import opened Models
  import opened Strings
  import opened PlayerOrder

  /** The kinds of failure the controller reports (HTTP 400, 404, 409). */
  datatype Error = BadRequest | NotFound | Conflict

  datatype Result<T> = Ok(value: T) | Err(error: Error)

  /** The body of a successful team count: the team name exactly as the
      caller gave it, and the number of players on that team. */
  datatype TeamCount = TeamCount(team: string, playersCount: nat)

  // ---------------------------------------------------------------------
  // Facts about a table of players

  /** No two entries share an id. */
  predicate UniqueIds(s: seq<Player>) {
    forall i, j :: 0 <= i < j < |s| ==> s[i].id != s[j].id
  }

  /** Every id is positive. */
  predicate PositiveIds(s: seq<Player>) {
    forall i :: 0 <= i < |s| ==> s[i].id > 0
  }

  /** `_players.Any(p => p.Id == id)`. */
  predicate HasId(s: seq<Player>, id: int32) {
    exists i :: 0 <= i < |s| && s[i].id == id
  }

  /** The seven players the table starts with, each built by the default
      constructor followed by an object initializer. */
  function Seed(): (s: seq<Player>)
    ensures |s| == 7
    ensures s[0].id == 10 && s[1].id == 11 && s[2].id == 4 && s[3].id == 5
    ensures s[4].id == 6 && s[5].id == 7 && s[6].id == 9
    ensures UniqueIds(s) && PositiveIds(s)
  {
    var d := DefaultPlayer();
    [ d.(id := 10, name := "Tetsuya Kuroko", position := "PG", height := 168,
         team := "Seirin High", pointsPerGame := 58),
      d.(id := 11, name := "Taiga Kagami", position := "PF", height := 190,
         team := "Seirin High", pointsPerGame := 225),
      d.(id := 4, name := "Ryota Kise", position := "SG", height := 189,
         team := "Kaijo High", pointsPerGame := 264),
      d.(id := 5, name := "Shintaro Midorima", position := "SG", height := 195,
         team := "Shutoku High", pointsPerGame := 292),
      d.(id := 6, name := "Atsushi Murasakibara", position := "C", height := 208,
         team := "Yosen High", pointsPerGame := 281),
      d.(id := 7, name := "Daiki Aomine", position := "SF", height := 192,
         team := "Tōō Academy", pointsPerGame := 315),
      d.(id := 9, name := "Seijuro Akashi", position := "PG", height := 173,
         team := "Rakuzan High", pointsPerGame := 258) ]
  }

  /** The seed ids all lie between 4 and 11. */
  lemma SeedIdRange()
    ensures forall i :: 0 <= i < |Seed()| ==> 4 <= Seed()[i].id <= 11
  {
    var s := Seed();
    forall i | 0 <= i < |s| ensures 4 <= s[i].id <= 11 {
      assert i == 0 || i == 1 || i == 2 || i == 3 || i == 4 || i == 5 || i == 6;
    }
  }

  /** The position `FirstOrDefault(p => p.Id == id)` stops at: the first
      entry with that id, or `None` when there is none. */
  function IndexOfId(s: seq<Player>, id: int32): (r: Option<nat>)
    ensures r.Some? ==> r.value < |s| && s[r.value].id == id
    ensures r.Some? ==> forall j :: 0 <= j < r.value ==> s[j].id != id
    ensures r.None? <==> !HasId(s, id)
  {
    if s == [] then None
    else if s[0].id == id then Some(0)
    else match IndexOfId(s[1..], id)
      case None =>
        assert forall j :: 1 <= j < |s| ==> s[j] == s[1..][j - 1];
        None
      case Some(i) => Some(i + 1)
  }

  // ---------------------------------------------------------------------
  // GetAll

  /** `GetAll(sortStrategy)`: a copy of the table, unsorted for `null`,
      sorted by points ascending for `1` and descending for `-1`; every other
      value is a bad request. */
  function GetAll(players: seq<Player>, sortStrategy: Option<int32>): (r: Result<seq<Player>>)
    ensures r.Err? <==> sortStrategy.Some? && sortStrategy.value != 1 && sortStrategy.value != -1
    ensures r.Err? ==> r.error == BadRequest
    ensures sortStrategy.None? ==> r == Ok(players)
    ensures sortStrategy == Some(1) ==> r.Ok? && NonDecreasingPoints(r.value)
    ensures sortStrategy == Some(-1) ==> r.Ok? && NonIncreasingPoints(r.value)
    ensures r.Ok? ==> |r.value| == |players| && multiset(r.value) == multiset(players)
    ensures r.Ok? ==> forall k :: WithPoints(r.value, k) == WithPoints(players, k)
  {
    match sortStrategy
    case None => Ok(players)
    case Some(n) =>
      if n == 1 || n == -1 then
        var descending := n == -1;
        var sorted := SortByPoints(players, descending);
        SortByPointsStableAll(players, descending);
        OrderedPoints(sorted, descending);
        assert |sorted| == |multiset(sorted)| == |multiset(players)| == |players|;
        Ok(sorted)
      else Err(BadRequest)
  }

  /** The sorted listings are the stable sort and nothing else: any
      arrangement ordered by points that keeps each group of equal averages
      in table order is exactly what `GetAll` returns. */
  lemma GetAllIsTheStableSort(players: seq<Player>, n: int32, t: seq<Player>)
    requires n == 1 || n == -1
    requires n == 1 ==> NonDecreasingPoints(t)
    requires n == -1 ==> NonIncreasingPoints(t)
    requires forall k :: WithPoints(t, k) == WithPoints(players, k)
    ensures GetAll(players, Some(n)) == Ok(t)
  {
    var descending := n == -1;
    var sorted := SortByPoints(players, descending);
    SortByPointsStableAll(players, descending);
    assert Ordered(t, descending);
    OrderedTieGroupsDetermine(sorted, t, descending);
  }

  /** A player whose average is strictly the highest heads the descending
      listing and closes the ascending one. */
  lemma TopScorerAtTheEnds(players: seq<Player>, j: nat)
    requires j < |players|
    requires forall i :: 0 <= i < |players| && i != j ==> players[i].pointsPerGame < players[j].pointsPerGame
    ensures GetAll(players, Some(-1)).Ok? && GetAll(players, Some(1)).Ok?
    ensures GetAll(players, Some(-1)).value[0] == players[j]
    ensures GetAll(players, Some(1)).value[|players| - 1] == players[j]
  {
    TopScorerFirstDescending(players, j);
    TopScorerLastAscending(players, j);
  }

  lemma TopScorerFirstDescending(players: seq<Player>, j: nat)
    requires j < |players|
    requires forall i :: 0 <= i < |players| && i != j ==> players[i].pointsPerGame < players[j].pointsPerGame
    ensures |SortByPoints(players, true)| == |players|
    ensures SortByPoints(players, true)[0] == players[j]
  {
    StrictMaximumAtTheEnd(players, SortByPoints(players, true), j, true);
  }

  lemma TopScorerLastAscending(players: seq<Player>, j: nat)
    requires j < |players|
    requires forall i :: 0 <= i < |players| && i != j ==> players[i].pointsPerGame < players[j].pointsPerGame
    ensures |SortByPoints(players, false)| == |players|
    ensures SortByPoints(players, false)[|players| - 1] == players[j]
  {
    StrictMaximumAtTheEnd(players, SortByPoints(players, false), j, false);
  }

  /** Helper: in any ordered rearrangement `t` of `s`, the entry of `s` with
      the strictly highest average comes first (descending) or last
      (ascending). */
  lemma StrictMaximumAtTheEnd(s: seq<Player>, t: seq<Player>, j: nat, descending: bool)
    requires j < |s| && multiset(s) == multiset(t) && Ordered(t, descending)
    requires forall i :: 0 <= i < |s| && i != j ==> s[i].pointsPerGame < s[j].pointsPerGame
    ensures |t| == |s|
    ensures descending ==> t[0] == s[j]
    ensures !descending ==> t[|t| - 1] == s[j]
  {
    var m := PositionInRearrangement(s, t, j);
    var e := if descending then 0 else |t| - 1;
    var i := PositionInRearrangement(t, s, e);
    if descending {
      OrderedAllPairs(t, true, 0, m);
    } else {
      OrderedAllPairs(t, false, m, |t| - 1);
    }
  }

  /** Helper: an entry of `s` has a position in any rearrangement `t` of it. */
  lemma PositionInRearrangement(s: seq<Player>, t: seq<Player>, k: nat) returns (m: nat)
    requires multiset(s) == multiset(t) && k < |s|
    ensures |t| == |s| && m < |t| && t[m] == s[k]
  {
    assert |t| == |multiset(t)| == |multiset(s)| == |s|;
    assert s[k] in multiset(t);
    m :| m < |t| && t[m] == s[k];
  }

  /** In the seed table, the descending listing starts with Daiki Aomine
      (id 7), who has the highest average. */
  lemma SeedDescendingStartsWithAomine()
    ensures GetAll(Seed(), Some(-1)).Ok?
    ensures var r := GetAll(Seed(), Some(-1)).value;
            |r| == 7 && r[0].id == 7 && r[0].name == "Daiki Aomine"
  {
    var seed := Seed();
    assert seed[5].pointsPerGame == 315;
    assert seed[0].pointsPerGame == 58 && seed[1].pointsPerGame == 225;
    assert seed[2].pointsPerGame == 264 && seed[3].pointsPerGame == 292;
    assert seed[4].pointsPerGame == 281 && seed[6].pointsPerGame == 258;
    TopScorerAtTheEnds(seed, 5);
    assert |multiset(GetAll(seed, Some(-1)).value)| == |multiset(seed)|;
  }

  // ---------------------------------------------------------------------
  // GetPlayerById

  /** `GetPlayerById(id)`: a negative id is a bad request; otherwise the
      first player with that id, or not found. */
  function GetPlayerById(players: seq<Player>, id: int32): (r: Result<Player>)
    ensures id < 0 <==> r == Err(BadRequest)
    ensures r == Err(NotFound) <==> id >= 0 && !HasId(players, id)
    ensures r.Ok? <==> id >= 0 && HasId(players, id)
    ensures r.Ok? ==> r.value.id == id &&
                      exists i :: 0 <= i < |players| && players[i] == r.value &&
                                  forall j :: 0 <= j < i ==> players[j].id != id
  {
    if id < 0 then Err(BadRequest)
    else match IndexOfId(players, id)
      case None => Err(NotFound)
      case Some(i) => Ok(players[i])
  }

  /** With unique ids, any entry is exactly what a lookup of its id returns. */
  lemma GetPlayerByIdFindsEntry(players: seq<Player>, i: nat)
    requires UniqueIds(players) && i < |players| && players[i].id >= 0
    ensures GetPlayerById(players, players[i].id) == Ok(players[i])
  {
    assert HasId(players, players[i].id);
  }

  /** Id 0 passes the sign check but is never found, because every stored id
      is positive. */
  lemma IdZeroNotFound(players: seq<Player>)
    requires PositiveIds(players)
    ensures GetPlayerById(players, 0) == Err(NotFound)
  {
  }

  // ---------------------------------------------------------------------
  // GetPlayersCountByTeam

  /** The positions of the players on team `teamName`, ignoring case. */
  ghost function TeamIndices(s: seq<Player>, teamName: string): set<int> {
    set i | 0 <= i < |s| && EqualsIgnoreCase(s[i].team, teamName)
  }

  /** `_players.Count(p => p.Team.Equals(teamName, OrdinalIgnoreCase))`. */
  function CountTeam(s: seq<Player>, teamName: string): (n: nat)
    ensures n == |TeamIndices(s, teamName)|
    ensures n <= |s|
  {
    if s == [] then 0
    else
      var m := |s| - 1;
      var before := CountTeam(s[..m], teamName);
      assert TeamIndices(s[..m], teamName) == set i | 0 <= i < m && EqualsIgnoreCase(s[i].team, teamName);
      if EqualsIgnoreCase(s[m].team, teamName) then
        assert TeamIndices(s, teamName) == TeamIndices(s[..m], teamName) + {m};
        before + 1
      else
        assert TeamIndices(s, teamName) == TeamIndices(s[..m], teamName);
        before
  }

  /** `GetPlayersCountByTeam(teamName)`: a null or blank name is a bad
      request; otherwise the name as given and how many players are on that
      team, ignoring case. */
  function GetPlayersCountByTeam(players: seq<Player>, teamName: Option<string>): (r: Result<TeamCount>)
    ensures r.Err? <==> IsNullOrWhiteSpace(teamName)
    ensures r.Err? ==> r.error == BadRequest
    ensures r.Ok? ==> r.value.team == teamName.value
    ensures r.Ok? ==> r.value.playersCount == |TeamIndices(players, teamName.value)|
    ensures r.Ok? ==> r.value.playersCount <= |players|
  {
    if IsNullOrWhiteSpace(teamName) then Err(BadRequest)
    else
      Ok(TeamCount(teamName.value, CountTeam(players, teamName.value)))
  }

  /** Two names equal ignoring case give the same answer. */
  lemma CountIgnoresCase(players: seq<Player>, a: string, b: string)
    requires EqualsIgnoreCase(a, b)
    ensures GetPlayersCountByTeam(players, Some(a)).Ok? == GetPlayersCountByTeam(players, Some(b)).Ok?
    ensures GetPlayersCountByTeam(players, Some(a)).Ok? ==>
              GetPlayersCountByTeam(players, Some(a)).value.playersCount
              == GetPlayersCountByTeam(players, Some(b)).value.playersCount
  {
    IgnoreCaseKeepsBlankness(a, b);
    assert TeamIndices(players, a) == TeamIndices(players, b);
  }

  /** In the seed table the count for "SEIRIN HIGH" and for "seirin high"
      is 2, Kuroko and Kagami, and each answer echoes the name as given. */
  lemma SeedSeirinCount()
    ensures GetPlayersCountByTeam(Seed(), Some("SEIRIN HIGH")) == Ok(TeamCount("SEIRIN HIGH", 2))
    ensures GetPlayersCountByTeam(Seed(), Some("seirin high")) == Ok(TeamCount("seirin high", 2))
  {
    var seed := Seed();
    assert GetPlayersCountByTeam(seed, Some("SEIRIN HIGH")) == Ok(TeamCount("SEIRIN HIGH", 2)) by {
      assert !IsWhiteSpace("SEIRIN HIGH"[0]);
      SeedSeirinIndices();
    }
    SeirinSpellingsAgree();
    CountIgnoresCase(seed, "SEIRIN HIGH", "seirin high");
  }

  lemma SeirinSpellingsAgree()
    ensures EqualsIgnoreCase("SEIRIN HIGH", "seirin high")
  {
    var a, b := "SEIRIN HIGH", "seirin high";
    EqualsIgnoreCaseCharwise(a, b);
    forall i | 0 <= i < |a| ensures UpperChar(a[i]) == UpperChar(b[i]) {
      if i != 6 {
        assert b[i] as int == a[i] as int + 32;
      }
    }
  }

  lemma SeedSeirinIndices()
    ensures TeamIndices(Seed(), "SEIRIN HIGH") == {0, 1}
  {
    var seed := Seed();
    var name := "SEIRIN HIGH";
    EqualsIgnoreCaseCharwise(seed[0].team, name);
    EqualsIgnoreCaseCharwise(seed[1].team, name);
    assert EqualsIgnoreCase(seed[0].team, name) && EqualsIgnoreCase(seed[1].team, name);
    assert !EqualsIgnoreCase(seed[2].team, name) by { assert |Upper(seed[2].team)| == 10; }
    assert !EqualsIgnoreCase(seed[3].team, name) by { assert |Upper(seed[3].team)| == 12; }
    assert !EqualsIgnoreCase(seed[4].team, name) by { assert |Upper(seed[4].team)| == 10; }
    assert !EqualsIgnoreCase(seed[5].team, name) by { assert Upper(seed[5].team)[0] == 'T'; }
    assert !EqualsIgnoreCase(seed[6].team, name) by { assert |Upper(seed[6].team)| == 12; }
  }

  // ---------------------------------------------------------------------
  // AddPlayer and DeletePlayer

  /** `List<Player>.Remove(x)`: drops the first entry equal to `x`, if any. */
  function ListRemove(s: seq<Player>, x: Player): (r: seq<Player>)
    ensures x !in s ==> r == s
    ensures x in s ==> |r| == |s| - 1
    ensures multiset(r) == multiset(s) - multiset{x}
  {
    if s == [] then []
    else if s[0] == x then
      assert s == [s[0]] + s[1..];
      s[1..]
    else
      assert s == [s[0]] + s[1..];
      [s[0]] + ListRemove(s[1..], x)
  }

  /** Removing the first occurrence of `x` closes the gap at its position. */
  lemma {:induction false} ListRemoveAt(s: seq<Player>, x: Player, i: nat)
    requires i < |s| && s[i] == x
    requires forall j :: 0 <= j < i ==> s[j] != x
    ensures ListRemove(s, x) == s[..i] + s[i + 1..]
  {
    if i > 0 {
      var t := s[1..];
      assert forall j :: 0 <= j < i - 1 ==> t[j] != x by {
        forall j | 0 <= j < i - 1 ensures t[j] != x {
          assert t[j] == s[j + 1];
        }
      }
      ListRemoveAt(t, x, i - 1);
      assert ListRemove(s, x) == [s[0]] + ListRemove(t, x) by {
        assert s[0] != x;
      }
      CloseGap(s, i);
    }
  }

  /** Helper: closing the gap at `i` in `s` is closing the gap at `i - 1` in
      its tail and putting the head back. */
  lemma CloseGap(s: seq<Player>, i: nat)
    requires 0 < i < |s|
    ensures [s[0]] + (s[1..][..i - 1] + s[1..][i..]) == s[..i] + s[i + 1..]
  {
    assert s[1..][..i - 1] == s[1..i] && s[1..][i..] == s[i + 1..];
    assert [s[0]] + s[1..i] == s[..i];
  }

  /** Appending a player with a new id keeps ids unique, and a lookup of
      that id finds the appended player. */
  lemma AppendFreshId(s: seq<Player>, p: Player)
    requires UniqueIds(s) && !HasId(s, p.id) && p.id >= 0
    ensures UniqueIds(s + [p])
    ensures GetPlayerById(s + [p], p.id) == Ok(p)
  {
    var t := s + [p];
    forall i, j | 0 <= i < j < |t| ensures t[i].id != t[j].id {
      if j == |s| {
        assert t[i] == s[i];
      } else {
        assert t[i] == s[i] && t[j] == s[j];
      }
    }
    GetPlayerByIdFindsEntry(t, |s|);
  }

  /** Removing the entry at `i` from a table with unique ids keeps them
      unique and leaves no entry with that id. */
  lemma RemoveAtClearsId(s: seq<Player>, i: nat)
    requires UniqueIds(s) && i < |s|
    ensures UniqueIds(s[..i] + s[i + 1..])
    ensures !HasId(s[..i] + s[i + 1..], s[i].id)
  {
    var t := s[..i] + s[i + 1..];
    assert forall k :: 0 <= k < |t| ==> t[k] == if k < i then s[k] else s[k + 1];
    assert forall k :: 0 <= k < |t| ==> t[k].id != s[i].id;
  }

  /** The controller, holding the shared table of players. */
  class PlayersController {
    var players: seq<Player>

    /** Ids are unique and positive. */
    ghost predicate Valid()
      reads this
    {
      UniqueIds(players) && PositiveIds(players)
    }

    /** The table starts as the seven seed players. */
    constructor ()
      ensures Valid() && players == Seed()
    {
      players := Seed();
    }

    /** `AddPlayer(newPlayer)`: a missing player or a non-positive id is a bad
        request, an id already present is a conflict, and in those cases the
        table is unchanged; otherwise the player is appended at the end. */
    method AddPlayer(newPlayer: Option<Player>) returns (r: Result<Player>)
      requires Valid()
      modifies this
      ensures Valid()
      ensures newPlayer.None? ==> r == Err(BadRequest)
      ensures newPlayer.Some? && newPlayer.value.id <= 0 ==> r == Err(BadRequest)
      ensures newPlayer.Some? && newPlayer.value.id > 0 && HasId(old(players), newPlayer.value.id)
              ==> r == Err(Conflict)
      ensures r.Err? ==> players == old(players)
      ensures newPlayer.Some? && newPlayer.value.id > 0 && !HasId(old(players), newPlayer.value.id)
              ==> r == Ok(newPlayer.value) && players == old(players) + [newPlayer.value]
      ensures r.Ok? ==> GetPlayerById(players, r.value.id) == Ok(r.value)
    {
      if newPlayer.None? {
        return Err(BadRequest);
      }
      var p := newPlayer.value;
      if p.id <= 0 {
        return Err(BadRequest);
      }
      if HasId(players, p.id) {
        return Err(Conflict);
      }
      AppendFreshId(players, p);
      players := players + [p];
      r := Ok(p);
    }

    /** `DeletePlayer(id)`: a negative id is a bad request and an absent id
        is not found, with the table unchanged; otherwise the first player
        with that id is removed and returned, the others keeping their
        order, and the id is no longer found. */
    method DeletePlayer(id: int32) returns (r: Result<Player>)
      requires Valid()
      modifies this
      ensures Valid()
      ensures id < 0 ==> r == Err(BadRequest)
      ensures id >= 0 && !HasId(old(players), id) ==> r == Err(NotFound)
      ensures r.Err? ==> players == old(players)
      ensures id >= 0 && HasId(old(players), id) ==>
                var i := IndexOfId(old(players), id).value;
                r == Ok(old(players)[i]) && players == old(players)[..i] + old(players)[i + 1..]
      ensures r.Ok? ==> |players| == |old(players)| - 1 && GetPlayerById(players, id) == Err(NotFound)
    {
      if id < 0 {
        return Err(BadRequest);
      }
      var found := IndexOfId(players, id);
      if found.None? {
        return Err(NotFound);
      }
      var i := found.value;
      var player := players[i];
      ListRemoveAt(players, player, i);
      RemoveAtClearsId(players, i);
      players := ListRemove(players, player);
      r := Ok(player);
    }
  }

  /** A client of the controller: list the seed in descending order, add a
      player with id 99, look it up, delete it, and look it up again. */
  method EndToEnd() {
    var c := new PlayersController();
    SeedDescendingStartsWithAomine();
    assert GetAll(c.players, Some(-1)).value[0].id == 7;
    var p := NewPlayer(99, "Test", "C", 200, "X", 100);
    SeedIdRange();
    var added := c.AddPlayer(Some(p));
    assert added == Ok(p);
    assert GetPlayerById(c.players, 99) == Ok(p);
    var again := c.AddPlayer(Some(p));
    assert again == Err(Conflict);
    var deleted := c.DeletePlayer(99);
    assert deleted == Ok(p);
    assert GetPlayerById(c.players, 99) == Err(NotFound);
    var missing := c.DeletePlayer(99);
    assert missing == Err(NotFound);
  }
}
