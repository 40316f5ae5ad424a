# Basketball roster service: a Dafny model

This project models the roster held by `PlayersController`. The roster is an
in-memory, ordered table of `Player` records that starts with seven players
from *Kuroko's Basketball*. Five operations use it:

- `GetAll` lists the table. The caller can ask for it sorted by points per
  game, ascending (`sortStrategy = 1`) or descending (`-1`).
- `GetPlayerById` looks up the first player with a given number.
- `GetPlayersCountByTeam` counts the players of a team. The team name is
  compared ordinally, ignoring case.
- `AddPlayer` appends a new player. The table is changed in place.
- `DeletePlayer` removes a player. The table is changed in place.

The model has five modules:

- `Models` (`models.dfy`): the `Player` record and its two constructors.
  `int` becomes the `int32` newtype.
- `Strings` (`strings.dfy`): the two .NET string services the controller
  calls. These are `string.IsNullOrWhiteSpace` and equality under
  `StringComparison.OrdinalIgnoreCase`. A `null` string is `None`.
- `PlayerOrder` (`player_order.dfy`): LINQ's `OrderBy` and `OrderByDescending`
  on `PointsPerGame`, written as a stable insertion sort. Three properties are
  proved about it:
  - the result is ordered;
  - it has the same multiset of players as the input;
  - for every average `k`, the players with average `k` appear in the same
    relative order (`WithPoints`).

  These three properties determine the result uniquely. So any ordered,
  stable rearrangement equals the one computed here.
- `Controllers` (`players_controller.dfy`):
  - the seed table;
  - the three queries, as functions over `seq<Player>`;
  - the `PlayersController` class. Its `players` field is the shared table.
    `AddPlayer` and `DeletePlayer` are methods that reassign that field. The
    class invariant `Valid()` says that ids are unique and positive.
- `Wrappers` (`wrappers.dfy`): the `Option` type.

`Controllers.EndToEnd` is a client scenario, not a model of a source
operation. It lists the seed table in descending order, then adds a player
with id 99 and looks it up. Adding that player again is a conflict. It then
deletes the player and looks it up again, which reports not found. Its
assertions follow from the contracts above.

Outcomes are `Ok(value)` or `Err(kind)`. The error kinds are `BadRequest`,
`NotFound` and `Conflict`, which stand for HTTP 400, 404 and 409.

## Model

| member | source | states |
|---|---|---|
| Models.DefaultPlayer | Models/Player.cs:5-13 | The default constructor sets `Name`, `Position` and `Team` to the empty string, not null. `Id`, `Height` and `PointsPerGame` keep the value 0. |
| Models.NewPlayer | Models/Player.cs:16-23 | The parameterised constructor round-trips: each of the six properties reads back exactly its argument. |
| Models.InitializerMatchesConstructor | Models/Player.cs:13-23 | The default constructor followed by an initializer that sets all six properties builds the same record as the parameterised constructor. |
| Strings.UpperChar | Controllers/PlayersController.cs:92 | Upper-casing shifts exactly the ASCII lower-case letters by 32 and leaves every other character unchanged. It never turns white space into non-white space, or the reverse. |
| Strings.IsWhiteSpace | Controllers/PlayersController.cs:88 | `char.IsWhiteSpace`: the Unicode space, line and paragraph separators (U+0020, U+00A0, U+1680, U+2000 to U+200A, U+2028, U+2029, U+202F, U+205F, U+3000), plus U+0009 to U+000D and U+0085. |
| Strings.IsNullOrWhiteSpace | Controllers/PlayersController.cs:88 | `string.IsNullOrWhiteSpace`: true for null, for the empty string, and for a string made only of white space. |
| Strings.Upper | Controllers/PlayersController.cs:92 | The upper-cased string leaves no ASCII lower-case letter. |
| Strings.UpperIdempotent | Controllers/PlayersController.cs:92 | Upper-casing twice gives the same result as upper-casing once. |
| Strings.EqualsIgnoreCase | Controllers/PlayersController.cs:92 | `Equals(…, StringComparison.OrdinalIgnoreCase)`: two strings are equal once both are upper-cased. |
| Strings.EqualsIgnoreCaseUpper | Controllers/PlayersController.cs:92 | Every string equals its own upper-cased form, ignoring case. |
| Strings.EqualsIgnoreCaseEquivalence | Controllers/PlayersController.cs:92 | Equality ignoring case is reflexive, symmetric and transitive. |
| Strings.EqualsIgnoreCaseCharwise | Controllers/PlayersController.cs:92 | Two strings are equal ignoring case if and only if they have the same length and each pair of characters is equal once upper-cased. |
| Strings.IgnoreCaseKeepsBlankness | Controllers/PlayersController.cs:88-92 | Two names equal ignoring case are either both blank or both not blank, so the blank-name check and the comparison agree. |
| PlayerOrder.OrderedAllPairs | Controllers/PlayersController.cs:38-41 | In a sequence where each neighbour pair is in order, every pair at positions `i <= j` is in order. |
| PlayerOrder.InsertAfterTies | Controllers/PlayersController.cs:38-41 | Inserting a player into an ordered list gives an ordered list. The result has the old contents plus that player, and its head is either the new player or the old head. |
| PlayerOrder.SortByPoints | Controllers/PlayersController.cs:38-41 | The sort result is ordered by points (ascending, or descending) and is a permutation of the input. |
| PlayerOrder.OrderedPoints | Controllers/PlayersController.cs:38-41 | An ordered list has non-decreasing points over every pair of positions for `OrderBy`. For `OrderByDescending` it has non-increasing points. |
| PlayerOrder.WithPointsAppend | Controllers/PlayersController.cs:38-41 | The players with a given average in `a + b` are those from `a`, followed by those from `b`. |
| PlayerOrder.InsertAfterTiesStable | Controllers/PlayersController.cs:38-41 | Insertion puts the new player after every earlier player with the same average. Every other group of equal averages keeps its order. |
| PlayerOrder.SortByPointsStable | Controllers/PlayersController.cs:38-41 | The sort is stable: for each average `k`, the players with average `k` keep their original relative order. |
| PlayerOrder.SortByPointsStableAll | Controllers/PlayersController.cs:38-41 | The sort is stable, stated for all averages at once. |
| PlayerOrder.OrderedTieGroupsDetermine | Controllers/PlayersController.cs:38-41 | Two sequences that are both ordered by points and have the same players in each group of equal averages are equal. So a stable sort has exactly one possible result. |
| PlayerOrder.LastHasGreatestKey | Controllers/PlayersController.cs:38-41 | Suppose two sequences have the same groups of equal averages, and the first is ordered. Then the last player of the second does not come after the last player of the first in the sort order. |
| Controllers.Seed | Controllers/PlayersController.cs:11-20 | The seed table has seven players, with ids 10, 11, 4, 5, 6, 7 and 9 in that order. Its ids are unique and positive. |
| Controllers.SeedIdRange | Controllers/PlayersController.cs:13-19 | Every seed id lies between 4 and 11. |
| Controllers.HasId | Controllers/PlayersController.cs:121 | `_players.Any(p => p.Id == id)`: some entry of the table has the id. |
| Controllers.IndexOfId | Controllers/PlayersController.cs:67 | `FirstOrDefault` stops at the first entry with the id. It finds nothing if and only if no entry has that id. |
| Controllers.GetAll | Controllers/PlayersController.cs:27-47 | `null` returns the table unchanged. `1` returns it non-decreasing in points and `-1` non-increasing. Either sort is a permutation of the table and keeps ties in table order. Every other value is a bad request, and only those values are. |
| Controllers.GetAllIsTheStableSort | Controllers/PlayersController.cs:37-42 | Any arrangement that is sorted in the requested direction and keeps ties in table order is exactly what `GetAll` returns. |
| Controllers.TopScorerAtTheEnds | Controllers/PlayersController.cs:37-42 | The player with the strictly highest average comes first in the descending listing and last in the ascending one. |
| Controllers.StrictMaximumAtTheEnd | Controllers/PlayersController.cs:37-42 | In any ordered rearrangement, the strict maximum sits at the corresponding end. |
| Controllers.PositionInRearrangement | Controllers/PlayersController.cs:31-42 | Every entry of the table appears somewhere in a rearranged copy of equal size. |
| Controllers.SeedDescendingStartsWithAomine | Controllers/PlayersController.cs:40-41 | The descending listing of the seed table has seven players and starts with Daiki Aomine (id 7). |
| Controllers.GetPlayerById | Controllers/PlayersController.cs:60-71 | A negative id is a bad request, and only a negative id is. A non-negative id that is present succeeds, and only such an id does; the result is the first player with that id. A non-negative id that is absent is not found, and only such an id is. |
| Controllers.GetPlayerByIdFindsEntry | Controllers/PlayersController.cs:67-71 | When ids are unique, looking up an entry's id returns that entry. |
| Controllers.IdZeroNotFound | Controllers/PlayersController.cs:64-70 | Id 0 passes the sign check. When every stored id is positive, it is reported as not found. |
| Controllers.CountTeam | Controllers/PlayersController.cs:91-92 | The count is the number of positions whose team equals the name, ignoring case. It is at most the table's length. |
| Controllers.GetPlayersCountByTeam | Controllers/PlayersController.cs:84-98 | A null, empty or all-white-space name is a bad request, and only such a name is. Otherwise the result echoes the name unchanged and gives the number of players whose team equals it, ignoring case. |
| Controllers.CountIgnoresCase | Controllers/PlayersController.cs:88-92 | Two names that are equal ignoring case get the same outcome and the same count. |
| Controllers.SeedSeirinCount | Controllers/PlayersController.cs:88-98 | In the seed table, "SEIRIN HIGH" and "seirin high" both count 2. Each answer echoes the spelling it was given. |
| Controllers.SeirinSpellingsAgree | Controllers/PlayersController.cs:92 | "SEIRIN HIGH" and "seirin high" are equal under the ordinal case-insensitive comparison. |
| Controllers.SeedSeirinIndices | Controllers/PlayersController.cs:13-19 | Exactly the first two seed players, Kuroko and Kagami, are on Seirin High, ignoring case. |
| Controllers.ListRemove | Controllers/PlayersController.cs:153 | `List.Remove` leaves a list without the player unchanged. Otherwise it removes exactly one occurrence: the length drops by one and the contents lose one copy of the player. |
| Controllers.ListRemoveAt | Controllers/PlayersController.cs:148-153 | Removing the player found first closes the gap at its position. The remaining entries keep their order. |
| Controllers.AppendFreshId | Controllers/PlayersController.cs:121-124 | Appending a player whose id is not in the table keeps ids unique, and a lookup of that id then finds the new player. |
| Controllers.RemoveAtClearsId | Controllers/PlayersController.cs:148-153 | Removing an entry from a table with unique ids keeps ids unique and leaves no entry with that id. |
| Controllers.PlayersController.constructor | Controllers/PlayersController.cs:11-20 | The table starts as the seed, with unique, positive ids. |
| Controllers.PlayersController.AddPlayer | Controllers/PlayersController.cs:111-128 | A missing player or an id `<= 0` is a bad request, and an id already present is a conflict. In those cases the table is unchanged. Otherwise the table becomes the old table plus the new player at the end, and the player is returned. Ids stay unique and positive, and a lookup of the new id finds the new player. |
| Controllers.PlayersController.DeletePlayer | Controllers/PlayersController.cs:141-159 | A negative id is a bad request, and an absent id is not found. In those cases the table is unchanged. Otherwise the first player with that id is removed and returned, and the other entries keep their order. The length drops by one, ids stay unique and positive, and a later lookup of that id is not found. |

## Left out

- The HTTP layer is not modelled: result types, status codes, routes, `CreatedAtAction`, query and body binding, and the error-message texts. Only the kind of outcome and its payload are modelled.
- The `catch (Exception)` branches that answer 500 are not modelled. No modelled operation throws.
- Framework validation of the request body is not modelled, including a JSON body whose string fields are `null`. Every `Player` in the model has non-null strings.
- `PointsPerGame` is a `double` in the source. Here it is an integer number of tenths of a point, which covers every seed value exactly. Only its order is used, so NaN and floating-point comparison are not modelled.
- Strings.UpperChar: case-insensitive comparison folds only the ASCII letters. `OrdinalIgnoreCase` also folds non-ASCII letters, such as "ō" in "Tōō Academy", so the model treats "TŌŌ ACADEMY" and "Tōō Academy" as different.
- Controllers.ListRemove: `List.Remove` matches the first reference-equal element, but the model removes the first value-equal one. `DeletePlayer` removes the entry it has just found. Earlier entries have other ids, so both choices remove the same position (`ListRemoveAt`).
- `_players` is a static list shared by every controller instance. It is modelled as the field of one `PlayersController` object that persists across calls. Concurrent requests are not modelled; calls are strictly sequential.
- `GetAll` returns a fresh copy, so later changes to the table do not affect a listing already returned. Because the model works on values, this aliasing is not modelled.
- Program.cs is not part of this model: it only starts the host and configures Swagger. The OpenAPI metadata shim is not part of this model either.
