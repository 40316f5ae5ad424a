/** The roster record of Models/Player.cs. */
module Models {

  /** C#'s `int`: a signed 32-bit integer. */
  newtype int32 = x: int | -0x8000_0000 <= x < 0x8000_0000

  /** One player. `pointsPerGame` is the scoring average in tenths of a point
      (the source keeps a `double`; only its order is ever used). */
  datatype Player = Player(
    id: int32,
    name: string,
    position: string,
    height: int32,
    team: string,
    pointsPerGame: int)

  /** `new Player()`: the three text fields start as the empty string, and the
      numeric fields keep their type's default value. */
  function DefaultPlayer(): (p: Player)
    ensures p.name == "" && p.position == "" && p.team == ""
    ensures p.id == 0 && p.height == 0 && p.pointsPerGame == 0
  {
    Player(0, "", "", 0, "", 0)
  }

  /** `new Player(id, name, position, height, team, pointsPerGame)`: every
      property reads back the argument it was given. */
  function NewPlayer(id: int32, name: string, position: string, height: int32,
                     team: string, pointsPerGame: int): (p: Player)
    ensures p.id == id && p.name == name && p.position == position
    ensures p.height == height && p.team == team && p.pointsPerGame == pointsPerGame
  {
    Player(id, name, position, height, team, pointsPerGame)
  }

  /** An object initializer `new Player { Id = ..., ... }` that sets all six
      properties builds the same record as the parameterised constructor. */
  lemma InitializerMatchesConstructor(id: int32, name: string, position: string, height: int32,
                                      team: string, pointsPerGame: int)
    ensures DefaultPlayer().(id := id, name := name, position := position, height := height,
                             team := team, pointsPerGame := pointsPerGame)
            == NewPlayer(id, name, position, height, team, pointsPerGame)
  {
  }
}
