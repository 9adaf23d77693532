// Day 2: which games are possible with 12 red, 13 green and 14 blue cubes.
// A game record arrives already split into its id and its three colour lists; the
// regular-expression extraction that produces them is not part of this model.
module Day2 {

  const MaxRedPermitted: nat := 12
  const MaxBluePermitted: nat := 14
  const MaxGreenPermitted: nat := 13

  datatype GameRecord = GameRecord(id: nat, red: seq<nat>, blue: seq<nat>, green: seq<nat>)

  /** get_max_value: a running maximum that starts at 0. */
  method GetMaxValue(values: seq<nat>) returns (max: nat)
    ensures forall i :: 0 <= i < |values| ==> values[i] <= max
    ensures values == [] ==> max == 0
    ensures values != [] ==> max in values
  {
    max := 0;
    for i := 0 to |values|
      invariant forall k :: 0 <= k < i ==> values[k] <= max
      invariant (i == 0 && max == 0) || (exists k :: 0 <= k < i && values[k] == max)
    {
      if values[i] > max {
        max := values[i];
      }
    }
  }

  /** Every draw of a colour stays within the number of cubes of that colour. */
  ghost predicate WithinLimit(draws: seq<nat>, limit: nat) {
    forall i :: 0 <= i < |draws| ==> draws[i] <= limit
  }

  ghost predicate Possible(game: GameRecord) {
    && WithinLimit(game.red, MaxRedPermitted)
    && WithinLimit(game.green, MaxGreenPermitted)
    && WithinLimit(game.blue, MaxBluePermitted)
  }

  /** The sum of the ids of the possible games among `games`. */
  ghost function PossibleIdSum(games: seq<GameRecord>): nat {
    if games == [] then 0
    else PossibleIdSum(games[..|games| - 1]) + (if Possible(games[|games| - 1]) then games[|games| - 1].id else 0)
  }

  /** A colour list is within its limit exactly when its maximum, as get_max_value
      computes it, is. */
  lemma {:induction false} MaximumDecidesLimit(draws: seq<nat>, max: nat, limit: nat)
    requires forall i :: 0 <= i < |draws| ==> draws[i] <= max
    requires draws == [] ==> max == 0
    requires draws != [] ==> max in draws
    ensures max <= limit <==> WithinLimit(draws, limit)
  {
  }

  /** main's loop: skip a game whose red, blue or green maximum is over its limit,
      otherwise add its id. */
  method SumOfPossibleGameIds(games: seq<GameRecord>) returns (sum: nat)
    ensures sum == PossibleIdSum(games)
  {
    sum := 0;
    for i := 0 to |games|
      invariant sum == PossibleIdSum(games[..i])
    {
      assert games[..i + 1][..i] == games[..i];
      var game := games[i];
      var maxRed := GetMaxValue(game.red);
      var maxBlue := GetMaxValue(game.blue);
      var maxGreen := GetMaxValue(game.green);
      MaximumDecidesLimit(game.red, maxRed, MaxRedPermitted);
      MaximumDecidesLimit(game.blue, maxBlue, MaxBluePermitted);
      MaximumDecidesLimit(game.green, maxGreen, MaxGreenPermitted);
      if maxRed > MaxRedPermitted || maxBlue > MaxBluePermitted || maxGreen > MaxGreenPermitted {
        continue;
      }
      sum := sum + game.id;
    }
    assert games[..|games|] == games;
  }
}
