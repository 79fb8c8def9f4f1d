/** The round and score state machine of the game (context/GameContext.tsx):
    five rounds, each showing one dish; up to five guesses of the dish's state
    of origin per round; a correct guess scores 5000 minus 1000 per earlier
    guess of the round.

    The state lives in `GameProvider`, a class whose methods update its fields
    the way the React state setters do, one call after another. Each method is
    proved against a function on `GameState`, the value of those fields, and
    the lemmas below state what the game promises about those functions. */
module GameContext {
  import opened Wrappers

  const MaxRounds := 5
  const MaxGuesses := 5
  /** The award for a first-guess win, and what each earlier guess costs. */
  const FullAward := 5000
  const GuessPenalty := 1000

  // ---------------------------------------------------------------------
  // Data
  // ---------------------------------------------------------------------

  datatype Coord = Coord(lat: real, lng: real)

  /** The hot/cold hint attached to a guess (its `label` is `caption` here,
      `label` being a Dafny keyword). */
  datatype Temperature = Temperature(caption: string, color: string)

  datatype Dish = Dish(
    id: string,
    name: string,
    image: string,
    origins: seq<string>,
    ingredients: seq<string>,
    description: string,
    wikiLink: string)

  datatype Guess = Guess(state: string, distance: real, temperature: Temperature)

  datatype Status = Playing | RoundWon | RoundLost | GameOver

  /** The geography the game is played on: the centroid of each state, the
      distance between two points and the hint for a distance. The distance
      and the hint are supplied from outside the model. */
  datatype Geo = Geo(
    centroids: map<string, Coord>,
    distance: (Coord, Coord) -> real,
    temperature: real -> Temperature)

  ghost predicate GeoValid(geo: Geo) {
    forall a: Coord, b: Coord :: geo.distance(a, b) >= 0.0
  }

  /** A dish the distance computation can handle: it names at least one
      origin, and each origin has a centroid. */
  predicate DishFits(geo: Geo, dish: Dish) {
    |dish.origins| > 0 && forall o :: o in dish.origins ==> o in geo.centroids
  }

  // ---------------------------------------------------------------------
  // The distance of a guess
  // ---------------------------------------------------------------------

  /** `Math.min` of a non-empty list. */
  function MinOf(xs: seq<real>): (m: real)
    requires |xs| > 0
    ensures m in xs
    ensures forall i :: 0 <= i < |xs| ==> m <= xs[i]
  {
    if |xs| == 1 then xs[0]
    else
      var rest := MinOf(xs[1..]);
      if xs[0] <= rest then xs[0] else rest
  }

  /** The distance from `from` to the centroid of each origin, in order. */
  function OriginDistances(geo: Geo, from: Coord, origins: seq<string>): seq<real>
    requires forall o :: o in origins ==> o in geo.centroids
  {
    seq(|origins|, i requires 0 <= i < |origins| => geo.distance(from, geo.centroids[origins[i]]))
  }

  /** The distance recorded for a guess: 0 for a correct guess and for a
      state without a centroid, otherwise the distance to the closest
      origin. */
  function GuessDistance(geo: Geo, dish: Dish, stateName: string): (d: real)
    requires DishFits(geo, dish)
    ensures stateName in dish.origins ==> d == 0.0
    ensures stateName !in dish.origins && stateName !in geo.centroids ==> d == 0.0
    ensures stateName !in dish.origins && stateName in geo.centroids ==>
      && (exists o :: o in dish.origins && d == geo.distance(geo.centroids[stateName], geo.centroids[o]))
      && (forall o :: o in dish.origins ==> d <= geo.distance(geo.centroids[stateName], geo.centroids[o]))
    ensures GeoValid(geo) ==> d >= 0.0
  {
    if stateName in dish.origins then 0.0
    else if stateName in geo.centroids then
      var from := geo.centroids[stateName];
      var ds := OriginDistances(geo, from, dish.origins);
      var m := MinOf(ds);
      assert forall o :: o in dish.origins ==> m <= geo.distance(from, geo.centroids[o]) by {
        forall o | o in dish.origins ensures m <= geo.distance(from, geo.centroids[o]) {
          var i :| 0 <= i < |dish.origins| && dish.origins[i] == o;
          assert ds[i] == geo.distance(from, geo.centroids[o]);
        }
      }
      m
    else 0.0
  }

  /** `guesses.some(g => g.state === stateName)`: exact string equality. */
  predicate AlreadyGuessed(guesses: seq<Guess>, stateName: string) {
    exists i :: 0 <= i < |guesses| && guesses[i].state == stateName
  }

  // ---------------------------------------------------------------------
  // The game state and its transitions
  // ---------------------------------------------------------------------

  datatype GameState = GameState(
    dishes: seq<Dish>,
    currentRound: int,
    guesses: seq<Guess>,
    score: int,
    status: Status,
    history: seq<Dish>)
  {
    /** `shuffledDishes[currentRound - 1] || null`. */
    function CurrentDish(): (r: Option<Dish>)
      ensures r.Some? <==> 1 <= currentRound <= |dishes|
      ensures r.Some? ==> r.value in dishes
    {
      if 1 <= currentRound <= |dishes| then Some(dishes[currentRound - 1]) else None
    }

    predicate DishesFit(geo: Geo) {
      forall d :: d in dishes ==> DishFits(geo, d)
    }

    /** `makeGuess` passes its two guards. */
    predicate Accepts(stateName: string) {
      status == Playing && CurrentDish().Some? && !AlreadyGuessed(guesses, stateName)
    }

    /** `makeGuess(stateName)`. */
    function AfterGuess(geo: Geo, stateName: string): GameState
      requires DishesFit(geo)
    {
      if !Accepts(stateName) then this
      else
        var dish := CurrentDish().value;
        var isCorrect := stateName in dish.origins;
        var distance := GuessDistance(geo, dish, stateName);
        var newGuesses := guesses + [Guess(stateName, distance, geo.temperature(distance))];
        if isCorrect then
          this.(guesses := newGuesses,
                score := score + (FullAward - |guesses| * GuessPenalty),
                status := RoundWon,
                history := history + [dish])
        else if |newGuesses| >= MaxGuesses then
          this.(guesses := newGuesses, status := RoundLost, history := history + [dish])
        else
          this.(guesses := newGuesses)
    }

    /** `nextRound()`, which does not look at the status. */
    function AfterNextRound(): GameState {
      if currentRound >= MaxRounds then this.(status := GameOver)
      else this.(currentRound := currentRound + 1, guesses := [], status := Playing)
    }

    /** The invariant every reachable state keeps. */
    ghost predicate Inv(geo: Geo) {
      && 1 <= currentRound <= MaxRounds
      && DishesFit(geo)
      && |guesses| <= MaxGuesses
      && (status == Playing ==> |guesses| < MaxGuesses)
      && (forall i, j :: 0 <= i < j < |guesses| ==> guesses[i].state != guesses[j].state)
      && (forall i :: 0 <= i < |guesses| ==> guesses[i].distance >= 0.0)
      && score % GuessPenalty == 0
      && 0 <= score <= FullAward * |history|
      && |history| <= currentRound
      && (status == Playing ==> |history| < currentRound)
      && (status == GameOver ==> currentRound == MaxRounds)
    }

    /** The stronger invariant of a game in which `nextRound` is only called
        from a round result, as the page does: one history entry per
        finished round, and the history is the dealt dishes in order. */
    predicate Disciplined() {
      && (status == Playing ==> |history| == currentRound - 1)
      && (status != Playing ==> |history| == currentRound)
      && |history| <= |dishes|
      && history == dishes[..|history|]
    }
  }

  /** `startNewGame()` on the shuffled pool: the first `MaxRounds` dishes,
      round 1, no guesses, no score, no history. */
  function NewGame(shuffled: seq<Dish>): GameState {
    var n := if |shuffled| < MaxRounds then |shuffled| else MaxRounds;
    GameState(shuffled[..n], 1, [], 0, Playing, [])
  }

  // ---------------------------------------------------------------------
  // makeGuess
  // ---------------------------------------------------------------------

  /** A guess outside play, without a current dish, or repeating a state
      string already guessed this round changes nothing. */
  lemma GuardsChangeNothing(geo: Geo, s: GameState, stateName: string)
    requires s.DishesFit(geo)
    requires s.status != Playing || s.CurrentDish().None? || AlreadyGuessed(s.guesses, stateName)
    ensures s.AfterGuess(geo, stateName) == s
  {
  }

  /** An accepted guess, right or wrong, appends exactly one entry for the
      guessed state, with the hint for its own distance, and keeps the
      earlier ones. */
  lemma AcceptedGuessAppendsOne(geo: Geo, s: GameState, stateName: string)
    requires s.DishesFit(geo) && s.Accepts(stateName)
    ensures var t := s.AfterGuess(geo, stateName);
      && |t.guesses| == |s.guesses| + 1
      && t.guesses[..|s.guesses|] == s.guesses
      && t.guesses[|s.guesses|].state == stateName
      && t.guesses[|s.guesses|].temperature == geo.temperature(t.guesses[|s.guesses|].distance)
      && t.currentRound == s.currentRound && t.dishes == s.dishes
  {
  }

  /** A guess naming an origin of the current dish wins the round: distance
      0, the dish added to the history, and 5000 minus 1000 per earlier guess
      added to the score, which while playing is between 1000 and 5000. */
  lemma CorrectGuessWins(geo: Geo, s: GameState, stateName: string)
    requires s.Inv(geo) && s.Accepts(stateName)
    requires stateName in s.CurrentDish().value.origins
    ensures var t := s.AfterGuess(geo, stateName);
      && t.status == RoundWon
      && t.guesses[|s.guesses|].distance == 0.0
      && t.history == s.history + [s.CurrentDish().value]
      && t.score == s.score + (FullAward - GuessPenalty * |s.guesses|)
      && s.score + 1000 <= t.score <= s.score + 5000
  {
  }

  /** A wrong guess records the distance to the closest origin, or 0 when
      the guessed state has no centroid. */
  lemma WrongGuessDistance(geo: Geo, s: GameState, stateName: string)
    requires s.DishesFit(geo) && s.Accepts(stateName)
    requires stateName !in s.CurrentDish().value.origins
    ensures var t := s.AfterGuess(geo, stateName);
      var dish := s.CurrentDish().value;
      var d := t.guesses[|s.guesses|].distance;
      && (stateName !in geo.centroids ==> d == 0.0)
      && (stateName in geo.centroids ==>
            && (exists o :: o in dish.origins && d == geo.distance(geo.centroids[stateName], geo.centroids[o]))
            && (forall o :: o in dish.origins ==> d <= geo.distance(geo.centroids[stateName], geo.centroids[o])))
  {
  }

  /** A wrong guess that brings the round to five guesses loses it; any other
      wrong guess keeps the round going. Neither touches the score. */
  lemma WrongGuessOutcome(geo: Geo, s: GameState, stateName: string)
    requires s.DishesFit(geo) && s.Accepts(stateName)
    requires stateName !in s.CurrentDish().value.origins
    ensures var t := s.AfterGuess(geo, stateName);
      && t.score == s.score
      && (|s.guesses| + 1 >= MaxGuesses ==> t.status == RoundLost && t.history == s.history + [s.CurrentDish().value])
      && (|s.guesses| + 1 < MaxGuesses ==> t.status == Playing && t.history == s.history)
  {
  }

  /** Guessing the same state twice in a row is the same as guessing it once. */
  lemma GuessIsIdempotent(geo: Geo, s: GameState, stateName: string)
    requires s.DishesFit(geo)
    ensures s.AfterGuess(geo, stateName).DishesFit(geo)
    ensures s.AfterGuess(geo, stateName).AfterGuess(geo, stateName) == s.AfterGuess(geo, stateName)
  {
    var t := s.AfterGuess(geo, stateName);
    if s.Accepts(stateName) {
      assert t.guesses[|s.guesses|].state == stateName;
    }
  }

  /** makeGuess keeps the invariant. */
  lemma GuessKeepsInv(geo: Geo, s: GameState, stateName: string)
    requires GeoValid(geo) && s.Inv(geo)
    ensures s.AfterGuess(geo, stateName).Inv(geo)
  {
    if s.Accepts(stateName) {
      var t := s.AfterGuess(geo, stateName);
      var n := |s.guesses|;
      forall i, j | 0 <= i < j < |t.guesses| ensures t.guesses[i].state != t.guesses[j].state {
        if j == n {
          assert t.guesses[i] == s.guesses[i];
        }
      }
      if stateName in s.CurrentDish().value.origins {
        assert FullAward - n * GuessPenalty == (5 - n) * GuessPenalty;
      }
    }
  }

  // ---------------------------------------------------------------------
  // nextRound and startNewGame
  // ---------------------------------------------------------------------

  /** nextRound ends the game exactly from round 5 (or later); otherwise it
      moves to the next round with no guesses. Score, history and dishes
      never change. */
  lemma NextRoundEffect(s: GameState)
    ensures var t := s.AfterNextRound();
      && t.score == s.score && t.history == s.history && t.dishes == s.dishes
      && (t.status == GameOver <==> s.currentRound >= MaxRounds)
      && (s.currentRound < MaxRounds ==> t.currentRound == s.currentRound + 1 && t.guesses == [] && t.status == Playing)
      && (s.currentRound >= MaxRounds ==> t.currentRound == s.currentRound && t.guesses == s.guesses)
  {
  }

  lemma NextRoundKeepsInv(geo: Geo, s: GameState)
    requires s.Inv(geo)
    ensures s.AfterNextRound().Inv(geo)
  {
  }

  /** The new game is round 1 with the first min(5, |pool|) dishes of the
      shuffled pool, each drawn from the pool, and keeps the invariant. */
  lemma NewGameEffect(geo: Geo, pool: seq<Dish>, shuffled: seq<Dish>)
    requires multiset(shuffled) == multiset(pool)
    requires forall d :: d in pool ==> DishFits(geo, d)
    ensures var t := NewGame(shuffled);
      && |t.dishes| == (if |pool| < MaxRounds then |pool| else MaxRounds)
      && multiset(t.dishes) <= multiset(pool)
      && t.dishes == shuffled[..|t.dishes|]
      && t.currentRound == 1 && t.guesses == [] && t.score == 0 && t.status == Playing && t.history == []
      && t.Inv(geo) && t.Disciplined()
  {
    var t := NewGame(shuffled);
    assert |shuffled| == |multiset(shuffled)| == |pool|;
    assert shuffled == t.dishes + shuffled[|t.dishes|..];
    forall d | d in t.dishes ensures DishFits(geo, d) {
      assert d in multiset(shuffled);
    }
  }

  // ---------------------------------------------------------------------
  // Whole-game properties
  // ---------------------------------------------------------------------

  /** The score is a multiple of 1000 and at most 5000 per finished round,
      so never above the 25,000 the final screen is out of. */
  lemma ScoreBounded(geo: Geo, s: GameState)
    requires s.Inv(geo)
    ensures s.score % 1000 == 0
    ensures 0 <= s.score <= FullAward * |s.history| <= 25000
  {
  }

  /** A guess that ends the round adds the round's own dish to the history. */
  lemma GuessKeepsDisciplined(geo: Geo, s: GameState, stateName: string)
    requires s.Inv(geo) && s.Disciplined()
    ensures s.AfterGuess(geo, stateName).Disciplined()
  {
    if s.Accepts(stateName) {
      var r := s.currentRound;
      assert s.dishes[..r] == s.dishes[..r - 1] + [s.dishes[r - 1]];
    }
  }

  /** Called from a round result, nextRound keeps one history entry per
      finished round. */
  lemma NextRoundKeepsDisciplined(s: GameState)
    requires s.Disciplined() && (s.status == RoundWon || s.status == RoundLost)
    ensures s.AfterNextRound().Disciplined()
  {
  }

  /** Leaving round 5 from its result ends the game with the first five
      dealt dishes, in order, as the history. */
  lemma FinalRoundEndsGame(geo: Geo, s: GameState)
    requires s.Inv(geo) && s.Disciplined()
    requires s.status == RoundWon || s.status == RoundLost
    requires s.currentRound == MaxRounds
    ensures s.AfterNextRound().status == GameOver
    ensures |s.AfterNextRound().history| == MaxRounds
    ensures s.AfterNextRound().history == s.dishes[..MaxRounds]
  {
  }

  /** Without a status guard, nextRound during play skips the round: the
      dish is never added to the history. */
  lemma NextRoundDuringPlaySkipsDish(s: GameState)
    requires s.Disciplined() && s.status == Playing && s.currentRound < MaxRounds
    ensures !s.AfterNextRound().Disciplined()
    ensures |s.AfterNextRound().history| == s.AfterNextRound().currentRound - 2
  {
  }

  // ---------------------------------------------------------------------
  // The provider
  // ---------------------------------------------------------------------

  /** `GameProvider`: the six pieces of game state, updated in place. */
  class GameProvider {
    const geo: Geo
    var dishes: seq<Dish>
    var currentRound: int
    var guesses: seq<Guess>
    var score: int
    var status: Status
    var history: seq<Dish>

    function State(): GameState
      reads this
    {
      GameState(dishes, currentRound, guesses, score, status, history)
    }

    ghost predicate Valid()
      reads this
    {
      GeoValid(geo) && State().Inv(geo)
    }

    /** The initial `useState` values, before the first game is dealt. */
    constructor (geo: Geo)
      requires GeoValid(geo)
      ensures this.geo == geo
      ensures State() == GameState([], 1, [], 0, Playing, [])
      ensures Valid()
    {
      this.geo := geo;
      dishes := [];
      currentRound := 1;
      guesses := [];
      score := 0;
      status := Playing;
      history := [];
    }

    /** `startNewGame`, with `shuffled` the shuffled copy of the pool. */
    method StartNewGame(pool: seq<Dish>, shuffled: seq<Dish>)
      requires Valid()
      requires multiset(shuffled) == multiset(pool)
      requires forall d :: d in pool ==> DishFits(geo, d)
      modifies this
      ensures State() == NewGame(shuffled)
      ensures Valid()
    {
      var n := if |shuffled| < MaxRounds then |shuffled| else MaxRounds;
      dishes := shuffled[..n];
      currentRound := 1;
      guesses := [];
      score := 0;
      status := Playing;
      history := [];
      NewGameEffect(geo, pool, shuffled);
    }

    /** `restartGame`: a new game, whatever the state. */
    method RestartGame(pool: seq<Dish>, shuffled: seq<Dish>)
      requires Valid()
      requires multiset(shuffled) == multiset(pool)
      requires forall d :: d in pool ==> DishFits(geo, d)
      modifies this
      ensures State() == NewGame(shuffled)
      ensures Valid()
    {
      StartNewGame(pool, shuffled);
    }

    /** `makeGuess(stateName)`. */
    method MakeGuess(stateName: string)
      requires Valid()
      modifies this
      ensures State() == old(State()).AfterGuess(geo, stateName)
      ensures Valid()
    {
      GuessKeepsInv(geo, State(), stateName);
      var current := State().CurrentDish();
      if status != Playing || current.None? {
        return;
      }
      if AlreadyGuessed(guesses, stateName) {
        return;
      }
      var dish := current.value;
      var isCorrect := stateName in dish.origins;
      var distance := GuessDistance(geo, dish, stateName);
      var newGuesses := guesses + [Guess(stateName, distance, geo.temperature(distance))];
      var priorCount := |guesses|;
      guesses := newGuesses;
      if isCorrect {
        score := score + (FullAward - priorCount * GuessPenalty);
        status := RoundWon;
        history := history + [dish];
      } else if |newGuesses| >= MaxGuesses {
        status := RoundLost;
        history := history + [dish];
      }
    }

    /** `nextRound()`. */
    method NextRound()
      requires Valid()
      modifies this
      ensures State() == old(State()).AfterNextRound()
      ensures Valid()
    {
      NextRoundKeepsInv(geo, State());
      if currentRound >= MaxRounds {
        status := GameOver;
      } else {
        currentRound := currentRound + 1;
        guesses := [];
        status := Playing;
      }
    }
  }
}
