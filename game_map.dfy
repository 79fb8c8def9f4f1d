/** The colour of one region of the map (components/GameMap.tsx): the region's
    name is taken from its properties, compared by `isStateMatch` with the
    correct and the incorrect states, and the first list wins. */
module GameMap {
  import opened Wrappers
  import opened MapHelpers
  import GameContext

  // ---------------------------------------------------------------------
  // The region name
  // ---------------------------------------------------------------------

  /** The name-bearing properties of a boundary feature; which of them a
      feature has depends on the dataset it comes from. */
  datatype RegionProperties = RegionProperties(name: Option<string>, stNm: Option<string>, name1: Option<string>)

  /** A property value JavaScript treats as true: present and not "". */
  predicate Truthy(v: Option<string>) {
    v.Some? && v.value != ""
  }

  /** `name || st_nm || NAME_1 || ""`. */
  function RegionName(p: RegionProperties): (r: string)
    ensures r != "" <==> Truthy(p.name) || Truthy(p.stNm) || Truthy(p.name1)
    ensures Truthy(p.name) ==> r == p.name.value
    ensures !Truthy(p.name) && Truthy(p.stNm) ==> r == p.stNm.value
    ensures !Truthy(p.name) && !Truthy(p.stNm) && Truthy(p.name1) ==> r == p.name1.value
  {
    if Truthy(p.name) then p.name.value
    else if Truthy(p.stNm) then p.stNm.value
    else if Truthy(p.name1) then p.name1.value
    else ""
  }

  // ---------------------------------------------------------------------
  // The fill
  // ---------------------------------------------------------------------

  datatype Fill = Correct | Incorrect | Neutral

  /** `targets.some(target => isStateMatch(regionName, target))`. */
  predicate AnyMatch(regionName: string, targets: seq<string>) {
    exists i :: 0 <= i < |targets| && IsStateMatch(regionName, targets[i])
  }

  /** Correct beats incorrect, which beats neutral. */
  function RegionFill(regionName: string, correct: seq<string>, incorrect: seq<string>): (f: Fill)
    ensures f == Correct <==> AnyMatch(regionName, correct)
    ensures f == Incorrect <==> !AnyMatch(regionName, correct) && AnyMatch(regionName, incorrect)
    ensures f == Neutral <==> !AnyMatch(regionName, correct) && !AnyMatch(regionName, incorrect)
  {
    if AnyMatch(regionName, correct) then Correct
    else if AnyMatch(regionName, incorrect) then Incorrect
    else Neutral
  }

  const NeutralColor := "#E5E5E5"
  const CorrectColor := "#16a34a"
  const IncorrectColor := "#dc2626"
  const NeutralHoverColor := "#D6D3D1"

  function FillColor(f: Fill): string {
    match f
    case Correct => CorrectColor
    case Incorrect => IncorrectColor
    case Neutral => NeutralColor
  }

  /** The hover fill: a darker grey for neutral regions, else the fill. */
  function HoverColor(f: Fill): string {
    if FillColor(f) == NeutralColor then NeutralHoverColor else FillColor(f)
  }

  /** The three fill colours are distinct, and hovering changes the colour of
      a neutral region only. */
  lemma HoverChangesOnlyNeutral(f: Fill)
    ensures HoverColor(f) != FillColor(f) <==> f == Neutral
    ensures forall g: Fill :: FillColor(g) == FillColor(f) ==> g == f
  {
    assert CorrectColor[1] != IncorrectColor[1] && CorrectColor[1] != NeutralColor[1];
    assert IncorrectColor[1] != NeutralColor[1] && NeutralHoverColor[1] != NeutralColor[1];
  }

  /** With nothing to compare against, every region is neutral. */
  lemma EmptyListsGiveNeutral(regionName: string)
    ensures RegionFill(regionName, [], []) == Neutral
  {
  }

  /** Region names that match each other get the same fill: the decision
      sees a name only through its normal form. */
  lemma FillRespectsMatching(a: string, b: string, correct: seq<string>, incorrect: seq<string>)
    requires IsStateMatch(a, b)
    ensures RegionFill(a, correct, incorrect) == RegionFill(b, correct, incorrect)
  {
    assert forall t :: IsStateMatch(a, t) <==> IsStateMatch(b, t);
  }

  /** A region named "Orissa" is green when "Odisha" is an origin, whatever
      the incorrect list holds. */
  lemma OrissaGreenForOdisha(incorrect: seq<string>)
    ensures RegionFill("Orissa", ["Odisha"], incorrect) == Correct
  {
    OrissaMatchesOdisha();
    assert ["Odisha"][0] == "Odisha";
  }

  /** The duplicate-guess guard compares state strings exactly, while the
      map compares by normal form: after a wrong guess of "Odisha",
      `makeGuess("Orissa")` is accepted and recorded a second time, although
      `isStateMatch` says the two are the same state. Guesses come from the
      list of state names, so this shows only if that list holds two names
      that match. */
  lemma MatchingRepeatIsAccepted(geo: GameContext.Geo, s: GameContext.GameState, g: GameContext.Guess)
    requires s.DishesFit(geo) && s.status == GameContext.Playing && s.CurrentDish().Some?
    requires s.guesses == [g] && g.state == "Odisha"
    ensures IsStateMatch("Orissa", g.state)
    ensures s.Accepts("Orissa")
    ensures |s.AfterGuess(geo, "Orissa").guesses| == 2
  {
    OrissaMatchesOdisha();
    assert "Orissa"[1] != "Odisha"[1];
    GameContext.AcceptedGuessAppendsOne(geo, s, "Orissa");
  }

  // ---------------------------------------------------------------------
  // The map on the round-result screen
  // ---------------------------------------------------------------------

  /** `guesses.map(g => g.state)`, the page's incorrect list. */
  function GuessedStates(guesses: seq<GameContext.Guess>): (r: seq<string>)
    ensures |r| == |guesses| && forall i :: 0 <= i < |r| ==> r[i] == guesses[i].state
  {
    seq(|guesses|, i requires 0 <= i < |guesses| => guesses[i].state)
  }

  /** After a winning guess the page passes the dish's origins as the correct
      list and every guess, the winning one included, as the incorrect list:
      the guessed region matches both lists and is shown green. */
  lemma WinningGuessShownGreen(geo: GameContext.Geo, s: GameContext.GameState, stateName: string, regionName: string)
    requires s.Inv(geo) && s.Accepts(stateName)
    requires stateName in s.CurrentDish().value.origins
    requires IsStateMatch(regionName, stateName)
    ensures var t := s.AfterGuess(geo, stateName);
      && t.status == GameContext.RoundWon
      && AnyMatch(regionName, GuessedStates(t.guesses))
      && RegionFill(regionName, t.CurrentDish().value.origins, GuessedStates(t.guesses)) == Correct
  {
    var t := s.AfterGuess(geo, stateName);
    GameContext.CorrectGuessWins(geo, s, stateName);
    GameContext.AcceptedGuessAppendsOne(geo, s, stateName);
    var origins := t.CurrentDish().value.origins;
    assert origins == s.CurrentDish().value.origins;
    var k :| 0 <= k < |origins| && origins[k] == stateName;
    assert IsStateMatch(regionName, origins[k]);
    assert GuessedStates(t.guesses)[|s.guesses|] == stateName;
  }
}
