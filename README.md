# Bharat Bites: game state machine and state-name matching

Bharat Bites is a guessing game: each of five rounds shows an Indian dish, and
the player has five guesses to name a state the dish comes from. A correct
guess earns 5000 points minus 1000 for each earlier guess in that round. A wrong
guess is answered with the distance to the closest state of origin and a
hot/cold hint. After each round a map colours the states green (an origin),
red (a wrong guess) or grey.

This project models three parts of the game and proves their properties:

- `game_context.dfy` (module `GameContext`): the game state machine
  (`GameProvider` in `context/GameContext.tsx`). The class `GameProvider`
  holds the six state fields and updates them in place:
  - `StartNewGame`, `RestartGame`, `MakeGuess` and `NextRound` are each proved
    against a function on the field values (`GameState`).
  - Lemmas about those functions state the guards, the transitions, the score
    arithmetic and the invariants.
- `map_helpers.dfy` (module `MapHelpers`): the state-name normaliser
  `normalizeStateName` and the comparison `isStateMatch` (`utils/map-helpers.ts`).
  Lemmas state the equivalence-relation and fixed-point properties, and the
  alias pairs the game relies on.
- `game_map.dfy` (module `GameMap`): the choice of a region's name and of its
  fill and hover colours (`components/GameMap.tsx`). It includes how the result
  screen wires the map to the game state (`app/page.tsx`).
- `wrappers.dfy`: `Option`.

The model follows the code, including these behaviours a player might not
expect:

- Duplicate guesses are detected by exact string equality, not by comparing
  normal forms: `makeGuess("Orissa")` after "Odisha" is accepted and recorded,
  although `isStateMatch` says they are the same state
  (`GameMap.MatchingRepeatIsAccepted`). Since guesses come from the list of
  state names, this shows only if that list holds two names that match.
- A correct guess is also appended to the guess list.
- `nextRound` has no status guard. The page only offers it on a round result
  (`GameContext.NextRoundDuringPlaySkipsDish` shows what the guard would
  prevent).
- A correct guess is an exact member of the dish's origins.
- A wrong guess for a state without a centroid is recorded with distance 0.

## Model

| member | source | states |
|---|---|---|
| GameContext.MinOf | context/GameContext.tsx:107 | `Math.min` of a non-empty list is one of its elements and no larger than any element |
| GameContext.OriginDistances | context/GameContext.tsx:100-106 | the distance from the guessed state's centroid to each origin's centroid, in the order of the origins (no contract of its own; stated through GuessDistance and WrongGuessDistance) |
| GameContext.GuessDistance | context/GameContext.tsx:96-109 | distance 0 for a correct guess or a state without a centroid; otherwise the distance to some origin's centroid, no larger than to any other origin's; non-negative when the distance function is |
| GameContext.GameState.CurrentDish | context/GameContext.tsx:88 | the current dish exists exactly when the round number indexes the dish list, and is then one of the dishes |
| GameContext.GuardsChangeNothing | context/GameContext.tsx:91-92 | a guess outside play, without a current dish, or repeating a guessed state string leaves the whole state unchanged |
| GameContext.GameState.Accepts | context/GameContext.tsx:91-92 | both guards of `makeGuess` pass: the status is playing, there is a current dish and the state string was not guessed this round (no contract of its own; stated by GuardsChangeNothing and the lemmas that assume it) |
| GameContext.AlreadyGuessed | context/GameContext.tsx:92 | the duplicate test: some earlier guess has exactly this state string (no contract; its consequences are stated by GuardsChangeNothing and GameMap.MatchingRepeatIsAccepted) |
| GameContext.GameState.AfterGuess | context/GameContext.tsx:90-131 | `makeGuess` on the state value: the two guards, the guess entry, the score award and the round outcome (no contract of its own; stated by the lemmas below) |
| GameContext.GameState.AfterNextRound | context/GameContext.tsx:133-141 | `nextRound` on the state value (no contract of its own; stated by NextRoundEffect) |
| GameContext.NewGame | context/GameContext.tsx:64-75 | `startNewGame` on the shuffled pool (no contract of its own; stated by NewGameEffect) |
| GameContext.AcceptedGuessAppendsOne | context/GameContext.tsx:111-118 | an accepted guess, correct or not, grows the guess list by one entry for the guessed state whose hint is `getTemperature` of its own distance, and keeps the earlier entries, round and dishes |
| GameContext.CorrectGuessWins | context/GameContext.tsx:94-126 | a guess naming an origin wins the round with distance 0, appends the dish to the history and adds 5000 - 1000 x (earlier guesses), which is between 1000 and 5000 |
| GameContext.WrongGuessDistance | context/GameContext.tsx:98-109 | a wrong guess is recorded with the minimum distance over the origins' centroids, or 0 when the guessed state has no centroid |
| GameContext.WrongGuessOutcome | context/GameContext.tsx:127-130 | a wrong fifth guess loses the round and appends the dish to the history; an earlier wrong guess keeps the round in play; the score is unchanged either way |
| GameContext.GuessIsIdempotent | context/GameContext.tsx:90-131 | guessing the same state twice in a row has the effect of guessing it once |
| GameContext.GuessKeepsInv | context/GameContext.tsx:90-131 | makeGuess keeps the invariant: round 1..5, at most 5 pairwise-distinct guesses (fewer than 5 while playing), non-negative distances, score a multiple of 1000 within 0..5000 x history length, history no longer than the round number |
| GameContext.NextRoundEffect | context/GameContext.tsx:133-141 | nextRound ends the game exactly when the round is 5 or more, otherwise moves to the next round with no guesses in play; score, history and dishes never change |
| GameContext.NextRoundKeepsInv | context/GameContext.tsx:133-141 | nextRound keeps the invariant, whatever the status |
| GameContext.NewGameEffect | context/GameContext.tsx:64-75 | a new game deals the first min(5, pool size) dishes of the shuffled pool, each drawn from the pool, at round 1 with no guesses, score 0, status playing and empty history, and satisfies both invariants |
| GameContext.ScoreBounded | context/GameContext.tsx:48-123 | the score is a multiple of 1000 and at most 5000 per finished round, hence at most 25,000 |
| GameContext.GuessKeepsDisciplined | context/GameContext.tsx:90-131 | makeGuess keeps "history length is round - 1 while playing and round after a result, and the history is the dealt dishes in order": a guess ending the round appends that round's dish |
| GameContext.NextRoundKeepsDisciplined | context/GameContext.tsx:133-141 | called from a round result, nextRound keeps that relation |
| GameContext.FinalRoundEndsGame | context/GameContext.tsx:134-135 | leaving round 5 from its result ends the game, and the history is then exactly the first five dealt dishes in order |
| GameContext.NextRoundDuringPlaySkipsDish | context/GameContext.tsx:133-141 | without a status guard, nextRound during play leaves the round's dish out of the history |
| GameContext.GameProvider.constructor | context/GameContext.tsx:52-57 | the initial field values: no dishes, round 1, no guesses, score 0, playing, empty history |
| GameContext.GameProvider.StartNewGame | context/GameContext.tsx:64-75 | sets the fields to the new game dealt from the shuffled pool and keeps the invariant |
| GameContext.GameProvider.RestartGame | context/GameContext.tsx:143-145 | the same reset as startNewGame, from any state |
| GameContext.GameProvider.MakeGuess | context/GameContext.tsx:90-131 | updates the fields as `AfterGuess` prescribes and keeps the invariant |
| GameContext.GameProvider.NextRound | context/GameContext.tsx:133-141 | updates the fields as `AfterNextRound` prescribes and keeps the invariant |
| MapHelpers.NormalizeStateName | utils/map-helpers.ts:4-26 | `normalizeStateName` with the alias lookup restricted to the table's own keys (the corrected lookup of the finding below); `IsStateMatch` and `GameMap.RegionFill` are built on it, not on NormalizeAsWritten (no contract of its own; stated by the lemmas below) |
| MapHelpers.IsStateMatch | utils/map-helpers.ts:30-34 | two names match when their normal forms are equal (no contract of its own; stated by MatchIsEquivalence and the match lemmas) |
| MapHelpers.LookupKey | utils/map-helpers.ts:7 | `name.toLowerCase().trim()` (stated by LookupKeySpec) |
| MapHelpers.ToLower | utils/map-helpers.ts:7 | `toLowerCase`, character by character (stated by ToLowerSpec) |
| MapHelpers.TrimStart | utils/map-helpers.ts:7 | the leading half of `trim` (stated by TrimStartSpec) |
| MapHelpers.TrimEnd | utils/map-helpers.ts:7 | the trailing half of `trim` (stated by TrimEndSpec) |
| MapHelpers.Trim | utils/map-helpers.ts:7 | `trim` (stated by TrimSpec) |
| MapHelpers.ReplaceAmpersands | utils/map-helpers.ts:25 | `replace(/&/g, 'and')` (stated by ReplaceAmpersandsSpec, ReplaceAmpersandsChar and ReplaceAmpersandsAppend) |
| MapHelpers.StripDisallowed | utils/map-helpers.ts:25 | `replace(/[^a-z0-9\s]/g, '')` (stated by StripDisallowedSpec, StripDisallowedChar and StripDisallowedAppend) |
| MapHelpers.Aliases | utils/map-helpers.ts:10-18 | the six aliases and their standard names (stated by AliasKeysAreLookupKeys, AliasValuesAreCanonical and AliasKeysNormalizeToValues) |
| MapHelpers.Fallback | utils/map-helpers.ts:25 | the fallback of a key that is not an alias: ampersands spelled out, then disallowed characters removed (stated by FallbackSpec and AmpersandSpelledOut) |
| MapHelpers.LowerChar | utils/map-helpers.ts:7 | lower-casing one character turns the n-th capital into the n-th lower-case letter, changes nothing else, leaves no upper-case letter and keeps white space |
| MapHelpers.ToLowerSpec | utils/map-helpers.ts:7 | `toLowerCase` keeps the length, turns each capital into its lower-case letter at the same position and keeps every other character, so it leaves no upper-case letter and fixes strings without one |
| MapHelpers.TrimStartSpec | utils/map-helpers.ts:7 | removing leading white space yields a suffix, removes only white space and leaves none at the front |
| MapHelpers.TrimEndSpec | utils/map-helpers.ts:7 | removing trailing white space yields a prefix, removes only white space and leaves none at the back |
| MapHelpers.TrimSpec | utils/map-helpers.ts:7 | `trim` leaves no white space at either end, fixes trimmed strings and introduces no upper case |
| MapHelpers.LookupKeySpec | utils/map-helpers.ts:7 | the lookup key is trimmed and lower-case, and a trimmed lower-case name is its own key |
| MapHelpers.ReplaceAmpersandsSpec | utils/map-helpers.ts:25 | after replacing `&` by `and` no `&` remains, and a string without `&` is unchanged |
| MapHelpers.ReplaceAmpersandsChar | utils/map-helpers.ts:25 | on one character the replacement gives "and" for `&` and the character itself otherwise |
| MapHelpers.ReplaceAmpersandsAppend | utils/map-helpers.ts:25 | the global replacement distributes over concatenation, so together with the one-character case it fixes the result of every string |
| MapHelpers.StripDisallowedSpec | utils/map-helpers.ts:25 | removing characters outside `[a-z0-9\s]` leaves only such characters and fixes strings made of them |
| MapHelpers.StripDisallowedChar | utils/map-helpers.ts:25 | one character is kept exactly when it is in `[a-z0-9\s]`, and removed otherwise |
| MapHelpers.StripDisallowedAppend | utils/map-helpers.ts:25 | the removal distributes over concatenation, so together with the one-character case it fixes the result of every string |
| MapHelpers.FallbackSpec | utils/map-helpers.ts:24-25 | the fallback yields only `[a-z0-9\s]` and leaves a string made of them unchanged |
| MapHelpers.NormalFormIsKept | utils/map-helpers.ts:4-26 | every normal form is made of `[a-z0-9\s]` only |
| MapHelpers.EmptyNormalizesToEmpty | utils/map-helpers.ts:5 | the empty name normalises to "" |
| MapHelpers.CanonicalIsFixedPoint | utils/map-helpers.ts:20-25 | a trimmed name made of `[a-z0-9\s]` that is not an alias normalises to itself |
| MapHelpers.AliasValuesAreCanonical | utils/map-helpers.ts:10-18 | every standard name in the alias table is such a fixed point |
| MapHelpers.AliasKeysAreLookupKeys | utils/map-helpers.ts:7-18 | every alias is its own lookup key |
| MapHelpers.AliasKeysNormalizeToValues | utils/map-helpers.ts:10-22 | each alias normalises to its standard name (orissa to odisha, uttaranchal to uttarakhand, both former territories to the merged one) |
| MapHelpers.TrimIgnoresSurroundingSpace | utils/map-helpers.ts:7 | white space added around a string does not change its trimmed form |
| MapHelpers.ToLowerAppend | utils/map-helpers.ts:7 | lower-casing distributes over concatenation |
| MapHelpers.NormalizeDependsOnlyOnKey | utils/map-helpers.ts:7-25 | the normal form of a name is the normal form of its lower-cased, trimmed key |
| MapHelpers.SurroundingSpaceIgnored | utils/map-helpers.ts:7 | surrounding white space never changes the normal form |
| MapHelpers.CaseIgnored | utils/map-helpers.ts:7 | names that agree up to letter case have the same normal form |
| MapHelpers.MatchIsEquivalence | utils/map-helpers.ts:30-34 | `isStateMatch` is reflexive, symmetric and transitive |
| MapHelpers.MatchThroughKeys | utils/map-helpers.ts:7-34 | two names match when their lookup keys have the same normal form |
| MapHelpers.OrissaMatchesOdisha | utils/map-helpers.ts:11-34 | "Orissa" matches "Odisha" |
| MapHelpers.AmpersandMatchesAnd | utils/map-helpers.ts:13-34 | "Jammu & Kashmir" matches "Jammu and Kashmir" |
| MapHelpers.MergedTerritoriesMatch | utils/map-helpers.ts:15-34 | "Dadra & Nagar Haveli" matches "Daman & Diu" |
| MapHelpers.AmpersandSpelledOut | utils/map-helpers.ts:24-25 | two non-empty canonical names joined by " & ", when the joined name is not an alias, normalise to the same names joined by " and " |
| MapHelpers.DisallowedTailDropped | utils/map-helpers.ts:25 | punctuation after a canonical name is removed, so the name with it normalises to the name without it |
| MapHelpers.NormalizeAsWritten | utils/map-helpers.ts:20-22 | as written, the lookup returns an inherited `Object.prototype` member exactly for the keys "constructor" and "__proto__" |
| MapHelpers.IsStateMatchAsWritten | utils/map-helpers.ts:30-34 | `isStateMatch` as written, comparing the as-written normal forms (no contract of its own; stated by ConstructorDoesNotMatchAsWritten, and equal to IsStateMatch away from the inherited keys by AsWrittenAgreesElsewhere) |
| MapHelpers.AsWrittenAgreesElsewhere | utils/map-helpers.ts:4-26 | away from those keys, the code as written and the own-keys normaliser agree |
| MapHelpers.ConstructorDoesNotMatchAsWritten | utils/map-helpers.ts:20-34 | as written "constructor" and "constructor." do not match, though their normal forms are equal |
| GameMap.RegionName | components/GameMap.tsx:29 | the region name is the first non-empty of `name`, `st_nm`, `NAME_1`, and "" when there is none |
| GameMap.AnyMatch | components/GameMap.tsx:34-35 | `targets.some(t => isStateMatch(regionName, t))` (no contract of its own; used by RegionFill's contract) |
| GameMap.RegionFill | components/GameMap.tsx:32-41 | green exactly when a correct target matches; red exactly when none does and an incorrect one matches; neutral exactly when neither list matches |
| GameMap.FillColor | components/GameMap.tsx:32-41 | green for a correct region, red for an incorrect one, light grey otherwise (no contract of its own; stated by HoverChangesOnlyNeutral) |
| GameMap.HoverColor | components/GameMap.tsx:52 | a darker grey on hover for a neutral region, the fill colour otherwise (no contract of its own; stated by HoverChangesOnlyNeutral) |
| GameMap.HoverChangesOnlyNeutral | components/GameMap.tsx:32-52 | the fill colours are distinct, and hovering changes the colour of a neutral region only |
| GameMap.EmptyListsGiveNeutral | components/GameMap.tsx:32-41 | with two empty lists every region is neutral |
| GameMap.FillRespectsMatching | components/GameMap.tsx:34-35 | names that match each other get the same fill |
| GameMap.OrissaGreenForOdisha | components/GameMap.tsx:34-38 | a region named "Orissa" is green when "Odisha" is an origin, whatever the incorrect list holds |
| GameMap.MatchingRepeatIsAccepted | context/GameContext.tsx:92 | the duplicate guard compares strings exactly: after a guess of "Odisha", "Orissa", which matches it, is accepted and recorded as a second guess |
| GameMap.GuessedStates | app/page.tsx:102 | the incorrect list is the guessed states, in order |
| GameMap.WinningGuessShownGreen | app/page.tsx:100-103 | after a winning guess the guessed region matches both lists and is shown green |

## Left out

- The image lookup in `startNewGame` (context/GameContext.tsx:77-85) is not modelled. It is network I/O plus an asynchronous replacement of each dish's `image`. `Dish.image` is an opaque string, so a stale lookup overwriting a newer game is not modelled either. utils/wiki-api.ts is not part of this model.
- The random shuffle (context/GameContext.tsx:66) is a parameter, `shuffled`, that is any permutation of the pool. Its distribution is not modelled.
- `calculateDistance` and `getTemperature` are parameters of `Geo`, and the distance is assumed non-negative (`GeoValid`). utils/haversine is not part of this model, and neither is its floating-point trigonometry. Distances are `real`.
- The dish data, the centroid table and the boundary dataset are parameters (the pool, `Geo.centroids`, `RegionProperties`).
- GameContext.GameState.AfterGuess requires every dish to have an origin and a centroid for each origin (`DishFits`), enforced at `StartNewGame`. The code fails only for a wrong guess whose state has a centroid: with no origins `Math.min()` gives `Infinity`, and a missing origin centroid throws a `TypeError`.
- GameContext.GuessDistance looks the guessed state up among the centroid map's own keys. An inherited property name such as "constructor" would reach `Object.prototype` in the code, but guesses come from the list of state names.
- React plumbing is left out: the context, the hooks, the mount-time `useEffect`, batched and functional state updates, and the `useGame` provider check. Each method applies its updates in sequence to the class fields.
- The rendering is left out: the SVG map and its projection, the hint text, the guess input and the page layout. Only the map wiring at app/page.tsx:100-103 is modelled.
- MapHelpers.ToLower: ASCII only (only 'A'..'Z' change case). The full Unicode case mapping of `toLowerCase` is not modelled.
- MapHelpers.Trim: white space is the six ASCII white-space characters only. Unicode spaces that `trim` and `\s` also accept are not modelled.
- MapHelpers.NormalizeStateName: the input is always a string, so the only falsy input is "". `null` and `undefined` are not modelled.

## Findings

| source | as written | input that shows it | evidently intended | confidence | as-written member | corrected member |
|---|---|---|---|---|---|---|
| utils/map-helpers.ts:20-21 | `mappings[lower]` reads a plain object literal, so a key inherited from `Object.prototype` is found too. For "constructor" it returns the `Object` function, and for "__proto__" the prototype object, neither of them a string. | `isStateMatch("constructor", "constructor.")` is false, though both names normalise to "constructor" through the fallback | only the six listed aliases are looked up (an own-property check), so every result is a string of `[a-z0-9\s]` | not executed | MapHelpers.ConstructorDoesNotMatchAsWritten | MapHelpers.NormalFormIsKept |
