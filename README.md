# Tournament group stage and result recording, in Dafny

This project models the logic at the heart of a small multi-game tournament
manager. The manager is an Express and MongoDB backend with a Vue frontend.
Two pieces of that backend are modelled:

- **The group-stage fixture builder of the seeding script** (`backend/seed.js`).
  - It creates the players from fixed roster data and normalises each player's game tags.
  - For each of the four games it does the following:
    - keeps the players tagged with that game;
    - shuffles them;
    - splits them into group A (the first `ceil(n/2)`) and group B (the rest);
    - creates a `Scheduled` tournament;
    - pushes the group-stage fixtures.
  - Head-to-head games (Table Tennis, Chess, Programming) get a full round robin in each group.
  - Krunker gets one battle-royale match per group.
- **The result-recording route** (`PUT /:tournamentId/matches/:matchId` in
  `backend/routes/tournaments.js`).
  - It looks up one match of one tournament by id.
  - It sets the match's winner only when a truthy winner is supplied, and its score only when a truthy score is supplied.
  - It validates nothing and saves the tournament.

## Layout

- `wrappers.dfy` (`Wrappers`): `Option`, `Result`, `Outcome`.
- `schema.dfy` (`Schema`): the documents of `backend/models`.
  - `Player`, and `Match` with both of its shapes (two-party and multi-party).
  - The `'Group'/'Semi'/'Final'` rounds and `'A'/'B'` groups as enumerations.
  - Counting functions over match lists: `Appearances`, `Meetings`.
- `fixtures.dfy` (`Fixtures`): the pure parts of the seeding script. All of them are functions, with lemmas about them:
  - tag normalisation;
  - the eligibility filter;
  - the shuffle as a caller-chosen permutation;
  - the split;
  - `RoundRobin`, `BattleRoyale` and `GroupFixtures`, the fixture lists the two branches append.
- `results.dfy` (`Results`): what a result request means for a match list.
  - `UpdateResult` is the pure update.
  - Its lemmas cover only-the-addressed-match, never-cleared, idempotence and last-write-wins.
- `tournament.dfy` (`Tournaments`): the Tournament document as a class.
  - Its `matches` field is appended to and updated in place.
  - `Push`, `GenerateRoundRobin` (the nested loops) and `GenerateBattleRoyale` are proved to append exactly the `Fixtures` lists.
  - `RecordResult` is proved to produce exactly `UpdateResult`, and to leave the game, groups, status and id counter alone.
  - `PutMatchResult` is the route with the findById result as its argument.
- `seed.dfy` (`Seed`): the seeding script's imperative parts, plus end-to-end lemmas.
  - The imperative parts are the player-creation loop, one tournament per game, and the loop over the games.
  - The end-to-end lemmas cover group partition and sizes, disjointness, and per-player fixture counts.

## Modelling decisions

- **Object ids.**
  - Player and match ObjectIds are natural numbers.
  - A player's id is its position in the roster data; `Player.create` gives each one a fresh id.
  - A match's id comes from a per-tournament counter, `nextMatchId`, taken when the match is pushed. This mirrors Mongoose giving each embedded match a fresh `_id`.
  - `Tournament.Valid()` says the ids ascend in push order, so they never repeat.
- **Shuffle.** The `Math.random` comparator passed to `sort` is replaced by a permutation `perm` of `0 .. n-1` supplied by the caller. The shuffled list is `s[perm[0]], s[perm[1]], ...`.
- **`Math.ceil(n / 2)`** on a natural number is `(n + 1) / 2`.
- **Truthiness.**
  - A winner id is supplied (`Some`) or not (`None`); an ObjectId string is never falsy.
  - A score is truthy when it is present and not the empty string.
- **Result failures.** Every failure of the route ends in the `catch` with status 500. The model keeps the reason apart:
  - `TournamentNotFound`: `findById` gave `null`, so reading `.matches` throws.
  - `MatchNotFound`: `matches.id()` gave `null` and the request tries to assign a winner or score to it.
  - Both happen before `save`, so nothing changes.
  - A request for an unknown match that supplies neither field touches nothing and succeeds.
- **Where the schema allows more than the code does, the model follows the code:**
  - The Krunker branch pushes its two battles even for an empty or one-player group.
  - Recording a result does not check that the winner takes part in the match.
  - No code moves the status beyond `Scheduled`.

## Model

| member | source | states |
|---|---|---|
| Fixtures.NormaliseTag | backend/seed.js:28-33 | `'IAPC'` becomes `'Programming'`; every other tag, mapped or not, is returned unchanged (for tags that are not `Object.prototype` property names) |
| Fixtures.NormaliseGames | backend/seed.js:48 | the tag list keeps its length, each tag is normalised in place, and no `'IAPC'` is left |
| Fixtures.NormaliseGamesIdempotent | backend/seed.js:48 | normalising an already normalised tag list changes nothing |
| Fixtures.ParticipantsCount | backend/seed.js:59 | every player tagged with the game is kept as often as it occurs in the roster; every other player is dropped |
| Fixtures.ParticipantsAppend | backend/seed.js:59 | the filter keeps roster order: filtering a concatenation concatenates the filtered parts |
| Fixtures.ParticipantsDistinctIds | backend/seed.js:59 | participants of a roster with distinct ids have distinct ids |
| Fixtures.PermutationBounds | backend/seed.js:62 | a permutation of `0..n-1` has length n and only indices below n |
| Fixtures.ShufflePermutes | backend/seed.js:62 | the shuffled list has the participants' length and exactly their elements with their multiplicities |
| Fixtures.ShuffleDistinctIds | backend/seed.js:62 | shuffling keeps ids distinct |
| Fixtures.CeilHalf | backend/seed.js:65 | the midpoint m satisfies n <= 2m <= n + 1, which makes it `ceil(n/2)` |
| Fixtures.Split | backend/seed.js:65-67 | A ++ B is the shuffled list and 0 <= \|A\| - \|B\| <= 1 |
| Fixtures.SplitDisjoint | backend/seed.js:65-67 | without repeats, no element is in both groups |
| Fixtures.SplitIds | backend/seed.js:65-74 | splitting players and then taking ids equals taking ids and then splitting |
| Fixtures.PairsFormula | backend/seed.js:83-84 | the number of `i < j` index pairs of n players is n(n-1)/2 |
| Fixtures.RowFrom | backend/seed.js:84-91 | the inner loop from j appends \|group\| - j fixtures |
| Fixtures.RowFromAt | backend/seed.js:84-91 | the k-th fixture of the inner loop from j is group[i] against group[j+k], with the k-th id |
| Fixtures.RoundRobinFrom | backend/seed.js:83-92 | the loops from row i append Pairs(\|group\| - i) fixtures |
| Fixtures.RoundRobin | backend/seed.js:82-93 | a group of n appends Pairs(n) = n(n-1)/2 fixtures, none when n < 2 |
| Fixtures.RoundRobinFromFresh | backend/seed.js:85-90 | each fixture from row i on is a two-player, round `'Group'` fixture of the given group with no winner, winners or score; its ids are consecutive |
| Fixtures.RoundRobinFresh | backend/seed.js:85-90 | every round-robin fixture is an unplayed two-player `'Group'` fixture with the given group label; its ids are consecutive |
| Fixtures.RoundRobinFromFirstRow | backend/seed.js:83-91 | lexicographic order, within a row: the first fixtures from row i are group[i] against group[i+1], group[i+2], ... in turn |
| Fixtures.PairsMonotone | backend/seed.js:83-84 | fewer players never make more pairs |
| Fixtures.PairPosition | backend/seed.js:83-84 | the place of the pair (i, j) among the pushes, after all pairs of earlier rows, lies within the Pairs(n) pushes |
| Fixtures.PairPositionOrdered | backend/seed.js:83-84 | pair positions grow in lexicographic (i, j) order |
| Fixtures.RoundRobinFromAt | backend/seed.js:83-91 | from row `from` on, group[i] against group[j] (from <= i < j) is pushed at its pair position counted from row `from`, under the id at that place |
| Fixtures.RoundRobinAt | backend/seed.js:83-91 | lexicographic order: every pair i < j is pushed exactly at PairPosition(n, i, j), as group[i] against group[j] with the id at that place |
| Fixtures.RoundRobinFromPairs | backend/seed.js:83-90 | each fixture from row `from` on is some group[i] against group[j] with from <= i < j |
| Fixtures.RoundRobinPairs | backend/seed.js:83-90 | each round-robin fixture has player1 = group[i] and player2 = group[j] for some i < j |
| Fixtures.RoundRobinNoSelfPairs | backend/seed.js:83-90 | in a group without repeats no player is paired with itself |
| Fixtures.RowFromMeetings | backend/seed.js:84-91 | the inner loop from j holds one meeting of group[i] with each member of group[j..] and no other meetings |
| Fixtures.RoundRobinFromMeetings | backend/seed.js:83-92 | from row i on, two different members of group[i..] meet exactly once and no other pair meets |
| Fixtures.RoundRobinMeetings | backend/seed.js:83-92 | one match per pair: two different group members meet exactly once, in either order, and non-members never meet |
| Fixtures.RowFromAppearances | backend/seed.js:84-91 | in the inner loop from j, group[i] plays every fixture and each of group[j..] plays one |
| Fixtures.RoundRobinFromAppearances | backend/seed.js:83-92 | from row i on, each member of group[i..] plays \|group\| - i - 1 fixtures and no one else plays |
| Fixtures.RoundRobinAppearances | backend/seed.js:83-92 | each group member plays exactly \|group\| - 1 fixtures and non-members play none |
| Fixtures.HeadToHeadFixtures | backend/seed.js:81-95 | a head-to-head game gets C(\|A\|,2) + C(\|B\|,2) unplayed `'Group'` fixtures with consecutive ids; all of group A's come before any of group B's |
| Fixtures.HeadToHeadAppearances | backend/seed.js:81-95 | with disjoint repeat-free groups, each member of A plays \|A\| - 1 fixtures, each member of B plays \|B\| - 1, anyone else none |
| Fixtures.BattleRoyaleShape | backend/seed.js:96-114 | for groups of any size, even empty, Krunker gets exactly two fixtures: A's first, then B's, with consecutive ids. Each holds its whole group in order, has round `'Group'` and has no winner, winners or score |
| Fixtures.BattleRoyaleAppearances | backend/seed.js:96-114 | with groups that repeat no one, each participant is in exactly one of the two fixtures and anyone else in none |
| Results.IndexOf | backend/routes/tournaments.js:27 | `matches.id(matchId)`: the first position holding the id, or none when no match has it |
| Results.ApplyResult | backend/routes/tournaments.js:29-30 | the winner becomes the supplied one if truthy, else is kept; the score becomes the supplied one if truthy, else is kept; no other field changes |
| Results.UpdateResult | backend/routes/tournaments.js:25-32 | a request fails (MatchNotFound) exactly when no match has the id and a winner or truthy score is supplied; otherwise the list keeps its length |
| Results.UpdateTouchesOnlyAddressed | backend/routes/tournaments.js:27-30 | with unique ids, the match with the id gets the result and every other match is unchanged |
| Results.UpdateKeepsFixtures | backend/routes/tournaments.js:29-30 | ids, players, round and group of every match are unchanged, and a winner or score once set is never cleared |
| Results.UpdateWithNothingSupplied | backend/routes/tournaments.js:27-32 | a request with no winner and no truthy score succeeds and changes nothing, even for an unknown match |
| Results.UpdateIdempotent | backend/routes/tournaments.js:29-30 | applying the same request twice gives the same list as applying it once |
| Results.UpdateLaterOverrides | backend/routes/tournaments.js:29-30 | last write wins per field: two requests equal one carrying the later request's supplied fields and the earlier one's elsewhere |
| Tournaments.Tournament.ValidIdsDistinct | backend/models/Tournament.js:20 | the embedded matches' ids never repeat |
| Tournaments.Tournament.constructor | backend/seed.js:69-77 | a new tournament has the game name and both groups, no matches and status `'Scheduled'` |
| Tournaments.Tournament.Push | backend/seed.js:85-90 | the fixture is appended last under a fresh id; game, groups and status are unchanged and ids stay ascending |
| Tournaments.Tournament.GenerateRoundRobin | backend/seed.js:82-93 | the nested loops append exactly `RoundRobin(group, label, next id)` and consume Pairs(\|group\|) ids; game, groups and status are unchanged |
| Tournaments.Tournament.GenerateRow | backend/seed.js:84-91 | the inner loop for i appends exactly row i, group[i] against each later member in order |
| Tournaments.Tournament.GenerateBattleRoyale | backend/seed.js:104-113 | appends exactly group A's battle then group B's; game, groups and status are unchanged |
| Tournaments.Tournament.FindMatch | backend/routes/tournaments.js:27 | the scan finds the first match with the id, or none when no match has it (equal to `IndexOf`) |
| Tournaments.Tournament.RecordResult | backend/routes/tournaments.js:27-32 | the new match list is `UpdateResult`'s, and is unchanged on failure. Only the match with the id changes. Game, groups, status and counter are unchanged |
| Tournaments.PutMatchResult | backend/routes/tournaments.js:23-37 | an unknown tournament fails with nothing changed; otherwise the route behaves as `RecordResult`, and status, game and groups are unchanged |
| Seed.MakePlayer | backend/seed.js:46-50 | a created player keeps the entry's name and its number of tags; each `'IAPC'` tag becomes `'Programming'` and every other tag stays, so no `'IAPC'` remains; the avatar URL is `/avatars/` followed by the entry's file name |
| Seed.Roster | backend/seed.js:44-52 | one player per entry, in entry order, with the entry's name and with distinct ids |
| Seed.CreatePlayers | backend/seed.js:44-52 | the roster is `Roster(data)`; the map's keys are exactly the names, and each name maps to its player |
| Seed.SeedTournament | backend/seed.js:59-114 | the tournament holds the split of the shuffled participants, the fixtures `GroupFixtures(game, A, B, 0)` and status `'Scheduled'` |
| Seed.SeedTournaments | backend/seed.js:58-118 | one fresh tournament per game, in order, each seeded as `SeedTournament` states |
| Seed.SeedDB | backend/seed.js:43-118 | the players are `Roster(data)`, and there are four tournaments, one per game, in order |
| Seed.SeededGroups | backend/seed.js:59-74 | A ++ B holds exactly the participants' ids, each once, and \|A\| = ceil(n/2), \|B\| = floor(n/2) |
| Seed.SeededGroupsDisjoint | backend/seed.js:59-74 | with distinct player ids, no one is in both groups or twice in one |
| Seed.SeededAppearances | backend/seed.js:59-114 | non-participants play nothing. In a head-to-head game each member plays one fixture per other member of its group; in Krunker each participant is in exactly one fixture |

## Left out

- Persistence and process I/O are not modelled:
  - the MongoDB connection, `deleteMany`, `Player.create`, `tournament.save`, logging and `process.exit`.
  - The database is replaced by in-memory values and objects.
  - A failure of `save` or of `create` (for example a database error, or a winner id Mongoose cannot cast to an ObjectId) is not modelled.
- `Math.random` is not modelled. The shuffle's outcome is a permutation parameter, so the model says nothing about the distribution of shuffles.
- Seed.CreatePlayers: requires distinct names. `Player.create` rejects a repeated name through the database's unique index, and the script then exits. The model does not cover that path.
- Match ids are allocated per tournament from 0 rather than globally, so ids are only unique within one tournament. The route only looks within one tournament.
- The JavaScript ordering of `Object.values` for integer-like keys is not modelled: no player name is integer-like.
- Names inherited from `Object.prototype` are not modelled; the script's data contains none of them.
  - Tags: for a tag such as `constructor` or `toString`, `gameMapping[g]` is an inherited function, which is truthy, so `gameMapping[g] || g` yields that function and not the tag. Fixtures.NormaliseTag returns the tag.
  - Names: a player named `__proto__` is not stored as an own key of `playerMap`, so it is missing from `Object.values(playerMap)`. Seed.Roster keeps that player.
- The script's literal roster (`playersData`) is the `data` parameter of Seed.SeedDB. The model does not restate the 19 entries, so it does not check that their names are distinct. It requires distinct names instead.
- Express routing, the JSON request and response, and the GET handler's `populate` chain are transport concerns and are not modelled.
- Tournaments.PutMatchResult: the route's tournament lookup is its argument (`null` for an unknown id). The store of all tournaments is not modelled.
- `backend/server.js` and `frontend/src/router/index.js` are not part of this model (server bootstrap and UI routing).
- Semi-final and final generation, `winners` advancement and status transitions are not modelled. The schema has fields for them, but no code sets them. The model keeps the fields (`winners`, `Semi`, `Final`) and writes none of them.
- The `round` and `group` strings are modelled as enumerations of the values the schema comments list (`'Group'`, `'Semi'`, `'Final'`; `'A'`, `'B'`), not as arbitrary strings.
