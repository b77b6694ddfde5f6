/**
 * The seeding script backend/seed.js as a whole: create the players from the
 * roster data (the script's `playersData`, here a parameter), then build one tournament per game from its eligible,
 * shuffled and split players and the group-stage fixtures for its kind.
 */
module Seed {
  import opened Schema
  import opened Fixtures
  import opened Tournaments

  /** One entry of the script's player data: name, raw game tags, avatar file. */
  datatype PlayerData = PlayerData(name: string, games: seq<string>, avatar: string)

  /** No two entries share a name (Player.name has a unique index). */
  predicate DistinctNames(data: seq<PlayerData>)
  {
    forall i, j :: 0 <= i < j < |data| ==> data[i].name != data[j].name
  }

  /** The Player document created for entry d, given the id the database assigns it. */
  function MakePlayer(id: PlayerId, d: PlayerData): (p: Player)
    ensures p.id == id && p.name == d.name
    ensures |p.games| == |d.games|
    ensures forall i :: 0 <= i < |d.games| ==> p.games[i] == if d.games[i] == "IAPC" then "Programming" else d.games[i]
    ensures "IAPC" !in p.games
    ensures |p.avatarUrl| == |"/avatars/"| + |d.avatar|
    ensures p.avatarUrl[..|"/avatars/"|] == "/avatars/" && p.avatarUrl[|"/avatars/"|..] == d.avatar
  {
    Player(id, d.name, NormaliseGames(d.games), "/avatars/" + d.avatar)
  }

  /** `Object.values(playerMap)` once every entry is created: one player per entry, in entry order. */
  function Roster(data: seq<PlayerData>): (r: seq<Player>)
    ensures |r| == |data|
    ensures forall i :: 0 <= i < |data| ==> r[i].name == data[i].name && r[i].id == i
    ensures Distinct(Ids(r))
  {
    seq(|data|, i requires 0 <= i < |data| => MakePlayer(i, data[i]))
  }

  /**
   * Lines 44-52: create each player in turn and file it under its name. The
   * roster is the map's values in insertion order, which is entry order as
   * the names are distinct.
   */
  method CreatePlayers(data: seq<PlayerData>) returns (playerMap: map<string, Player>, roster: seq<Player>)
    requires DistinctNames(data)
    ensures roster == Roster(data)
    ensures playerMap.Keys == set i | 0 <= i < |data| :: data[i].name
    ensures forall i :: 0 <= i < |data| ==> playerMap[data[i].name] == roster[i]
  {
    playerMap, roster := map[], [];
    var i := 0;
    while i < |data|
      invariant i <= |data|
      invariant roster == Roster(data)[..i]
      invariant playerMap.Keys == set k | 0 <= k < i :: data[k].name
      invariant forall k :: 0 <= k < i ==> playerMap[data[k].name] == roster[k]
    {
      var player := MakePlayer(i, data[i]);
      playerMap := playerMap[data[i].name := player];
      roster := roster + [player];
      i := i + 1;
    }
  }

  /** What the seed stored for game: the split of the shuffled participants and its group stage. */
  ghost predicate Seeded(t: Tournament, roster: seq<Player>, game: string, perm: seq<nat>)
    requires IsPermutation(perm, |Participants(roster, game)|)
    reads t
  {
    var groups := Split(Shuffle(Participants(roster, game), perm));
    t.gameName == game && t.groupA == Ids(groups.0) && t.groupB == Ids(groups.1)
    && t.matches == GroupFixtures(game, t.groupA, t.groupB, 0)
    && t.status == Scheduled
  }

  /**
   * Lines 59-114 for one game: filter, shuffle by perm, split, build the
   * tournament, then push its round robins or its two battles.
   */
  method SeedTournament(game: string, roster: seq<Player>, perm: seq<nat>) returns (t: Tournament)
    requires IsPermutation(perm, |Participants(roster, game)|)
    ensures fresh(t) && t.Valid()
    ensures Seeded(t, roster, game, perm)
  {
    var participants := Participants(roster, game);
    var shuffled := Shuffle(participants, perm);
    var mid := CeilHalf(|shuffled|);
    var groupA, groupB := shuffled[..mid], shuffled[mid..];
    t := new Tournament(game, Ids(groupA), Ids(groupB));
    if game != Krunker {
      t.GenerateRoundRobin(Ids(groupA), GroupA);
      t.GenerateRoundRobin(Ids(groupB), GroupB);
      assert [] + RoundRobin(Ids(groupA), GroupA, 0) == RoundRobin(Ids(groupA), GroupA, 0);
    } else {
      t.GenerateBattleRoyale(Ids(groupA), Ids(groupB));
    }
  }

  /**
   * The whole script, run on roster data `data`: create the players, then seed one tournament per game
   * in the order of Games, the shuffle of each given by its perm.
   */
  method SeedDB(data: seq<PlayerData>, perms: seq<seq<nat>>) returns (players: seq<Player>, tournaments: seq<Tournament>)
    requires DistinctNames(data)
    requires |perms| == |Games|
    requires forall g :: 0 <= g < |Games| ==> IsPermutation(perms[g], |Participants(Roster(data), Games[g])|)
    ensures players == Roster(data)
    ensures |tournaments| == |Games|
    ensures forall g :: 0 <= g < |Games| ==> fresh(tournaments[g]) && tournaments[g].Valid()
    ensures forall g :: 0 <= g < |Games| ==> Seeded(tournaments[g], players, Games[g], perms[g])
  {
    var playerMap;
    playerMap, players := CreatePlayers(data);
    tournaments := SeedTournaments(Games, players, perms);
  }

  /** Lines 58-118: the loop over the games, one fresh tournament each, in order. */
  method SeedTournaments(games: seq<string>, roster: seq<Player>, perms: seq<seq<nat>>) returns (tournaments: seq<Tournament>)
    requires |perms| == |games|
    requires forall g :: 0 <= g < |games| ==> IsPermutation(perms[g], |Participants(roster, games[g])|)
    ensures |tournaments| == |games|
    ensures forall g :: 0 <= g < |games| ==> fresh(tournaments[g]) && tournaments[g].Valid()
    ensures forall g :: 0 <= g < |games| ==> Seeded(tournaments[g], roster, games[g], perms[g])
  {
    tournaments := [];
    var g := 0;
    while g < |games|
      invariant g <= |games|
      invariant |tournaments| == g
      invariant forall h :: 0 <= h < g ==> fresh(tournaments[h]) && tournaments[h].Valid()
      invariant forall h :: 0 <= h < g ==> Seeded(tournaments[h], roster, games[h], perms[h])
    {
      var t := SeedTournament(games[g], roster, perms[g]);
      tournaments := tournaments + [t];
      g := g + 1;
    }
  }

  /**
   * The two groups of a seeded game together hold each participant exactly
   * once: A ++ B is the shuffled list, a rearrangement of the participants'
   * ids, and A has ceil(n / 2) of them, B the other floor(n / 2).
   */
  lemma {:induction false} SeededGroups(roster: seq<Player>, game: string, perm: seq<nat>)
    requires IsPermutation(perm, |Participants(roster, game)|)
    ensures var participants := Participants(roster, game);
      var groups := Split(Shuffle(participants, perm));
      multiset(Ids(groups.0) + Ids(groups.1)) == multiset(Ids(participants))
      && |groups.0| == CeilHalf(|participants|) && |groups.1| == |participants| / 2
  {
    var participants := Participants(roster, game);
    var shuffled := Shuffle(participants, perm);
    var groups := Split(shuffled);
    PermutationBounds(perm, |participants|);
    ShufflePermutes(Ids(participants), perm);
    assert Ids(shuffled) == Shuffle(Ids(participants), perm);
    SplitIds(shuffled);
  }

  /** With distinct player ids, no participant is in both groups and none twice in one. */
  lemma {:induction false} SeededGroupsDisjoint(roster: seq<Player>, game: string, perm: seq<nat>)
    requires IsPermutation(perm, |Participants(roster, game)|)
    requires Distinct(Ids(roster))
    ensures var groups := Split(Shuffle(Participants(roster, game), perm));
      Distinct(Ids(groups.0) + Ids(groups.1))
      && forall p :: p in Ids(groups.0) ==> p !in Ids(groups.1)
  {
    var participants := Participants(roster, game);
    var shuffled := Shuffle(participants, perm);
    var groups := Split(shuffled);
    ParticipantsDistinctIds(roster, game);
    ShuffleDistinctIds(participants, perm);
    SplitIds(shuffled);
    DistinctConcat(Ids(groups.0), Ids(groups.1));
  }

  /**
   * How often a player takes part in a seeded game's group stage: in a
   * head-to-head game once against every other member of its group, in
   * Krunker once in all; a non-participant never.
   */
  lemma {:induction false} SeededAppearances(roster: seq<Player>, game: string, perm: seq<nat>, p: PlayerId)
    requires IsPermutation(perm, |Participants(roster, game)|)
    requires Distinct(Ids(roster))
    ensures var groups := Split(Shuffle(Participants(roster, game), perm));
      var a, b := Ids(groups.0), Ids(groups.1);
      var n := Appearances(GroupFixtures(game, a, b, 0), p);
      (p !in Ids(Participants(roster, game)) ==> n == 0)
      && (game != Krunker && p in a ==> n == |a| - 1)
      && (game != Krunker && p in b ==> n == |b| - 1)
      && (game == Krunker && p in Ids(Participants(roster, game)) ==> n == 1)
  {
    var participants := Participants(roster, game);
    var groups := Split(Shuffle(participants, perm));
    var a, b := Ids(groups.0), Ids(groups.1);
    SeededGroups(roster, game, perm);
    SeededGroupsDisjoint(roster, game, perm);
    assert p in a + b <==> p in Ids(participants) by {
      assert p in a + b <==> p in multiset(a + b);
      assert p in Ids(participants) <==> p in multiset(Ids(participants));
    }
    if game == Krunker {
      BattleRoyaleAppearances(a, b, 0, p);
    } else {
      HeadToHeadAppearances(game, a, b, 0, p);
    }
  }
}
