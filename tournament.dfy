/**
 * The Tournament document of backend/models/Tournament.js as an object whose
 * match list is appended to and updated in place: the fixture generators of
 * backend/seed.js push onto it, and the result route of
 * backend/routes/tournaments.js rewrites one of its matches.
 */
module Tournaments {
  import opened Wrappers
  import opened Schema
  import opened Fixtures
  import opened Results

  class Tournament {
    var gameName: string
    var groupA: seq<PlayerId>
    var groupB: seq<PlayerId>
    var matches: seq<Match>
    var status: string
    /** The id the next pushed match receives (Mongoose gives each embedded match a fresh ObjectId). */
    var nextMatchId: MatchId

    /** Match ids are handed out in push order and all lie below the counter. */
    ghost predicate Valid()
      reads this
    {
      (forall k :: 0 <= k < |matches| ==> matches[k].id < nextMatchId)
      && (forall i, j :: 0 <= i < j < |matches| ==> matches[i].id < matches[j].id)
    }

    /** Ids handed out in push order never repeat. */
    lemma {:induction false} ValidIdsDistinct()
      requires Valid()
      ensures UniqueIds(matches)
    {
    }

    /** `new Tournament({ gameName, groups, matches: [], status: 'Scheduled' })`. */
    constructor (gameName: string, groupA: seq<PlayerId>, groupB: seq<PlayerId>)
      ensures this.gameName == gameName && this.groupA == groupA && this.groupB == groupB
      ensures matches == [] && status == Scheduled && nextMatchId == 0
      ensures Valid()
    {
      this.gameName := gameName;
      this.groupA := groupA;
      this.groupB := groupB;
      matches := [];
      status := Scheduled;
      nextMatchId := 0;
    }

    /** `tournament.matches.push(fixture)`: appended last, under a fresh id. */
    method Push(fixture: Match)
      requires Valid()
      modifies this
      ensures matches == old(matches) + [fixture.(id := old(nextMatchId))]
      ensures nextMatchId == old(nextMatchId) + 1
      ensures gameName == old(gameName) && groupA == old(groupA) && groupB == old(groupB) && status == old(status)
      ensures Valid()
    {
      matches := matches + [fixture.(id := nextMatchId)];
      nextMatchId := nextMatchId + 1;
    }

    /**
     * `generateRoundRobin(group, groupName)`: for every i and every j > i,
     * push group[i] against group[j]. What it appends is RoundRobin, whose
     * counts, pairs, order and appearances are proved in Fixtures.
     */
    method GenerateRoundRobin(group: seq<PlayerId>, groupName: GroupName)
      requires Valid()
      modifies this
      ensures matches == old(matches) + RoundRobin(group, groupName, old(nextMatchId))
      ensures nextMatchId == old(nextMatchId) + Pairs(|group|)
      ensures gameName == old(gameName) && groupA == old(groupA) && groupB == old(groupB) && status == old(status)
      ensures Valid()
    {
      var i := 0;
      while i < |group|
        invariant i <= |group|
        invariant Valid()
        invariant matches + RoundRobinFrom(group, i, groupName, nextMatchId)
          == old(matches) + RoundRobin(group, groupName, old(nextMatchId))
        invariant nextMatchId + Pairs(|group| - i) == old(nextMatchId) + Pairs(|group|)
        invariant gameName == old(gameName) && groupA == old(groupA) && groupB == old(groupB) && status == old(status)
      {
        ghost var rowStart, rowId := matches, nextMatchId;
        assert Pairs(|group| - i) == Pairs(|group| - (i + 1)) + (|group| - i - 1);
        GenerateRow(group, i, groupName);
        assert RoundRobinFrom(group, i, groupName, rowId)
          == RowFrom(group, i, i + 1, groupName, rowId) + RoundRobinFrom(group, i + 1, groupName, nextMatchId);
        SeqAssoc(rowStart, RowFrom(group, i, i + 1, groupName, rowId), RoundRobinFrom(group, i + 1, groupName, nextMatchId));
        i := i + 1;
      }
      assert matches + [] == matches;
    }

    /** The inner loop of generateRoundRobin for one i: push group[i] against each later member. */
    method GenerateRow(group: seq<PlayerId>, i: nat, groupName: GroupName)
      requires i < |group|
      requires Valid()
      modifies this
      ensures matches == old(matches) + RowFrom(group, i, i + 1, groupName, old(nextMatchId))
      ensures nextMatchId == old(nextMatchId) + (|group| - i - 1)
      ensures gameName == old(gameName) && groupA == old(groupA) && groupB == old(groupB) && status == old(status)
      ensures Valid()
    {
      var j := i + 1;
      while j < |group|
        invariant i + 1 <= j <= |group|
        invariant Valid()
        invariant matches + RowFrom(group, i, j, groupName, nextMatchId)
          == old(matches) + RowFrom(group, i, i + 1, groupName, old(nextMatchId))
        invariant nextMatchId == old(nextMatchId) + (j - i - 1)
        invariant gameName == old(gameName) && groupA == old(groupA) && groupB == old(groupB) && status == old(status)
      {
        ghost var before := matches;
        Push(HeadToHead(nextMatchId, group[i], group[j], groupName));
        j := j + 1;
      }
      assert matches + [] == matches;
    }

    /** The Krunker branch: push group A's battle, then group B's. */
    method GenerateBattleRoyale(groupA: seq<PlayerId>, groupB: seq<PlayerId>)
      requires Valid()
      modifies this
      ensures matches == old(matches) + BattleRoyale(groupA, groupB, old(nextMatchId))
      ensures nextMatchId == old(nextMatchId) + 2
      ensures gameName == old(gameName) && this.groupA == old(this.groupA) && this.groupB == old(this.groupB)
      ensures status == old(status)
      ensures Valid()
    {
      Push(Battle(nextMatchId, groupA, GroupA));
      Push(Battle(nextMatchId, groupB, GroupB));
    }

    /** `tournament.matches.id(matchId)`: scan for the first match with that id. */
    method FindMatch(matchId: MatchId) returns (found: Option<nat>)
      ensures found == IndexOf(matches, matchId)
    {
      var i := 0;
      while i < |matches|
        invariant i <= |matches|
        invariant forall k :: 0 <= k < i ==> matches[k].id != matchId
      {
        if matches[i].id == matchId {
          return Some(i);
        }
        i := i + 1;
      }
      return None;
    }

    /**
     * Lines 27-32 of the route: find the match, set its winner if one is
     * supplied, set its score if one is supplied. Nothing is checked about
     * the winner, and only matches can change.
     */
    method RecordResult(matchId: MatchId, winnerId: Option<PlayerId>, score: Option<string>) returns (r: Outcome<Error>)
      requires Valid()
      modifies this
      ensures UpdateResult(old(matches), matchId, winnerId, score).Ok? ==>
        r == Pass && matches == UpdateResult(old(matches), matchId, winnerId, score).value
      ensures UpdateResult(old(matches), matchId, winnerId, score).Err? ==>
        r == Fail(UpdateResult(old(matches), matchId, winnerId, score).error) && matches == old(matches)
      ensures r == Pass ==> |matches| == |old(matches)| && forall k :: 0 <= k < |matches| ==>
        matches[k] == if old(matches[k]).id == matchId then ApplyResult(old(matches[k]), winnerId, score) else old(matches[k])
      ensures gameName == old(gameName) && groupA == old(groupA) && groupB == old(groupB)
      ensures status == old(status) && nextMatchId == old(nextMatchId)
      ensures Valid()
    {
      var found := FindMatch(matchId);
      if found.None? {
        if winnerId.Some? || Truthy(score) {
          return Fail(MatchNotFound);
        }
        return Pass;
      }
      ValidIdsDistinct();
      UpdateTouchesOnlyAddressed(matches, matchId, winnerId, score);
      var k := found.value;
      var m := matches[k];
      if winnerId.Some? {
        m := m.(winner := winnerId);
      }
      if Truthy(score) {
        m := m.(score := score);
      }
      assert m == ApplyResult(matches[k], winnerId, score);
      matches := matches[k := m];
      r := Pass;
    }
  }

  /**
   * The PUT handler for one tournament: `tournament` is what findById
   * returned, null for an unknown id, which fails before anything changes.
   */
  method PutMatchResult(tournament: Tournament?, matchId: MatchId, winnerId: Option<PlayerId>, score: Option<string>)
    returns (r: Outcome<Error>)
    requires tournament != null ==> tournament.Valid()
    modifies tournament
    ensures tournament == null ==> r == Fail(TournamentNotFound)
    ensures tournament != null ==>
      match UpdateResult(old(tournament.matches), matchId, winnerId, score)
      case Ok(ms) => r == Pass && tournament.matches == ms
      case Err(e) => r == Fail(e) && tournament.matches == old(tournament.matches)
    ensures tournament != null ==>
      tournament.gameName == old(tournament.gameName) && tournament.status == old(tournament.status)
      && tournament.groupA == old(tournament.groupA) && tournament.groupB == old(tournament.groupB)
      && tournament.Valid()
  {
    if tournament == null {
      return Fail(TournamentNotFound);
    }
    r := tournament.RecordResult(matchId, winnerId, score);
  }

  /** Appending a row and then the rest appends their concatenation (stated once, to keep the loop proof small). */
  lemma {:induction false} SeqAssoc(a: seq<Match>, b: seq<Match>, c: seq<Match>)
    ensures (a + b) + c == a + (b + c)
  {
  }
}
