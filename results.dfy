/**
 * The pure meaning of the result-recording route of
 * backend/routes/tournaments.js: look a match up by id in a tournament's
 * match list, then overwrite its winner and its score, each only when the
 * request supplies a truthy value.
 */
module Results {
  import opened Wrappers
  import opened Schema

  /** Why a result request fails (the route answers 500 with the TypeError's message). */
  datatype Error =
    | TournamentNotFound  // findById gave null: reading its matches throws
    | MatchNotFound       // matches.id gave null: assigning to it throws

  /** JavaScript truthiness of the request's score: present and not the empty string. */
  predicate Truthy(score: Option<string>)
  {
    score.Some? && score.value != ""
  }

  /** `matches.id(matchId)`: the position of the first match with that id, if any. */
  function IndexOf(ms: seq<Match>, matchId: MatchId): (r: Option<nat>)
    ensures r.Some? ==> r.value < |ms| && ms[r.value].id == matchId
    ensures r.Some? ==> forall k :: 0 <= k < r.value ==> ms[k].id != matchId
    ensures r.None? ==> forall k :: 0 <= k < |ms| ==> ms[k].id != matchId
  {
    if ms == [] then None
    else if ms[0].id == matchId then Some(0)
    else match IndexOf(ms[1..], matchId)
      case None => None
      case Some(k) => Some(k + 1)
  }

  /** Lines 29-30: a truthy winner and a truthy score overwrite; anything else is kept. */
  function ApplyResult(m: Match, winnerId: Option<PlayerId>, score: Option<string>): (r: Match)
    ensures r.winner == if winnerId.Some? then winnerId else m.winner
    ensures r.score == if Truthy(score) then score else m.score
    ensures r.(winner := m.winner, score := m.score) == m
  {
    var withWinner := if winnerId.Some? then m.(winner := winnerId) else m;
    if Truthy(score) then withWinner.(score := score) else withWinner
  }

  /**
   * The whole request against one tournament's match list: the new list, or
   * MatchNotFound when no match has the id and the request tries to set a
   * field of it.
   */
  function UpdateResult(ms: seq<Match>, matchId: MatchId, winnerId: Option<PlayerId>, score: Option<string>)
    : (r: Result<seq<Match>, Error>)
    ensures r.Err? <==> (forall k :: 0 <= k < |ms| ==> ms[k].id != matchId) && (winnerId.Some? || Truthy(score))
    ensures r.Err? ==> r.error == MatchNotFound
    ensures r.Ok? ==> |r.value| == |ms|
  {
    match IndexOf(ms, matchId)
    case Some(k) => Ok(ms[k := ApplyResult(ms[k], winnerId, score)])
    case None => if winnerId.Some? || Truthy(score) then Err(MatchNotFound) else Ok(ms)
  }

  /**
   * With ids that are unique, as the tournament's ids are, the match with the
   * id gets the result and every other match is left as it was.
   */
  lemma {:induction false} UpdateTouchesOnlyAddressed(ms: seq<Match>, matchId: MatchId, winnerId: Option<PlayerId>, score: Option<string>)
    requires UniqueIds(ms)
    requires UpdateResult(ms, matchId, winnerId, score).Ok?
    ensures forall k :: 0 <= k < |ms| ==>
      UpdateResult(ms, matchId, winnerId, score).value[k]
        == if ms[k].id == matchId then ApplyResult(ms[k], winnerId, score) else ms[k]
  {
    var r := UpdateResult(ms, matchId, winnerId, score).value;
    match IndexOf(ms, matchId)
    case None =>
      forall k | 0 <= k < |ms| ensures r[k] == ms[k] { }
    case Some(i) =>
      forall k | 0 <= k < |ms| && ms[k].id == matchId ensures k == i {
        if k != i {
          assert false;
        }
      }
  }

  /**
   * Recording a result never moves a fixture: every match keeps its id, its
   * players, its round and its group, and a winner or score once set is
   * never cleared.
   */
  lemma {:induction false} UpdateKeepsFixtures(ms: seq<Match>, matchId: MatchId, winnerId: Option<PlayerId>, score: Option<string>)
    requires UpdateResult(ms, matchId, winnerId, score).Ok?
    ensures forall k :: 0 <= k < |ms| ==>
      var m := UpdateResult(ms, matchId, winnerId, score).value[k];
      m.id == ms[k].id
      && m.(winner := ms[k].winner, score := ms[k].score) == ms[k]
      && (ms[k].winner.Some? ==> m.winner.Some?)
      && (ms[k].score.Some? ==> m.score.Some?)
  {
    var r := UpdateResult(ms, matchId, winnerId, score).value;
    forall k | 0 <= k < |ms|
      ensures r[k].(winner := ms[k].winner, score := ms[k].score) == ms[k]
      ensures ms[k].winner.Some? ==> r[k].winner.Some?
      ensures ms[k].score.Some? ==> r[k].score.Some?
    {
      if IndexOf(ms, matchId) != Some(k) {
        assert r[k] == ms[k];
      }
    }
  }

  /** A request that supplies neither a winner nor a score changes nothing and does not fail. */
  lemma {:induction false} UpdateWithNothingSupplied(ms: seq<Match>, matchId: MatchId, winnerId: Option<PlayerId>, score: Option<string>)
    requires winnerId.None? && !Truthy(score)
    ensures UpdateResult(ms, matchId, winnerId, score) == Ok(ms)
  {
    match IndexOf(ms, matchId)
    case None =>
    case Some(k) =>
      assert ApplyResult(ms[k], winnerId, score) == ms[k];
      assert ms[k := ms[k]] == ms;
  }

  /** Sending the same request twice leaves the list as sending it once. */
  lemma {:induction false} UpdateIdempotent(ms: seq<Match>, matchId: MatchId, winnerId: Option<PlayerId>, score: Option<string>)
    requires UpdateResult(ms, matchId, winnerId, score).Ok?
    ensures var once := UpdateResult(ms, matchId, winnerId, score).value;
      UpdateResult(once, matchId, winnerId, score) == Ok(once)
  {
    UpdateLaterOverrides(ms, matchId, winnerId, score, winnerId, score);
    var i := IndexOf(ms, matchId);
    if i.Some? {
      var m := ApplyResult(ms[i.value], winnerId, score);
      assert ApplyResult(m, winnerId, score) == m;
    }
  }

  /**
   * Two requests for the same match are one request whose fields come from
   * the later one where it supplies them and from the earlier one elsewhere:
   * last write wins, field by field.
   */
  lemma {:induction false} UpdateLaterOverrides(ms: seq<Match>, matchId: MatchId,
      winner1: Option<PlayerId>, score1: Option<string>, winner2: Option<PlayerId>, score2: Option<string>)
    requires UpdateResult(ms, matchId, winner1, score1).Ok?
    ensures var once := UpdateResult(ms, matchId, winner1, score1).value;
      UpdateResult(once, matchId, winner2, score2)
        == UpdateResult(ms, matchId, if winner2.Some? then winner2 else winner1, if Truthy(score2) then score2 else score1)
  {
    var once := UpdateResult(ms, matchId, winner1, score1).value;
    var w := if winner2.Some? then winner2 else winner1;
    var s := if Truthy(score2) then score2 else score1;
    match IndexOf(ms, matchId)
    case None =>
      assert once == ms;
      if winner1.Some? || Truthy(score1) {
        assert false;
      }
    case Some(i) =>
      var first := ApplyResult(ms[i], winner1, score1);
      assert once == ms[i := first];
      SameIdsSameIndex(ms, once, matchId);
      assert ApplyResult(first, winner2, score2) == ApplyResult(ms[i], w, s);
      assert once[i := ApplyResult(first, winner2, score2)] == ms[i := ApplyResult(ms[i], w, s)];
  }

  /** Lists with the same ids address the same position. */
  lemma {:induction false} SameIdsSameIndex(a: seq<Match>, b: seq<Match>, matchId: MatchId)
    requires |a| == |b|
    requires forall k :: 0 <= k < |a| ==> a[k].id == b[k].id
    ensures IndexOf(a, matchId) == IndexOf(b, matchId)
  {
    if a != [] {
      SameIdsSameIndex(a[1..], b[1..], matchId);
    }
  }
}
