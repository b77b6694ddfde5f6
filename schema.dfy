/**
 * The documents of backend/models: a Player, a Match (embedded in a
 * Tournament), and the string constants the core stamps on them.
 */
module Schema {
  import opened Wrappers

  /** Stands for a Player document's ObjectId. */
  type PlayerId = nat

  /** Stands for the ObjectId Mongoose gives each embedded match. */
  type MatchId = nat

  /** A player: unique name, normalised game tags, avatar path. */
  datatype Player = Player(id: PlayerId, name: string, games: seq<string>, avatarUrl: string)

  /**
   * One match record. A head-to-head fixture sets player1 and player2; a
   * battle-royale fixture sets players. winner, winners and score are set by
   * result recording (winners is never written by the core).
   */
  datatype Match = Match(
    id: MatchId,
    player1: Option<PlayerId>,
    player2: Option<PlayerId>,
    players: seq<PlayerId>,
    winner: Option<PlayerId>,
    winners: seq<PlayerId>,
    round: Round,
    group: GroupName,
    score: Option<string>)

  /** The status every tournament is created with. */
  const Scheduled: string := "Scheduled"

  /** The values a match's round takes ('Group', 'Semi', 'Final'); the core only writes 'Group'. */
  datatype Round = GroupRound | Semi | Final

  /** The values a match's group takes ('A', 'B'). */
  datatype GroupName = GroupA | GroupB

  /** The one game whose group stage is a battle royale. */
  const Krunker: string := "Krunker"

  /** A fresh head-to-head group fixture: no winner, no score. */
  function HeadToHead(id: MatchId, p1: PlayerId, p2: PlayerId, groupName: GroupName): Match
  {
    Match(id, Some(p1), Some(p2), [], None, [], GroupRound, groupName, None)
  }

  /** A fresh battle-royale group fixture holding a whole group. */
  function Battle(id: MatchId, group: seq<PlayerId>, groupName: GroupName): Match
  {
    Match(id, None, None, group, None, [], GroupRound, groupName, None)
  }

  /** Whether p takes part in m, in either of its two shapes. */
  predicate Involves(m: Match, p: PlayerId)
  {
    m.player1 == Some(p) || m.player2 == Some(p) || p in m.players
  }

  /** The number of matches of ms that p takes part in. */
  function Appearances(ms: seq<Match>, p: PlayerId): nat
  {
    if ms == [] then 0
    else (if Involves(ms[0], p) then 1 else 0) + Appearances(ms[1..], p)
  }

  lemma {:induction false} AppearancesAppend(a: seq<Match>, b: seq<Match>, p: PlayerId)
    ensures Appearances(a + b, p) == Appearances(a, p) + Appearances(b, p)
  {
    if a != [] {
      assert (a + b)[1..] == a[1..] + b;
      AppearancesAppend(a[1..], b, p);
    } else {
      assert a + b == b;
    }
  }

  /** Whether m is a head-to-head of a against b, in either order. */
  predicate Meets(m: Match, a: PlayerId, b: PlayerId)
  {
    (m.player1 == Some(a) && m.player2 == Some(b)) || (m.player1 == Some(b) && m.player2 == Some(a))
  }

  /** The number of matches in ms where a meets b head to head. */
  function Meetings(ms: seq<Match>, a: PlayerId, b: PlayerId): nat
  {
    if ms == [] then 0
    else (if Meets(ms[0], a, b) then 1 else 0) + Meetings(ms[1..], a, b)
  }

  lemma {:induction false} MeetingsAppend(x: seq<Match>, y: seq<Match>, a: PlayerId, b: PlayerId)
    ensures Meetings(x + y, a, b) == Meetings(x, a, b) + Meetings(y, a, b)
  {
    if x != [] {
      assert (x + y)[1..] == x[1..] + y;
      MeetingsAppend(x[1..], y, a, b);
    } else {
      assert x + y == y;
    }
  }

  /** No element occurs twice. */
  predicate Distinct<T(==)>(s: seq<T>)
  {
    forall i, j :: 0 <= i < j < |s| ==> s[i] != s[j]
  }

  /** A repeat-free concatenation is two repeat-free parts that share nothing. */
  lemma {:induction false} DistinctConcat<T>(a: seq<T>, b: seq<T>)
    requires Distinct(a + b)
    ensures Distinct(a) && Distinct(b)
    ensures forall x :: x in a ==> x !in b
  {
    var s := a + b;
    forall i, j | 0 <= i < j < |a| ensures a[i] != a[j] {
      assert s[i] == a[i] && s[j] == a[j];
    }
    forall i, j | 0 <= i < j < |b| ensures b[i] != b[j] {
      assert s[|a| + i] == b[i] && s[|a| + j] == b[j];
    }
    forall x | x in a ensures x !in b {
      var i :| 0 <= i < |a| && a[i] == x;
      forall j | 0 <= j < |b| ensures b[j] != x {
        assert s[i] == x && s[|a| + j] == b[j];
      }
    }
  }

  /** The ids of a list of players, in order (the source's `map(p => p._id)`). */
  function Ids(ps: seq<Player>): (r: seq<PlayerId>)
    ensures |r| == |ps|
    ensures forall i :: 0 <= i < |ps| ==> r[i] == ps[i].id
  {
    seq(|ps|, i requires 0 <= i < |ps| => ps[i].id)
  }

  /** No two matches of ms share an id. */
  predicate UniqueIds(ms: seq<Match>)
  {
    forall i, j :: 0 <= i < j < |ms| ==> ms[i].id != ms[j].id
  }
}
