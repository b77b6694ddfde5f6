/**
 * The pure part of the group-stage fixture builder of backend/seed.js: tag
 * normalisation, the eligibility filter, the shuffle, the split into groups
 * A and B, and the fixture lists the two kinds of group stage append.
 */
module Fixtures {
  import opened Wrappers
  import opened Schema

  // ---------------------------------------------------------------------------
  // Game tags

  /** The seed script's table from raw tags to game names. */
  const GameMapping: map<string, string> :=
    map["Table Tennis" := "Table Tennis", "Krunker" := "Krunker", "Chess" := "Chess", "IAPC" := "Programming"]

  /** The games a tournament is seeded for, in seeding order. */
  const Games: seq<string> := ["Table Tennis", "Krunker", "Chess", "Programming"]

  /**
   * `gameMapping[g] || g` for tags that are not names of `Object.prototype`
   * properties: the mapped name when there is a non-empty one, else the tag.
   */
  function NormaliseTag(g: string): (r: string)
    ensures g == "IAPC" ==> r == "Programming"
    ensures g != "IAPC" ==> r == g
  {
    if g in GameMapping && GameMapping[g] != "" then GameMapping[g] else g
  }

  /** A player's tag list after normalisation, element by element. */
  function NormaliseGames(games: seq<string>): (r: seq<string>)
    ensures |r| == |games|
    ensures forall i :: 0 <= i < |games| ==> r[i] == if games[i] == "IAPC" then "Programming" else games[i]
    ensures "IAPC" !in r
  {
    seq(|games|, i requires 0 <= i < |games| => NormaliseTag(games[i]))
  }

  /** Normalising a normalised tag list changes nothing. */
  lemma {:induction false} NormaliseGamesIdempotent(games: seq<string>)
    ensures NormaliseGames(NormaliseGames(games)) == NormaliseGames(games)
  {
  }

  // ---------------------------------------------------------------------------
  // Eligibility

  /** `players.filter(p => p.games.includes(game))`. */
  function Participants(roster: seq<Player>, game: string): (r: seq<Player>)
    ensures |r| <= |roster|
  {
    if roster == [] then []
    else if game in roster[0].games then [roster[0]] + Participants(roster[1..], game)
    else Participants(roster[1..], game)
  }

  /** The filter keeps every eligible player as often as it occurs, and no one else. */
  lemma {:induction false} ParticipantsCount(roster: seq<Player>, game: string, p: Player)
    ensures multiset(Participants(roster, game))[p] == if game in p.games then multiset(roster)[p] else 0
  {
    if roster != [] {
      assert roster == [roster[0]] + roster[1..];
      ParticipantsCount(roster[1..], game, p);
    }
  }

  /** The filter keeps the roster's order: it distributes over concatenation. */
  lemma {:induction false} ParticipantsAppend(a: seq<Player>, b: seq<Player>, game: string)
    ensures Participants(a + b, game) == Participants(a, game) + Participants(b, game)
  {
    if a == [] {
      assert a + b == b;
    } else {
      assert (a + b)[1..] == a[1..] + b;
      ParticipantsAppend(a[1..], b, game);
    }
  }

  /** Players with distinct ids stay distinct after filtering. */
  lemma {:induction false} ParticipantsDistinctIds(roster: seq<Player>, game: string)
    requires Distinct(Ids(roster))
    ensures Distinct(Ids(Participants(roster, game)))
  {
    if roster != [] {
      var rest := roster[1..];
      forall i, j | 0 <= i < j < |rest| ensures Ids(rest)[i] != Ids(rest)[j] {
        assert Ids(roster)[i + 1] != Ids(roster)[j + 1];
      }
      ParticipantsDistinctIds(rest, game);
      if game in roster[0].games {
        var r, t := Participants(roster, game), Participants(rest, game);
        assert r == [roster[0]] + t;
        forall i, j | 0 <= i < j < |r| ensures Ids(r)[i] != Ids(r)[j] {
          assert r[j] == t[j - 1];
          if i == 0 {
            ParticipantsCount(rest, game, t[j - 1]);
            assert t[j - 1] in multiset(t);
            var m :| 0 <= m < |rest| && rest[m] == t[j - 1];
            assert Ids(roster)[0] != Ids(roster)[m + 1];
          } else {
            assert r[i] == t[i - 1];
            assert Ids(t)[i - 1] != Ids(t)[j - 1];
          }
        }
      }
    }
  }

  // ---------------------------------------------------------------------------
  // Shuffle

  /** The indices 0, 1, ..., n - 1 in order. */
  function Range(n: nat): (r: seq<nat>)
    ensures |r| == n
    ensures forall i :: 0 <= i < n ==> r[i] == i
  {
    seq(n, i requires 0 <= i < n => i)
  }

  /** perm lists each index below n exactly once: it is a rearrangement of 0 .. n - 1. */
  predicate IsPermutation(perm: seq<nat>, n: nat)
  {
    multiset(perm) == multiset(Range(n))
  }

  lemma {:induction false} PermutationBounds(perm: seq<nat>, n: nat)
    requires IsPermutation(perm, n)
    ensures |perm| == n
    ensures forall i :: 0 <= i < |perm| ==> perm[i] < n
  {
    assert |multiset(perm)| == |multiset(Range(n))|;
    forall i | 0 <= i < |perm| ensures perm[i] < n {
      assert perm[i] in multiset(perm);
      assert perm[i] in Range(n);
    }
  }

  /** The elements of s at the positions idx, in the order of idx. */
  function Pick<T>(s: seq<T>, idx: seq<nat>): seq<T>
    requires forall i :: 0 <= i < |idx| ==> idx[i] < |s|
  {
    seq(|idx|, i requires 0 <= i < |idx| => s[idx[i]])
  }

  /**
   * `participants.sort(() => 0.5 - Math.random())`: the sort leaves some
   * rearrangement of its input, which the caller supplies as perm.
   */
  function Shuffle<T>(s: seq<T>, perm: seq<nat>): (r: seq<T>)
    requires IsPermutation(perm, |s|)
  {
    PermutationBounds(perm, |s|);
    Pick(s, perm)
  }

  lemma {:induction false} PickAppend<T>(s: seq<T>, a: seq<nat>, b: seq<nat>)
    requires forall i :: 0 <= i < |a| ==> a[i] < |s|
    requires forall i :: 0 <= i < |b| ==> b[i] < |s|
    ensures Pick(s, a + b) == Pick(s, a) + Pick(s, b)
  {
  }

  lemma {:induction false} PickPrefix<T>(s: seq<T>, m: nat, idx: seq<nat>)
    requires m <= |s|
    requires forall i :: 0 <= i < |idx| ==> idx[i] < m
    ensures Pick(s[..m], idx) == Pick(s, idx)
  {
  }

  /** Taking the largest index out of a permutation of 0 .. n leaves a permutation of 0 .. n - 1. */
  lemma {:induction false} PermutationWithout(perm: seq<nat>, n: nat, k: nat)
    requires IsPermutation(perm, n + 1)
    requires k < |perm| && perm[k] == n
    ensures IsPermutation(perm[..k] + perm[k + 1..], n)
  {
    var front, back := perm[..k], perm[k + 1..];
    assert perm == front + [n] + back;
    assert multiset(perm) == multiset(front) + multiset{n} + multiset(back);
    assert Range(n + 1) == Range(n) + [n];
    assert multiset(Range(n + 1)) == multiset(Range(n)) + multiset{n};
    calc {
      multiset(front + back);
      multiset(perm) - multiset{n};
      multiset(Range(n + 1)) - multiset{n};
      multiset(Range(n));
    }
  }

  /** Picking through a position list that holds the last index once, at k. */
  lemma {:induction false} PickWithout<T>(s: seq<T>, perm: seq<nat>, k: nat, rest: seq<nat>)
    requires |s| > 0 && k < |perm| && perm[k] == |s| - 1
    requires forall i :: 0 <= i < |perm| ==> perm[i] < |s|
    requires rest == perm[..k] + perm[k + 1..]
    requires forall i :: 0 <= i < |rest| ==> rest[i] < |s| - 1
    ensures multiset(Pick(s, perm)) == multiset(Pick(s[..|s| - 1], rest)) + multiset{s[|s| - 1]}
  {
    var last: nat := |s| - 1;
    var s' := s[..last];
    var front, back := perm[..k], perm[k + 1..];
    assert perm == front + [last] + back;
    assert forall i :: 0 <= i < |front| ==> front[i] == (front + back)[i];
    assert forall i :: 0 <= i < |back| ==> back[i] == (front + back)[|front| + i];
    PickAppend(s, front + [last], back);
    PickAppend(s, front, [last]);
    assert Pick(s, [last]) == [s[last]];
    PickAppend(s', front, back);
    PickPrefix(s, last, front);
    PickPrefix(s, last, back);
  }

  /** The shuffle is a permutation: every element occurs as often as before. */
  lemma {:induction false} ShufflePermutes<T>(s: seq<T>, perm: seq<nat>)
    requires IsPermutation(perm, |s|)
    ensures |Shuffle(s, perm)| == |s|
    ensures multiset(Shuffle(s, perm)) == multiset(s)
    decreases |s|
  {
    PermutationBounds(perm, |s|);
    var n := |s|;
    if n > 0 {
      var last: nat := n - 1;
      assert last in multiset(perm) by {
        assert Range(n)[last] == last;
      }
      var k :| 0 <= k < |perm| && perm[k] == last;
      PermutationWithout(perm, last, k);
      PermutationBounds(perm[..k] + perm[k + 1..], last);
      PickWithout(s, perm, k, perm[..k] + perm[k + 1..]);
      ShufflePermutes(s[..last], perm[..k] + perm[k + 1..]);
      assert s == s[..last] + [s[last]];
    }
  }

  /** A sequence without repeats is one in which every element occurs at most once. */
  lemma {:induction false} DistinctCounts<T>(s: seq<T>)
    ensures Distinct(s) <==> forall v :: multiset(s)[v] <= 1
  {
    if s != [] {
      var t := s[1..];
      assert s == [s[0]] + t;
      DistinctCounts(t);
      if Distinct(s) {
        forall i, j | 0 <= i < j < |t| ensures t[i] != t[j] {
          assert s[i + 1] != s[j + 1];
        }
        forall k | 0 <= k < |t| ensures t[k] != s[0] {
          assert s[k + 1] != s[0];
        }
        assert s[0] !in t;
      }
      if forall v :: multiset(s)[v] <= 1 {
        forall v ensures multiset(t)[v] <= 1 {
          assert multiset(s)[v] <= 1;
        }
        assert multiset(s)[s[0]] <= 1;
        assert s[0] !in multiset(t);
        forall i, j | 0 <= i < j < |s| ensures s[i] != s[j] {
          assert s[j] == t[j - 1];
          if i > 0 {
            assert s[i] == t[i - 1];
          }
        }
      }
    }
  }

  /** Shuffling players with distinct ids leaves their ids distinct. */
  lemma {:induction false} ShuffleDistinctIds(s: seq<Player>, perm: seq<nat>)
    requires IsPermutation(perm, |s|)
    requires Distinct(Ids(s))
    ensures Distinct(Ids(Shuffle(s, perm)))
  {
    PermutationBounds(perm, |s|);
    assert Ids(Shuffle(s, perm)) == Shuffle(Ids(s), perm);
    ShufflePermutes(Ids(s), perm);
    DistinctCounts(Ids(s));
    DistinctCounts(Ids(Shuffle(s, perm)));
  }

  // ---------------------------------------------------------------------------
  // Split

  /** `Math.ceil(n / 2)`: the least integer not below n / 2. */
  function CeilHalf(n: nat): (m: nat)
    ensures n <= 2 * m <= n + 1
  {
    (n + 1) / 2
  }

  /** Group A is the first ceil(n / 2) of s, group B the rest. */
  function Split<T>(s: seq<T>): (r: (seq<T>, seq<T>))
    ensures r.0 + r.1 == s
    ensures 0 <= |r.0| - |r.1| <= 1
  {
    var mid := CeilHalf(|s|);
    (s[..mid], s[mid..])
  }

  /** Without repeats in s, no element lands in both groups. */
  lemma {:induction false} SplitDisjoint<T>(s: seq<T>)
    requires Distinct(s)
    ensures forall x :: x in Split(s).0 ==> x !in Split(s).1
  {
    var (a, b) := Split(s);
    DistinctConcat(a, b);
  }

  /** Splitting commutes with taking ids. */
  lemma {:induction false} SplitIds(s: seq<Player>)
    ensures Ids(Split(s).0) == Split(Ids(s)).0
    ensures Ids(Split(s).1) == Split(Ids(s)).1
  {
  }

  // ---------------------------------------------------------------------------
  // Round robin

  /** The number of unordered pairs of n players: 0 + 1 + ... + (n - 1). */
  function Pairs(n: nat): nat
  {
    if n == 0 then 0 else Pairs(n - 1) + (n - 1)
  }

  /** C(n, 2) = n(n - 1) / 2. */
  lemma {:induction false} PairsFormula(n: nat)
    ensures 2 * Pairs(n) == n * (n - 1)
  {
    if n > 0 {
      PairsFormula(n - 1);
      assert n * (n - 1) == (n - 1) * (n - 2) + 2 * (n - 1);
    }
  }

  /** m is an unplayed head-to-head group fixture of the group named groupName. */
  predicate IsFreshHeadToHead(m: Match, groupName: GroupName)
  {
    m.player1.Some? && m.player2.Some? && m.players == [] && m.round == GroupRound && m.group == groupName
    && m.winner == None && m.winners == [] && m.score == None
  }

  /**
   * The inner loop from j on: group[i] meets group[j], group[j + 1], ...,
   * the last member, ids counting up from firstId.
   */
  function RowFrom(group: seq<PlayerId>, i: nat, j: nat, groupName: GroupName, firstId: MatchId): (r: seq<Match>)
    requires i < j <= |group|
    ensures |r| == |group| - j
    decreases |group| - j
  {
    if j == |group| then []
    else [HeadToHead(firstId, group[i], group[j], groupName)] + RowFrom(group, i, j + 1, groupName, firstId + 1)
  }

  /** The k-th fixture of the inner loop from j on is group[i] against group[j + k], with id firstId + k. */
  lemma {:induction false} RowFromAt(group: seq<PlayerId>, i: nat, j: nat, groupName: GroupName, firstId: MatchId, k: nat)
    requires i < j <= |group| && k < |group| - j
    ensures RowFrom(group, i, j, groupName, firstId)[k] == HeadToHead(firstId + k, group[i], group[j + k], groupName)
    decreases k
  {
    if k > 0 {
      RowFromAt(group, i, j + 1, groupName, firstId + 1, k - 1);
    }
  }

  /** The outer loop from i on: the rows of group[i], group[i + 1], ..., ids continuing. */
  function RoundRobinFrom(group: seq<PlayerId>, i: nat, groupName: GroupName, firstId: MatchId): (r: seq<Match>)
    requires i <= |group|
    ensures |r| == Pairs(|group| - i)
    decreases |group| - i
  {
    if i == |group| then []
    else RowFrom(group, i, i + 1, groupName, firstId) + RoundRobinFrom(group, i + 1, groupName, firstId + |group| - i - 1)
  }

  /**
   * `generateRoundRobin(group, groupName)`: one head-to-head fixture for each
   * index pair i < j, in lexicographic order, with consecutive ids.
   */
  function RoundRobin(group: seq<PlayerId>, groupName: GroupName, firstId: MatchId): (r: seq<Match>)
    ensures |r| == Pairs(|group|)
  {
    RoundRobinFrom(group, 0, groupName, firstId)
  }

  /** Every fixture from row i on is an unplayed head-to-head of the group, ids consecutive from firstId. */
  lemma {:induction false} RoundRobinFromFresh(group: seq<PlayerId>, i: nat, groupName: GroupName, firstId: MatchId)
    requires i <= |group|
    ensures forall k :: 0 <= k < |RoundRobinFrom(group, i, groupName, firstId)| ==>
      RoundRobinFrom(group, i, groupName, firstId)[k].id == firstId + k &&
      IsFreshHeadToHead(RoundRobinFrom(group, i, groupName, firstId)[k], groupName)
    decreases |group| - i
  {
    if i < |group| {
      var row := RowFrom(group, i, i + 1, groupName, firstId);
      var restId := firstId + |group| - i - 1;
      var rest := RoundRobinFrom(group, i + 1, groupName, restId);
      RoundRobinFromFresh(group, i + 1, groupName, restId);
      var r := RoundRobinFrom(group, i, groupName, firstId);
      assert r == row + rest;
      forall k | 0 <= k < |r| ensures r[k].id == firstId + k && IsFreshHeadToHead(r[k], groupName) {
        if k < |row| {
          RowFromAt(group, i, i + 1, groupName, firstId, k);
          assert r[k] == row[k];
        } else {
          assert r[k] == rest[k - |row|];
        }
      }
    }
  }

  /** Every generated fixture is an unplayed head-to-head of the group, with ids consecutive from firstId. */
  lemma {:induction false} RoundRobinFresh(group: seq<PlayerId>, groupName: GroupName, firstId: MatchId)
    ensures forall k :: 0 <= k < |RoundRobin(group, groupName, firstId)| ==>
      RoundRobin(group, groupName, firstId)[k].id == firstId + k &&
      IsFreshHeadToHead(RoundRobin(group, groupName, firstId)[k], groupName)
  {
    RoundRobinFromFresh(group, 0, groupName, firstId);
  }

  /** The first fixtures from row i on are row i's: group[i] against each later member in turn. */
  lemma {:induction false} RoundRobinFromFirstRow(group: seq<PlayerId>, i: nat, groupName: GroupName, firstId: MatchId, k: nat)
    requires i + 1 + k < |group|
    ensures RoundRobinFrom(group, i, groupName, firstId)[k].player1 == Some(group[i])
    ensures RoundRobinFrom(group, i, groupName, firstId)[k].player2 == Some(group[i + 1 + k])
  {
    var row := RowFrom(group, i, i + 1, groupName, firstId);
    var rest := RoundRobinFrom(group, i + 1, groupName, firstId + |group| - i - 1);
    assert RoundRobinFrom(group, i, groupName, firstId)[k] == (row + rest)[k] == row[k];
    RowFromAt(group, i, i + 1, groupName, firstId, k);
  }

  /** Fewer players never make more pairs. */
  lemma {:induction false} PairsMonotone(m: nat, n: nat)
    requires m <= n
    ensures Pairs(m) <= Pairs(n)
    decreases n
  {
    if m < n {
      PairsMonotone(m, n - 1);
    }
  }

  /**
   * Where the loops over n players push the pair (i, j): after all pairs of
   * the rows before i, and j - i - 1 places into row i.
   */
  function PairPosition(n: nat, i: nat, j: nat): (k: nat)
    requires i < j < n
    ensures k < Pairs(n)
  {
    PairsMonotone(n - i - 1, n);
    PairsMonotone(n - i, n);
    Pairs(n) - Pairs(n - i) + (j - i - 1)
  }

  /** The position of a pair grows with (i, j) in lexicographic order. */
  lemma {:induction false} PairPositionOrdered(n: nat, i: nat, j: nat, i': nat, j': nat)
    requires i < j < n && i' < j' < n
    requires i < i' || (i == i' && j < j')
    ensures PairPosition(n, i, j) < PairPosition(n, i', j')
  {
    if i < i' {
      PairsMonotone(n - i', n - i - 1);
      assert Pairs(n - i) == Pairs(n - i - 1) + (n - i - 1);
    }
  }

  /**
   * From row `from` on, group[i] against group[j] (from <= i < j) is pushed
   * at its pair position counted from row `from`, with the id at that place.
   */
  lemma {:induction false} RoundRobinFromAt(group: seq<PlayerId>, from: nat, i: nat, j: nat, groupName: GroupName, firstId: MatchId, k: int)
    requires from <= i < j < |group|
    requires k == Pairs(|group| - from) - Pairs(|group| - i) + (j - i - 1)
    ensures 0 <= k < |RoundRobinFrom(group, from, groupName, firstId)|
    ensures RoundRobinFrom(group, from, groupName, firstId)[k] == HeadToHead(firstId + k, group[i], group[j], groupName)
    decreases i - from
  {
    var n := |group|;
    var r := RoundRobinFrom(group, from, groupName, firstId);
    var row := RowFrom(group, from, from + 1, groupName, firstId);
    var nextId := firstId + n - from - 1;
    var rest := RoundRobinFrom(group, from + 1, groupName, nextId);
    if i == from {
      assert k == j - i - 1;
      RowFromAt(group, from, from + 1, groupName, firstId, k);
      assert r[k] == row[k] == HeadToHead(firstId + k, group[i], group[j], groupName);
    } else {
      assert Pairs(n - from) == Pairs(n - from - 1) + |row|;
      var k' := Pairs(n - from - 1) - Pairs(n - i) + (j - i - 1);
      RoundRobinFromAt(group, from + 1, i, j, groupName, nextId, k');
      assert k == k' + |row| && nextId + k' == firstId + k;
      assert r[k] == rest[k'] == HeadToHead(firstId + k, group[i], group[j], groupName);
    }
  }

  /**
   * The round robin pushes group[i] against group[j], for every i < j, at
   * PairPosition(|group|, i, j), with the id at that place; the positions
   * follow lexicographic (i, j) order (PairPositionOrdered).
   */
  lemma {:induction false} RoundRobinAt(group: seq<PlayerId>, i: nat, j: nat, groupName: GroupName, firstId: MatchId)
    requires i < j < |group|
    ensures var k := PairPosition(|group|, i, j);
      RoundRobin(group, groupName, firstId)[k] == HeadToHead(firstId + k, group[i], group[j], groupName)
  {
    RoundRobinFromAt(group, 0, i, j, groupName, firstId, PairPosition(|group|, i, j));
  }

  /** Each fixture from row `from` on is group[i] against a later group[j], with from <= i. */
  lemma {:induction false} RoundRobinFromPairs(group: seq<PlayerId>, from: nat, groupName: GroupName, firstId: MatchId, k: nat)
    requires from <= |group| && k < Pairs(|group| - from)
    ensures exists i, j ::
      (from <= i < j < |group| &&
       RoundRobinFrom(group, from, groupName, firstId)[k].player1 == Some(group[i]) &&
       RoundRobinFrom(group, from, groupName, firstId)[k].player2 == Some(group[j]))
    decreases |group| - from
  {
    var r := RoundRobinFrom(group, from, groupName, firstId);
    var rowLength := |group| - from - 1;
    if k < rowLength {
      RoundRobinFromFirstRow(group, from, groupName, firstId, k);
      var i, j := from, from + 1 + k;
      assert from <= i < j < |group| && r[k].player1 == Some(group[i]) && r[k].player2 == Some(group[j]);
    } else {
      var nextId := firstId + |group| - from - 1;
      var row := RowFrom(group, from, from + 1, groupName, firstId);
      var rest := RoundRobinFrom(group, from + 1, groupName, nextId);
      assert r[k] == rest[k - rowLength];
      RoundRobinFromPairs(group, from + 1, groupName, nextId, k - rowLength);
      var i, j :| from + 1 <= i < j < |group| && rest[k - rowLength].player1 == Some(group[i])
        && rest[k - rowLength].player2 == Some(group[j]);
      assert from <= i < j < |group| && r[k].player1 == Some(group[i]) && r[k].player2 == Some(group[j]);
    }
  }

  /** Every fixture pairs group[i] with a later group[j]. */
  lemma {:induction false} RoundRobinPairs(group: seq<PlayerId>, groupName: GroupName, firstId: MatchId, k: nat)
    requires k < Pairs(|group|)
    ensures exists i, j ::
      (0 <= i < j < |group| &&
       RoundRobin(group, groupName, firstId)[k].player1 == Some(group[i]) &&
       RoundRobin(group, groupName, firstId)[k].player2 == Some(group[j]))
  {
    RoundRobinFromPairs(group, 0, groupName, firstId, k);
  }

  /** In a group without repeats no player is paired with itself. */
  lemma {:induction false} RoundRobinNoSelfPairs(group: seq<PlayerId>, groupName: GroupName, firstId: MatchId)
    requires Distinct(group)
    ensures forall k :: 0 <= k < Pairs(|group|) ==>
      RoundRobin(group, groupName, firstId)[k].player1 != RoundRobin(group, groupName, firstId)[k].player2
  {
    forall k | 0 <= k < Pairs(|group|)
      ensures RoundRobin(group, groupName, firstId)[k].player1 != RoundRobin(group, groupName, firstId)[k].player2
    {
      RoundRobinPairs(group, groupName, firstId, k);
    }
  }

  /**
   * Meetings in the inner loop from j on, in a group without repeats: two
   * players meet once if one is group[i] and the other is among group[j..].
   */
  lemma {:induction false} RowFromMeetings(group: seq<PlayerId>, i: nat, j: nat, groupName: GroupName, firstId: MatchId, a: PlayerId, b: PlayerId)
    requires i < j <= |group| && Distinct(group) && a != b
    ensures Meetings(RowFrom(group, i, j, groupName, firstId), a, b) ==
      if (a == group[i] && b in group[j..]) || (b == group[i] && a in group[j..]) then 1 else 0
    decreases |group| - j
  {
    if j < |group| {
      var r := RowFrom(group, i, j, groupName, firstId);
      assert Meets(r[0], a, b) <==> (a == group[i] && b == group[j]) || (b == group[i] && a == group[j]);
      assert r[1..] == RowFrom(group, i, j + 1, groupName, firstId + 1);
      assert group[j..] == [group[j]] + group[j + 1..];
      assert group[i] != group[j];
      forall q | j + 1 <= q < |group| ensures group[q] != group[j] {
        assert group[j] != group[q];
      }
      RowFromMeetings(group, i, j + 1, groupName, firstId + 1, a, b);
    }
  }

  /**
   * From row i on, in a group without repeats: two different members of
   * group[i..] meet exactly once, and no other two players meet.
   */
  lemma {:induction false} RoundRobinFromMeetings(group: seq<PlayerId>, i: nat, groupName: GroupName, firstId: MatchId, a: PlayerId, b: PlayerId)
    requires i <= |group| && Distinct(group) && a != b
    ensures Meetings(RoundRobinFrom(group, i, groupName, firstId), a, b) ==
      if a in group[i..] && b in group[i..] then 1 else 0
    decreases |group| - i
  {
    if i < |group| {
      var nextId := firstId + |group| - i - 1;
      assert group[i..] == [group[i]] + group[i + 1..];
      forall q | i + 1 <= q < |group| ensures group[q] != group[i] {
        assert group[i] != group[q];
      }
      RowFromMeetings(group, i, i + 1, groupName, firstId, a, b);
      RoundRobinFromMeetings(group, i + 1, groupName, nextId, a, b);
      MeetingsAppend(RowFrom(group, i, i + 1, groupName, firstId), RoundRobinFrom(group, i + 1, groupName, nextId), a, b);
    }
  }

  /** In a group without repeats every two different members meet exactly once, and no one else meets. */
  lemma {:induction false} RoundRobinMeetings(group: seq<PlayerId>, groupName: GroupName, firstId: MatchId, a: PlayerId, b: PlayerId)
    requires Distinct(group) && a != b
    ensures Meetings(RoundRobin(group, groupName, firstId), a, b) == if a in group && b in group then 1 else 0
  {
    assert group[0..] == group;
    RoundRobinFromMeetings(group, 0, groupName, firstId, a, b);
  }

  /**
   * Appearances in the inner loop from j on, in a group without repeats:
   * group[i] plays in every fixture, group[j..]'s members in one each.
   */
  lemma {:induction false} RowFromAppearances(group: seq<PlayerId>, i: nat, j: nat, groupName: GroupName, firstId: MatchId, p: PlayerId)
    requires i < j <= |group| && Distinct(group)
    ensures Appearances(RowFrom(group, i, j, groupName, firstId), p) ==
      if p == group[i] then |group| - j else if p in group[j..] then 1 else 0
    decreases |group| - j
  {
    if j < |group| {
      var r := RowFrom(group, i, j, groupName, firstId);
      assert Involves(r[0], p) <==> p == group[i] || p == group[j];
      assert r[1..] == RowFrom(group, i, j + 1, groupName, firstId + 1);
      assert group[j..] == [group[j]] + group[j + 1..];
      assert group[i] != group[j];
      if p == group[j] {
        forall q | j + 1 <= q < |group| ensures group[q] != p {
          assert group[j] != group[q];
        }
      }
      RowFromAppearances(group, i, j + 1, groupName, firstId + 1, p);
    }
  }

  /**
   * From row i on, in a group without repeats: each of group[i..] plays
   * |group| - i - 1 fixtures, and no one else plays.
   */
  lemma {:induction false} RoundRobinFromAppearances(group: seq<PlayerId>, i: nat, groupName: GroupName, firstId: MatchId, p: PlayerId)
    requires i <= |group| && Distinct(group)
    ensures Appearances(RoundRobinFrom(group, i, groupName, firstId), p) == if p in group[i..] then |group| - i - 1 else 0
    decreases |group| - i
  {
    if i < |group| {
      var restId := firstId + |group| - i - 1;
      assert group[i..] == [group[i]] + group[i + 1..];
      if p == group[i] {
        forall q | i + 1 <= q < |group| ensures group[q] != p {
          assert group[i] != group[q];
        }
      }
      RowFromAppearances(group, i, i + 1, groupName, firstId, p);
      RoundRobinFromAppearances(group, i + 1, groupName, restId, p);
      AppearancesAppend(RowFrom(group, i, i + 1, groupName, firstId), RoundRobinFrom(group, i + 1, groupName, restId), p);
    }
  }

  /** In a group without repeats each member plays exactly |group| - 1 fixtures, and no one else plays. */
  lemma {:induction false} RoundRobinAppearances(group: seq<PlayerId>, groupName: GroupName, firstId: MatchId, p: PlayerId)
    requires Distinct(group)
    ensures Appearances(RoundRobin(group, groupName, firstId), p) == if p in group then |group| - 1 else 0
  {
    assert group[0..] == group;
    RoundRobinFromAppearances(group, 0, groupName, firstId, p);
  }

  // ---------------------------------------------------------------------------
  // Battle royale and the whole group stage

  /** The Krunker branch: one battle for all of group A, then one for all of group B. */
  function BattleRoyale(groupA: seq<PlayerId>, groupB: seq<PlayerId>, firstId: MatchId): seq<Match>
  {
    [Battle(firstId, groupA, GroupA), Battle(firstId + 1, groupB, GroupB)]
  }

  /** The fixtures a freshly built tournament for game holds, ids counting up from firstId. */
  function GroupFixtures(game: string, groupA: seq<PlayerId>, groupB: seq<PlayerId>, firstId: MatchId): seq<Match>
  {
    if game != Krunker then
      RoundRobin(groupA, GroupA, firstId) + RoundRobin(groupB, GroupB, firstId + Pairs(|groupA|))
    else
      BattleRoyale(groupA, groupB, firstId)
  }

  /**
   * Head-to-head games: C(|A|, 2) + C(|B|, 2) unplayed group fixtures with
   * consecutive ids from firstId, all of group A's before any of group B's.
   */
  lemma {:induction false} HeadToHeadFixtures(game: string, groupA: seq<PlayerId>, groupB: seq<PlayerId>, firstId: MatchId)
    requires game != Krunker
    ensures var r := GroupFixtures(game, groupA, groupB, firstId);
      |r| == Pairs(|groupA|) + Pairs(|groupB|) &&
      forall k :: 0 <= k < |r| ==>
        r[k].id == firstId + k && IsFreshHeadToHead(r[k], if k < Pairs(|groupA|) then GroupA else GroupB)
  {
    var a := RoundRobin(groupA, GroupA, firstId);
    var b := RoundRobin(groupB, GroupB, firstId + Pairs(|groupA|));
    assert GroupFixtures(game, groupA, groupB, firstId) == a + b;
    RoundRobinFresh(groupA, GroupA, firstId);
    RoundRobinFresh(groupB, GroupB, firstId + Pairs(|groupA|));
    FreshConcat(a, b, firstId);
  }

  /** Two numbered fresh fixture lists, group A's then group B's, make one numbered list. */
  lemma {:induction false} FreshConcat(a: seq<Match>, b: seq<Match>, firstId: MatchId)
    requires forall k :: 0 <= k < |a| ==> a[k].id == firstId + k && IsFreshHeadToHead(a[k], GroupA)
    requires forall k :: 0 <= k < |b| ==> b[k].id == firstId + |a| + k && IsFreshHeadToHead(b[k], GroupB)
    ensures forall k :: 0 <= k < |a + b| ==>
      (a + b)[k].id == firstId + k && IsFreshHeadToHead((a + b)[k], if k < |a| then GroupA else GroupB)
  {
    forall k | 0 <= k < |a + b|
      ensures (a + b)[k].id == firstId + k && IsFreshHeadToHead((a + b)[k], if k < |a| then GroupA else GroupB)
    {
      if k >= |a| {
        assert (a + b)[k] == b[k - |a|];
      }
    }
  }

  /**
   * Head-to-head games: with groups that share no one and repeat no one,
   * every participant plays each other member of its own group once.
   */
  lemma {:induction false} HeadToHeadAppearances(game: string, groupA: seq<PlayerId>, groupB: seq<PlayerId>, firstId: MatchId, p: PlayerId)
    requires game != Krunker
    requires Distinct(groupA + groupB)
    ensures p in groupA ==> Appearances(GroupFixtures(game, groupA, groupB, firstId), p) == |groupA| - 1
    ensures p in groupB ==> Appearances(GroupFixtures(game, groupA, groupB, firstId), p) == |groupB| - 1
    ensures p !in groupA + groupB ==> Appearances(GroupFixtures(game, groupA, groupB, firstId), p) == 0
  {
    DistinctConcat(groupA, groupB);
    var a := RoundRobin(groupA, GroupA, firstId);
    var b := RoundRobin(groupB, GroupB, firstId + Pairs(|groupA|));
    RoundRobinAppearances(groupA, GroupA, firstId, p);
    RoundRobinAppearances(groupB, GroupB, firstId + Pairs(|groupA|), p);
    AppearancesAppend(a, b, p);
  }

  /**
   * Krunker: exactly two unplayed fixtures, group A's then group B's, each
   * holding its whole group in order, for groups of any size, even empty.
   */
  lemma {:induction false} BattleRoyaleShape(groupA: seq<PlayerId>, groupB: seq<PlayerId>, firstId: MatchId)
    ensures var r := GroupFixtures(Krunker, groupA, groupB, firstId);
      |r| == 2
      && r[0].players == groupA && r[0].group == GroupA && r[0].id == firstId
      && r[1].players == groupB && r[1].group == GroupB && r[1].id == firstId + 1
      && forall m :: m in r ==> m.round == GroupRound && m.winner == None && m.winners == [] && m.score == None
  {
  }

  /** Krunker, with groups that repeat no one: every participant is in exactly one fixture, no one else in any. */
  lemma {:induction false} BattleRoyaleAppearances(groupA: seq<PlayerId>, groupB: seq<PlayerId>, firstId: MatchId, p: PlayerId)
    requires Distinct(groupA + groupB)
    ensures Appearances(GroupFixtures(Krunker, groupA, groupB, firstId), p) == if p in groupA + groupB then 1 else 0
  {
    var r := GroupFixtures(Krunker, groupA, groupB, firstId);
    var s := groupA + groupB;
    DistinctConcat(groupA, groupB);
    assert r[1..][1..] == [];
    assert r[1..][0] == r[1];
    assert Appearances(r[1..], p) == (if Involves(r[1], p) then 1 else 0) + Appearances(r[1..][1..], p);
    assert Appearances(r, p) == (if Involves(r[0], p) then 1 else 0) + (if Involves(r[1], p) then 1 else 0);
    assert Involves(r[0], p) <==> p in groupA;
    assert Involves(r[1], p) <==> p in groupB;
    assert p in s <==> p in groupA || p in groupB;
  }
}
