/**
  Per-player statistics and the leaderboard, computed from the transaction
  table: a player's total is the sum of the points of their transactions,
  and the leaderboard ranks the players who have any, highest total first.
 */
module Scoring {
  import opened Store
  import opened Verification
  import opened Workflow

  /** The player's transactions, in table order. */
  function PlayerTransactions(txs: seq<Transaction>, playerId: nat): (r: seq<Transaction>)
    ensures |r| <= |txs|
    ensures forall k :: 0 <= k < |r| ==> r[k].playerId == playerId
  {
    if |txs| == 0 then []
    else
      var last := txs[|txs| - 1];
      var init := txs[..|txs| - 1];
      assert txs == init + [last];
      PlayerTransactions(init, playerId) + (if last.playerId == playerId then [last] else [])
  }

  /** The player's transactions are exactly the table rows with their id. */
  lemma {:induction false} PlayerTransactionsMembers(txs: seq<Transaction>, playerId: nat)
    ensures forall t :: t in PlayerTransactions(txs, playerId) <==> t in txs && t.playerId == playerId
  {
    if |txs| > 0 {
      var init := txs[..|txs| - 1];
      PlayerTransactionsMembers(init, playerId);
      assert txs == init + [txs[|txs| - 1]];
    }
  }

  function SumPoints(txs: seq<Transaction>): int
  {
    if |txs| == 0 then 0 else SumPoints(txs[..|txs| - 1]) + txs[|txs| - 1].pointsEarned
  }

  /** "Total Points": the sum over the player's transactions. */
  function Total(txs: seq<Transaction>, playerId: nat): int
  {
    SumPoints(PlayerTransactions(txs, playerId))
  }

  /** "Challenges Completed": how many transactions the player has. */
  function Completions(txs: seq<Transaction>, playerId: nat): nat
  {
    |PlayerTransactions(txs, playerId)|
  }

  /** Recording one more transaction changes only its own player's figures. */
  lemma {:induction false} StatsAppend(txs: seq<Transaction>, t: Transaction, playerId: nat)
    ensures Total(txs + [t], playerId)
         == Total(txs, playerId) + (if t.playerId == playerId then t.pointsEarned else 0)
    ensures Completions(txs + [t], playerId)
         == Completions(txs, playerId) + (if t.playerId == playerId then 1 else 0)
  {
    assert (txs + [t])[..|txs + [t]| - 1] == txs;
    var ps := PlayerTransactions(txs, playerId);
    if t.playerId == playerId {
      assert (ps + [t])[..|ps + [t]| - 1] == ps;
    } else {
      assert ps + [] == ps;
    }
  }

  lemma StatsStep(txs: seq<Transaction>, i: nat, playerId: nat)
    requires i < |txs|
    ensures Total(txs[..i + 1], playerId)
         == Total(txs[..i], playerId) + (if txs[i].playerId == playerId then txs[i].pointsEarned else 0)
    ensures Completions(txs[..i + 1], playerId)
         == Completions(txs[..i], playerId) + (if txs[i].playerId == playerId then 1 else 0)
  {
    assert txs[..i + 1] == txs[..i] + [txs[i]];
    StatsAppend(txs[..i], txs[i], playerId);
  }

  /** The "Your Stats" panel: one pass over the table summing the selected
      player's points and counting their transactions. */
  method PlayerStats(txs: seq<Transaction>, playerId: nat) returns (total: int, count: nat)
    ensures total == SumPoints(PlayerTransactions(txs, playerId))
    ensures count == |PlayerTransactions(txs, playerId)|
  {
    total, count := 0, 0;
    var i := 0;
    while i < |txs|
      invariant 0 <= i <= |txs|
      invariant total == Total(txs[..i], playerId)
      invariant count == Completions(txs[..i], playerId)
    {
      StatsStep(txs, i, playerId);
      if txs[i].playerId == playerId {
        total := total + txs[i].pointsEarned;
        count := count + 1;
      }
      i := i + 1;
    }
    assert txs[..i] == txs;
  }

  /** A verified submission raises the submitter's total by the task's
      points and their count by one; every other player's figures stay. */
  lemma VerifiedSubmitScores(s: State, playerName: string, taskIndex: nat,
                             reply: Reply, now: Timestamp, other: nat)
    requires exists j :: 0 <= j < |s.players| && s.players[j].name == playerName
    requires taskIndex < |s.tasks|
    requires IsVerified(Parse(RawResult(reply)).status)
    ensures var r := Submit(s, true, playerName, taskIndex, reply, now).state;
      var pid := r.pending.value.playerId;
      && Total(r.transactions, pid) == Total(s.transactions, pid) + s.tasks[taskIndex].points
      && Completions(r.transactions, pid) == Completions(s.transactions, pid) + 1
      && (other != pid ==>
            && Total(r.transactions, other) == Total(s.transactions, other)
            && Completions(r.transactions, other) == Completions(s.transactions, other))
  {
    var r := Submit(s, true, playerName, taskIndex, reply, now).state;
    var tx := r.transactions[|s.transactions|];
    assert r.transactions == s.transactions + [tx];
    StatsAppend(s.transactions, tx, r.pending.value.playerId);
    StatsAppend(s.transactions, tx, other);
  }

  /** An accepted review raises the item's player's total by the matched
      task's points; rejecting leaves every total as it was. */
  lemma ResolveScores(s: State, i: nat, now: Timestamp, other: nat)
    requires i < |s.queue|
    ensures HasMatchingTask(s, i) ==>
      var r := Accept(s, i, now);
      var pid := s.queue[i].playerId;
      && Total(r.transactions, pid)
         == Total(s.transactions, pid) + r.transactions[|s.transactions|].pointsEarned
      && Completions(r.transactions, pid) == Completions(s.transactions, pid) + 1
      && (other != pid ==> Total(r.transactions, other) == Total(s.transactions, other))
    ensures Total(Reject(s, i).transactions, other) == Total(s.transactions, other)
  {
    if HasMatchingTask(s, i) {
      var r := Accept(s, i, now);
      var tx := r.transactions[|s.transactions|];
      assert r.transactions == s.transactions + [tx];
      StatsAppend(s.transactions, tx, s.queue[i].playerId);
      StatsAppend(s.transactions, tx, other);
    }
  }

  datatype Standing = Standing(playerId: nat, name: string, points: int)

  datatype Row = Row(rank: nat, playerId: nat, name: string, points: int)

  /** One standing per player who has at least one transaction, in player
      table order, carrying the player's total. */
  function Standings(players: seq<Player>, txs: seq<Transaction>): (r: seq<Standing>)
    ensures |r| <= |players|
    ensures forall k :: 0 <= k < |r| ==>
      Completions(txs, r[k].playerId) > 0 && r[k].points == Total(txs, r[k].playerId)
  {
    if |players| == 0 then []
    else
      var p := players[0];
      var here := if Completions(txs, p.playerId) > 0
                  then [Standing(p.playerId, p.name, Total(txs, p.playerId))] else [];
      here + Standings(players[1..], txs)
  }

  /** Every standing belongs to some player of the table. */
  lemma {:induction false} StandingsFromPlayers(players: seq<Player>, txs: seq<Transaction>, k: nat)
    requires k < |Standings(players, txs)|
    ensures exists j :: (0 <= j < |players|
      && players[j].playerId == Standings(players, txs)[k].playerId
      && players[j].name == Standings(players, txs)[k].name)
  {
    var p := players[0];
    var rest := Standings(players[1..], txs);
    if Completions(txs, p.playerId) > 0 && k == 0 {
      assert Standings(players, txs)[0] == Standing(p.playerId, p.name, Total(txs, p.playerId));
    } else {
      var k' := if Completions(txs, p.playerId) > 0 then k - 1 else k;
      assert Standings(players, txs)[k] == rest[k'];
      StandingsFromPlayers(players[1..], txs, k');
      var j :| 0 <= j < |players[1..]| && players[1..][j].playerId == rest[k'].playerId
               && players[1..][j].name == rest[k'].name;
      assert players[j + 1] == players[1..][j];
    }
  }

  /** Every player with a transaction has a standing. */
  lemma {:induction false} StandingsComplete(players: seq<Player>, txs: seq<Transaction>, j: nat)
    requires j < |players| && Completions(txs, players[j].playerId) > 0
    ensures Standing(players[j].playerId, players[j].name, Total(txs, players[j].playerId))
            in Standings(players, txs)
  {
    var p := players[0];
    var rest := Standings(players[1..], txs);
    var here := if Completions(txs, p.playerId) > 0
                then [Standing(p.playerId, p.name, Total(txs, p.playerId))] else [];
    assert Standings(players, txs) == here + rest;
    if j > 0 {
      assert players[1..][j - 1] == players[j];
      StandingsComplete(players[1..], txs, j - 1);
    }
  }

  predicate NonIncreasing(xs: seq<Standing>)
  {
    forall i, j :: 0 <= i < j < |xs| ==> xs[i].points >= xs[j].points
  }

  /** Places `x` before the first entry with no more points than it. */
  function Insert(x: Standing, xs: seq<Standing>): (r: seq<Standing>)
    requires NonIncreasing(xs)
    ensures NonIncreasing(r)
    ensures multiset(r) == multiset(xs) + multiset{x}
    ensures |r| == |xs| + 1 && (r[0] == x || (|xs| > 0 && r[0] == xs[0]))
  {
    if |xs| == 0 || xs[0].points <= x.points then [x] + xs
    else
      var rest := Insert(x, xs[1..]);
      assert xs == [xs[0]] + xs[1..];
      assert NonIncreasing([xs[0]] + rest) by {
        assert xs[0].points >= rest[0].points;
      }
      [xs[0]] + rest
  }

  /** Orders standings by total, highest first. */
  function SortByPoints(xs: seq<Standing>): (r: seq<Standing>)
    ensures NonIncreasing(r)
    ensures multiset(r) == multiset(xs)
  {
    if |xs| == 0 then []
    else
      assert xs == [xs[0]] + xs[1..];
      Insert(xs[0], SortByPoints(xs[1..]))
  }

  /** Numbers the sorted standings 1, 2, 3, ... */
  function Rank(xs: seq<Standing>): (r: seq<Row>)
    ensures |r| == |xs|
    ensures forall i :: 0 <= i < |r| ==>
      r[i] == Row(i + 1, xs[i].playerId, xs[i].name, xs[i].points)
  {
    seq(|xs|, i requires 0 <= i < |xs| => Row(i + 1, xs[i].playerId, xs[i].name, xs[i].points))
  }

  /** The leaderboard as displayed: ranks run 1..n and totals never
      increase down the board. */
  function Leaderboard(players: seq<Player>, txs: seq<Transaction>): (board: seq<Row>)
    ensures forall i :: 0 <= i < |board| ==> board[i].rank == i + 1
    ensures forall i, j :: 0 <= i < j < |board| ==> board[i].points >= board[j].points
  {
    Rank(SortByPoints(Standings(players, txs)))
  }

  /** Sorting keeps exactly the standings it was given. */
  lemma SortedMembers(st: seq<Standing>)
    ensures forall i :: 0 <= i < |SortByPoints(st)| ==> SortByPoints(st)[i] in st
    ensures forall e :: e in st ==> e in SortByPoints(st)
  {
    var sorted := SortByPoints(st);
    forall i | 0 <= i < |sorted|
      ensures sorted[i] in st
    {
      assert sorted[i] in multiset(st);
    }
    forall e | e in st
      ensures e in sorted
    {
      assert e in multiset(sorted);
    }
  }

  /** Every row is a player with at least one transaction, shown with their
      true total. */
  lemma LeaderboardRows(players: seq<Player>, txs: seq<Transaction>, i: nat)
    requires i < |Leaderboard(players, txs)|
    ensures var row := Leaderboard(players, txs)[i];
      && Completions(txs, row.playerId) > 0
      && row.points == Total(txs, row.playerId)
      && exists j :: 0 <= j < |players| && players[j].playerId == row.playerId
                     && players[j].name == row.name
  {
    var st := Standings(players, txs);
    var sorted := SortByPoints(st);
    SortedMembers(st);
    assert sorted[i] in st;
    var k :| 0 <= k < |st| && st[k] == sorted[i];
    StandingsFromPlayers(players, txs, k);
  }

  /** Every player with at least one transaction is on the board. */
  lemma LeaderboardComplete(players: seq<Player>, txs: seq<Transaction>, j: nat)
    requires j < |players| && Completions(txs, players[j].playerId) > 0
    ensures var p := players[j];
      exists i :: (0 <= i < |Leaderboard(players, txs)|
        && Leaderboard(players, txs)[i] == Row(i + 1, p.playerId, p.name, Total(txs, p.playerId)))
  {
    var p := players[j];
    var st := Standings(players, txs);
    var sorted := SortByPoints(st);
    SortedMembers(st);
    StandingsComplete(players, txs, j);
    var e := Standing(p.playerId, p.name, Total(txs, p.playerId));
    assert e in sorted;
    var i :| 0 <= i < |sorted| && sorted[i] == e;
    assert Leaderboard(players, txs)[i] == Row(i + 1, p.playerId, p.name, Total(txs, p.playerId));
  }

  /** Standing ids are pairwise distinct. */
  predicate DistinctStandingIds(xs: seq<Standing>)
  {
    forall i, j :: 0 <= i < j < |xs| ==> xs[i].playerId != xs[j].playerId
  }

  /** The grouped rows have one row per player id: distinct player ids give
      distinct standing ids. */
  lemma {:induction false} StandingsDistinct(players: seq<Player>, txs: seq<Transaction>)
    requires DistinctPlayerIds(players)
    ensures DistinctStandingIds(Standings(players, txs))
  {
    if |players| > 0 {
      var p := players[0];
      var rest := Standings(players[1..], txs);
      StandingsDistinct(players[1..], txs);
      forall k | 0 <= k < |rest|
        ensures rest[k].playerId != p.playerId
      {
        StandingsFromPlayers(players[1..], txs, k);
        var j :| 0 <= j < |players[1..]| && players[1..][j].playerId == rest[k].playerId
                 && players[1..][j].name == rest[k].name;
        assert players[1..][j] == players[j + 1];
      }
    }
  }

  /** Inserting an entry whose id is new keeps the ids distinct. */
  lemma {:induction false} InsertDistinct(x: Standing, xs: seq<Standing>)
    requires NonIncreasing(xs) && DistinctStandingIds(xs)
    requires forall k :: 0 <= k < |xs| ==> xs[k].playerId != x.playerId
    ensures DistinctStandingIds(Insert(x, xs))
  {
    if |xs| > 0 && xs[0].points > x.points {
      var rest := Insert(x, xs[1..]);
      InsertDistinct(x, xs[1..]);
      forall k | 0 <= k < |rest|
        ensures rest[k].playerId != xs[0].playerId
      {
        assert rest[k] in multiset(rest);
        assert rest[k] in multiset(xs[1..]) || rest[k] == x;
        if rest[k] != x {
          var m :| 0 <= m < |xs[1..]| && xs[1..][m] == rest[k];
          assert xs[m + 1] == rest[k];
        }
      }
      assert Insert(x, xs) == [xs[0]] + rest;
    }
  }

  /** Sorting keeps the ids distinct. */
  lemma {:induction false} SortDistinct(xs: seq<Standing>)
    requires DistinctStandingIds(xs)
    ensures DistinctStandingIds(SortByPoints(xs))
  {
    if |xs| > 0 {
      var tail := SortByPoints(xs[1..]);
      SortDistinct(xs[1..]);
      forall k | 0 <= k < |tail|
        ensures tail[k].playerId != xs[0].playerId
      {
        assert tail[k] in multiset(tail);
        var m :| 0 <= m < |xs[1..]| && xs[1..][m] == tail[k];
        assert xs[m + 1] == tail[k];
      }
      InsertDistinct(xs[0], tail);
    }
  }

  /** One row per player: when player ids are distinct (as in every well
      formed store), no player appears twice on the board. */
  lemma LeaderboardDistinct(players: seq<Player>, txs: seq<Transaction>)
    requires DistinctPlayerIds(players)
    ensures var board := Leaderboard(players, txs);
      forall i, j :: 0 <= i < j < |board| ==> board[i].playerId != board[j].playerId
  {
    StandingsDistinct(players, txs);
    SortDistinct(Standings(players, txs));
  }
}
