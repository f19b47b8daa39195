/**
  The in-memory domain store: four tables (tasks, players, transactions and
  the human-review queue) plus the session's pending verification.  Tables
  are sequences in insertion order; ids are positions plus one.
 */
module Store {
  import opened Decimal
  import Verification

  /** Timestamps are formatted wall-clock readings, taken as given. */
  type Timestamp = string

  datatype Option<T> = None | Some(value: T)

  datatype Task = Task(taskId: nat, desc: string, points: int)

  datatype Player = Player(playerId: nat, name: string)

  datatype Transaction = Transaction(
    pk: string,
    playerId: nat,
    taskId: nat,
    timestamp: Timestamp,
    pointsEarned: int)

  datatype ReviewItem = ReviewItem(
    playerId: nat,
    playerName: string,
    taskDesc: string,
    reason: string,
    submittedAt: Timestamp)

  /** The `last_verification` session entry: the parsed reply together with
      the selection it was made for. */
  datatype Pending = Pending(
    result: Verification.Parsed,
    playerId: nat,
    playerName: string,
    taskDesc: string,
    taskId: nat,
    taskPoints: int)

  datatype State = State(
    tasks: seq<Task>,
    players: seq<Player>,
    transactions: seq<Transaction>,
    queue: seq<ReviewItem>,
    pending: Option<Pending>)

  /** Bounds of the admin form's points field. */
  const MinPoints: int := 10
  const MaxPoints: int := 500

  /** Ids are positions plus one, every reference points at an existing row,
      and every task is worth points within the form's bounds. */
  ghost predicate WellFormed(s: State)
  {
    && (forall k :: 0 <= k < |s.tasks| ==> s.tasks[k].taskId == k + 1)
    && (forall k :: 0 <= k < |s.tasks| ==> MinPoints <= s.tasks[k].points <= MaxPoints)
    && (forall k :: 0 <= k < |s.players| ==> s.players[k].playerId == k + 1)
    && (forall j :: 0 <= j < |s.transactions| ==>
          1 <= s.transactions[j].playerId <= |s.players|
          && 1 <= s.transactions[j].taskId <= |s.tasks|)
    && (forall j :: 0 <= j < |s.queue| ==> 1 <= s.queue[j].playerId <= |s.players|)
    && (s.pending.Some? ==>
          && 1 <= s.pending.value.playerId <= |s.players|
          && 1 <= s.pending.value.taskId <= |s.tasks|
          && s.tasks[s.pending.value.taskId - 1].points == s.pending.value.taskPoints)
  }

  /** From position `from` on, every transaction awarded exactly the points
      of the task it names. */
  ghost predicate AwardsMatchFrom(s: State, from: nat)
  {
    forall j :: from <= j < |s.transactions| ==>
      1 <= s.transactions[j].taskId <= |s.tasks|
      && s.transactions[j].pointsEarned == s.tasks[s.transactions[j].taskId - 1].points
  }

  /** The session's starting tables. */
  function Seed(): (s: State)
    ensures WellFormed(s)
    ensures |s.transactions| == 6 && s.queue == [] && s.pending == None
  {
    State(
      [ Task(1, "upload a pic of JP Licks Ice cream", 50),
        Task(2, "upload a pic of Mikes Pastry's Cannoli", 75),
        Task(3, "upload a receipt of mango Smoothie from Trader Joe's", 100) ],
      [ Player(1, "vizzy"), Player(2, "lindsay"), Player(3, "shreya") ],
      [ Transaction("a11111", 1, 1, "2025-09-01T14:30:22", 50),
        Transaction("a21221", 2, 2, "2025-09-01T15:12:45", 50),
        Transaction("a32132", 3, 1, "2025-09-02T09:45:33", 75),
        Transaction("a42222", 2, 2, "2025-09-02T10:22:18", 75),
        Transaction("a53113", 3, 1, "2025-09-03T13:15:29", 75),
        Transaction("a63212", 3, 2, "2025-09-03T14:01:56", 75) ],
      [],
      None)
  }

  /** The seed rows do not all award their task's points: the second row
      (`a21221`) gives 50 for task 2, which is worth 75, and the third and
      fifth (`a32132`, `a53113`) give 75 for task 1, which is worth 50.  The
      other three rows match. */
  lemma SeedAwardsMismatch(j: nat)
    requires j < |Seed().transactions|
    ensures !AwardsMatchFrom(Seed(), 0)
    ensures var s := Seed();
      s.transactions[j].pointsEarned == s.tasks[s.transactions[j].taskId - 1].points
      <==> j == 0 || j == 3 || j == 5
  {
    var s := Seed();
    assert s.transactions[1].taskId == 2 && s.transactions[1].pointsEarned == 50;
    assert s.tasks[1].points == 75;
  }

  /** Player ids are pairwise distinct. */
  predicate DistinctPlayerIds(players: seq<Player>)
  {
    forall i, j :: 0 <= i < j < |players| ==> players[i].playerId != players[j].playerId
  }

  /** Ids that are positions plus one are distinct. */
  lemma WellFormedIdsDistinct(s: State)
    requires WellFormed(s)
    ensures DistinctPlayerIds(s.players)
  {
  }

  /** Position of the first row satisfying `matches`: the profile
      selector's name lookup and Accept's description lookup both take the
      first hit (`.values[0]`). */
  function FirstMatch<T>(xs: seq<T>, matches: T -> bool): (k: nat)
    requires exists j :: 0 <= j < |xs| && matches(xs[j])
    ensures k < |xs| && matches(xs[k])
    ensures forall j :: 0 <= j < k ==> !matches(xs[j])
  {
    if matches(xs[0]) then 0
    else 1 + FirstMatch(xs[1..], matches)
  }

  /** Key of a transaction recorded by a verified submission: "a", then the
      new row count, the player id and the task id, all in decimal. */
  function SubmitKey(count: nat, playerId: nat, taskId: nat): string
  {
    "a" + NatToString(count + 1) + NatToString(playerId) + NatToString(taskId)
  }

  /** Key of a transaction recorded by an accepted review: as above but
      without the task id. */
  function AcceptKey(count: nat, playerId: nat): string
  {
    "a" + NatToString(count + 1) + NatToString(playerId)
  }

  /** Both key forms are "a" followed by decimal digits, and they start with
      the decimal row count. */
  lemma KeyShape(count: nat, playerId: nat, taskId: nat)
    ensures var k := SubmitKey(count, playerId, taskId);
      k[0] == 'a' && AllDigits(k[1..]) && NatToString(count + 1) <= k[1..]
    ensures var k := AcceptKey(count, playerId);
      k[0] == 'a' && AllDigits(k[1..]) && NatToString(count + 1) <= k[1..]
  {
    var a, b, c := NatToString(count + 1), NatToString(playerId), NatToString(taskId);
    assert SubmitKey(count, playerId, taskId)[1..] == a + b + c;
    assert AcceptKey(count, playerId)[1..] == a + b;
  }

  /** The key formula does not make keys unique: two different submissions
      (row 11 by player 1 on task 1, row 1 by player 11 on task 1) get the
      same key, and an accepted review can repeat a submission's key. */
  lemma KeysCollide()
    ensures SubmitKey(10, 1, 1) == SubmitKey(0, 11, 1)
    ensures AcceptKey(0, 11) == SubmitKey(0, 1, 1)
  {
    assert NatToString(11) == NatToString(1) + NatToString(1);
  }

  /** The admin "Add Task" form: an empty description adds nothing;
      otherwise the task is appended with id = row count + 1. */
  function AddTask(s: State, desc: string, points: int): (r: State)
    requires MinPoints <= points <= MaxPoints
    ensures desc == "" ==> r == s
    ensures desc != "" ==>
      && |r.tasks| == |s.tasks| + 1
      && r.tasks[..|s.tasks|] == s.tasks
      && r.tasks[|s.tasks|] == Task(|s.tasks| + 1, desc, points)
    ensures r.players == s.players && r.transactions == s.transactions
    ensures r.queue == s.queue && r.pending == s.pending
  {
    if desc == "" then s
    else s.(tasks := s.tasks + [Task(|s.tasks| + 1, desc, points)])
  }

  /** The admin "Add Player" form: an empty name adds nothing; otherwise the
      player is appended with id = row count + 1. */
  function AddPlayer(s: State, name: string): (r: State)
    ensures name == "" ==> r == s
    ensures name != "" ==>
      && |r.players| == |s.players| + 1
      && r.players[..|s.players|] == s.players
      && r.players[|s.players|] == Player(|s.players| + 1, name)
    ensures r.tasks == s.tasks && r.transactions == s.transactions
    ensures r.queue == s.queue && r.pending == s.pending
  {
    if name == "" then s
    else s.(players := s.players + [Player(|s.players| + 1, name)])
  }

  /** Adding a task or a player keeps the store well formed: the new id is
      the next position, and nothing that refers to older rows moves. */
  lemma AddPreservesWellFormed(s: State, desc: string, points: int, name: string)
    requires WellFormed(s)
    requires MinPoints <= points <= MaxPoints
    ensures WellFormed(AddTask(s, desc, points))
    ensures WellFormed(AddPlayer(s, name))
  {
  }
}
