/**
  The submission lifecycle and the admin's review resolution as pure
  transitions over the store: submit a proof for verification, escalate a
  non-verified result to human review, and accept or reject a queued item.
 */
module Workflow {
  import opened Store
  import opened Verification

  /** What the user is told after pressing "Submit Challenge". */
  datatype Outcome =
    | MissingApiKey
    | Completed(explanation: string, confidence: string, points: int)
    | NotVerified(explanation: string)

  datatype Submission = Submission(state: State, outcome: Outcome)

  /** The pending entry recorded for a selection and a parsed reply. */
  function PendingFor(s: State, playerName: string, taskIndex: nat, p: Parsed): (v: Pending)
    requires exists j :: 0 <= j < |s.players| && s.players[j].name == playerName
    requires taskIndex < |s.tasks|
    ensures exists k :: (0 <= k < |s.players| && s.players[k].name == playerName
      && v.playerId == s.players[k].playerId
      && forall j :: 0 <= j < k ==> s.players[j].name != playerName)
    ensures v.result == p && v.playerName == playerName
    ensures v.taskDesc == s.tasks[taskIndex].desc && v.taskId == s.tasks[taskIndex].taskId
    ensures v.taskPoints == s.tasks[taskIndex].points
  {
    var t := s.tasks[taskIndex];
    Pending(p, s.players[FirstMatch(s.players, (q: Player) => q.name == playerName)].playerId,
            playerName, t.desc, t.taskId, t.points)
  }

  /** "Submit Challenge" for the player chosen by name and the task at
      `taskIndex`.  Without an API key nothing changes.  Otherwise the reply
      is parsed and remembered as the pending verification; a verified
      status also records one transaction worth the task's points. */
  function Submit(s: State, apiKeyPresent: bool, playerName: string, taskIndex: nat,
                  reply: Reply, now: Timestamp): (r: Submission)
    requires exists j :: 0 <= j < |s.players| && s.players[j].name == playerName
    requires taskIndex < |s.tasks|
    ensures !apiKeyPresent ==> r == Submission(s, MissingApiKey)
    ensures apiKeyPresent ==>
      && r.state.tasks == s.tasks && r.state.players == s.players
      && r.state.queue == s.queue
      && r.state.pending.Some?
      && r.state.pending.value.result == Parse(RawResult(reply))
    ensures apiKeyPresent ==>
      r.state.pending == Some(PendingFor(s, playerName, taskIndex, Parse(RawResult(reply))))
    ensures apiKeyPresent && IsVerified(Parse(RawResult(reply)).status) ==>
      var v := r.state.pending.value;
      var t := s.tasks[taskIndex];
      && |r.state.transactions| == |s.transactions| + 1
      && r.state.transactions[..|s.transactions|] == s.transactions
      && r.state.transactions[|s.transactions|]
         == Transaction(SubmitKey(|s.transactions|, v.playerId, t.taskId),
                        v.playerId, t.taskId, now, t.points)
      && r.outcome == Completed(v.result.explanation, v.result.confidence, t.points)
    ensures apiKeyPresent && !IsVerified(Parse(RawResult(reply)).status) ==>
      && r.state.transactions == s.transactions
      && r.outcome == NotVerified(Parse(RawResult(reply)).explanation)
  {
    if !apiKeyPresent then Submission(s, MissingApiKey)
    else
      var p := Parse(RawResult(reply));
      var v := PendingFor(s, playerName, taskIndex, p);
      var s1 := s.(pending := Some(v));
      if IsVerified(p.status) then
        var tx := Transaction(SubmitKey(|s.transactions|, v.playerId, v.taskId),
                              v.playerId, v.taskId, now, v.taskPoints);
        Submission(s1.(transactions := s.transactions + [tx]),
                   Completed(p.explanation, p.confidence, v.taskPoints))
      else
        Submission(s1, NotVerified(p.explanation))
  }

  /** "Submit for Human Review": offered only while a pending verification
      exists whose status is not verified.  It queues one item copied from
      the pending entry and clears it, so it cannot be pressed twice. */
  function Escalate(s: State, now: Timestamp): (r: Option<State>)
    ensures r.Some? <==> s.pending.Some? && !IsVerified(s.pending.value.result.status)
    ensures r.Some? ==>
      var v := s.pending.value;
      && r.value.queue == s.queue + [ReviewItem(v.playerId, v.playerName, v.taskDesc,
                                                v.result.explanation, now)]
      && r.value.pending == None
      && r.value.transactions == s.transactions
      && r.value.tasks == s.tasks && r.value.players == s.players
  {
    match s.pending
    case None => None
    case Some(v) =>
      if CanEscalate(v.result.status) then
        var item := ReviewItem(v.playerId, v.playerName, v.taskDesc, v.result.explanation, now);
        Some(s.(queue := s.queue + [item], pending := None))
      else None
  }

  /** Removes the item at position `i`, keeping the others in order. */
  function RemoveAt<T>(xs: seq<T>, i: nat): (r: seq<T>)
    requires i < |xs|
    ensures |r| == |xs| - 1
    ensures forall k :: 0 <= k < i ==> r[k] == xs[k]
    ensures forall k :: i <= k < |r| ==> r[k] == xs[k + 1]
  {
    xs[..i] + xs[i + 1..]
  }

  /** Some task carries the item's description; the admin's Accept looks
      the task up by that text and fails without one. */
  predicate HasMatchingTask(s: State, i: nat)
    requires i < |s.queue|
  {
    exists j :: 0 <= j < |s.tasks| && s.tasks[j].desc == s.queue[i].taskDesc
  }

  /** Admin "Accept": records a transaction for the item's player worth the
      points of the first task with the item's description, then removes
      the item from the queue. */
  function Accept(s: State, i: nat, now: Timestamp): (r: State)
    requires i < |s.queue|
    requires HasMatchingTask(s, i)
    ensures |r.queue| == |s.queue| - 1
    ensures r.queue == RemoveAt(s.queue, i)
    ensures |r.transactions| == |s.transactions| + 1
    ensures r.transactions[..|s.transactions|] == s.transactions
    ensures var item, tx := s.queue[i], r.transactions[|s.transactions|];
      && tx.pk == AcceptKey(|s.transactions|, item.playerId)
      && tx.playerId == item.playerId
      && tx.timestamp == now
      && exists j :: 0 <= j < |s.tasks| && s.tasks[j].desc == item.taskDesc
           && (forall k :: 0 <= k < j ==> s.tasks[k].desc != item.taskDesc)
           && tx.taskId == s.tasks[j].taskId && tx.pointsEarned == s.tasks[j].points
    ensures r.tasks == s.tasks && r.players == s.players && r.pending == s.pending
  {
    var item := s.queue[i];
    var t := s.tasks[FirstMatch(s.tasks, (t: Task) => t.desc == item.taskDesc)];
    var tx := Transaction(AcceptKey(|s.transactions|, item.playerId),
                          item.playerId, t.taskId, now, t.points);
    s.(transactions := s.transactions + [tx], queue := RemoveAt(s.queue, i))
  }

  /** Admin "Reject": removes the item and nothing else. */
  function Reject(s: State, i: nat): (r: State)
    requires i < |s.queue|
    ensures |r.queue| == |s.queue| - 1
    ensures forall k :: 0 <= k < |r.queue| ==>
      r.queue[k] == (if k < i then s.queue[k] else s.queue[k + 1])
    ensures r.transactions == s.transactions
    ensures r.tasks == s.tasks && r.players == s.players && r.pending == s.pending
  {
    s.(queue := RemoveAt(s.queue, i))
  }

  /** Escalation is single use: once it has succeeded, a second attempt
      without a new submission is refused, so the queue grows by one item
      at most. */
  lemma EscalateOnce(s: State, now: Timestamp, later: Timestamp)
    requires Escalate(s, now).Some?
    ensures Escalate(Escalate(s, now).value, later) == None
    ensures |Escalate(s, now).value.queue| == |s.queue| + 1
  {
  }

  /** A submission that is not verified, followed by escalation, appends one
      review item whose reason is the explanation and no transaction. */
  lemma SubmitThenEscalate(s: State, playerName: string, taskIndex: nat,
                           reply: Reply, now: Timestamp, later: Timestamp)
    requires exists j :: 0 <= j < |s.players| && s.players[j].name == playerName
    requires taskIndex < |s.tasks|
    requires !IsVerified(Parse(RawResult(reply)).status)
    ensures var s1 := Submit(s, true, playerName, taskIndex, reply, now).state;
      && Escalate(s1, later).Some?
      && Escalate(s1, later).value.transactions == s.transactions
      && |Escalate(s1, later).value.queue| == |s.queue| + 1
      && Escalate(s1, later).value.queue[|s.queue|].reason
         == Parse(RawResult(reply)).explanation
      && Escalate(s1, later).value.queue[|s.queue|].taskDesc == s.tasks[taskIndex].desc
      && Escalate(s1, later).value.queue[|s.queue|].playerName == playerName
  {
  }

  /** A verified submission leaves nothing to escalate. */
  lemma VerifiedNotEscalable(s: State, playerName: string, taskIndex: nat,
                             reply: Reply, now: Timestamp, later: Timestamp)
    requires exists j :: 0 <= j < |s.players| && s.players[j].name == playerName
    requires taskIndex < |s.tasks|
    requires IsVerified(Parse(RawResult(reply)).status)
    ensures Escalate(Submit(s, true, playerName, taskIndex, reply, now).state, later) == None
  {
  }

  /** A failed remote call never awards points: the submission records no
      transaction and the result can be escalated. */
  lemma RaisedSubmissionEscalates(s: State, playerName: string, taskIndex: nat,
                                  message: string, now: Timestamp, later: Timestamp)
    requires exists j :: 0 <= j < |s.players| && s.players[j].name == playerName
    requires taskIndex < |s.tasks|
    ensures var r := Submit(s, true, playerName, taskIndex, Raised(message), now);
      && r.state.transactions == s.transactions
      && r.outcome.NotVerified?
      && Escalate(r.state, later).Some?
  {
    RaisedIsNeverVerified(message);
  }

  /** Every transition keeps the store well formed. */
  lemma SubmitPreservesWellFormed(s: State, apiKeyPresent: bool, playerName: string,
                                  taskIndex: nat, reply: Reply, now: Timestamp)
    requires WellFormed(s)
    requires exists j :: 0 <= j < |s.players| && s.players[j].name == playerName
    requires taskIndex < |s.tasks|
    ensures WellFormed(Submit(s, apiKeyPresent, playerName, taskIndex, reply, now).state)
  {
    if apiKeyPresent {
      var p := Parse(RawResult(reply));
      var v := PendingFor(s, playerName, taskIndex, p);
      var k := FirstMatch(s.players, (q: Player) => q.name == playerName);
      assert v.playerId == k + 1;
      SetPendingWellFormed(s, v);
      var s1 := s.(pending := Some(v));
      if IsVerified(p.status) {
        var tx := Transaction(SubmitKey(|s.transactions|, v.playerId, v.taskId),
                              v.playerId, v.taskId, now, v.taskPoints);
        AppendWellFormed(s1, tx);
        assert Submit(s, apiKeyPresent, playerName, taskIndex, reply, now).state
            == s1.(transactions := s1.transactions + [tx]);
      } else {
        assert Submit(s, apiKeyPresent, playerName, taskIndex, reply, now).state == s1;
      }
    }
  }

  lemma SetPendingWellFormed(s: State, v: Pending)
    requires WellFormed(s)
    requires 1 <= v.playerId <= |s.players| && 1 <= v.taskId <= |s.tasks|
    requires s.tasks[v.taskId - 1].points == v.taskPoints
    ensures WellFormed(s.(pending := Some(v)))
  {
  }

  lemma AppendWellFormed(s: State, tx: Transaction)
    requires WellFormed(s)
    requires 1 <= tx.playerId <= |s.players| && 1 <= tx.taskId <= |s.tasks|
    ensures WellFormed(s.(transactions := s.transactions + [tx]))
  {
    var r := s.(transactions := s.transactions + [tx]);
    forall j | 0 <= j < |r.transactions|
      ensures 1 <= r.transactions[j].playerId <= |r.players|
      ensures 1 <= r.transactions[j].taskId <= |r.tasks|
    {
      if j < |s.transactions| {
        assert r.transactions[j] == s.transactions[j];
      }
    }
  }

  lemma EscalatePreservesWellFormed(s: State, now: Timestamp)
    requires WellFormed(s)
    ensures Escalate(s, now).Some? ==> WellFormed(Escalate(s, now).value)
  {
    if Escalate(s, now).Some? {
      var r := Escalate(s, now).value;
      forall j | 0 <= j < |r.queue|
        ensures 1 <= r.queue[j].playerId <= |r.players|
      {
        if j < |s.queue| {
          assert r.queue[j] == s.queue[j];
        }
      }
    }
  }

  lemma RemoveWellFormed(s: State, i: nat)
    requires WellFormed(s)
    requires i < |s.queue|
    ensures WellFormed(s.(queue := RemoveAt(s.queue, i)))
  {
    var q := RemoveAt(s.queue, i);
    forall j | 0 <= j < |q|
      ensures 1 <= q[j].playerId <= |s.players|
    {
      assert q[j] == s.queue[if j < i then j else j + 1];
    }
  }

  lemma RejectPreservesWellFormed(s: State, i: nat)
    requires WellFormed(s)
    requires i < |s.queue|
    ensures WellFormed(Reject(s, i))
  {
    RemoveWellFormed(s, i);
  }

  lemma AcceptPreservesWellFormed(s: State, i: nat, now: Timestamp)
    requires WellFormed(s)
    requires i < |s.queue| && HasMatchingTask(s, i)
    ensures WellFormed(Accept(s, i, now))
  {
    var k := FirstMatch(s.tasks, (t: Task) => t.desc == s.queue[i].taskDesc);
    var item := s.queue[i];
    var t := s.tasks[k];
    var tx := Transaction(AcceptKey(|s.transactions|, item.playerId),
                          item.playerId, t.taskId, now, t.points);
    AppendWellFormed(s, tx);
    var s1 := s.(transactions := s.transactions + [tx]);
    RemoveWellFormed(s1, i);
    assert Accept(s, i, now) == s1.(queue := RemoveAt(s1.queue, i));
  }

  /** Appending a transaction that awards its task's points keeps the
      awards consistent. */
  lemma AppendAwardsMatch(s: State, r: State, from: nat, tx: Transaction)
    requires AwardsMatchFrom(s, from)
    requires r.tasks == s.tasks && r.transactions == s.transactions + [tx]
    requires 1 <= tx.taskId <= |s.tasks| && tx.pointsEarned == s.tasks[tx.taskId - 1].points
    ensures AwardsMatchFrom(r, from)
  {
    forall j | from <= j < |r.transactions|
      ensures 1 <= r.transactions[j].taskId <= |r.tasks|
      ensures r.transactions[j].pointsEarned == r.tasks[r.transactions[j].taskId - 1].points
    {
      if j < |s.transactions| {
        assert r.transactions[j] == s.transactions[j];
      }
    }
  }

  /** Transactions recorded by the workflow award exactly the points of the
      task they name; rows already in the table are left as they were. */
  lemma SubmitAwardsMatch(s: State, from: nat, apiKeyPresent: bool, playerName: string,
                          taskIndex: nat, reply: Reply, now: Timestamp)
    requires WellFormed(s) && AwardsMatchFrom(s, from)
    requires exists j :: 0 <= j < |s.players| && s.players[j].name == playerName
    requires taskIndex < |s.tasks|
    ensures AwardsMatchFrom(Submit(s, apiKeyPresent, playerName, taskIndex, reply, now).state, from)
  {
    if apiKeyPresent {
      var p := Parse(RawResult(reply));
      var v := PendingFor(s, playerName, taskIndex, p);
      var s1 := s.(pending := Some(v));
      if IsVerified(p.status) {
        var tx := Transaction(SubmitKey(|s.transactions|, v.playerId, v.taskId),
                              v.playerId, v.taskId, now, v.taskPoints);
        var r := s1.(transactions := s1.transactions + [tx]);
        assert tx.taskId == taskIndex + 1;
        AppendAwardsMatch(s, r, from, tx);
        assert Submit(s, apiKeyPresent, playerName, taskIndex, reply, now).state == r;
      } else {
        assert Submit(s, apiKeyPresent, playerName, taskIndex, reply, now).state == s1;
      }
    }
  }

  lemma AcceptAwardsMatch(s: State, from: nat, i: nat, now: Timestamp)
    requires WellFormed(s) && AwardsMatchFrom(s, from)
    requires i < |s.queue| && HasMatchingTask(s, i)
    ensures AwardsMatchFrom(Accept(s, i, now), from)
  {
    var r := Accept(s, i, now);
    var tx := r.transactions[|s.transactions|];
    var j :| 0 <= j < |s.tasks| && s.tasks[j].desc == s.queue[i].taskDesc
         && tx.taskId == s.tasks[j].taskId && tx.pointsEarned == s.tasks[j].points;
    assert s.tasks[tx.taskId - 1] == s.tasks[j];
    assert r.transactions == s.transactions + [tx];
    AppendAwardsMatch(s, r, from, tx);
  }
}
