// The one-time team e-mail about a sale (sendBookingProfitNotification in
// src/server/booking-notification.ts), for one booking and one kind of notification.
//
// The claim is the log row itself: a call inserts it as SENT before it sends, a partial
// unique index allows one SENT row, and a call that fails downgrades its row. Calls run
// concurrently; each access to the table or to the mail provider is one step.
module BookingNotification {
  import opened Text

  /**
   * A log row with the messages sent under it that the provider has accepted: `delivered` for one that was reported to
   * the call as sent, `unreported` for those the call was told had failed.
   */
  datatype Row = Row(sent: bool, delivered: bool, unreported: nat)

  datatype Outcome = Delivered | AlreadySent | NotDelivered | Killed

  datatype Call =
    | Waiting
    | Sending(row: nat)    // holds a claim, somewhere before the final update
    | Catching(row: nat)   // something threw; the claim is about to be downgraded
    | Released(row: nat)   // the same, but the row has been set to FAILED already
    | Done(outcome: Outcome)

  datatype State = State(rows: seq<Row>, calls: seq<Call>)

  datatype Step =
    | Arrive                                  // a new call
    | Claim(c: nat)                           // the insert goes through, or hits the unique index
    | ClaimFails(c: nat)                      // any other database error
    | ClaimUnanswered(c: nat)                 // the row is stored but the call sees an error
    | Refused(c: nat)                         // a candidate is skipped, or the provider refuses
    | Accepted(c: nat)                        // the provider takes the message and says so
    | SendUnanswered(c: nat)                  // the provider takes the message but its answer is lost
    | Finalise(c: nat)                        // the final update goes through
    | FailUnanswered(c: nat)                  // a final update to FAILED goes through but its answer is lost
    | Throw(c: nat)                           // anything in the try block throws, any other final update included
    | Downgrade(c: nat)                       // the update of the catch block goes through, answered or not
    | DowngradeFails(c: nat)
    | Kill(c: nat)                            // the process ends

  predicate SlotTaken(s: State) {
    exists r :: 0 <= r < |s.rows| && s.rows[r].sent
  }

  predicate HoldsClaim(call: Call) {
    call.Sending? || call.Catching?
  }

  /** In the catch block, with or without the claim. */
  predicate InCatch(call: Call) {
    call.Catching? || call.Released?
  }

  predicate IsAtWork(call: Call) {
    HoldsClaim(call) || call.Released?
  }

  /** The call is trying its senders, none of whom has reported success. */
  predicate MaySend(s: State, c: nat) {
    c < |s.calls| && s.calls[c].Sending? && s.calls[c].row < |s.rows| && !s.rows[s.calls[c].row].delivered
  }

  predicate Enabled(s: State, step: Step) {
    match step
    case Arrive => true
    case Claim(c) => c < |s.calls| && s.calls[c].Waiting?
    case ClaimFails(c) => c < |s.calls| && s.calls[c].Waiting?
    case ClaimUnanswered(c) => c < |s.calls| && s.calls[c].Waiting? && !SlotTaken(s)
    case Refused(c) => MaySend(s, c)
    case Accepted(c) => MaySend(s, c)
    case SendUnanswered(c) => MaySend(s, c)
    case Finalise(c) => c < |s.calls| && s.calls[c].Sending? && s.calls[c].row < |s.rows|
    case FailUnanswered(c) => MaySend(s, c)
    case Throw(c) => c < |s.calls| && s.calls[c].Sending?
    case Downgrade(c) => c < |s.calls| && InCatch(s.calls[c]) && s.calls[c].row < |s.rows|
    case DowngradeFails(c) => c < |s.calls| && InCatch(s.calls[c])
    case Kill(c) => c < |s.calls| && IsAtWork(s.calls[c])
  }

  function WithCall(s: State, c: nat, call: Call): State
    requires c < |s.calls|
  {
    s.(calls := s.calls[c := call])
  }

  function Next(s: State, step: Step): State
    requires Enabled(s, step)
  {
    match step
    case Arrive => s.(calls := s.calls + [Waiting])
    case Claim(c) =>
      if SlotTaken(s) then WithCall(s, c, Done(AlreadySent))
      else WithCall(s, c, Sending(|s.rows|)).(rows := s.rows + [Row(true, false, 0)])
    case ClaimFails(c) => WithCall(s, c, Done(NotDelivered))
    case ClaimUnanswered(c) => WithCall(s, c, Done(NotDelivered)).(rows := s.rows + [Row(true, false, 0)])
    case Refused(c) => s
    case Accepted(c) =>
      var r := s.calls[c].row;
      s.(rows := s.rows[r := s.rows[r].(delivered := true)])
    case SendUnanswered(c) =>
      var r := s.calls[c].row;
      s.(rows := s.rows[r := s.rows[r].(unreported := s.rows[r].unreported + 1)])
    case Finalise(c) =>
      var r := s.calls[c].row;
      var ok := s.rows[r].delivered;
      WithCall(s, c, Done(if ok then Delivered else NotDelivered)).(rows := s.rows[r := s.rows[r].(sent := ok)])
    case FailUnanswered(c) =>
      var r := s.calls[c].row;
      WithCall(s, c, Released(r)).(rows := s.rows[r := s.rows[r].(sent := false)])
    case Throw(c) => WithCall(s, c, Catching(s.calls[c].row))
    case Downgrade(c) =>
      var r := s.calls[c].row;
      WithCall(s, c, Done(NotDelivered)).(rows := s.rows[r := s.rows[r].(sent := false)])
    case DowngradeFails(c) => WithCall(s, c, Done(NotDelivered))
    case Kill(c) => WithCall(s, c, Done(Killed))
  }

  ghost predicate IsRun(states: seq<State>, steps: seq<Step>) {
    && |states| == |steps| + 1
    && forall i :: 0 <= i < |steps| ==> Enabled(states[i], steps[i]) && states[i + 1] == Next(states[i], steps[i])
  }

  ghost predicate Reaches(s: State, steps: seq<Step>, s': State)
    decreases |steps|
  {
    if steps == [] then s == s'
    else Enabled(s, steps[0]) && Reaches(Next(s, steps[0]), steps[1..], s')
  }

  lemma {:induction false} ReachesOneMore(s: State, steps: seq<Step>, s': State, step: Step)
    requires Reaches(s, steps, s') && Enabled(s', step)
    ensures Reaches(s, steps + [step], Next(s', step))
    decreases |steps|
  {
    if steps == [] {
      assert (steps + [step])[1..] == [];
    } else {
      ReachesOneMore(Next(s, steps[0]), steps[1..], s', step);
      assert (steps + [step])[1..] == steps[1..] + [step];
    }
  }

  // ---- the invariant -------------------------------------------------------------------

  ghost predicate OneSentRow(s: State) {
    forall q, r :: 0 <= q < |s.rows| && 0 <= r < |s.rows| && s.rows[q].sent && s.rows[r].sent ==> q == r
  }

  ghost predicate SlotDelivered(s: State) {
    exists r :: 0 <= r < |s.rows| && IsBehind(s.rows[r])
  }

  /** A SENT row with the message it was written for. */
  predicate IsBehind(row: Row) {
    row.sent && row.delivered
  }

  /**
   * A call that holds a claim has a SENT row, one that has released it a FAILED one without a reported message; one
   * that reported success left its message behind a SENT row.
   */
  ghost predicate CallOk(s: State, c: nat)
    requires c < |s.calls|
  {
    var call := s.calls[c];
    && (HoldsClaim(call) ==> call.row < |s.rows| && s.rows[call.row].sent)
    && (call.Released? ==> call.row < |s.rows| && !s.rows[call.row].sent && !s.rows[call.row].delivered)
    && (call == Done(Delivered) ==> SlotDelivered(s))
  }

  /** Two calls never hold claims at once, and none holds one after another reported success. */
  ghost predicate PairOk(s: State, b: nat, c: nat)
    requires b < |s.calls| && c < |s.calls|
  {
    b != c && HoldsClaim(s.calls[b]) ==> !HoldsClaim(s.calls[c]) && s.calls[c] != Done(Delivered)
  }

  ghost predicate Inv(s: State) {
    && OneSentRow(s)
    && (forall c: nat :: c < |s.calls| ==> CallOk(s, c))
    && (forall b: nat, c: nat :: b < |s.calls| && c < |s.calls| ==> PairOk(s, b, c))
  }

  /** While a call holds a claim or has reported success, the slot is taken. */
  lemma ClaimTakesSlot(s: State, c: nat)
    requires Inv(s) && c < |s.calls| && (HoldsClaim(s.calls[c]) || s.calls[c] == Done(Delivered))
    ensures SlotTaken(s)
  {
    assert CallOk(s, c);
  }

  lemma ArriveOrClaimInv(s: State, step: Step)
    requires Inv(s) && Enabled(s, step)
    requires step.Arrive? || step.Claim? || step.ClaimFails? || step.ClaimUnanswered?
    ensures Inv(Next(s, step))
  {
    var s' := Next(s, step);
    assert SlotDelivered(s) ==> SlotDelivered(s') by {
      if r :| 0 <= r < |s.rows| && IsBehind(s.rows[r]) {
        assert IsBehind(s'.rows[r]);
      }
    }
    forall c: nat | c < |s'.calls| ensures CallOk(s', c) {
      if c < |s.calls| {
        assert CallOk(s, c);
      }
    }
    forall b: nat, c: nat | b < |s'.calls| && c < |s'.calls| ensures PairOk(s', b, c) {
      if b < |s.calls| && c < |s.calls| {
        assert PairOk(s, b, c);
        if HoldsClaim(s.calls[b]) || s.calls[b] == Done(Delivered) {
          ClaimTakesSlot(s, b);
        }
        if HoldsClaim(s.calls[c]) || s.calls[c] == Done(Delivered) {
          ClaimTakesSlot(s, c);
        }
      }
    }
  }

  /** What a call does after it has released its claim changes no row. */
  lemma ReleasedKeepsRows(s: State, step: Step)
    requires Inv(s) && Enabled(s, step)
    requires !(step.Arrive? || step.Claim? || step.ClaimFails? || step.ClaimUnanswered?)
    requires s.calls[step.c].Released?
    ensures Next(s, step).rows == s.rows && !IsAtWork(Next(s, step).calls[step.c])
  {
    assert CallOk(s, step.c);
  }

  lemma ClaimedStepInv(s: State, step: Step)
    requires Inv(s) && Enabled(s, step)
    requires !(step.Arrive? || step.Claim? || step.ClaimFails? || step.ClaimUnanswered?)
    ensures Inv(Next(s, step))
  {
    var s' := Next(s, step);
    var k := step.c;
    assert CallOk(s, k);
    var r := s.calls[k].row;
    if s.calls[k].Released? {
      ReleasedKeepsRows(s, step);
    }
    assert HoldsClaim(s.calls[k]) ==> forall q :: 0 <= q < |s.rows| && q != r ==> !s.rows[q].sent;
    if step.Finalise? && s.rows[r].delivered {
      assert IsBehind(s'.rows[r]);
    }
    forall c: nat | c < |s'.calls| ensures CallOk(s', c) {
      assert CallOk(s, c) && PairOk(s, k, c);
    }
    forall b: nat, c: nat | b < |s'.calls| && c < |s'.calls| ensures PairOk(s', b, c) {
      assert PairOk(s, b, c) && PairOk(s, k, b);
    }
  }

  lemma StepInv(s: State, step: Step)
    requires Inv(s) && Enabled(s, step)
    ensures Inv(Next(s, step))
  {
    if step.Arrive? || step.Claim? || step.ClaimFails? || step.ClaimUnanswered? {
      ArriveOrClaimInv(s, step);
    } else {
      ClaimedStepInv(s, step);
    }
  }

  lemma {:induction false} RunInv(states: seq<State>, steps: seq<Step>, i: nat)
    requires IsRun(states, steps) && Inv(states[0]) && i < |states|
    ensures Inv(states[i])
  {
    if i > 0 {
      RunInv(states, steps, i - 1);
      StepInv(states[i - 1], steps[i - 1]);
    }
  }

  // ---- accounting ----------------------------------------------------------------------------

  /** Messages the provider has accepted under a row. */
  function Messages(row: Row): nat {
    row.unreported + (if row.delivered then 1 else 0)
  }

  function MessageCount(rows: seq<Row>): nat {
    if rows == [] then 0 else MessageCount(rows[..|rows| - 1]) + Messages(rows[|rows| - 1])
  }

  /** Messages accepted whose call was told they had failed. */
  function UnreportedCount(rows: seq<Row>): nat {
    if rows == [] then 0 else UnreportedCount(rows[..|rows| - 1]) + rows[|rows| - 1].unreported
  }

  /** Messages reported as sent under a claim that was downgraded all the same. */
  function LostCount(rows: seq<Row>): nat {
    if rows == [] then 0
    else LostCount(rows[..|rows| - 1]) + (if IsLost(rows[|rows| - 1]) then 1 else 0)
  }

  predicate IsLost(row: Row) {
    row.delivered && !row.sent
  }

  /**
   * The messages sent are the unreported ones, the ones lost track of, and the one behind the SENT row if there is one.
   */
  lemma {:induction false} DeliveriesAccounted(rows: seq<Row>)
    requires OneSentRow(State(rows, []))
    ensures MessageCount(rows) == UnreportedCount(rows) + LostCount(rows)
            + (if SlotDelivered(State(rows, [])) then 1 else 0)
  {
    if rows != [] {
      var n := |rows| - 1;
      assert forall r :: 0 <= r < n ==> rows[..n][r] == rows[r];
      DeliveriesAccounted(rows[..n]);
      if r :| 0 <= r < n && IsBehind(rows[r]) {
        assert IsBehind(rows[..n][r]);
        assert !rows[n].sent;
      }
    }
  }

  // ---- whole runs -----------------------------------------------------------------------------

  const EMPTY := State([], [])

  /**
   * Whatever fails, at most one call is between its claim and the update that ends it, and none is once another has
   * reported success.
   */
  lemma OneCallSends(states: seq<State>, steps: seq<Step>, i: nat, b: nat, c: nat)
    requires IsRun(states, steps) && states[0] == EMPTY && i < |states|
    requires b < |states[i].calls| && c < |states[i].calls| && HoldsClaim(states[i].calls[b])
    ensures HoldsClaim(states[i].calls[c]) ==> b == c
    ensures states[i].calls[c] != Done(Delivered)
  {
    hide Enabled, Next;
    RunInv(states, steps, i);
    assert PairOk(states[i], b, c);
  }

  /** The downgrade of a row whose message had been reported as sent. */
  predicate IsLosing(s: State, step: Step) {
    step.Downgrade? && Enabled(s, step) && s.rows[s.calls[step.c].row].delivered
  }

  /** How many of the first `i` steps are such downgrades. */
  function LosingSteps(states: seq<State>, steps: seq<Step>, i: nat): nat
    requires i <= |steps| && i <= |states|
  {
    if i == 0 then 0 else LosingSteps(states, steps, i - 1) + (if IsLosing(states[i - 1], steps[i - 1]) then 1 else 0)
  }

  /** How many of the first `i` steps are sends whose answer is lost. */
  function UnansweredSteps(steps: seq<Step>, i: nat): nat
    requires i <= |steps|
  {
    if i == 0 then 0 else UnansweredSteps(steps, i - 1) + (if steps[i - 1].SendUnanswered? then 1 else 0)
  }

  lemma {:induction false} CountsOfUpdate(rows: seq<Row>, r: nat, row: Row)
    requires r < |rows|
    ensures LostCount(rows[r := row]) == LostCount(rows) - (if IsLost(rows[r]) then 1 else 0)
            + (if IsLost(row) then 1 else 0)
    ensures UnreportedCount(rows[r := row]) == UnreportedCount(rows) - rows[r].unreported + row.unreported
  {
    var n := |rows| - 1;
    if r < n {
      CountsOfUpdate(rows[..n], r, row);
      assert rows[r := row][..n] == rows[..n][r := row];
    } else {
      assert rows[r := row][..n] == rows[..n];
    }
  }

  lemma CountsOfAppend(rows: seq<Row>, row: Row)
    ensures LostCount(rows + [row]) == LostCount(rows) + (if IsLost(row) then 1 else 0)
    ensures UnreportedCount(rows + [row]) == UnreportedCount(rows) + row.unreported
  {
    assert (rows + [row])[..|rows|] == rows;
  }

  /** Only these two kinds of step change the two counts, each by one. */
  lemma StepCounts(s: State, step: Step)
    requires Inv(s) && Enabled(s, step)
    ensures LostCount(Next(s, step).rows) == LostCount(s.rows) + (if IsLosing(s, step) then 1 else 0)
    ensures UnreportedCount(Next(s, step).rows) == UnreportedCount(s.rows) + (if step.SendUnanswered? then 1 else 0)
  {
    hide LostCount, UnreportedCount;
    var rows' := Next(s, step).rows;
    if step.Claim? || step.ClaimUnanswered? {
      CountsOfAppend(s.rows, Row(true, false, 0));
    } else if step.Accepted? || step.SendUnanswered? || step.Finalise? || step.FailUnanswered?
              || step.Downgrade? {
      assert CallOk(s, step.c);
      var r := s.calls[step.c].row;
      CountsOfUpdate(s.rows, r, rows'[r]);
      assert rows' == s.rows[r := rows'[r]];
    }
  }

  lemma {:induction false} RunCounts(states: seq<State>, steps: seq<Step>, i: nat)
    requires IsRun(states, steps) && states[0] == EMPTY && i < |states|
    ensures LostCount(states[i].rows) == LosingSteps(states, steps, i)
    ensures UnreportedCount(states[i].rows) == UnansweredSteps(steps, i)
  {
    hide Enabled, Next, Inv, IsLosing;
    if i > 0 {
      RunCounts(states, steps, i - 1);
      RunInv(states, steps, i - 1);
      StepCounts(states[i - 1], steps[i - 1]);
    }
  }

  /**
   * The account of every state of every run: the messages sent are one for each send whose answer was lost, one for
   * each downgrade of a row with a reported message, and the one behind the SENT row. So at most one message has gone
   * out if and only if these come to at most one.
   */
  lemma MessagesAccounted(states: seq<State>, steps: seq<Step>, i: nat)
    requires IsRun(states, steps) && states[0] == EMPTY && i < |states|
    ensures var extra := UnansweredSteps(steps, i) + LosingSteps(states, steps, i);
            && MessageCount(states[i].rows) == extra + (if SlotDelivered(states[i]) then 1 else 0)
            && (MessageCount(states[i].rows) <= 1 <==> extra == 0 || (extra == 1 && !SlotDelivered(states[i])))
  {
    hide Enabled, Next, LostCount, UnreportedCount, MessageCount;
    RunInv(states, steps, i);
    RunCounts(states, steps, i);
    DeliveriesAccounted(states[i].rows);
  }

  lemma NobodyElseSends(s: State, c: nat, b: nat)
    requires Inv(s) && c < |s.calls| && b < |s.calls| && s.calls[c] == Done(Delivered)
    ensures !HoldsClaim(s.calls[b]) && SlotTaken(s)
  {
    ClaimTakesSlot(s, c);
    assert PairOk(s, b, c);
  }

  lemma SuccessKept(s: State, step: Step, c: nat)
    requires Inv(s) && Enabled(s, step) && c < |s.calls| && s.calls[c] == Done(Delivered)
    ensures Next(s, step).rows == s.rows && c < |Next(s, step).calls| && Next(s, step).calls[c] == Done(Delivered)
  {
    NobodyElseSends(s, c, if step.Arrive? then c else step.c);
    if !step.Arrive? && s.calls[step.c].Released? {
      ReleasedKeepsRows(s, step);
    }
  }

  /** Once a call has reported that its message went out, no later call sends one. */
  lemma {:induction false} SuccessIsFinal(states: seq<State>, steps: seq<Step>, i: nat, j: nat, c: nat)
    requires IsRun(states, steps) && states[0] == EMPTY && i <= j < |states|
    requires c < |states[i].calls| && states[i].calls[c] == Done(Delivered)
    ensures states[j].rows == states[i].rows && c < |states[j].calls| && states[j].calls[c] == Done(Delivered)
  {
    if i < j {
      SuccessIsFinal(states, steps, i, j - 1, c);
      RunInv(states, steps, j - 1);
      SuccessKept(states[j - 1], steps[j - 1], c);
    }
  }

  /** A call that fails and whose update of its claim goes through leaves the slot open for the next. */
  lemma FailureReopensSlot(s: State, step: Step)
    requires Inv(s) && Enabled(s, step)
    requires || (step.Downgrade? && s.calls[step.c].Catching?) || step.FailUnanswered?
             || (step.Finalise? && !s.rows[s.calls[step.c].row].delivered)
    ensures !SlotTaken(Next(s, step))
  {
    assert CallOk(s, step.c);
  }

  /** An exception after a message was reported as sent: only the final update is left to throw it. */
  predicate IsLostFinalise(s: State, step: Step) {
    step.Throw? && Enabled(s, step) && s.calls[step.c].row < |s.rows| && s.rows[s.calls[step.c].row].delivered
  }

  /** A call in its catch block has no reported message, unless its final update failed. */
  ghost predicate CatchesNothing(s: State) {
    forall c: nat :: c < |s.calls| && s.calls[c].Catching? ==>
      s.calls[c].row < |s.rows|
      && !s.rows[s.calls[c].row].delivered
  }

  lemma CatchStep(s: State, step: Step)
    requires Inv(s) && CatchesNothing(s) && Enabled(s, step) && !IsLostFinalise(s, step)
    ensures CatchesNothing(Next(s, step)) && !IsLosing(s, step)
  {
    var s' := Next(s, step);
    assert step.Downgrade? ==> CallOk(s, step.c);
    forall c: nat | c < |s'.calls| && s'.calls[c].Catching?
      ensures s'.calls[c].row < |s'.rows| && !s'.rows[s'.calls[c].row].delivered
    {
      if c < |s.calls| && !step.Arrive? {
        assert PairOk(s, step.c, c);
        assert CallOk(s, c);
      }
    }
  }

  lemma {:induction false} NothingLosing(states: seq<State>, steps: seq<Step>, i: nat)
    requires IsRun(states, steps) && states[0] == EMPTY && i < |states|
    requires forall k :: 0 <= k < i ==> !IsLostFinalise(states[k], steps[k]) && !steps[k].SendUnanswered?
    ensures CatchesNothing(states[i]) && LosingSteps(states, steps, i) == 0 && UnansweredSteps(steps, i) == 0
  {
    hide Enabled, Next, Inv, CatchesNothing, IsLosing, IsLostFinalise;
    if i > 0 {
      NothingLosing(states, steps, i - 1);
      RunInv(states, steps, i - 1);
      CatchStep(states[i - 1], steps[i - 1]);
    } else {
      NothingCaught();
    }
  }

  lemma NothingCaught()
    ensures CatchesNothing(EMPTY)
  {
  }

  /**
   * If every send is answered, and no final update fails after a message was reported, at most one message goes out,
   * whatever else fails.
   */
  lemma AtMostOneMessage(states: seq<State>, steps: seq<Step>, i: nat)
    requires IsRun(states, steps) && states[0] == EMPTY && i < |states|
    requires forall k :: 0 <= k < i ==> !IsLostFinalise(states[k], steps[k]) && !steps[k].SendUnanswered?
    ensures MessageCount(states[i].rows) <= 1
  {
    hide Enabled, Next, IsLostFinalise, MessageCount;
    NothingLosing(states, steps, i);
    MessagesAccounted(states, steps, i);
  }

  /** No call is between its claim and its end. */
  ghost predicate IsIdle(s: State) {
    forall c: nat :: c < |s.calls| ==> !IsAtWork(s.calls[c])
  }

  /** Every send and claim is answered, no downgrade or update of a reported message fails, and no process dies. */
  predicate IsClean(s: State, step: Step) {
    && !step.SendUnanswered? && !step.ClaimUnanswered? && !step.DowngradeFails? && !step.Kill?
    && !IsLostFinalise(s, step)
  }

  /** What clean steps keep: messages are only behind SENT rows, and a SENT row without a message is being worked on. */
  ghost predicate RowOk(s: State, r: nat)
    requires r < |s.rows|
  {
    && (s.rows[r].delivered ==> s.rows[r].sent)
    && s.rows[r].unreported == 0
    && (s.rows[r].sent && !s.rows[r].delivered ==> exists c :: 0 <= c < |s.calls| && HoldsRow(s.calls[c], r))
  }

  predicate HoldsRow(call: Call, r: nat) {
    HoldsClaim(call) && call.row == r
  }

  ghost predicate CleanInv(s: State) {
    && Inv(s)
    && (forall r: nat :: r < |s.rows| ==> RowOk(s, r))
    && (forall c: nat :: c < |s.calls| && s.calls[c].Catching? ==>
         s.calls[c].row < |s.rows|
         && !s.rows[s.calls[c].row].delivered)
  }

  lemma CleanStep(s: State, step: Step)
    requires CleanInv(s) && Enabled(s, step) && IsClean(s, step)
    ensures CleanInv(Next(s, step))
  {
    StepInv(s, step);
    var s' := Next(s, step);
    if !step.Arrive? {
      assert CallOk(s, step.c);
    }
    forall r: nat | r < |s'.rows| ensures RowOk(s', r) {
      if r < |s.rows| {
        assert RowOk(s, r);
        if s'.rows[r].sent && !s'.rows[r].delivered {
          var c :| 0 <= c < |s.calls| && HoldsRow(s.calls[c], r);
          if step.Arrive? || step.c != c {
            assert HoldsRow(s'.calls[c], r);
          } else {
            assert HoldsRow(s'.calls[step.c], r);
          }
        }
      } else {
        assert HoldsRow(s'.calls[step.c], r);
      }
    }
    forall c: nat | c < |s'.calls| && s'.calls[c].Catching?
      ensures s'.calls[c].row < |s'.rows| && !s'.rows[s'.calls[c].row].delivered
    {
      if c < |s.calls| && !step.Arrive? {
        assert PairOk(s, step.c, c);
        assert CallOk(s, c);
      }
    }
  }

  lemma {:induction false} CleanRun(states: seq<State>, steps: seq<Step>, i: nat)
    requires IsRun(states, steps) && states[0] == EMPTY && i < |states|
    requires forall k :: 0 <= k < |steps| ==> IsClean(states[k], steps[k])
    ensures CleanInv(states[i])
  {
    if i > 0 {
      CleanRun(states, steps, i - 1);
      CleanStep(states[i - 1], steps[i - 1]);
    }
  }

  /**
   * If moreover every claim is answered, no downgrade fails and no process dies holding a claim, the row says SENT at
   * rest exactly if a message went out.
   */
  lemma SentMeansDelivered(states: seq<State>, steps: seq<Step>, i: nat)
    requires IsRun(states, steps) && states[0] == EMPTY && i < |states|
    requires forall k :: 0 <= k < |steps| ==> IsClean(states[k], steps[k])
    requires IsIdle(states[i])
    ensures SlotTaken(states[i]) <==> MessageCount(states[i].rows) == 1
  {
    hide Enabled, Next, MessageCount;
    CleanRun(states, steps, i);
    NothingLosing(states, steps, i);
    MessagesAccounted(states, steps, i);
    var s := states[i];
    if r :| SlotTaken(s) && 0 <= r < |s.rows| && s.rows[r].sent {
      assert RowOk(s, r);
      assert IsBehind(s.rows[r]);
    }
  }

  lemma {:induction false} TakenSlotIsFinal(s: State, steps: seq<Step>, s': State)
    requires IsIdle(s) && SlotTaken(s) && Reaches(s, steps, s')
    ensures s'.rows == s.rows
    decreases |steps|
  {
    if steps != [] {
      TakenSlotIsFinal(Next(s, steps[0]), steps[1..], s');
    }
  }

  /** The state in which a new call has claimed the free slot and its message has been taken. */
  function WithOneMore(s: State): State {
    State(s.rows + [Row(true, true, 0)], s.calls + [Sending(|s.rows|)])
  }

  lemma FreeSlotSends(s: State)
    requires !SlotTaken(s)
    ensures var n := |s.calls|;
            && Enabled(s, Arrive) && Enabled(Next(s, Arrive), Claim(n))
            && Enabled(Next(Next(s, Arrive), Claim(n)), Accepted(n))
            && Next(Next(Next(s, Arrive), Claim(n)), Accepted(n)) == WithOneMore(s)
  {
    var n := |s.calls|;
    var s1 := Next(s, Arrive);
    assert SlotTaken(s1) == SlotTaken(s);
    assert Next(s1, Claim(n)) == State(s.rows + [Row(true, false, 0)], s.calls + [Sending(|s.rows|)]);
  }

  lemma OneMoreIsReached(s: State)
    requires !SlotTaken(s)
    ensures Reaches(s, [Arrive, Claim(|s.calls|), Accepted(|s.calls|)], WithOneMore(s))
  {
    hide Reaches, Enabled, Next;
    var n := |s.calls|;
    FreeSlotSends(s);
    ReachesSelf(s);
    ReachesOneMore(s, [], s, Arrive);
    ReachesOneMore(s, [] + [Arrive], Next(s, Arrive), Claim(n));
    ReachesOneMore(s, [] + [Arrive] + [Claim(n)], Next(Next(s, Arrive), Claim(n)), Accepted(n));
    assert [] + [Arrive] + [Claim(n)] + [Accepted(n)] == [Arrive, Claim(n), Accepted(n)];
  }

  lemma ReachesSelf(s: State)
    ensures Reaches(s, [], s)
  {
  }

  lemma OneMessageMore(rows: seq<Row>)
    ensures MessageCount(rows + [Row(true, true, 0)]) == MessageCount(rows) + 1
  {
    assert (rows + [Row(true, true, 0)])[..|rows|] == rows;
  }

  /** Between calls, whether another message can ever go out is exactly whether the slot is free. */
  lemma MoreMessagesIffFree(s: State)
    requires IsIdle(s)
    ensures (exists steps, s' :: Reaches(s, steps, s') && MessageCount(s'.rows) > MessageCount(s.rows)) <==>
            !SlotTaken(s)
  {
    hide MessageCount, Reaches;
    if SlotTaken(s) {
      forall steps, s' | Reaches(s, steps, s') ensures s'.rows == s.rows {
        TakenSlotIsFinal(s, steps, s');
      }
    } else {
      OneMoreIsReached(s);
      OneMessageMore(s.rows);
    }
  }

  /** A claim that is stored without the caller hearing of it blocks the slot for good: no message ever goes out. */
  lemma UnheardClaimBlocks(s: State, c: nat, steps: seq<Step>, s': State)
    requires IsIdle(s) && Enabled(s, ClaimUnanswered(c)) && Reaches(Next(s, ClaimUnanswered(c)), steps, s')
    ensures SlotTaken(s') && MessageCount(s'.rows) == MessageCount(s.rows)
  {
    hide Reaches;
    var taken := Next(s, ClaimUnanswered(c));
    assert taken.rows[|s.rows|].sent;
    TakenSlotIsFinal(taken, steps, s');
    assert taken.rows[..|s.rows|] == s.rows;
  }

  ghost predicate Leads(s: State, step: Step, s': State) {
    Enabled(s, step) && Next(s, step) == s'
  }

  // A run in which the final update of the first call fails after its message was accepted.
  const T1 := State([], [Waiting])
  const T2 := State([], [Waiting, Waiting])
  const T3 := State([Row(true, false, 0)], [Sending(0), Waiting])
  const T4 := State([Row(true, true, 0)], [Sending(0), Waiting])
  const T5 := State([Row(true, true, 0)], [Catching(0), Waiting])
  const T6 := State([Row(false, true, 0)], [Done(NotDelivered), Waiting])
  const T7 := State([Row(false, true, 0), Row(true, false, 0)], [Done(NotDelivered), Sending(1)])
  const T8 := State([Row(false, true, 0), Row(true, true, 0)], [Done(NotDelivered), Sending(1)])
  const T9 := State([Row(false, true, 0), Row(true, true, 0)], [Done(NotDelivered), Done(Delivered)])

  lemma FirstMessageIsLost()
    ensures Leads(EMPTY, Arrive, T1) && Leads(T1, Arrive, T2) && Leads(T2, Claim(0), T3) && Leads(T3, Accepted(0), T4)
    ensures Leads(T4, Throw(0), T5) && Leads(T5, Downgrade(0), T6) && IsLostFinalise(T4, Throw(0))
  {
  }

  lemma SecondMessageFollows()
    ensures Leads(T6, Claim(1), T7) && Leads(T7, Accepted(1), T8) && Leads(T8, Finalise(1), T9)
  {
  }

  lemma BothDelivered()
    ensures MessageCount(T9.rows) == 2
  {
    assert T9.rows[..1] == [Row(false, true, 0)];
    assert [Row(false, true, 0)][..0] == [];
  }

  /**
   * A failed final update after an accepted message is such a case: its downgrade reopens the slot, and the next call
   * sends another.
   */
  lemma TwoMessages(states: seq<State>, steps: seq<Step>)
    requires steps == [Arrive, Arrive, Claim(0), Accepted(0), Throw(0), Downgrade(0), Claim(1), Accepted(1),
                       Finalise(1)]
    requires states == [EMPTY, T1, T2, T3, T4, T5, T6, T7, T8, T9]
    ensures IsRun(states, steps) && IsLostFinalise(states[4], steps[4]) && IsLosing(states[5], steps[5])
    ensures MessageCount(states[9].rows) == 2
  {
    FirstMessageIsLost();
    SecondMessageFollows();
    BothDelivered();
    hide Enabled, Next, MessageCount;
    assert Leads(states[0], steps[0], states[1]) && Leads(states[1], steps[1], states[2])
           && Leads(states[2], steps[2], states[3]);
    assert Leads(states[3], steps[3], states[4]) && Leads(states[4], steps[4], states[5])
           && Leads(states[5], steps[5], states[6]);
    assert Leads(states[6], steps[6], states[7]) && Leads(states[7], steps[7], states[8])
           && Leads(states[8], steps[8], states[9]);
  }

  const V4 := State([Row(true, false, 1)], [Sending(0)])
  const V5 := State([Row(true, true, 1)], [Sending(0)])

  lemma OneCallSendsTwice()
    ensures Leads(EMPTY, Arrive, State([], [Waiting]))
            && Leads(State([], [Waiting]), Claim(0), State([Row(true, false, 0)], [Sending(0)]))
    ensures Leads(State([Row(true, false, 0)], [Sending(0)]), SendUnanswered(0), V4) && Leads(V4, Accepted(0), V5)
  {
  }

  /**
   * So is a send whose answer is lost: the loop takes it for a failure, and the next sender sends again, in the same
   * call.
   */
  lemma LostAnswerSendsTwice(states: seq<State>, steps: seq<Step>)
    requires steps == [Arrive, Claim(0), SendUnanswered(0), Accepted(0)]
    requires states == [EMPTY, State([], [Waiting]), State([Row(true, false, 0)], [Sending(0)]), V4, V5]
    ensures IsRun(states, steps) && MessageCount(states[4].rows) == 2
  {
    OneCallSendsTwice();
    assert V5.rows[..0] == [];
    assert MessageCount(V5.rows) == 2;
    hide Enabled, Next, MessageCount;
    assert Leads(states[0], steps[0], states[1]) && Leads(states[1], steps[1], states[2]);
    assert Leads(states[2], steps[2], states[3]) && Leads(states[3], steps[3], states[4]);
  }

  // ---- one call, in the program's own order ------------------------------------------------------

  datatype Account = Account(id: nat, email: string)

  /**
   * What comes of trying one sender: its mailbox is not connected; the provider takes the message, and says so or its
   * answer is lost; it refuses; or something throws.
   */
  datatype Attempt = NotConnected | Takes | TakesUnheard | Refuses | Breaks

  /** What becomes of a write: it goes through and says so, it fails, or it goes through but its answer is lost. */
  datatype Write = Answered | Fails | Unanswered

  /** Everything the call does not decide itself. */
  datatype Environment = Environment(
    claim: Write,
    recipients: Option<seq<Account>>,   // None if looking them up throws
    creator: Option<nat>,
    attempt: Account -> Attempt,
    finalUpdate: Write,
    downgradeFails: bool)

  function Without(accounts: seq<Account>, id: nat): seq<Account> {
    if accounts == [] then []
    else (if accounts[0].id == id then [] else [accounts[0]]) + Without(accounts[1..], id)
  }

  function FindById(accounts: seq<Account>, id: nat): (found: Option<Account>)
    ensures found.Some? ==> found.value.id == id
  {
    if accounts == [] then None
    else if accounts[0].id == id then Some(accounts[0]) else FindById(accounts[1..], id)
  }

  /** The quote's creator first, if active, then everyone else in order. */
  function SenderCandidates(creator: Option<nat>, recipients: seq<Account>): seq<Account> {
    var own := if creator.Some? then FindById(recipients, creator.value) else None;
    if own.Some? then [own.value] + Without(recipients, own.value.id) else recipients
  }

  ghost predicate DistinctIds(accounts: seq<Account>) {
    forall i, j :: 0 <= i < j < |accounts| ==> accounts[i].id != accounts[j].id
  }

  /** Nobody is dropped or tried twice, and an active creator is tried first. */
  lemma CandidatesAreRecipients(creator: Option<nat>, recipients: seq<Account>)
    requires DistinctIds(recipients)
    ensures multiset(SenderCandidates(creator, recipients)) == multiset(recipients)
    ensures forall a :: a in recipients && creator == Some(a.id) ==> SenderCandidates(creator, recipients)[0] == a
  {
    hide FindById, Without;
    if creator.Some? {
      FoundIsUnique(recipients, creator.value);
      var own := FindById(recipients, creator.value);
      if own.Some? {
        var rest := Without(recipients, own.value.id);
        assert multiset([own.value] + rest) == multiset{own.value} + multiset(rest);
        WithoutOne(recipients, own.value.id);
      }
    }
  }

  /** In which order they are tried: an active creator, then the others as they come. */
  lemma CandidatesInOrder(creator: Option<nat>, recipients: seq<Account>, k: nat)
    requires DistinctIds(recipients)
    ensures k < |recipients| && creator == Some(recipients[k].id) ==>
              SenderCandidates(creator, recipients) == [recipients[k]] + recipients[..k] + recipients[k + 1..]
    ensures (forall a :: a in recipients ==> creator != Some(a.id)) ==>
              SenderCandidates(creator, recipients) == recipients
  {
    hide FindById, Without;
    if creator.Some? {
      FoundIsUnique(recipients, creator.value);
      if FindById(recipients, creator.value).Some? {
        FoundIsIn(recipients, creator.value);
      }
      if k < |recipients| && creator == Some(recipients[k].id) {
        WithoutAt(recipients, k);
      }
    }
  }

  lemma {:induction false} FoundIsIn(accounts: seq<Account>, id: nat)
    requires FindById(accounts, id).Some?
    ensures FindById(accounts, id).value in accounts
  {
    if accounts[0].id != id {
      FoundIsIn(accounts[1..], id);
    }
  }

  lemma {:induction false} WithoutAt(accounts: seq<Account>, k: nat)
    requires DistinctIds(accounts) && k < |accounts|
    ensures Without(accounts, accounts[k].id) == accounts[..k] + accounts[k + 1..]
  {
    hide DistinctIds;
    var id, first, rest := accounts[k].id, accounts[0], accounts[1..];
    TailDistinct(accounts);
    if k == 0 {
      NoneToDrop(rest, id);
    } else {
      WithoutAt(rest, k - 1);
      assert rest[k - 1] == accounts[k] && rest[k - 1] in rest;
      assert accounts[..k] + accounts[k + 1..] == [first] + (rest[..k - 1] + rest[k..]);
    }
  }

  lemma TailDistinct(accounts: seq<Account>)
    requires DistinctIds(accounts) && accounts != []
    ensures DistinctIds(accounts[1..]) && forall a :: a in accounts[1..] ==> a.id != accounts[0].id
  {
    assert forall i :: 0 <= i < |accounts[1..]| ==> accounts[1..][i] == accounts[i + 1];
  }

  lemma {:induction false} FoundIsUnique(accounts: seq<Account>, id: nat)
    requires DistinctIds(accounts)
    ensures forall a :: a in accounts && a.id == id ==> FindById(accounts, id) == Some(a)
  {
    if accounts != [] {
      TailDistinct(accounts);
      FoundIsUnique(accounts[1..], id);
      assert accounts == [accounts[0]] + accounts[1..];
    }
  }

  lemma {:induction false} WithoutOne(accounts: seq<Account>, id: nat)
    requires DistinctIds(accounts) && FindById(accounts, id).Some?
    ensures multiset{FindById(accounts, id).value} + multiset(Without(accounts, id)) == multiset(accounts)
  {
    hide DistinctIds;
    var first, rest := accounts[0], accounts[1..];
    TailDistinct(accounts);
    assert accounts == [first] + rest;
    HeadOfMultiset(first, rest);
    if first.id == id {
      NoneToDrop(rest, id);
    } else {
      WithoutOne(rest, id);
      HeadOfMultiset(first, Without(rest, id));
    }
  }

  lemma HeadOfMultiset(first: Account, rest: seq<Account>)
    ensures multiset([first] + rest) == multiset{first} + multiset(rest)
  {
  }

  lemma {:induction false} NoneToDrop(accounts: seq<Account>, id: nat)
    requires forall a :: a in accounts ==> a.id != id
    ensures Without(accounts, id) == accounts
  {
    if accounts != [] {
      assert accounts[0] in accounts;
      assert forall a :: a in accounts[1..] ==> a in accounts;
      NoneToDrop(accounts[1..], id);
    }
  }

  // ---- the blind copies -----------------------------------------------------------------------

  predicate Earlier(emails: seq<string>, fold: string -> string, i: nat, key: string) {
    exists j :: 0 <= j < i && j < |emails| && emails[j] != "" && fold(Trim(emails[j])) == key
  }

  /** The last spelling of its address among the first `n`. */
  predicate LastSpelling(emails: seq<string>, fold: string -> string, i: nat, n: nat)
    requires i < n <= |emails|
  {
    emails[i] != "" && forall j :: i < j < n && emails[j] != "" ==> fold(Trim(emails[j])) != fold(Trim(emails[i]))
  }

  /** What the list holds after the first `n` addresses. */
  ghost predicate ListsFirst(list: seq<string>, emails: seq<string>, fold: string -> string, n: nat)
    requires n <= |emails|
  {
    && (forall i, j :: 0 <= i < j < |list| ==> fold(list[i]) != fold(list[j]))
    && (forall k :: 0 <= k < |list| ==> Earlier(emails, fold, n, fold(list[k])))
    && (forall i: nat :: i < n && LastSpelling(emails, fold, i, n) ==> Trim(emails[i]) in list)
  }

  /**
   * The blind-copy list: no address twice, whatever its case; every address of the recipients, in its last spelling;
   * and no other. `fold` is toLowerCase.
   */
  method BccList(emails: seq<string>, fold: string -> string) returns (list: seq<string>)
    ensures ListsFirst(list, emails, fold, |emails|)
  {
    hide LastSpelling, Earlier;
    list := [];
    for n := 0 to |emails|
      invariant ListsFirst(list, emails, fold, n)
    {
      var email := emails[n];
      if email == "" {
        NotListed(list, emails, fold, n);
        continue;
      }
      var trimmed := Trim(email);
      var k := 0;
      while k < |list| && fold(list[k]) != fold(trimmed)
        invariant 0 <= k <= |list| && forall i :: 0 <= i < k ==> fold(list[i]) != fold(trimmed)
      {
        k := k + 1;
      }
      ListedNow(list, emails, fold, n, k);
      list := if k < |list| then list[k := trimmed] else list + [trimmed];
    }
  }

  lemma EarlierGrows(emails: seq<string>, fold: string -> string, n: nat, key: string)
    requires n < |emails|
    ensures Earlier(emails, fold, n, key) ==> Earlier(emails, fold, n + 1, key)
    ensures emails[n] != "" ==> Earlier(emails, fold, n + 1, fold(Trim(emails[n])))
  {
  }

  lemma LastBefore(emails: seq<string>, fold: string -> string, i: nat, n: nat)
    requires i < n < |emails| && LastSpelling(emails, fold, i, n + 1)
    ensures LastSpelling(emails, fold, i, n)
    ensures emails[n] != "" ==> fold(Trim(emails[i])) != fold(Trim(emails[n]))
  {
  }

  lemma NotListed(list: seq<string>, emails: seq<string>, fold: string -> string, n: nat)
    requires n < |emails| && emails[n] == "" && ListsFirst(list, emails, fold, n)
    ensures ListsFirst(list, emails, fold, n + 1)
  {
    hide Earlier;
    forall k | 0 <= k < |list| ensures Earlier(emails, fold, n + 1, fold(list[k])) {
      EarlierGrows(emails, fold, n, fold(list[k]));
    }
    forall i: nat | i < n && LastSpelling(emails, fold, i, n + 1) ensures Trim(emails[i]) in list {
      LastBefore(emails, fold, i, n);
    }
  }

  lemma ListedNow(list: seq<string>, emails: seq<string>, fold: string -> string, n: nat, k: nat)
    requires n < |emails| && emails[n] != "" && ListsFirst(list, emails, fold, n) && k <= |list|
    requires forall i :: 0 <= i < k ==> fold(list[i]) != fold(Trim(emails[n]))
    requires k < |list| ==> fold(list[k]) == fold(Trim(emails[n]))
    ensures ListsFirst(if k < |list| then list[k := Trim(emails[n])] else list + [Trim(emails[n])], emails, fold, n + 1)
  {
    hide Earlier, LastSpelling;
    var trimmed := Trim(emails[n]);
    var longer := if k < |list| then list[k := trimmed] else list + [trimmed];
    assert longer[k] == trimmed;
    forall m | 0 <= m < |longer| ensures Earlier(emails, fold, n + 1, fold(longer[m])) {
      EarlierGrows(emails, fold, n, fold(longer[m]));
    }
    forall i: nat | i < n + 1 && LastSpelling(emails, fold, i, n + 1) ensures Trim(emails[i]) in longer {
      if i < n {
        LastBefore(emails, fold, i, n);
        var m :| 0 <= m < |list| && list[m] == Trim(emails[i]);
        assert longer[m] == list[m];
      }
    }
  }

  /** The candidates whose messages were taken although the call was told otherwise. */
  function Unheard(candidates: seq<Account>, attempt: Account -> Attempt): seq<Account> {
    if candidates == [] then []
    else
      var n := |candidates| - 1;
      Unheard(candidates[..n], attempt) + (if attempt(candidates[n]).TakesUnheard? then [candidates[n]] else [])
  }

  /** Each of them as often as it was tried. */
  lemma {:induction false} UnheardAreThese(candidates: seq<Account>, attempt: Account -> Attempt, a: Account)
    ensures multiset(Unheard(candidates, attempt))[a]
            == if attempt(a).TakesUnheard? then multiset(candidates)[a] else 0
  {
    if candidates != [] {
      var n := |candidates| - 1;
      UnheardAreThese(candidates[..n], attempt, a);
      assert candidates == candidates[..n] + [candidates[n]];
    }
  }

  lemma NoneUnheard(candidates: seq<Account>, attempt: Account -> Attempt)
    ensures Unheard(candidates[..0], attempt) == []
  {
  }

  lemma UnheardStep(candidates: seq<Account>, attempt: Account -> Attempt, i: nat)
    requires i < |candidates|
    ensures Unheard(candidates[..i + 1], attempt)
         == Unheard(candidates[..i], attempt) + (if attempt(candidates[i]).TakesUnheard? then [candidates[i]] else [])
  {
    assert candidates[..i + 1][..i] == candidates[..i];
  }

  lemma RefusalIsPossible(s: State, c: nat)
    requires c < |s.calls| && s.calls[c].Sending? && s.calls[c].row < |s.rows| && !s.rows[s.calls[c].row].delivered
    ensures Enabled(s, Refused(c)) && Next(s, Refused(c)) == s
  {
  }

  /** The first candidate the loop does not pass over, if there is one. */
  ghost predicate IsDecider(candidates: seq<Account>, attempt: Account -> Attempt, i: int) {
    && 0 <= i <= |candidates|
    && (forall k :: 0 <= k < i ==> attempt(candidates[k]) in {NotConnected, TakesUnheard, Refuses})
    && (i < |candidates| ==> attempt(candidates[i]) in {Takes, Breaks})
  }

  /** The log table, the calls in progress, and the senders whose message the provider has taken. */
  class Notifier {
    var rows: seq<Row>
    var calls: seq<Call>
    var outbox: seq<Account>

    function Now(): State
      reads this
    {
      State(rows, calls)
    }

    /** Set the phase of a call, and note the step it took. */
    method Enter(c: nat, call: Call, ghost step: Step, ghost start: State, ghost steps: seq<Step>)
      returns (ghost longer: seq<Step>)
      requires c < |calls| && Inv(Now()) && Enabled(Now(), step) && Reaches(start, steps, Now())
      requires Next(Now(), step) == WithCall(Now(), c, call)
      modifies this`calls
      ensures calls == old(calls)[c := call] && Inv(Now())
      ensures longer == steps + [step] && Reaches(start, longer, Now())
    {
      StepInv(Now(), step);
      ReachesOneMore(start, steps, Now(), step);
      longer := steps + [step];
      calls := calls[c := call];
    }

    /** prisma.emailLog.update of the claimed row, and where the call goes on. */
    method UpdateClaim(c: nat, ok: bool, call: Call, ghost step: Step, ghost start: State, ghost steps: seq<Step>)
      returns (ghost longer: seq<Step>)
      requires c < |calls| && IsAtWork(calls[c]) && calls[c].row < |rows|
      requires Inv(Now()) && Enabled(Now(), step) && Reaches(start, steps, Now())
      requires var r := calls[c].row;
               Next(Now(), step) == WithCall(Now(), c, call).(rows := rows[r := rows[r].(sent := ok)])
      modifies this`calls, this`rows
      ensures calls == old(calls)[c := call] && Inv(Now())
      ensures rows == old(rows)[old(calls)[c].row := old(rows)[old(calls)[c].row].(sent := ok)]
      ensures longer == steps + [step] && Reaches(start, longer, Now())
    {
      StepInv(Now(), step);
      ReachesOneMore(start, steps, Now(), step);
      longer := steps + [step];
      var r := calls[c].row;
      rows := rows[r := rows[r].(sent := ok)];
      calls := calls[c := call];
    }

    /** The catch block: downgrade the claim, best effort. */
    method Catch(c: nat, env: Environment, ghost start: State, ghost steps: seq<Step>)
      returns (ghost longer: seq<Step>)
      requires c < |calls| && InCatch(calls[c]) && calls[c].row < |rows|
      requires Inv(Now()) && Reaches(start, steps, Now())
      modifies this`calls, this`rows
      ensures calls == old(calls)[c := Done(NotDelivered)] && Inv(Now())
      ensures var r := old(calls)[c].row;
              rows == if env.downgradeFails then old(rows) else old(rows)[r := old(rows)[r].(sent := false)]
      ensures Reaches(start, longer, Now())
    {
      if env.downgradeFails {
        longer := Enter(c, Done(NotDelivered), DowngradeFails(c), start, steps);
      } else {
        longer := UpdateClaim(c, false, Done(NotDelivered), Downgrade(c), start, steps);
      }
    }

    /** An exception inside the try block. */
    method ThrowAndCatch(c: nat, env: Environment, ghost start: State, ghost steps: seq<Step>)
      returns (ghost longer: seq<Step>)
      requires c < |calls| && calls[c].Sending? && calls[c].row < |rows|
      requires Inv(Now()) && Reaches(start, steps, Now())
      modifies this`calls, this`rows
      ensures calls == old(calls)[c := Done(NotDelivered)] && Inv(Now())
      ensures var r := old(calls)[c].row;
              rows == if env.downgradeFails then old(rows) else old(rows)[r := old(rows)[r].(sent := false)]
      ensures Reaches(start, longer, Now())
    {
      longer := Enter(c, Catching(calls[c].row), Throw(c), start, steps);
      longer := Catch(c, env, start, longer);
    }

    /** The final update, and the catch block if it is not answered. */
    method Finish(c: nat, ok: bool, env: Environment, ghost start: State, ghost steps: seq<Step>)
      returns (outcome: Outcome, ghost longer: seq<Step>)
      requires c < |calls| && calls[c].Sending? && calls[c].row < |rows|
      requires rows[calls[c].row].sent && (rows[calls[c].row].delivered <==> ok)
      requires Inv(Now()) && Reaches(start, steps, Now())
      modifies this`calls, this`rows
      ensures Inv(Now()) && Reaches(start, longer, Now())
      ensures calls == old(calls)[c := Done(outcome)]
      ensures outcome == if ok && env.finalUpdate.Answered? then Delivered else NotDelivered
      ensures var r := old(calls)[c].row;
              rows == old(rows)[r := old(rows)[r].(sent := IsSentAtEnd(env, ok))]
    {
      hide Inv, Reaches;
      StepsFromClaim(Now(), c);
      outcome := NotDelivered;
      if env.finalUpdate.Answered? {
        outcome := if ok then Delivered else NotDelivered;
        longer := UpdateClaim(c, ok, Done(outcome), Finalise(c), start, steps);
      } else if env.finalUpdate.Fails? || ok {
        // a row that says SENT already stays as it is
        longer := ThrowAndCatch(c, env, start, steps);
      } else {
        longer := UpdateClaim(c, false, Released(calls[c].row), FailUnanswered(c), start, steps);
        longer := Catch(c, env, start, longer);
      }
    }

    /** The loop over the senders; `decider` is where it stopped. */
    method TrySenders(c: nat, candidates: seq<Account>, env: Environment, ghost start: State, ghost steps: seq<Step>)
      returns (sender: Option<Account>, broke: bool, decider: nat, ghost longer: seq<Step>)
      requires c < |calls| && calls[c].Sending? && calls[c].row < |rows| && rows[calls[c].row] == Row(true, false, 0)
      requires Inv(Now()) && Reaches(start, steps, Now())
      modifies this`rows, this`outbox
      ensures Inv(Now()) && Reaches(start, longer, Now())
      ensures IsDecider(candidates, env.attempt, decider)
      ensures broke <==> decider < |candidates| && env.attempt(candidates[decider]) == Breaks
      ensures sender == if decider < |candidates| && !broke then Some(candidates[decider]) else None
      ensures var unheard := Unheard(candidates[..decider], env.attempt);
              && rows == old(rows)[calls[c].row := Row(true, sender.Some?, |unheard|)]
              && outbox == old(outbox) + unheard + (if sender.Some? then [sender.value] else [])
    {
      hide Inv, Reaches, Unheard, Enabled, Next;
      sender, broke, decider, longer := None, false, 0, steps;
      NoneUnheard(candidates, env.attempt);
      while decider < |candidates|
        invariant 0 <= decider <= |candidates| && sender.None? && !broke
        invariant forall k :: 0 <= k < decider ==> env.attempt(candidates[k]) in {NotConnected, TakesUnheard, Refuses}
        invariant rows == old(rows)[calls[c].row := Row(true, false, |Unheard(candidates[..decider], env.attempt)|)]
        invariant outbox == old(outbox) + Unheard(candidates[..decider], env.attempt)
        invariant Inv(Now()) && Reaches(start, longer, Now())
      {
        RefusalIsPossible(Now(), c);
        UnheardStep(candidates, env.attempt, decider);
        var attempt := env.attempt(candidates[decider]);
        if attempt == Takes {
          longer := MarkDelivered(c, candidates[decider], start, longer);
          sender := Some(candidates[decider]);
          return;
        } else if attempt == Breaks {
          broke := true;
          return;
        } else if attempt == TakesUnheard {
          longer := CountUnheard(c, candidates[decider], start, longer);
        } else {
          ReachesOneMore(start, longer, Now(), Refused(c));
          longer := longer + [Refused(c)];
        }
        decider := decider + 1;
      }
    }

    /** sendEmail went through and was answered. */
    method MarkDelivered(c: nat, sender: Account, ghost start: State, ghost steps: seq<Step>)
      returns (ghost longer: seq<Step>)
      requires c < |calls| && calls[c].Sending? && calls[c].row < |rows| && !rows[calls[c].row].delivered
      requires Inv(Now()) && Reaches(start, steps, Now())
      modifies this`rows, this`outbox
      ensures Inv(Now()) && Reaches(start, longer, Now())
      ensures rows == old(rows)[calls[c].row := old(rows)[calls[c].row].(delivered := true)]
              && outbox == old(outbox) + [sender]
    {
      StepInv(Now(), Accepted(c));
      ReachesOneMore(start, steps, Now(), Accepted(c));
      longer := steps + [Accepted(c)];
      outbox := outbox + [sender];
      rows := rows[calls[c].row := rows[calls[c].row].(delivered := true)];
    }

    /** sendEmail went through, but reports a failure. */
    method CountUnheard(c: nat, sender: Account, ghost start: State, ghost steps: seq<Step>)
      returns (ghost longer: seq<Step>)
      requires c < |calls| && calls[c].Sending? && calls[c].row < |rows| && !rows[calls[c].row].delivered
      requires Inv(Now()) && Reaches(start, steps, Now())
      modifies this`rows, this`outbox
      ensures Inv(Now()) && Reaches(start, longer, Now())
      ensures var r := calls[c].row;
              && rows == old(rows)[r := old(rows)[r].(unreported := old(rows)[r].unreported + 1)]
              && outbox == old(outbox) + [sender]
    {
      StepInv(Now(), SendUnanswered(c));
      ReachesOneMore(start, steps, Now(), SendUnanswered(c));
      longer := steps + [SendUnanswered(c)];
      outbox := outbox + [sender];
      var r := calls[c].row;
      rows := rows[r := rows[r].(unreported := rows[r].unreported + 1)];
    }

    /** The try block of a call that has just claimed the slot. */
    method Deliver(c: nat, env: Environment, ghost start: State, ghost steps: seq<Step>)
      returns (outcome: Outcome, decider: nat, ghost longer: seq<Step>)
      requires c < |calls| && |rows| > 0 && calls[c] == Sending(|rows| - 1) && rows[|rows| - 1] == Row(true, false, 0)
      requires Inv(Now()) && Reaches(start, steps, Now())
      modifies this
      ensures Inv(Now()) && Reaches(start, longer, Now())
      ensures calls == old(calls)[c := Done(outcome)]
      ensures var candidates := Candidates(env);
              && IsDecider(candidates, env.attempt, decider)
              && outbox == old(outbox) + SentBy(env, decider)
              && rows == old(rows)[..|old(rows)| - 1] + [FinalRow(env, decider)]
              && outcome == OutcomeOf(env, decider)
    {
      hide Enabled, Inv, IsDecider, SenderCandidates;
      StepsFromClaim(Now(), c);
      if env.recipients.None? {
        outcome, decider := NotDelivered, 0;
        NoCandidates(env);
        longer := ThrowAndCatch(c, env, start, steps);
        return;
      }
      var candidates := SenderCandidates(env.creator, env.recipients.value);
      var sender, broke;
      sender, broke, decider, longer := TrySenders(c, candidates, env, start, steps);
      DeciderInRange(candidates, env.attempt, decider);
      if broke {
        outcome := NotDelivered;
        longer := ThrowAndCatch(c, env, start, longer);
      } else {
        outcome, longer := Finish(c, sender.Some?, env, start, longer);
      }
    }

    /**
     * The whole call, undisturbed by others: what it does to the table and the outbox, and that it is a run of the
     * steps above.
     */
    method SendBookingProfitNotification(c: nat, env: Environment)
      returns (outcome: Outcome, decider: nat, ghost steps: seq<Step>)
      requires c < |calls| && calls[c].Waiting? && Inv(Now())
      modifies this
      ensures Inv(Now()) && Reaches(old(Now()), steps, Now())
      ensures calls == old(calls)[c := Done(outcome)]
      ensures old(SlotTaken(Now())) || env.claim.Fails? ==>
                && rows == old(rows) && outbox == old(outbox)
                && outcome == if env.claim.Answered? then AlreadySent else NotDelivered
      ensures !old(SlotTaken(Now())) && env.claim.Unanswered? ==>
                && rows == old(rows) + [Row(true, false, 0)] && outbox == old(outbox)
                && outcome == NotDelivered
      ensures !old(SlotTaken(Now())) && env.claim.Answered? ==>
                var candidates := Candidates(env);
                && IsDecider(candidates, env.attempt, decider)
                && outbox == old(outbox) + SentBy(env, decider)
                && rows == old(rows) + [FinalRow(env, decider)]
                && outcome == OutcomeOf(env, decider)
    {
      hide IsDecider, Candidates, IsTaken, IsBroken, FinalStatus, Inv;
      ghost var start := Now();
      steps, decider := [], 0;
      var taken := exists r :: 0 <= r < |rows| && rows[r].sent;
      if env.claim.Fails? || (env.claim.Unanswered? && taken) {
        outcome := NotDelivered;
        steps := Enter(c, Done(outcome), ClaimFails(c), start, steps);
        return;
      }
      if env.claim.Unanswered? {
        StepInv(Now(), ClaimUnanswered(c));
        ReachesOneMore(start, steps, Now(), ClaimUnanswered(c));
        steps := steps + [ClaimUnanswered(c)];
        outcome := NotDelivered;
        calls := calls[c := Done(outcome)];
        rows := rows + [Row(true, false, 0)];
        return;
      }
      if taken {
        outcome := AlreadySent;
        steps := Enter(c, Done(outcome), Claim(c), start, steps);
        return;
      }
      StepInv(Now(), Claim(c));
      ReachesOneMore(start, steps, Now(), Claim(c));
      steps := steps + [Claim(c)];
      calls := calls[c := Sending(|rows|)];
      rows := rows + [Row(true, false, 0)];
      assert rows[..|rows| - 1] == old(rows);
      outcome, decider, steps := Deliver(c, env, start, steps);
    }
  }

  function Candidates(env: Environment): seq<Account> {
    if env.recipients.Some? then SenderCandidates(env.creator, env.recipients.value) else []
  }

  /** The deciding candidate's message was taken. */
  predicate IsTaken(env: Environment, decider: nat) {
    decider < |Candidates(env)| && env.attempt(Candidates(env)[decider]) == Takes
  }

  /** Something threw before the final update. */
  predicate IsBroken(env: Environment, decider: nat) {
    env.recipients.None? || (decider < |Candidates(env)| && env.attempt(Candidates(env)[decider]) == Breaks)
  }

  /**
   * The row after a final update to SENT (`ok`) or FAILED and the catch block: an update to FAILED that goes through is
   * not undone, and one to SENT is, unless it is answered or the downgrade fails.
   */
  predicate IsSentAtEnd(env: Environment, ok: bool) {
    match env.finalUpdate
    case Answered => ok
    case Fails => env.downgradeFails
    case Unanswered => ok && env.downgradeFails
  }

  predicate FinalStatus(env: Environment, decider: nat) {
    if IsBroken(env, decider) then env.downgradeFails else IsSentAtEnd(env, IsTaken(env, decider))
  }

  /** Success is reported if the message was taken and the final update answered. */
  function OutcomeOf(env: Environment, decider: nat): Outcome {
    if IsTaken(env, decider) && !IsBroken(env, decider) && env.finalUpdate.Answered? then Delivered else NotDelivered
  }

  /** Whose messages have gone out: the unheard ones before the deciding candidate, then its own if it was taken. */
  function SentBy(env: Environment, decider: nat): seq<Account>
    requires decider <= |Candidates(env)|
  {
    Unheard(Candidates(env)[..decider], env.attempt)
        + (if IsTaken(env, decider) then [Candidates(env)[decider]] else [])
  }

  function FinalRow(env: Environment, decider: nat): Row
    requires decider <= |Candidates(env)|
  {
    Row(FinalStatus(env, decider), IsTaken(env, decider), |Unheard(Candidates(env)[..decider], env.attempt)|)
  }

  /** The row counts the messages that went out. */
  lemma RowCountsMessages(env: Environment, decider: nat)
    requires decider <= |Candidates(env)|
    ensures Messages(FinalRow(env, decider)) == |SentBy(env, decider)|
  {
  }

  /**
   * If the mailbox of any recipient takes the message and nothing throws, the call reports success, whatever the other
   * recipients' mailboxes do.
   */
  lemma OneMailboxIsEnough(env: Environment, decider: nat, a: Account)
    requires env.recipients.Some? && DistinctIds(env.recipients.value)
    requires IsDecider(Candidates(env), env.attempt, decider)
    requires a in env.recipients.value && env.attempt(a) == Takes
    requires (forall b :: b in env.recipients.value ==> env.attempt(b) != Breaks) && env.finalUpdate.Answered?
    ensures OutcomeOf(env, decider) == Delivered && FinalRow(env, decider).sent
  {
    hide SenderCandidates, DistinctIds;
    var all := env.recipients.value;
    CandidatesAreRecipients(env.creator, all);
    assert a in multiset(all) && a in multiset(Candidates(env));
    var j :| 0 <= j < |Candidates(env)| && Candidates(env)[j] == a;
    assert decider <= j;
    assert Candidates(env)[decider] in multiset(Candidates(env)) && Candidates(env)[decider] in multiset(all);
  }

  /**
   * What the row says after such a call. If the update of the catch block does not fail, it says SENT exactly if
   * success was reported, so never for a call that sent nothing; if it fails, the row says FAILED only through a final
   * update.
   */
  lemma RowTellsOutcome(env: Environment, decider: nat)
    requires decider <= |Candidates(env)|
    ensures var row, outcome := FinalRow(env, decider), OutcomeOf(env, decider);
            && (outcome == Delivered ==> row.sent && row.delivered)
            && (!env.downgradeFails ==> (row.sent <==> outcome == Delivered))
            && (env.downgradeFails ==>
                  (!row.sent <==> env.recipients.Some? && !env.finalUpdate.Fails? && !row.delivered
                                  && (decider < |Candidates(env)| ==>
                                        env.attempt(Candidates(env)[decider]) != Breaks)))
  {
    hide Candidates;
  }

  lemma NoCandidates(env: Environment)
    requires env.recipients.None?
    ensures IsDecider(Candidates(env), env.attempt, 0) && SentBy(env, 0) == []
  {
  }

  lemma DeciderInRange(candidates: seq<Account>, attempt: Account -> Attempt, i: nat)
    requires IsDecider(candidates, attempt, i)
    ensures i <= |candidates| && (i < |candidates| ==> attempt(candidates[i]) in {Takes, Breaks})
  {
  }

  lemma StepsFromClaim(s: State, c: nat)
    requires c < |s.calls| && s.calls[c].Sending? && s.calls[c].row < |s.rows|
    ensures Enabled(s, Throw(c)) && Enabled(s, Finalise(c))
    ensures !s.rows[s.calls[c].row].delivered ==> Enabled(s, FailUnanswered(c))
  {
  }
}
