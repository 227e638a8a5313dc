// The one place that moves a quote's status forward (src/server/quote-status.ts). Every
// transaction is one step; side effects run afterwards, in steps of their own, and may fail.
module QuoteStatus {
  import opened Text

  datatype Status =
    | Draft | Sent | Read | Viewed | Signed | Booked | Charged
    | Canceled
    | Exchanged | PendingExchangeApproval | ExchangeApproved | ExchangeDisapproved | ExchangeSuperseded
    | PendingCancellationApproval | CancellationApproved
    | CancellationFormSent | CancellationSubmitted | CancellationConfirmed

  function Rank(status: Status): int {
    match status
    case Draft => 0
    case Sent => 1
    case Read => 2
    case Viewed => 3
    case Signed => 4
    case Booked => 5
    case Charged => 6
    case _ => -1
  }

  /** The statuses with a timestamp column of their own. */
  predicate HasStamp(status: Status) {
    status.Canceled? || Rank(status) >= 1
  }

  /** The milestones the assigned agent is told about. */
  predicate IsMilestone(status: Status) {
    status in {Read, Viewed, Signed}
  }

  /** writeQuoteStatus leaves the quote alone. */
  predicate IsRefused(from: Status, to: Status) {
    !to.Canceled? && (from.Canceled? || Rank(to) <= Rank(from))
  }

  // ---- one quote ----------------------------------------------------------------------------

  datatype Change = Change(fromStatus: Status, toStatus: Status, changedById: Option<string>, at: int)

  /** `origin` and `stampedBefore` are what the quote had when the run began; `history` lists the rows written since. */
  datatype Quote = Quote(
    origin: Status,
    stampedBefore: set<Status>,
    agentId: Option<string>,
    status: Status,
    stamps: map<Status, int>,
    lastActivityAt: int,
    history: seq<Change>)

  function Written(q: Quote, to: Status, actor: Option<string>, now: int): Quote {
    q.(status := to,
       lastActivityAt := now,
       stamps := if HasStamp(to) then q.stamps[to := now] else q.stamps,
       history := q.history + [Change(q.status, to, actor, now)])
  }

  function StatusBefore(q: Quote, i: nat): Status
    requires i <= |q.history|
  {
    if i == 0 then q.origin else q.history[i - 1].toStatus
  }

  /**
   * The rows chain from the first status to the current one, none of them is a refused move, and exactly the reached
   * statuses are stamped, each with the time it was last reached.
   */
  ghost predicate QuoteOk(q: Quote) {
    Chains(q) && Rises(q) && Stamped(q) && Timed(q)
  }

  /** Row `i` is the last that reached its status. */
  predicate IsLatest(q: Quote, i: nat)
    requires i < |q.history|
  {
    forall j :: i < j < |q.history| ==> q.history[j].toStatus != q.history[i].toStatus
  }

  ghost predicate Timed(q: Quote) {
    && (forall i: nat :: i < |q.history| && IsLatest(q, i) && HasStamp(q.history[i].toStatus) ==>
          q.history[i].toStatus in q.stamps && q.stamps[q.history[i].toStatus] == q.history[i].at)
    && (q.history != [] ==> q.lastActivityAt == q.history[|q.history| - 1].at)
  }

  ghost predicate Chains(q: Quote) {
    && (forall i :: 0 <= i < |q.history| ==> Links(q, i))
    && q.status == StatusBefore(q, |q.history|)
  }

  /** Row `i` starts from the status that row `i - 1` ended in. */
  predicate Links(q: Quote, i: nat)
    requires i < |q.history|
  {
    q.history[i].fromStatus == StatusBefore(q, i)
  }

  ghost predicate Rises(q: Quote) {
    forall i :: 0 <= i < |q.history| ==> !IsRefused(q.history[i].fromStatus, q.history[i].toStatus)
  }

  ghost predicate Stamped(q: Quote) {
    forall st :: st in q.stamps <==> st in q.stampedBefore || (HasStamp(st) && Reached(q, st))
  }

  predicate Reached(q: Quote, status: Status) {
    exists i :: 0 <= i < |q.history| && q.history[i].toStatus == status
  }

  lemma WrittenOk(q: Quote, to: Status, actor: Option<string>, now: int)
    requires QuoteOk(q) && !IsRefused(q.status, to)
    ensures QuoteOk(Written(q, to, actor, now))
  {
    hide IsRefused, HasStamp, Stamped, Chains, Timed;
    WrittenChains(q, to, actor, now);
    WrittenStamped(q, to, actor, now);
    WrittenTimed(q, to, actor, now);
  }

  lemma WrittenTimed(q: Quote, to: Status, actor: Option<string>, now: int)
    requires Timed(q)
    ensures Timed(Written(q, to, actor, now))
  {
    hide HasStamp;
    var q' := Written(q, to, actor, now);
    forall i: nat | i < |q.history| && IsLatest(q', i) ensures IsLatest(q, i) && q.history[i].toStatus != to {
      assert q'.history[|q.history|].toStatus == to;
      forall j | i < j < |q.history| ensures q.history[j].toStatus != q.history[i].toStatus {
        assert q'.history[j] == q.history[j];
      }
    }
  }

  lemma WrittenChains(q: Quote, to: Status, actor: Option<string>, now: int)
    requires Chains(q)
    ensures Chains(Written(q, to, actor, now))
  {
    hide HasStamp;
    var q' := Written(q, to, actor, now);
    forall i: nat | i < |q'.history| ensures Links(q', i) {
      assert StatusBefore(q', i) == StatusBefore(q, i);
      assert i < |q.history| ==> Links(q, i);
    }
  }

  lemma WrittenStamped(q: Quote, to: Status, actor: Option<string>, now: int)
    requires Stamped(q)
    ensures Stamped(Written(q, to, actor, now))
  {
    hide HasStamp;
    var q' := Written(q, to, actor, now);
    forall st ensures Reached(q', st) <==> Reached(q, st) || st == to {
      assert q'.history[|q.history|].toStatus == to;
      if Reached(q, st) {
        var i :| 0 <= i < |q.history| && q.history[i].toStatus == st;
        assert q'.history[i].toStatus == st;
      }
    }
  }

  /** Along the history the rank only rises, and nothing but a further cancellation follows a cancellation. */
  lemma {:induction false} RankRises(q: Quote, i: nat, j: nat)
    requires Chains(q) && Rises(q) && i <= j < |q.history| && !q.history[j].toStatus.Canceled?
    ensures !StatusBefore(q, i).Canceled? && Rank(StatusBefore(q, i)) < Rank(q.history[j].toStatus)
    decreases j - i
  {
    hide Rank;
    assert Links(q, i) && !IsRefused(q.history[i].fromStatus, q.history[i].toStatus);
    if i < j {
      RankRises(q, i + 1, j);
    }
  }

  /** So no status but CANCELED is entered twice. */
  lemma EnteredOnce(q: Quote, i: nat, j: nat)
    requires QuoteOk(q) && i < j < |q.history| && !q.history[j].toStatus.Canceled?
    ensures q.history[i].toStatus != q.history[j].toStatus && Rank(q.history[i].toStatus) < Rank(q.history[j].toStatus)
  {
    hide Rank, Chains, Rises, Stamped, Timed;
    RankRises(q, i + 1, j);
  }

  /**
   * Each row but a cancellation gains at least one rank, so from its first status a quote has at most as many as ranks
   * are left.
   */
  lemma {:induction false} MovesAreBounded(q: Quote, j: nat)
    requires QuoteOk(q) && j < |q.history| && !q.history[j].toStatus.Canceled?
    ensures Rank(q.history[j].toStatus) >= Rank(q.origin) + j + 1
    ensures j < 6 - Rank(q.origin)
  {
    hide Chains, Rises, Stamped, Timed;
    RankRises(q, j, j);
    if j > 0 {
      MovesAreBounded(q, j - 1);
    }
  }

  /** Which moves one call makes: never out of CANCELED, never sideways or back, always into CANCELED. */
  lemma MovesAreForward(from: Status, to: Status)
    ensures !IsRefused(from, to) <==> to.Canceled? || (!from.Canceled? && Rank(from) < Rank(to))
    ensures from.Canceled? && !IsRefused(from, to) ==> to.Canceled?
    ensures Rank(from) >= 0 && !IsRefused(from, to) ==> to.Canceled? || Rank(to) >= 1
  {
  }

  const PROGRESS := [Draft, Sent, Read, Viewed, Signed, Booked, Charged]

  predicate IsAt(status: Status, place: int) {
    0 <= place < |PROGRESS| && PROGRESS[place] == status
  }

  /**
   * The same by the order of the statuses themselves: unless it is canceled, a quote may go to any status of the
   * progression that it has neither reached nor passed.
   */
  lemma MovesByOrder(from: Status, to: Status)
    ensures !IsRefused(from, to) <==>
              || to == Canceled
              || (from != Canceled && exists j :: IsAt(to, j) && forall i :: IsAt(from, i) ==> i < j)
  {
    RankIsPlace(from);
    RankIsPlace(to);
    hide Rank, IsAt;
    assert Rank(from) >= 0 ==> IsAt(from, Rank(from));
    assert Rank(to) >= 0 ==> IsAt(to, Rank(to));
  }

  lemma RankIsPlace(status: Status)
    ensures Rank(status) >= -1 && forall j :: IsAt(status, j) <==> Rank(status) == j && j >= 0
  {
    assert PROGRESS[0] == Draft && PROGRESS[1] == Sent && PROGRESS[2] == Read && PROGRESS[3] == Viewed
           && PROGRESS[4] == Signed && PROGRESS[5] == Booked && PROGRESS[6] == Charged;
  }

  // ---- many calls -------------------------------------------------------------------------------

  /**
   * The side effects owed for one accepted write: the row of `quoteId`'s history they belong to, and whether they were
   * started.
   */
  datatype Effect = Effect(quoteId: string, row: nat, fired: bool)

  datatype Activity = Activity(quoteId: string, change: Change)

  datatype Notification = Notification(accountId: string, quoteId: string, status: Status)

  datatype State = State(quotes: map<string, Quote>, effects: seq<Effect>, activities: seq<Activity>,
                         notifications: seq<Notification>)

  /** How far the side effects of one write get. */
  datatype Outcome = Completes | NotificationFails | ActivityFails

  /**
   * Write: the transaction of transitionQuoteStatus or of a caller of reconcileQuoteStatus. Fire: the effects, called
   * any number of times.
   */
  datatype Step =
    | Write(quoteId: string, to: Status, actor: Option<string>, now: int)
    | Fire(effect: nat, outcome: Outcome)

  predicate Enabled(s: State, step: Step) {
    match step
    case Write(quoteId, _, _, _) => quoteId in s.quotes
    case Fire(k, _) =>
      && k < |s.effects| && s.effects[k].quoteId in s.quotes
      && s.effects[k].row < |s.quotes[s.effects[k].quoteId].history|
  }

  function ChangeOf(s: State, e: Effect): Change
    requires e.quoteId in s.quotes && e.row < |s.quotes[e.quoteId].history|
  {
    s.quotes[e.quoteId].history[e.row]
  }

  function NotificationsFor(quoteId: string, agentId: Option<string>, to: Status): seq<Notification> {
    if IsMilestone(to) && agentId.Some? then [Notification(agentId.value, quoteId, to)] else []
  }

  function Next(s: State, step: Step): State
    requires Enabled(s, step)
  {
    match step
    case Write(id, to, actor, now) =>
      var q := s.quotes[id];
      if IsRefused(q.status, to) then s
      else s.(quotes := s.quotes[id := Written(q, to, actor, now)],
              effects := s.effects + [Effect(id, |q.history|, false)])
    case Fire(k, outcome) =>
      var e := s.effects[k];
      if e.fired then s
      else
        var change := ChangeOf(s, e);
        s.(effects := s.effects[k := e.(fired := true)],
           activities := if outcome.ActivityFails? then s.activities else s.activities + [Activity(e.quoteId, change)],
           notifications := if outcome.Completes?
               then s.notifications + NotificationsFor(e.quoteId, s.quotes[e.quoteId].agentId, change.toStatus)
                            else s.notifications)
  }

  ghost predicate EffectsOk(s: State) {
    && (forall k :: 0 <= k < |s.effects| ==>
          s.effects[k].quoteId in s.quotes && s.effects[k].row < |s.quotes[s.effects[k].quoteId].history|)
    && (forall k, m :: 0 <= k < m < |s.effects| ==>
          s.effects[k].quoteId != s.effects[m].quoteId || s.effects[k].row != s.effects[m].row)
  }

  /** A side effect with this status was started for the quote. */
  ghost predicate WasFired(s: State, quoteId: string, status: Status) {
    exists k :: 0 <= k < |s.effects| && s.effects[k].fired && s.effects[k].quoteId == quoteId
      && quoteId in s.quotes && s.effects[k].row < |s.quotes[quoteId].history|
         && s.quotes[quoteId].history[s.effects[k].row].toStatus == status
  }

  ghost predicate NotificationsOk(s: State) {
    && (forall n :: 0 <= n < |s.notifications| ==>
          && IsMilestone(s.notifications[n].status)
          && WasFired(s, s.notifications[n].quoteId, s.notifications[n].status)
          && s.quotes[s.notifications[n].quoteId].agentId == Some(s.notifications[n].accountId))
    && (forall n, m :: 0 <= n < m < |s.notifications| ==>
          s.notifications[n].quoteId != s.notifications[m].quoteId
              || s.notifications[n].status != s.notifications[m].status)
  }

  /** What the activity log says of a quote is in its history. */
  ghost predicate ActivitiesOk(s: State) {
    forall n :: 0 <= n < |s.activities| ==>
      s.activities[n].quoteId in s.quotes && s.activities[n].change in s.quotes[s.activities[n].quoteId].history
  }

  lemma ActivitiesStayOk(s: State, step: Step)
    requires ActivitiesOk(s) && Enabled(s, step)
    ensures ActivitiesOk(Next(s, step))
  {
    hide IsRefused, HasStamp, IsMilestone;
    var s' := Next(s, step);
    forall n | 0 <= n < |s'.activities|
      ensures s'.activities[n].quoteId in s'.quotes
              && s'.activities[n].change in s'.quotes[s'.activities[n].quoteId].history
    {
      assert n < |s.activities| ==> s'.activities[n] == s.activities[n];
    }
  }

  ghost predicate Inv(s: State) {
    && (forall id :: id in s.quotes ==> QuoteOk(s.quotes[id]))
    && EffectsOk(s)
    && NotificationsOk(s)
    && ActivitiesOk(s)
  }

  lemma FiredStays(s: State, step: Step, quoteId: string, status: Status)
    requires EffectsOk(s) && Enabled(s, step) && WasFired(s, quoteId, status)
    ensures WasFired(Next(s, step), quoteId, status)
  {
    hide IsRefused, HasStamp;
    var s' := Next(s, step);
    var k :| 0 <= k < |s.effects| && s.effects[k].fired && s.effects[k].quoteId == quoteId
      && quoteId in s.quotes && s.effects[k].row < |s.quotes[quoteId].history|
         && s.quotes[quoteId].history[s.effects[k].row].toStatus == status;
    assert s'.effects[k] == s.effects[k];
  }

  lemma WriteInv(s: State, step: Step)
    requires Inv(s) && Enabled(s, step) && step.Write?
    ensures Inv(Next(s, step))
  {
    hide IsRefused, HasStamp, QuoteOk, WasFired, IsMilestone, ActivitiesOk;
    ActivitiesStayOk(s, step);
    var q := s.quotes[step.quoteId];
    if !IsRefused(q.status, step.to) {
      WrittenOk(q, step.to, step.actor, step.now);
    }
    var s' := Next(s, step);
    forall n | 0 <= n < |s'.notifications|
      ensures WasFired(s', s'.notifications[n].quoteId, s'.notifications[n].status)
    {
      FiredStays(s, step, s.notifications[n].quoteId, s.notifications[n].status);
    }
    assert forall n :: 0 <= n < |s.notifications| ==> s.notifications[n].quoteId in s.quotes by {
      FiredHasQuote(s);
    }
  }

  lemma FiredHasQuote(s: State)
    ensures forall id, status :: WasFired(s, id, status) ==> id in s.quotes
  {
  }

  /** The effects of a milestone that has not been announced may announce it: it never was before. */
  lemma NotYetAnnounced(s: State, k: nat, n: nat)
    requires Inv(s) && k < |s.effects| && !s.effects[k].fired && n < |s.notifications|
    requires Enabled(s, Fire(k, Completes)) && IsMilestone(ChangeOf(s, s.effects[k]).toStatus)
    ensures s.notifications[n].quoteId != s.effects[k].quoteId
            || s.notifications[n].status != ChangeOf(s, s.effects[k]).toStatus
  {
    hide HasStamp, IsRefused, QuoteOk;
    var note, e := s.notifications[n], s.effects[k];
    if note.quoteId == e.quoteId && note.status == ChangeOf(s, e).toStatus {
      assert WasFired(s, note.quoteId, note.status);
      var m :| 0 <= m < |s.effects| && s.effects[m].fired && s.effects[m].quoteId == note.quoteId
        && s.effects[m].row < |s.quotes[note.quoteId].history|
           && s.quotes[note.quoteId].history[s.effects[m].row].toStatus == note.status;
      assert s.effects[m].row != e.row;
      EnteredOnce(s.quotes[e.quoteId], if s.effects[m].row < e.row then s.effects[m].row else e.row,
                  if s.effects[m].row < e.row then e.row else s.effects[m].row);
    }
  }

  lemma FireInv(s: State, step: Step)
    requires Inv(s) && Enabled(s, step) && step.Fire?
    ensures Inv(Next(s, step))
  {
    hide IsRefused, HasStamp, QuoteOk, WasFired, IsMilestone, ActivitiesOk;
    ActivitiesStayOk(s, step);
    var s' := Next(s, step);
    var e := s.effects[step.effect];
    forall n | 0 <= n < |s.notifications| ensures WasFired(s', s.notifications[n].quoteId, s.notifications[n].status) {
      FiredStays(s, step, s.notifications[n].quoteId, s.notifications[n].status);
    }
    assert forall n :: 0 <= n < |s.notifications| ==> s.notifications[n].quoteId in s.quotes by {
      FiredHasQuote(s);
    }
    if !e.fired && |s'.notifications| > |s.notifications| {
      var status := ChangeOf(s, e).toStatus;
      assert WasFired(s', e.quoteId, status) by {
        JustFired(s', step.effect);
      }
      forall n: nat | n < |s.notifications|
        ensures s.notifications[n].quoteId != e.quoteId || s.notifications[n].status != status
      {
        NotYetAnnounced(s, step.effect, n);
      }
    }
  }

  lemma JustFired(s: State, k: nat)
    requires k < |s.effects| && s.effects[k].fired && Enabled(s, Fire(k, Completes))
    ensures WasFired(s, s.effects[k].quoteId, ChangeOf(s, s.effects[k]).toStatus)
  {
  }

  lemma StepInv(s: State, step: Step)
    requires Inv(s) && Enabled(s, step)
    ensures Inv(Next(s, step))
  {
    if step.Write? {
      WriteInv(s, step);
    } else {
      FireInv(s, step);
    }
  }

  /** The beginning of a run: quotes in any status. */
  ghost predicate IsStart(s: State) {
    && s.effects == [] && s.notifications == [] && s.activities == []
    && forall id :: id in s.quotes ==>
         s.quotes[id].history == [] && s.quotes[id].status == s.quotes[id].origin
             && s.quotes[id].stamps.Keys == s.quotes[id].stampedBefore
  }

  ghost predicate IsRun(states: seq<State>, steps: seq<Step>) {
    && |states| == |steps| + 1 && IsStart(states[0])
    && forall k :: 0 <= k < |steps| ==> Enabled(states[k], steps[k]) && states[k + 1] == Next(states[k], steps[k])
  }

  lemma {:induction false} RunInv(states: seq<State>, steps: seq<Step>, n: nat)
    requires IsRun(states, steps) && n < |states|
    ensures Inv(states[n])
    decreases n
  {
    hide Next, Enabled;
    if n > 0 {
      RunInv(states, steps, n - 1);
      assert Enabled(states[n - 1], steps[n - 1]) && states[n] == Next(states[n - 1], steps[n - 1]);
      StepInv(states[n - 1], steps[n - 1]);
    }
  }

  /**
   * At any time of any run the history of each quote chains from its first status to its current one, rising, exactly
   * the reached statuses are stamped, and activities are of the history.
   */
  lemma HistoryTellsEverything(states: seq<State>, steps: seq<Step>, n: nat, id: string)
    requires IsRun(states, steps) && n < |states| && id in states[n].quotes
    ensures QuoteOk(states[n].quotes[id])
    ensures var history := states[n].quotes[id].history;
            forall i, j :: 0 <= i < j < |history| && !history[j].toStatus.Canceled? ==>
              Rank(history[i].toStatus) < Rank(history[j].toStatus)
    ensures ActivitiesOk(states[n])
  {
    hide Next, Enabled, QuoteOk, EffectsOk, NotificationsOk, Rank;
    RunInv(states, steps, n);
    var q := states[n].quotes[id];
    forall i, j | 0 <= i < j < |q.history| && !q.history[j].toStatus.Canceled?
      ensures Rank(q.history[i].toStatus) < Rank(q.history[j].toStatus)
    {
      EnteredOnce(q, i, j);
    }
  }

  /**
   * However often side effects are fired, each milestone of a quote is announced at most once, to its agent, and only
   * after it was reached.
   */
  lemma AnnouncedAtMostOnce(states: seq<State>, steps: seq<Step>, n: nat, i: nat, j: nat)
    requires IsRun(states, steps) && n < |states| && i <= j < |states[n].notifications|
    ensures var a, b := states[n].notifications[i], states[n].notifications[j];
            && (a.quoteId == b.quoteId && a.status == b.status ==> i == j)
            && a.status in {Read, Viewed, Signed} && a.quoteId in states[n].quotes
            && Reached(states[n].quotes[a.quoteId], a.status)
            && states[n].quotes[a.quoteId].agentId == Some(a.accountId)
  {
    hide Next, Enabled, QuoteOk;
    RunInv(states, steps, n);
  }

  /** Every accepted move owes its side effects, which have not been started. */
  lemma MoveOwesEffects(s: State, id: string, to: Status, actor: Option<string>, now: int)
    requires id in s.quotes && !IsRefused(s.quotes[id].status, to)
    ensures var s' := Next(s, Write(id, to, actor, now));
            && |s'.quotes[id].history| == |s.quotes[id].history| + 1
            && s'.effects == s.effects + [Effect(id, |s.quotes[id].history|, false)]
  {
    hide IsRefused, HasStamp;
  }

  lemma RecordsGrow(s: State, step: Step)
    requires Enabled(s, step)
    ensures s.activities <= Next(s, step).activities && s.notifications <= Next(s, step).notifications
  {
    hide IsRefused, HasStamp, IsMilestone;
  }

  lemma FiredIsRecorded(s: State, k: nat, outcome: Outcome)
    requires Enabled(s, Fire(k, outcome)) && !s.effects[k].fired
    ensures var s', id := Next(s, Fire(k, outcome)), s.effects[k].quoteId;
            var change, agent := s.quotes[id].history[s.effects[k].row], s.quotes[id].agentId;
            && (outcome != ActivityFails ==> Activity(id, change) in s'.activities)
            && (outcome == Completes && change.toStatus in {Read, Viewed, Signed} && agent.Some? ==>
                  Notification(agent.value, id, change.toStatus) in s'.notifications)
            && (outcome == ActivityFails ==> s'.activities == s.activities)
            && (outcome != Completes ==> s'.notifications == s.notifications)
  {
  }

  /**
   * Once the side effects of a move have been started, the move is in the activity log unless logging it failed, and a
   * milestone has been announced to the agent, if there is one, unless one of the two failed.
   */
  lemma {:induction false} CompletedIsAnnounced(states: seq<State>, steps: seq<Step>, k: nat, n: nat)
    requires IsRun(states, steps) && k < n < |states| && steps[k].Fire?
    requires steps[k].effect < |states[k].effects| && !states[k].effects[steps[k].effect].fired
    requires Enabled(states[k], steps[k])
    ensures var id, row := states[k].effects[steps[k].effect].quoteId, states[k].effects[steps[k].effect].row;
            var change, agent := states[k].quotes[id].history[row], states[k].quotes[id].agentId;
            && (steps[k].outcome != ActivityFails ==> Activity(id, change) in states[n].activities)
            && (steps[k].outcome == Completes && change.toStatus in {Read, Viewed, Signed} && agent.Some? ==>
                  Notification(agent.value, id, change.toStatus) in states[n].notifications)
    decreases n
  {
    hide Next;
    assert states[n] == Next(states[n - 1], steps[n - 1]) && Enabled(states[n - 1], steps[n - 1]);
    if n == k + 1 {
      FiredIsRecorded(states[k], steps[k].effect, steps[k].outcome);
    } else {
      CompletedIsAnnounced(states, steps, k, n - 1);
      RecordsGrow(states[n - 1], steps[n - 1]);
    }
  }

  /** The statuses from SENT to CHARGED and CANCELED leave a timestamp when they are reached, the others never. */
  lemma ReachedIsStamped(states: seq<State>, steps: seq<Step>, n: nat, id: string, status: Status)
    requires IsRun(states, steps) && n < |states| && id in states[n].quotes
    ensures var q := states[n].quotes[id];
            if status in {Sent, Read, Viewed, Signed, Booked, Charged, Canceled} then
              status in q.stamps <==> status in q.stampedBefore || Reached(q, status)
            else
              status in q.stamps <==> status in q.stampedBefore
  {
    hide Next, Enabled, Chains, Rises, Timed, EffectsOk, NotificationsOk, ActivitiesOk, Reached;
    RunInv(states, steps, n);
  }

  /** A canceled quote stays canceled, and a quote never loses its stamps or its history. */
  lemma StepKeeps(s: State, step: Step, id: string)
    requires Enabled(s, step) && id in s.quotes
    ensures id in Next(s, step).quotes
    ensures s.quotes[id].status.Canceled? ==> Next(s, step).quotes[id].status.Canceled?
    ensures s.quotes[id].stamps.Keys <= Next(s, step).quotes[id].stamps.Keys
            && s.quotes[id].history <= Next(s, step).quotes[id].history
    ensures Next(s, step).quotes[id].agentId == s.quotes[id].agentId
  {
  }

  lemma {:induction false} CanceledForGood(states: seq<State>, steps: seq<Step>, i: nat, j: nat, id: string)
    requires IsRun(states, steps) && i <= j < |states| && id in states[i].quotes
    ensures id in states[j].quotes && states[i].quotes[id].history <= states[j].quotes[id].history
    ensures states[i].quotes[id].status.Canceled? ==> states[j].quotes[id].status.Canceled?
    decreases j - i
  {
    hide Next, Enabled;
    if i < j {
      CanceledForGood(states, steps, i, j - 1, id);
      assert Enabled(states[j - 1], steps[j - 1]) && states[j] == Next(states[j - 1], steps[j - 1]);
      StepKeeps(states[j - 1], steps[j - 1], id);
    }
  }

  // ---- the functions themselves ---------------------------------------------------------------------

  datatype BookingStatus = PendingTicketing | Ticketed | Confirmed | BookingCanceled

  datatype Booking = Booking(status: BookingStatus, quoteId: string)

  function QuoteStatusFor(status: BookingStatus): Option<Status> {
    match status
    case Ticketed => Some(Booked)
    case Confirmed => Some(Charged)
    case _ => None
  }

  /** The callback that reconcileQuoteStatus hands back; `effect` is what it owes, if anything. */
  class SideEffects {
    const effect: Option<(string, Option<string>, Change)>
    var fired: bool

    constructor (effect: Option<(string, Option<string>, Change)>)
      ensures this.effect == effect && !fired
    {
      this.effect := effect;
      fired := false;
    }

    method FireSideEffects(store: QuoteStore, outcome: Outcome)
      modifies this`fired, store`activities, store`notifications
      ensures effect.None? || old(fired) ==>
                fired == old(fired) && store.activities == old(store.activities)
                && store.notifications == old(store.notifications)
      ensures effect.Some? && !old(fired) ==>
                && fired
                && store.activities == old(store.activities)
                   + (if outcome.ActivityFails? then [] else [Activity(effect.value.0, effect.value.2)])
                && store.notifications == old(store.notifications)
                                          + (if outcome.Completes?
                                             then NotificationsFor(effect.value.0, effect.value.1,
                                                                   effect.value.2.toStatus) else [])
    {
      if effect.None? || fired {
        return;
      }
      fired := true;
      store.FireQuoteStatusSideEffects(effect.value.0, effect.value.1, effect.value.2, outcome);
    }
  }

  class QuoteStore {
    var quotes: map<string, Quote>
    var bookings: map<string, Booking>
    var activities: seq<Activity>
    var notifications: seq<Notification>

    method NotifyQuoteActivity(quoteId: string, agentId: Option<string>, toStatus: Status)
      modifies this`notifications
      ensures notifications == old(notifications) + NotificationsFor(quoteId, agentId, toStatus)
    {
      if !IsMilestone(toStatus) || agentId.None? {
        return;
      }
      notifications := notifications + [Notification(agentId.value, quoteId, toStatus)];
    }

    method FireQuoteStatusSideEffects(quoteId: string, agentId: Option<string>, change: Change, outcome: Outcome)
      modifies this`activities, this`notifications
      ensures activities == old(activities) + (if outcome.ActivityFails? then [] else [Activity(quoteId, change)])
      ensures notifications == old(notifications)
              + (if outcome.Completes? then NotificationsFor(quoteId, agentId, change.toStatus) else [])
    {
      if outcome.ActivityFails? {
        return;
      }
      activities := activities + [Activity(quoteId, change)];
      if outcome.NotificationFails? {
        return;
      }
      NotifyQuoteActivity(quoteId, agentId, change.toStatus);
    }

    /** One transaction; None for a refused move. */
    method WriteQuoteStatus(quoteId: string, toStatus: Status, actor: Option<string>, now: int)
      returns (before: Option<Quote>)
      requires quoteId in quotes
      modifies this`quotes
      ensures before == if IsRefused(old(quotes)[quoteId].status, toStatus) then None else Some(old(quotes)[quoteId])
      ensures quotes == if before.None? then old(quotes)
              else old(quotes)[quoteId := Written(before.value, toStatus, actor, now)]
      ensures before.Some? ==>
                var was, q := old(quotes)[quoteId], quotes[quoteId];
                && q.status == toStatus && q.lastActivityAt == now && q.agentId == was.agentId
                && q.history == was.history + [Change(was.status, toStatus, actor, now)]
    {
      hide Rank, HasStamp;
      var quote := quotes[quoteId];
      if toStatus != Canceled {
        if quote.status == Canceled || Rank(toStatus) <= Rank(quote.status) {
          return None;
        }
      }
      var updated := quote.(status := toStatus, lastActivityAt := now);
      if HasStamp(toStatus) {
        updated := updated.(stamps := updated.stamps[toStatus := now]);
      }
      updated := updated.(history := updated.history + [Change(quote.status, toStatus, actor, now)]);
      assert updated == Written(quote, toStatus, actor, now);
      quotes := quotes[quoteId := updated];
      return Some(quote);
    }

    method TransitionQuoteStatus(quoteId: string, toStatus: Status, actor: Option<string>, now: int, outcome: Outcome)
      requires quoteId in quotes
      modifies this`quotes, this`activities, this`notifications
      ensures var q := old(quotes)[quoteId];
              var refused := IsRefused(q.status, toStatus);
              && quotes == (if refused then old(quotes) else old(quotes)[quoteId := Written(q, toStatus, actor, now)])
              && activities == old(activities)
                 + (if refused || outcome.ActivityFails? then []
                    else [Activity(quoteId, Change(q.status, toStatus, actor, now))])
              && notifications == old(notifications)
                 + (if refused || !outcome.Completes? then [] else NotificationsFor(quoteId, q.agentId, toStatus))
    {
      var before := WriteQuoteStatus(quoteId, toStatus, actor, now);
      if before.None? {
        return;
      }
      FireQuoteStatusSideEffects(quoteId, before.value.agentId, Change(before.value.status, toStatus, actor, now),
                                 outcome);
    }

    /** `inTransaction` says whether the caller passed its own transaction. */
    method ReconcileQuoteStatus(bookingId: string, inTransaction: bool, actor: Option<string>, now: int,
                                outcome: Outcome)
      returns (transitioned: bool, callback: SideEffects)
      requires bookingId in bookings ==> bookings[bookingId].quoteId in quotes
      modifies this`quotes, this`activities, this`notifications
      ensures fresh(callback) && !callback.fired
      ensures bookingId in bookings ==>
                var id := bookings[bookingId].quoteId;
                var was := old(quotes)[id].status;
                match bookings[bookingId].status
                case Ticketed =>
                  if was in {Booked, Charged, Canceled} then quotes == old(quotes)
                  else id in quotes && quotes[id].status == Booked
                case Confirmed =>
                  if was in {Charged, Canceled} then quotes == old(quotes)
                  else id in quotes && quotes[id].status == Charged
                case _ => quotes == old(quotes)
      ensures var target := Target(old(bookings), bookingId);
              if target.None? then
                !transitioned && callback.effect.None?
                && quotes == old(quotes) && activities == old(activities) && notifications == old(notifications)
              else
                var id := old(bookings)[bookingId].quoteId;
                var q := old(quotes)[id];
                var refused := IsRefused(q.status, target.value);
                var change := Change(q.status, target.value, actor, now);
                && quotes == (if refused then old(quotes) else old(quotes)[id := Written(q, target.value, actor, now)])
                && transitioned == IsReported(q.status, target, inTransaction)
                && (if inTransaction then
                      && activities == old(activities) && notifications == old(notifications)
                      && callback.effect == if refused then None else Some((id, q.agentId, change))
                    else
                      && callback.effect.None? && notifications == old(notifications)
                      && activities == old(activities)
                         + (if refused || outcome.ActivityFails? then [] else [Activity(id, change)]))
    {
      callback := new SideEffects(None);
      transitioned := false;
      if bookingId !in bookings {
        return;
      }
      var booking := bookings[bookingId];
      var target := QuoteStatusFor(booking.status);
      if target.None? {
        return;
      }
      if !inTransaction {
        TransitionQuoteStatus(booking.quoteId, target.value, actor, now, outcome);
        return true, callback;
      }
      var before := WriteQuoteStatus(booking.quoteId, target.value, actor, now);
      if before.None? {
        return;
      }
      callback := new SideEffects(Some((booking.quoteId, before.value.agentId,
                                        Change(before.value.status, target.value, actor, now))));
      transitioned := true;
    }
  }

  function Target(bookings: map<string, Booking>, bookingId: string): Option<Status> {
    if bookingId in bookings then QuoteStatusFor(bookings[bookingId].status) else None
  }

  /** What the result says of a booking whose target is `target`, for a quote in `from`. */
  predicate IsReported(from: Status, target: Option<Status>, inTransaction: bool) {
    target.Some? && (!inTransaction || !IsRefused(from, target.value))
  }

  /**
   * Without a transaction of the caller the answer is "transitioned" for a refused move too: it agrees with what
   * happened exactly when the caller passed one, there was nothing to do, or the quote was neither canceled nor already
   * that far.
   */
  lemma WhenReportIsRight(from: Status, target: Option<Status>, inTransaction: bool)
    ensures IsReported(from, target, inTransaction) == (target.Some? && !IsRefused(from, target.value)) <==>
            inTransaction || target.None? || (!from.Canceled? && Rank(from) < Rank(target.value))
                || target.value.Canceled?
  {
    if target.Some? {
      MovesAreForward(from, target.value);
    }
  }

  /** A wrong report: the booking of a charged quote is put back to ticketed, which does not move the quote. */
  lemma RefusedMoveIsReported()
    ensures QuoteStatusFor(Ticketed) == Some(Booked) && IsRefused(Charged, Booked)
    ensures IsReported(Charged, QuoteStatusFor(Ticketed), false) && !IsReported(Charged, QuoteStatusFor(Ticketed), true)
  {
  }
}
