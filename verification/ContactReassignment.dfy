// Moving a contact to a new owner (performContactReassignment in
// src/server/contact-reassignment.ts). Any number of calls for one contact run at once; the
// compare-and-set of the owner with its two records is one transaction, all else is not.
module ContactReassignment {
  import opened Text

  // ---- the rows of one contact ---------------------------------------------------------------

  /** A move as the activity row and the audit row record it; `author` is the call that made it. */
  datatype Move = Move(previous: Option<string>, newOwner: string, author: nat)

  datatype Table = Table(owner: Option<string>, activities: seq<Move>, audits: seq<Move>)

  /** The transaction: nothing at all unless the owner is still the one that was read. */
  function Claim(t: Table, move: Move): Table {
    if t.owner == move.previous then Table(Some(move.newOwner), t.activities + [move], t.audits + [move]) else t
  }

  function OwnerBefore(initial: Option<string>, moves: seq<Move>, i: nat): Option<string>
    requires i <= |moves|
  {
    if i == 0 then initial else Some(moves[i - 1].newOwner)
  }

  predicate Links(initial: Option<string>, moves: seq<Move>, i: nat)
    requires i < |moves|
  {
    moves[i].previous == OwnerBefore(initial, moves, i) && moves[i].previous != Some(moves[i].newOwner)
  }

  /** The records are a chain of real moves from the first owner to the current one, each written to both tables. */
  ghost predicate TableOk(initial: Option<string>, t: Table) {
    && (forall i :: 0 <= i < |t.activities| ==> Links(initial, t.activities, i))
    && t.owner == OwnerBefore(initial, t.activities, |t.activities|)
    && t.audits == t.activities
  }

  lemma ClaimOk(initial: Option<string>, t: Table, move: Move)
    requires TableOk(initial, t) && move.previous != Some(move.newOwner)
    ensures TableOk(initial, Claim(t, move))
  {
    var t' := Claim(t, move);
    forall i: nat | i < |t'.activities| ensures Links(initial, t'.activities, i) {
      assert i < |t.activities| ==> Links(initial, t.activities, i);
    }
  }

  /** Two moves to the same owner have a move to somebody else between them. */
  lemma MovedAwayBetween(initial: Option<string>, t: Table, i: nat, j: nat)
    requires TableOk(initial, t) && i < j < |t.activities| && t.activities[i].newOwner == t.activities[j].newOwner
    ensures exists k :: i < k < j && t.activities[k].newOwner != t.activities[j].newOwner
  {
    assert Links(initial, t.activities, j);
    assert t.activities[j - 1].newOwner != t.activities[j].newOwner;
  }

  // ---- calls as interleaved steps --------------------------------------------------------------

  datatype Result = Unchanged | Conflict | Completed | Failed | Died

  datatype Phase =
    | Started
    | HasRead(previous: Option<string>)
    | Lost
    | Moved(previous: Option<string>)
    | ToldPrevious(previous: Option<string>)
    | ToldBoth(previous: Option<string>)
    | Ended(result: Result)

  datatype Call = Call(newOwner: string, phase: Phase)

  /** An in-app notification about the move of call `author`. */
  datatype Notice = Notice(account: string, author: nat, isNewOwner: bool)

  datatype State = State(initial: Option<string>, table: Table, calls: seq<Call>, notices: seq<Notice>,
                         mailed: seq<nat>)

  datatype Step =
    | Arrive(newOwner: string)
    | ReadOwner(c: nat)
    | TryClaim(c: nat)
    | ClaimUnanswered(c: nat)   // committed, but the caller sees an error
    | Reread(c: nat)
    | TellPrevious(c: nat)
    | TellNew(c: nat)
    | QueueMails(c: nat)
    | Fail(c: nat)              // any other error, which the caller sees
    | Die(c: nat)

  function PhaseOf(s: State, c: nat): Phase {
    if c < |s.calls| then s.calls[c].phase else Ended(Died)
  }

  predicate Enabled(s: State, step: Step) {
    match step
    case Arrive(_) => true
    case ReadOwner(c) => PhaseOf(s, c).Started?
    case TryClaim(c) => PhaseOf(s, c).HasRead?
    case ClaimUnanswered(c) => PhaseOf(s, c).HasRead? && s.table.owner == PhaseOf(s, c).previous
    case Reread(c) => PhaseOf(s, c).Lost?
    case TellPrevious(c) => PhaseOf(s, c).Moved?
    case TellNew(c) => PhaseOf(s, c).ToldPrevious?
    case QueueMails(c) => PhaseOf(s, c).ToldBoth?
    case Fail(c) => !PhaseOf(s, c).Ended?
    case Die(c) => !PhaseOf(s, c).Ended?
  }

  function WithPhase(s: State, c: nat, phase: Phase): State
    requires c < |s.calls|
  {
    s.(calls := s.calls[c := s.calls[c].(phase := phase)])
  }

  function MoveOf(s: State, c: nat): Move
    requires PhaseOf(s, c).HasRead?
  {
    Move(PhaseOf(s, c).previous, s.calls[c].newOwner, c)
  }

  function Next(s: State, step: Step): State
    requires Enabled(s, step)
  {
    match step
    case Arrive(newOwner) => s.(calls := s.calls + [Call(newOwner, Started)])
    case ReadOwner(c) =>
      WithPhase(s, c, if s.table.owner == Some(s.calls[c].newOwner) then Ended(Unchanged) else HasRead(s.table.owner))
    case TryClaim(c) =>
      var previous := PhaseOf(s, c).previous;
      WithPhase(s, c, if s.table.owner == previous then Moved(previous) else Lost)
      .(table := Claim(s.table, MoveOf(s, c)))
    case ClaimUnanswered(c) => WithPhase(s, c, Ended(Failed)).(table := Claim(s.table, MoveOf(s, c)))
    case Reread(c) =>
      WithPhase(s, c, Ended(if s.table.owner == Some(s.calls[c].newOwner) then Unchanged else Conflict))
    case TellPrevious(c) =>
      var previous := PhaseOf(s, c).previous;
      WithPhase(s, c, ToldPrevious(previous))
      .(notices := s.notices + if previous.Some? then [Notice(previous.value, c, false)] else [])
    case TellNew(c) =>
      WithPhase(s, c, ToldBoth(PhaseOf(s, c).previous)).(notices := s.notices + [Notice(s.calls[c].newOwner, c, true)])
    case QueueMails(c) =>
      WithPhase(s, c, Ended(Completed)).(mailed := s.mailed + if PhaseOf(s, c).previous.Some? then [c] else [])
    case Fail(c) => WithPhase(s, c, Ended(Failed))
    case Die(c) => WithPhase(s, c, Ended(Died))
  }

  // ---- the invariant --------------------------------------------------------------------------------

  predicate HasMove(s: State, author: nat) {
    exists i :: 0 <= i < |s.table.activities| && s.table.activities[i].author == author
  }

  predicate HasMoveFrom(s: State, previous: Option<string>, author: nat)
    requires author < |s.calls|
  {
    Move(previous, s.calls[author].newOwner, author) in s.table.activities
  }

  predicate IsTold(notices: seq<Notice>, author: nat, isNewOwner: bool) {
    exists n :: 0 <= n < |notices| && notices[n].author == author && notices[n].isNewOwner == isNewOwner
  }

  /**
   * What each phase says about the records: a call that has not moved the contact, or lost, wrote none; one that
   * completed told everyone.
   */
  ghost predicate CallOk(s: State, c: nat)
    requires c < |s.calls|
  {
    match s.calls[c].phase
    case Started => !HasMove(s, c)
    case HasRead(previous) => !HasMove(s, c) && previous != Some(s.calls[c].newOwner)
    case Lost => !HasMove(s, c)
    case Moved(previous) => HasMoveFrom(s, previous, c)
    case ToldPrevious(previous) => HasMoveFrom(s, previous, c) && (previous.Some? ==> IsTold(s.notices, c, false))
    case ToldBoth(previous) => HasMoveFrom(s, previous, c) && (previous.Some? ==> IsTold(s.notices, c, false))
        && IsTold(s.notices, c, true)
    case Ended(Unchanged) => !HasMove(s, c)
    case Ended(Conflict) => !HasMove(s, c)
    case Ended(Completed) => HasFinished(s, c)
    case Ended(_) => true
  }

  /** Both owners are told, and mailed, if there was a previous one. */
  predicate IsFinished(s: State, previous: Option<string>, c: nat) {
    IsTold(s.notices, c, true) && (previous.Some? ==> IsTold(s.notices, c, false) && c in s.mailed)
  }

  ghost predicate HasFinished(s: State, c: nat)
    requires c < |s.calls|
  {
    exists previous :: HasMoveFrom(s, previous, c) && IsFinished(s, previous, c)
  }

  lemma FinishedStays(s: State, s': State, c: nat)
    requires c < |s.calls| && c < |s'.calls| && s'.calls[c].newOwner == s.calls[c].newOwner && HasFinished(s, c)
    requires forall m :: m in s.table.activities ==> m in s'.table.activities
    requires forall isNewOwner :: IsTold(s.notices, c, isNewOwner) ==> IsTold(s'.notices, c, isNewOwner)
    requires forall d :: d in s.mailed ==> d in s'.mailed
    ensures HasFinished(s', c)
  {
    hide IsTold;
    var previous :| HasMoveFrom(s, previous, c) && IsFinished(s, previous, c);
    assert HasMoveFrom(s', previous, c) && IsFinished(s', previous, c);
  }

  /** Mails are queued once, by calls that completed. */
  ghost predicate MailsOk(s: State) {
    && (forall i :: 0 <= i < |s.mailed| ==> PhaseOf(s, s.mailed[i]) == Ended(Completed) && HasMove(s, s.mailed[i]))
    && (forall i, j :: 0 <= i < j < |s.mailed| ==> s.mailed[i] != s.mailed[j])
  }

  ghost predicate AuthorsOk(s: State) {
    && (forall i :: 0 <= i < |s.table.activities| ==>
          s.table.activities[i].author < |s.calls|
              && s.calls[s.table.activities[i].author].newOwner == s.table.activities[i].newOwner)
    && (forall i, j :: 0 <= i < j < |s.table.activities| ==>
        s.table.activities[i].author != s.table.activities[j].author)
  }

  /** Nobody is told of a move that was not made, and nobody twice of the same. */
  ghost predicate NoticeOk(s: State, n: nat)
    requires n < |s.notices|
  {
    var note := s.notices[n];
    && note.author < |s.calls|
    && (if note.isNewOwner
        then note.account == s.calls[note.author].newOwner && HasMove(s, note.author)
            && IsPastTellingNew(s.calls[note.author].phase)
        else HasMoveFrom(s, Some(note.account), note.author) && IsPastTellingPrevious(s.calls[note.author].phase))
  }

  predicate IsPastTellingPrevious(phase: Phase) {
    phase.ToldPrevious? || IsPastTellingNew(phase)
  }

  predicate IsPastTellingNew(phase: Phase) {
    phase.ToldBoth? || phase in {Ended(Completed), Ended(Failed), Ended(Died)}
  }

  ghost predicate NoticesOk(s: State) {
    && (forall n: nat :: n < |s.notices| ==> NoticeOk(s, n))
    && (forall n, m :: 0 <= n < m < |s.notices| ==>
          s.notices[n].author != s.notices[m].author || s.notices[n].isNewOwner != s.notices[m].isNewOwner)
  }

  ghost predicate Inv(s: State) {
    && TableOk(s.initial, s.table)
    && AuthorsOk(s)
    && (forall c: nat :: c < |s.calls| ==> CallOk(s, c))
    && NoticesOk(s)
    && MailsOk(s)
  }

  /** Steps that leave the records and the notices alone. */
  lemma PhaseStepInv(s: State, c: nat, phase: Phase)
    requires Inv(s) && c < |s.calls| && CallOk(WithPhase(s, c, phase), c)
    requires s.calls[c].phase != Ended(Completed)
    requires IsPastTellingNew(s.calls[c].phase) ==> IsPastTellingNew(phase)
    requires IsPastTellingPrevious(s.calls[c].phase) ==> IsPastTellingPrevious(phase)
    ensures Inv(WithPhase(s, c, phase))
  {
    hide TableOk, IsPastTellingNew, IsPastTellingPrevious, IsTold, HasFinished;
    var s' := WithPhase(s, c, phase);
    forall d: nat | d < |s'.calls| ensures CallOk(s', d) {
      assert CallOk(s, d);
      if s.calls[d].phase == Ended(Completed) { FinishedStays(s, s', d); }
    }
    forall n: nat | n < |s'.notices| ensures NoticeOk(s', n) {
      assert NoticeOk(s, n);
    }
  }

  lemma ArriveInv(s: State, newOwner: string)
    requires Inv(s)
    ensures Inv(Next(s, Arrive(newOwner)))
  {
    hide TableOk, IsPastTellingNew, IsPastTellingPrevious, IsTold, HasFinished;
    var s' := Next(s, Arrive(newOwner));
    forall c: nat | c < |s'.calls| ensures CallOk(s', c) {
      assert c < |s.calls| ==> CallOk(s, c);
      if c < |s.calls| && s.calls[c].phase == Ended(Completed) { FinishedStays(s, s', c); }
    }
    forall n: nat | n < |s'.notices| ensures NoticeOk(s', n) {
      assert NoticeOk(s, n);
    }
  }

  /** The transaction of a call that finds the owner it read. */
  lemma MoveInv(s: State, c: nat, phase: Phase)
    requires Inv(s) && PhaseOf(s, c).HasRead? && s.table.owner == PhaseOf(s, c).previous
    requires phase in {Moved(PhaseOf(s, c).previous), Ended(Failed)}
    ensures Inv(WithPhase(s, c, phase).(table := Claim(s.table, MoveOf(s, c))))
  {
    hide TableOk, IsPastTellingNew, IsPastTellingPrevious, IsTold, HasFinished;
    var s' := WithPhase(s, c, phase).(table := Claim(s.table, MoveOf(s, c)));
    assert CallOk(s, c);
    ClaimOk(s.initial, s.table, MoveOf(s, c));
    assert s'.table.activities[|s.table.activities|] == MoveOf(s, c);
    forall d: nat | d < |s'.calls| ensures CallOk(s', d) {
      assert CallOk(s, d);
      if s.calls[d].phase == Ended(Completed) { FinishedStays(s, s', d); }
      SameMoves(s, s', d, MoveOf(s, c));
    }
    forall i | 0 <= i < |s.mailed| ensures HasMove(s', s.mailed[i]) {
      SameMoves(s, s', s.mailed[i], MoveOf(s, c));
    }
    forall n: nat | n < |s'.notices| ensures NoticeOk(s', n) {
      assert NoticeOk(s, n);
      SameMoves(s, s', s.notices[n].author, MoveOf(s, c));
      NotReadYet(s, c, n);
    }
  }

  lemma SameMoves(s: State, s': State, d: nat, move: Move)
    requires s'.table.activities == s.table.activities + [move]
    ensures HasMove(s', d) <==> HasMove(s, d) || move.author == d
  {
    assert s'.table.activities[|s.table.activities|] == move;
    if HasMove(s, d) {
      var i :| 0 <= i < |s.table.activities| && s.table.activities[i].author == d;
      assert s'.table.activities[i].author == d;
    }
  }

  lemma NotReadYet(s: State, c: nat, n: nat)
    requires n < |s.notices| && NoticeOk(s, n) && PhaseOf(s, c).HasRead?
    ensures s.notices[n].author != c
  {
  }

  /** A notification about a move that was made, of a kind not yet sent for it. */
  lemma NoticeInv(s: State, c: nat, phase: Phase, note: Notice)
    requires Inv(s) && c < |s.calls| && note.author == c
    requires note.isNewOwner ==>
               && s.calls[c].phase.ToldPrevious? && phase == ToldBoth(s.calls[c].phase.previous)
               && note.account == s.calls[c].newOwner
    requires !note.isNewOwner ==>
               && s.calls[c].phase.Moved? && phase == ToldPrevious(s.calls[c].phase.previous)
               && s.calls[c].phase.previous == Some(note.account)
    ensures Inv(WithPhase(s, c, phase).(notices := s.notices + [note]))
  {
    hide TableOk, AuthorsOk, IsTold, HasFinished;
    var s' := WithPhase(s, c, phase).(notices := s.notices + [note]);
    assert CallOk(s, c);
    PhaseKeepsMoves(s, c, phase);
    ToldStays(s.notices, note);
    MoveFromIsMove(s, s.calls[c].phase.previous, c);
    forall n: nat | n < |s'.notices| ensures NoticeOk(s', n) {
      if n < |s.notices| {
        assert NoticeOk(s, n);
      }
    }
    forall n: nat | n < |s.notices| ensures s.notices[n].author != c || s.notices[n].isNewOwner != note.isNewOwner {
      assert NoticeOk(s, n);
    }
    forall d: nat | d < |s'.calls| ensures CallOk(s', d) {
      assert CallOk(s, d);
      if s.calls[d].phase == Ended(Completed) { FinishedStays(s, s', d); }
    }
    SameAuthors(s, s');
  }

  lemma SameAuthors(s: State, s': State)
    requires AuthorsOk(s) && s'.table == s.table && |s'.calls| == |s.calls|
    requires forall c :: 0 <= c < |s.calls| ==> s'.calls[c].newOwner == s.calls[c].newOwner
    ensures AuthorsOk(s')
  {
  }

  lemma ToldStays(notices: seq<Notice>, note: Notice)
    ensures forall c, isNewOwner :: IsTold(notices, c, isNewOwner) ==> IsTold(notices + [note], c, isNewOwner)
    ensures IsTold(notices + [note], note.author, note.isNewOwner)
  {
    var all := notices + [note];
    assert all[|notices|] == note;
    forall c, isNewOwner | IsTold(notices, c, isNewOwner) ensures IsTold(all, c, isNewOwner) {
      var n :| 0 <= n < |notices| && notices[n].author == c && notices[n].isNewOwner == isNewOwner;
      assert all[n].author == c && all[n].isNewOwner == isNewOwner;
    }
  }

  lemma MoveFromIsMove(s: State, previous: Option<string>, c: nat)
    requires c < |s.calls| && HasMoveFrom(s, previous, c)
    ensures HasMove(s, c)
  {
    var i :| 0 <= i < |s.table.activities| && s.table.activities[i] == Move(previous, s.calls[c].newOwner, c);
  }

  lemma FinishInv(s: State, c: nat)
    requires Inv(s) && Enabled(s, QueueMails(c))
    ensures Inv(Next(s, QueueMails(c)))
  {
    hide TableOk, AuthorsOk, IsTold, HasFinished;
    var s' := Next(s, QueueMails(c));
    var previous := PhaseOf(s, c).previous;
    assert CallOk(s, c);
    MoveFromIsMove(s, previous, c);
    SameAuthors(s, s');
    JustFinished(s', previous, c);
    forall d: nat | d < |s'.calls| ensures CallOk(s', d) {
      assert CallOk(s, d);
      if s.calls[d].phase == Ended(Completed) { FinishedStays(s, s', d); }
    }
    forall n: nat | n < |s'.notices| ensures NoticeOk(s', n) {
      assert NoticeOk(s, n);
    }
  }

  lemma JustFinished(s: State, previous: Option<string>, c: nat)
    requires c < |s.calls| && HasMoveFrom(s, previous, c) && IsFinished(s, previous, c)
    ensures HasFinished(s, c)
  {
  }

  lemma PhaseKeepsMoves(s: State, c: nat, phase: Phase)
    requires c < |s.calls|
    ensures HasMove(WithPhase(s, c, phase), c) <==> HasMove(s, c)
    ensures forall previous :: HasMoveFrom(WithPhase(s, c, phase), previous, c) <==> HasMoveFrom(s, previous, c)
  {
  }

  lemma StepInv(s: State, step: Step)
    requires Inv(s) && Enabled(s, step)
    ensures Inv(Next(s, step))
  {
    hide TableOk, AuthorsOk, NoticesOk, MailsOk, HasMove, HasMoveFrom, IsTold;
    if step.Arrive? {
      ArriveInv(s, step.newOwner);
      return;
    }
    var c := step.c;
    assert CallOk(s, c);
    var s' := Next(s, step);
    PhaseKeepsMoves(s, c, PhaseOf(s', c));
    match step
    case ReadOwner(_) => PhaseStepInv(s, c, PhaseOf(s', c));
    case TryClaim(_) =>
      if s.table.owner == PhaseOf(s, c).previous {
        MoveInv(s, c, PhaseOf(s', c));
      } else {
        PhaseStepInv(s, c, Lost);
      }
    case ClaimUnanswered(_) => MoveInv(s, c, Ended(Failed));
    case Reread(_) => PhaseStepInv(s, c, PhaseOf(s', c));
    case TellPrevious(_) =>
      var previous := PhaseOf(s, c).previous;
      if previous.Some? {
        NoticeInv(s, c, ToldPrevious(previous), Notice(previous.value, c, false));
      } else {
        assert s.notices + [] == s.notices;
        PhaseStepInv(s, c, ToldPrevious(previous));
      }
    case TellNew(_) =>
      NoticeInv(s, c, ToldBoth(PhaseOf(s, c).previous), Notice(s.calls[c].newOwner, c, true));
    case QueueMails(_) => FinishInv(s, c);
    case Fail(_) => PhaseStepInv(s, c, Ended(Failed));
    case Die(_) => PhaseStepInv(s, c, Ended(Died));
  }

  // ---- whole runs -------------------------------------------------------------------------------------

  predicate IsStart(s: State) {
    s.table == Table(s.initial, [], []) && s.calls == [] && s.notices == [] && s.mailed == []
  }

  ghost predicate IsRun(states: seq<State>, steps: seq<Step>) {
    && |states| == |steps| + 1 && IsStart(states[0])
    && forall k :: 0 <= k < |steps| ==> Enabled(states[k], steps[k]) && states[k + 1] == Next(states[k], steps[k])
  }

  lemma {:induction false} RunInv(states: seq<State>, steps: seq<Step>, n: nat)
    requires IsRun(states, steps) && n < |states|
    ensures Inv(states[n]) && states[n].initial == states[0].initial
    decreases n
  {
    hide Inv, Next, Enabled;
    if n > 0 {
      RunInv(states, steps, n - 1);
      assert Enabled(states[n - 1], steps[n - 1]) && states[n] == Next(states[n - 1], steps[n - 1]);
      StepInv(states[n - 1], steps[n - 1]);
      SameInitial(states[n - 1], steps[n - 1]);
    } else {
      StartInv(states[0]);
    }
  }

  lemma StartInv(s: State)
    requires IsStart(s)
    ensures Inv(s)
  {
  }

  lemma SameInitial(s: State, step: Step)
    requires Enabled(s, step)
    ensures Next(s, step).initial == s.initial
  {
  }

  /**
   * At any time the records chain from the first owner to the current one, match one to one, and none is a move to the
   * same owner.
   */
  lemma RecordsTellTheMoves(states: seq<State>, steps: seq<Step>, n: nat)
    requires IsRun(states, steps) && n < |states|
    ensures TableOk(states[0].initial, states[n].table)
    ensures forall c: nat :: PhaseOf(states[n], c) in {Lost, Ended(Unchanged), Ended(Conflict)} ==>
              !HasMove(states[n], c)
    ensures forall c: nat :: PhaseOf(states[n], c) == Ended(Completed) ==> HasMove(states[n], c)
  {
    hide TableOk, AuthorsOk, NoticesOk, HasMove, HasMoveFrom, Next, Enabled;
    RunInv(states, steps, n);
    forall c: nat | c < |states[n].calls|
      ensures states[n].calls[c].phase in {Lost, Ended(Unchanged), Ended(Conflict)} ==> !HasMove(states[n], c)
      ensures states[n].calls[c].phase == Ended(Completed) ==> HasMove(states[n], c)
    {
      assert CallOk(states[n], c);
      if states[n].calls[c].phase == Ended(Completed) {
        var previous :| HasMoveFrom(states[n], previous, c) && IsFinished(states[n], previous, c);
        MoveFromIsMove(states[n], previous, c);
      }
    }
  }

  /** Calls that all ask for one owner move the contact at most once, however they are repeated or race. */
  lemma RepeatedCallsMoveOnce(states: seq<State>, steps: seq<Step>, n: nat, newOwner: string)
    requires IsRun(states, steps) && n < |states|
    requires forall c :: 0 <= c < |states[n].calls| ==> states[n].calls[c].newOwner == newOwner
    ensures |states[n].table.activities| <= 1
  {
    hide Next, Enabled, NoticesOk, CallOk, TableOk;
    RunInv(states, steps, n);
    var t := states[n].table;
    if |t.activities| > 1 {
      MovedAwayBetween(states[n].initial, t, 0, 1);
    }
  }

  /**
   * A call only returns quietly without having moved the contact if it saw, in that very step, the owner it asked for.
   */
  lemma {:induction false} QuietMeansAlreadyDone(states: seq<State>, steps: seq<Step>, n: nat, c: nat)
    requires IsRun(states, steps) && n < |states| && PhaseOf(states[n], c) == Ended(Unchanged)
    ensures exists k :: 0 <= k < n && c < |states[k].calls| && steps[k] in {ReadOwner(c), Reread(c)}
              && states[k].table.owner == Some(states[k].calls[c].newOwner)
    decreases n
  {
    if n > 0 {
      var s, step := states[n - 1], steps[n - 1];
      assert Enabled(s, step) && states[n] == Next(s, step);
      if PhaseOf(s, c) == Ended(Unchanged) {
        QuietMeansAlreadyDone(states, steps, n - 1, c);
      } else {
        QuietStep(s, step, c);
      }
    }
  }

  lemma QuietStep(s: State, step: Step, c: nat)
    requires Enabled(s, step) && PhaseOf(s, c) != Ended(Unchanged) && PhaseOf(Next(s, step), c) == Ended(Unchanged)
    ensures c < |s.calls| && step in {ReadOwner(c), Reread(c)} && s.table.owner == Some(s.calls[c].newOwner)
  {
  }

  /**
   * A call that completed has told the new owner, and told and mailed the previous one if there was one; mails are
   * queued once.
   */
  lemma CompletedToldEveryone(states: seq<State>, steps: seq<Step>, n: nat, c: nat)
    requires IsRun(states, steps) && n < |states| && PhaseOf(states[n], c) == Ended(Completed)
    ensures c < |states[n].calls|
    ensures HasFinished(states[n], c)
    ensures MailsOk(states[n])
  {
    hide Next, Enabled, TableOk, AuthorsOk, NoticesOk, MailsOk, IsTold, HasMove, HasMoveFrom, HasFinished;
    RunInv(states, steps, n);
    assert CallOk(states[n], c);
  }

  /** Everyone who is told is a party of a recorded move, and is told of it once. */
  lemma ToldOnce(states: seq<State>, steps: seq<Step>, n: nat, i: nat, j: nat)
    requires IsRun(states, steps) && n < |states| && i <= j < |states[n].notices|
    ensures var a, b := states[n].notices[i], states[n].notices[j];
            && (a.author == b.author && a.isNewOwner == b.isNewOwner ==> i == j)
            && HasMove(states[n], a.author)
  {
    hide Next, Enabled, CallOk, TableOk, AuthorsOk, IsPastTellingNew, IsPastTellingPrevious;
    RunInv(states, steps, n);
    var s := states[n];
    assert NoticeOk(s, i);
    if !s.notices[i].isNewOwner {
      MoveFromIsMove(s, Some(s.notices[i].account), s.notices[i].author);
    }
  }

  // ---- the steps of one call ----------------------------------------------------------------------------

  /** The read ends a call that has nothing to do, and otherwise remembers the owner. */
  lemma ReadDecides(s: State, c: nat)
    requires c < |s.calls| && Enabled(s, ReadOwner(c))
    ensures var s', owner := Next(s, ReadOwner(c)), s.table.owner;
            && s'.table == s.table && s'.notices == s.notices && s'.mailed == s.mailed
            && PhaseOf(s', c) == if owner == Some(s.calls[c].newOwner) then Ended(Unchanged) else HasRead(owner)
  {
  }

  /** The transaction moves the contact, with both records, if and only if its owner is the one remembered. */
  lemma ClaimDecides(s: State, c: nat)
    requires c < |s.calls| && Enabled(s, TryClaim(c))
    ensures var s', previous, newOwner := Next(s, TryClaim(c)), PhaseOf(s, c).previous, s.calls[c].newOwner;
            var move := Move(previous, newOwner, c);
            && s'.notices == s.notices && s'.mailed == s.mailed
            && (if s.table.owner == previous then
                  PhaseOf(s', c) == Moved(previous)
                  && s'.table == Table(Some(newOwner), s.table.activities + [move], s.table.audits + [move])
                else PhaseOf(s', c) == Lost && s'.table == s.table)
  {
  }

  /** A call that lost the race reads once more, and succeeds quietly if and only if the owner is the one it wanted. */
  lemma RereadDecides(s: State, c: nat)
    requires c < |s.calls| && Enabled(s, Reread(c))
    ensures var s' := Next(s, Reread(c));
            && s'.table == s.table && s'.notices == s.notices && s'.mailed == s.mailed
            && PhaseOf(s', c) == Ended(if s.table.owner == Some(s.calls[c].newOwner) then Unchanged else Conflict)
  {
  }

  /** After the move: a previous owner is told first and mailed last, the new one is told in between. */
  lemma MoveIsTold(s: State, c: nat)
    requires c < |s.calls| && PhaseOf(s, c).Moved?
    ensures var previous, newOwner := PhaseOf(s, c).previous, s.calls[c].newOwner;
            && Enabled(s, TellPrevious(c))
            && var s1 := Next(s, TellPrevious(c));
            && Enabled(s1, TellNew(c))
            && var s2 := Next(s1, TellNew(c));
            && Enabled(s2, QueueMails(c))
            && var s3 := Next(s2, QueueMails(c));
            && s3.table == s.table && PhaseOf(s3, c) == Ended(Completed)
            && s3.notices == s.notices + (if previous.Some? then [Notice(previous.value, c, false)] else [])
                             + [Notice(newOwner, c, true)]
            && s3.mailed == s.mailed + (if previous.Some? then [c] else [])
  {
  }

  ghost predicate Leads(s: State, step: Step, s': State) {
    Enabled(s, step) && Next(s, step) == s'
  }

  const MOVED := [Move(Some("a"), "b", 0)]
  const R0 := State(Some("a"), Table(Some("a"), [], []), [], [], [])
  const R1 := R0.(calls := [Call("b", Started)])
  const R2 := R0.(calls := [Call("b", Started), Call("c", Started)])
  const R3 := R0.(calls := [Call("b", HasRead(Some("a"))), Call("c", Started)])
  const R4 := R0.(calls := [Call("b", HasRead(Some("a"))), Call("c", HasRead(Some("a")))])
  const R5 := R0.(table := Table(Some("b"), MOVED, MOVED),
                  calls := [Call("b", Moved(Some("a"))), Call("c", HasRead(Some("a")))])
  const R6 := R5.(calls := [Call("b", Moved(Some("a"))), Call("c", Lost)])
  const R7 := R5.(calls := [Call("b", Moved(Some("a"))), Call("c", Ended(Conflict))])

  lemma BothRead()
    ensures Leads(R0, Arrive("b"), R1) && Leads(R1, Arrive("c"), R2)
    ensures Leads(R2, ReadOwner(0), R3) && Leads(R3, ReadOwner(1), R4)
  {
  }

  lemma OneMoves()
    ensures Leads(R4, TryClaim(0), R5) && Leads(R5, TryClaim(1), R6) && Leads(R6, Reread(1), R7)
  {
  }

  /** Two calls that have read the same owner and want different ones: one moves the contact, the other conflicts. */
  lemma RacingCallsConflict(states: seq<State>, steps: seq<Step>)
    requires steps == [Arrive("b"), Arrive("c"), ReadOwner(0), ReadOwner(1), TryClaim(0), TryClaim(1), Reread(1)]
    requires states == [R0, R1, R2, R3, R4, R5, R6, R7]
    ensures IsRun(states, steps) && states[7].table.owner == Some("b") && PhaseOf(states[7], 1) == Ended(Conflict)
  {
    BothRead();
    OneMoves();
    hide Enabled, Next;
    assert Leads(states[0], steps[0], states[1]) && Leads(states[1], steps[1], states[2])
           && Leads(states[2], steps[2], states[3]) && Leads(states[3], steps[3], states[4]);
    assert Leads(states[4], steps[4], states[5]) && Leads(states[5], steps[5], states[6])
           && Leads(states[6], steps[6], states[7]);
  }

  // ---- one call -----------------------------------------------------------------------------------------

  function AfterMoves(t: Table, moves: seq<Move>): Table {
    if moves == [] then t else Claim(AfterMoves(t, moves[..|moves| - 1]), moves[|moves| - 1])
  }

  /** Each of them moves the contact if its owner is the one the move starts from, and else does nothing. */
  lemma OneMoreMove(t: Table, moves: seq<Move>, move: Move)
    ensures var before, after := AfterMoves(t, moves), AfterMoves(t, moves + [move]);
            if before.owner == move.previous then after.owner == Some(move.newOwner) else after == before
  {
    assert (moves + [move])[..|moves|] == moves;
  }

  class Contact {
    var table: Table
    var notices: seq<Notice>
    var mailed: seq<nat>

    method ClaimOwner(move: Move) returns (isMoved: bool)
      modifies this`table
      ensures table == Claim(old(table), move) && isMoved == (old(table).owner == move.previous)
    {
      if table.owner != move.previous {
        return false;
      }
      table := table.(owner := Some(move.newOwner));
      table := table.(activities := table.activities + [move]);
      table := table.(audits := table.audits + [move]);
      return true;
    }

    /** What other calls do to the contact meanwhile. */
    method Others(moves: seq<Move>)
      modifies this`table
      ensures table == AfterMoves(old(table), moves)
    {
      assert moves[..0] == [];
      for i := 0 to |moves|
        invariant table == AfterMoves(old(table), moves[..i])
      {
        assert moves[..i + 1][..i] == moves[..i];
        var isMoved := ClaimOwner(moves[i]);
      }
      assert moves[..|moves|] == moves;
    }

    /** performContactReassignment; other calls move the contact before the transaction and before the second read. */
    method PerformContactReassignment(author: nat, newOwner: string, isAccount: bool, before: seq<Move>,
                                      after: seq<Move>) returns (result: Result)
      modifies this
      ensures var read := old(table).owner;
              var raced := AfterMoves(old(table), before);
              if !isAccount || read == Some(newOwner) then
                && result == (if isAccount then Unchanged else Failed)
                && table == old(table) && notices == old(notices) && mailed == old(mailed)
              else if raced.owner == read then
                && result == Completed
                && table == Table(Some(newOwner), raced.activities + [Move(read, newOwner, author)],
                                  raced.audits + [Move(read, newOwner, author)])
                && notices == old(notices) + (if read.Some? then [Notice(read.value, author, false)] else [])
                   + [Notice(newOwner, author, true)]
                && mailed == old(mailed) + (if read.Some? then [author] else [])
              else
                && table == AfterMoves(raced, after) && notices == old(notices) && mailed == old(mailed)
                && result == if table.owner == Some(newOwner) then Unchanged else Conflict
    {
      if !isAccount {
        return Failed;
      }
      var previous := table.owner;
      if previous == Some(newOwner) {
        return Unchanged;
      }
      Others(before);
      var isMoved := ClaimOwner(Move(previous, newOwner, author));
      if !isMoved {
        Others(after);
        var current := table.owner;
        return if current == Some(newOwner) then Unchanged else Conflict;
      }
      if previous.Some? {
        notices := notices + [Notice(previous.value, author, false)];
      }
      notices := notices + [Notice(newOwner, author, true)];
      if previous.Some? {
        mailed := mailed + [author];
      }
      return Completed;
    }
  }
}
