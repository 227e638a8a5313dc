// One poller per browser, however many tabs are open (src/lib/use-shared-poll.ts).
//
// Every tab runs the same hook. The tabs meet in one exclusive lock of the Web Locks API:
// a tab queues for it, or steals it, and polls in a loop for as long as it holds it. The
// lock manager, the user and the browser act in any order; what a tab does in one turn of
// its event loop is one step, and the grant of the lock and its callback are one step.
module SharedPoll {
  import opened Text

  /** The loop a granted request starts. */
  datatype Loop = NoLoop | Running(stop: bool) | Exited

  datatype Phase =
    | Waiting   // queued behind the holder
    | Stealing  // asked to take the lock, not yet granted
    | Holding   // holds the lock
    | Lost      // was stolen from; the rejection has not reached its tab yet
    | Settled   // aborted, released, or its rejection has been handled

  /** One call of locks.request; requests are numbered in the order of the calls. */
  datatype Request = Request(tab: nat, phase: Phase, loop: Loop)

  /** The variables of the hook in one tab; `closed` once the browser has torn the tab down. */
  datatype Tab = Tab(closed: bool, disposed: bool, hidden: bool, currentLoop: Option<nat>, pendingWait: Option<nat>)

  datatype State = State(tabs: seq<Tab>, requests: seq<Request>, holder: Option<nat>)

  const START := State([], [], None)

  // ---- what a tab does ---------------------------------------------------------------

  ghost predicate WellFormed(s: State) {
    && (forall r :: 0 <= r < |s.requests| ==> s.requests[r].tab < |s.tabs|)
    && (forall t :: 0 <= t < |s.tabs| && s.tabs[t].currentLoop.Some? ==> OwnRequest(s, t, s.tabs[t].currentLoop.value))
    && (forall t :: 0 <= t < |s.tabs| && s.tabs[t].pendingWait.Some? ==> OwnRequest(s, t, s.tabs[t].pendingWait.value))
    && (s.holder.Some? ==> s.holder.value < |s.requests|)
  }

  predicate OwnRequest(s: State, t: nat, r: nat) {
    r < |s.requests| && s.requests[r].tab == t
  }

  function WithTab(s: State, t: nat, tab: Tab): State
    requires t < |s.tabs|
  {
    s.(tabs := s.tabs[t := tab])
  }

  function WithRequest(s: State, r: nat, request: Request): State
    requires r < |s.requests|
  {
    s.(requests := s.requests[r := request])
  }

  /** AbortController.abort: only a request still in the queue is affected. */
  function AbortWait(s: State, wait: Option<nat>): State
    requires wait.Some? ==> wait.value < |s.requests|
  {
    if wait.Some? && s.requests[wait.value].phase == Waiting
    then WithRequest(s, wait.value, s.requests[wait.value].(phase := Settled))
    else s
  }

  function RequestLeadership(s: State, t: nat, steal: bool): State
    requires t < |s.tabs|
    requires s.tabs[t].pendingWait.Some? ==> s.tabs[t].pendingWait.value < |s.requests|
  {
    if s.tabs[t].disposed then s
    else if steal then
      var s' := WithTab(AbortWait(s, s.tabs[t].pendingWait), t, s.tabs[t].(pendingWait := None));
      s'.(requests := s'.requests + [Request(t, Stealing, NoLoop)])
    else
      var s' := WithTab(s, t, s.tabs[t].(pendingWait := Some(|s.requests|)));
      s'.(requests := s'.requests + [Request(t, Waiting, NoLoop)])
  }

  /** The hook's effect starts in a new tab. */
  function Open(s: State, hidden: bool): State {
    var s' := s.(tabs := s.tabs + [Tab(false, false, hidden, None, None)]);
    RequestLeadership(s', |s.tabs|, !hidden)
  }

  /** handleVisibility, when the tab has just been shown. */
  function Show(s: State, t: nat): State
    requires WellFormed(s) && t < |s.tabs|
  {
    var s' := WithTab(s, t, s.tabs[t].(hidden := false));
    if s.tabs[t].currentLoop.Some? then s' else RequestLeadership(s', t, true)
  }

  function StopLoop(request: Request): Request {
    if request.loop.Running? then request.(loop := Running(true)) else request
  }

  /** The cleanup function of the effect. */
  function Unmount(s: State, t: nat): State
    requires WellFormed(s) && t < |s.tabs|
  {
    var s' := AbortWait(WithTab(s, t, s.tabs[t].(disposed := true)), s.tabs[t].pendingWait);
    if s.tabs[t].currentLoop.Some? then
      var l := s.tabs[t].currentLoop.value;
      WithRequest(s', l, StopLoop(s'.requests[l]))
    else s'
  }

  /** The rejection handler of a request that was stolen from. */
  function Notice(s: State, r: nat): State
    requires WellFormed(s) && r < |s.requests|
  {
    var t := s.requests[r].tab;
    var s' := WithRequest(s, r, StopLoop(s.requests[r].(phase := Settled)));
    var s'' := if s.tabs[t].currentLoop == Some(r) then WithTab(s', t, s.tabs[t].(currentLoop := None)) else s';
    RequestLeadership(s'', t, false)
  }

  // ---- what the browser does -----------------------------------------------------------

  /** The lock callback of request `r`, which now holds the lock. */
  function Granted(s: State, r: nat): State
    requires WellFormed(s) && r < |s.requests|
  {
    var t := s.requests[r].tab;
    if s.tabs[t].disposed then
      WithRequest(s, r, s.requests[r].(phase := Settled)).(holder := None)
    else
      WithTab(WithRequest(s, r, s.requests[r].(phase := Holding, loop := Running(false))), t,
              s.tabs[t].(currentLoop := Some(r)))
      .(holder := Some(r))
  }

  function GrantSteal(s: State, r: nat): State
    requires WellFormed(s) && r < |s.requests|
  {
    var s' := if s.holder.Some? then WithRequest(s, s.holder.value, s.requests[s.holder.value].(phase := Lost)) else s;
    Granted(s', r)
  }

  /** A stopped loop ends; if its request still holds the lock, the lock is released. */
  function Exit(s: State, r: nat): State
    requires r < |s.requests|
  {
    var request := s.requests[r].(loop := Exited);
    if request.phase == Holding then WithRequest(s, r, request.(phase := Settled)).(holder := None)
    else WithRequest(s, r, request)
  }

  /** The browser tears a tab down: its requests vanish and a lock it held is released. */
  function Close(s: State, t: nat): State
    requires t < |s.tabs|
  {
    var requests := seq(|s.requests|, r requires 0 <= r < |s.requests| =>
      if s.requests[r].tab == t then Request(t, Settled, Exited) else s.requests[r]);
    State(s.tabs[t := s.tabs[t].(closed := true)], requests,
          if s.holder.Some? && s.holder.value < |requests| && requests[s.holder.value].phase == Holding
          then s.holder else None)
  }

  datatype Step =
    | OpenTab(hidden: bool) | ShowTab(t: nat) | HideTab(t: nat) | UnmountTab(t: nat) | CloseTab(t: nat)
    | DoGrantSteal(r: nat) | DoGrantWaiting(r: nat) | DoNotice(r: nat) | DoExit(r: nat)

  /** Steps nobody has to decide on: the lock manager and the tabs take them by themselves. */
  predicate IsInternal(step: Step) {
    step.DoGrantSteal? || step.DoGrantWaiting? || step.DoNotice? || step.DoExit?
  }

  predicate IsLive(tab: Tab) {
    !tab.closed && !tab.disposed
  }

  predicate MayExit(s: State, r: nat) {
    && r < |s.requests| && s.requests[r].loop.Running?
    && (s.requests[r].loop.stop || (s.requests[r].tab < |s.tabs| && s.tabs[s.requests[r].tab].disposed))
  }

  predicate Enabled(s: State, step: Step) {
    match step
    case OpenTab(_) => true
    case ShowTab(t) => t < |s.tabs| && IsLive(s.tabs[t]) && s.tabs[t].hidden
    case HideTab(t) => t < |s.tabs| && IsLive(s.tabs[t]) && !s.tabs[t].hidden
    case UnmountTab(t) => t < |s.tabs| && IsLive(s.tabs[t])
    case CloseTab(t) => t < |s.tabs| && !s.tabs[t].closed
    case DoGrantSteal(r) => r < |s.requests| && s.requests[r].phase == Stealing
    case DoGrantWaiting(r) => r < |s.requests| && s.requests[r].phase == Waiting && s.holder.None?
    case DoNotice(r) => r < |s.requests| && s.requests[r].phase == Lost
    case DoExit(r) => MayExit(s, r)
  }

  function Next(s: State, step: Step): State
    requires WellFormed(s) && Enabled(s, step)
  {
    match step
    case OpenTab(hidden) => Open(s, hidden)
    case ShowTab(t) => Show(s, t)
    case HideTab(t) => WithTab(s, t, s.tabs[t].(hidden := true))
    case UnmountTab(t) => Unmount(s, t)
    case CloseTab(t) => Close(s, t)
    case DoGrantSteal(r) => GrantSteal(s, r)
    case DoGrantWaiting(r) => Granted(s, r)
    case DoNotice(r) => Notice(s, r)
    case DoExit(r) => Exit(s, r)
  }

  // ---- the invariant ---------------------------------------------------------------------

  /** A request is in a state its tab can explain. */
  ghost predicate RequestOk(s: State, r: nat)
    requires WellFormed(s) && r < |s.requests|
  {
    var q := s.requests[r];
    var tab := s.tabs[q.tab];
    && (q.phase == Holding <==> s.holder == Some(r))
    && (q.phase == Holding ==> q.loop.Running?)
    && (q.phase in {Waiting, Stealing} ==> q.loop == NoLoop)
    && (q.phase == Lost ==> q.loop != NoLoop)
    && (tab.closed ==> q.phase == Settled && !q.loop.Running?)
    && (IsLive(tab) && q.phase in {Holding, Lost} ==> q.loop == Running(false))
    && (IsLive(tab) && q.loop == Running(false) ==> q.phase in {Holding, Lost})
    && (IsLive(tab) && q.phase == Holding ==> tab.currentLoop == Some(r))
  }

  /**
   * Request `r` keeps tab `t` in the running: it leads, waits, is about to take over, or will queue again when told.
   */
  predicate Keeps(s: State, t: nat, r: nat) {
    r < |s.requests| && s.requests[r].tab == t && s.requests[r].phase in {Waiting, Stealing, Holding, Lost}
  }

  ghost predicate Covered(s: State, t: nat) {
    exists r :: Keeps(s, t, r)
  }

  ghost predicate CurrentOk(s: State, t: nat)
    requires WellFormed(s) && t < |s.tabs|
  {
    IsLive(s.tabs[t]) && s.tabs[t].currentLoop.Some? ==>
        s.requests[s.tabs[t].currentLoop.value].phase in {Holding, Lost}
  }

  ghost predicate TabOk(s: State, t: nat, except: int)
    requires WellFormed(s) && t < |s.tabs|
  {
    CurrentOk(s, t) && (IsLive(s.tabs[t]) && t != except ==> Covered(s, t))
  }

  /** Everything but the coverage of tab `except`. */
  ghost predicate InvBut(s: State, except: int) {
    && WellFormed(s)
    && (forall r: nat :: r < |s.requests| ==> RequestOk(s, r))
    && (forall t: nat :: t < |s.tabs| ==> TabOk(s, t, except))
  }

  ghost predicate Inv(s: State) {
    InvBut(s, -1)
  }

  lemma StartIsFine()
    ensures Inv(START)
  {
  }

  /** A step that keeps every other tab's requests in the running keeps those tabs covered. */
  lemma TabsCarryOver(s: State, s': State, e: int, e': int)
    requires WellFormed(s) && WellFormed(s') && |s'.tabs| == |s.tabs|
    requires forall t: nat :: t < |s.tabs| ==> TabOk(s, t, e)
    requires forall t: nat :: t < |s.tabs| ==> CurrentOk(s', t)
    requires forall t: nat :: t < |s.tabs| && t != e' && IsLive(s'.tabs[t]) ==> IsLive(s.tabs[t]) && t != e
    requires forall t: nat, r :: t != e' && Keeps(s, t, r) ==> Keeps(s', t, r)
    ensures forall t: nat :: t < |s'.tabs| ==> TabOk(s', t, e')
  {
    forall t: nat | t < |s'.tabs| ensures TabOk(s', t, e') {
      assert TabOk(s, t, e);
      if IsLive(s'.tabs[t]) && t != e' {
        var r :| Keeps(s, t, r);
        assert Keeps(s', t, r);
      }
    }
  }

  /** Aborting a wait of tab `t` touches nothing but the coverage of `t`. */
  lemma AbortInv(s: State, t: nat, wait: Option<nat>)
    requires t < |s.tabs| && InvBut(s, t) && (wait.Some? ==> OwnRequest(s, t, wait.value))
    ensures InvBut(AbortWait(s, wait), t)
  {
    var s' := AbortWait(s, wait);
    forall u: nat | u < |s.tabs| ensures CurrentOk(s', u) {
      assert TabOk(s, u, t);
    }
    forall q: nat | q < |s.requests| ensures RequestOk(s', q) {
      assert RequestOk(s, q);
    }
    TabsCarryOver(s, s', t, t);
  }

  /** A new request covers its tab. */
  lemma NewRequestInv(s: State, t: nat, phase: Phase, wait: Option<nat>)
    requires t < |s.tabs| && InvBut(s, t) && IsLive(s.tabs[t]) && phase in {Waiting, Stealing}
    requires wait.None? || wait == Some(|s.requests|)
    ensures Inv(State(s.tabs[t := s.tabs[t].(pendingWait := wait)], s.requests + [Request(t, phase, NoLoop)], s.holder))
  {
    var s' := State(s.tabs[t := s.tabs[t].(pendingWait := wait)], s.requests + [Request(t, phase, NoLoop)], s.holder);
    forall u: nat | u < |s.tabs| ensures CurrentOk(s', u) {
      assert TabOk(s, u, t);
    }
    forall q: nat | q < |s'.requests| ensures RequestOk(s', q) {
      if q < |s.requests| {
        assert RequestOk(s, q);
      }
    }
    TabsCarryOver(s, s', t, t);
    assert Keeps(s', t, |s.requests|);
    forall u: nat | u < |s.tabs| ensures TabOk(s', u, -1) {
      assert TabOk(s', u, t);
    }
  }

  lemma RequestLeadershipInv(s: State, t: nat, steal: bool)
    requires t < |s.tabs| && InvBut(s, t) && !s.tabs[t].closed
    ensures Inv(RequestLeadership(s, t, steal))
  {
    if s.tabs[t].disposed {
      forall u: nat | u < |s.tabs| ensures TabOk(s, u, -1) {
        assert TabOk(s, u, t);
      }
    } else if steal {
      AbortInv(s, t, s.tabs[t].pendingWait);
      NewRequestInv(AbortWait(s, s.tabs[t].pendingWait), t, Stealing, None);
    } else {
      NewRequestInv(s, t, Waiting, Some(|s.requests|));
    }
  }

  lemma OpenInv(s: State, hidden: bool)
    requires Inv(s)
    ensures Inv(Open(s, hidden))
  {
    var s' := s.(tabs := s.tabs + [Tab(false, false, hidden, None, None)]);
    forall t: nat | t < |s'.tabs| ensures TabOk(s', t, |s.tabs|) {
      if t < |s.tabs| {
        assert TabOk(s, t, -1);
        if IsLive(s.tabs[t]) {
          var r :| Keeps(s, t, r);
          assert Keeps(s', t, r);
        }
      }
    }
    forall q: nat | q < |s.requests| ensures RequestOk(s', q) {
      assert RequestOk(s, q);
    }
    RequestLeadershipInv(s', |s.tabs|, !hidden);
  }

  lemma SetHiddenInv(s: State, t: nat, hidden: bool)
    requires Inv(s) && t < |s.tabs|
    ensures Inv(WithTab(s, t, s.tabs[t].(hidden := hidden)))
  {
    var s' := WithTab(s, t, s.tabs[t].(hidden := hidden));
    forall u: nat | u < |s.tabs| ensures CurrentOk(s', u) {
      assert TabOk(s, u, -1);
    }
    forall r: nat | r < |s.requests| ensures RequestOk(s', r) {
      assert RequestOk(s, r);
    }
    TabsCarryOver(s, s', -1, -1);
  }

  lemma WeakenInv(s: State, t: nat)
    requires Inv(s)
    ensures InvBut(s, t)
  {
    forall u: nat | u < |s.tabs| ensures TabOk(s, u, t) {
      assert TabOk(s, u, -1);
    }
  }

  lemma ShowInv(s: State, t: nat)
    requires Inv(s) && Enabled(s, ShowTab(t))
    ensures Inv(Show(s, t))
  {
    SetHiddenInv(s, t, false);
    if s.tabs[t].currentLoop.None? {
      var s' := WithTab(s, t, s.tabs[t].(hidden := false));
      WeakenInv(s', t);
      RequestLeadershipInv(s', t, true);
    }
  }

  lemma DisposeInv(s: State, t: nat)
    requires Inv(s) && t < |s.tabs|
    ensures InvBut(WithTab(s, t, s.tabs[t].(disposed := true)), t)
  {
    var s' := WithTab(s, t, s.tabs[t].(disposed := true));
    forall u: nat | u < |s.tabs| ensures CurrentOk(s', u) {
      assert TabOk(s, u, -1);
    }
    forall q: nat | q < |s.requests| ensures RequestOk(s', q) {
      assert RequestOk(s, q);
    }
    TabsCarryOver(s, s', -1, t);
  }

  lemma StopInv(s: State, t: nat, r: nat)
    requires t < |s.tabs| && InvBut(s, t) && s.tabs[t].disposed && OwnRequest(s, t, r)
    ensures Inv(WithRequest(s, r, StopLoop(s.requests[r])))
  {
    var s' := WithRequest(s, r, StopLoop(s.requests[r]));
    forall u: nat | u < |s.tabs| ensures CurrentOk(s', u) {
      assert TabOk(s, u, t);
    }
    forall q: nat | q < |s.requests| ensures RequestOk(s', q) {
      assert RequestOk(s, q);
    }
    TabsCarryOver(s, s', t, t);
    forall u: nat | u < |s.tabs| ensures TabOk(s', u, -1) {
      assert TabOk(s', u, t);
    }
  }

  lemma UnmountInv(s: State, t: nat)
    requires Inv(s) && Enabled(s, UnmountTab(t))
    ensures Inv(Unmount(s, t))
  {
    DisposeInv(s, t);
    var s1 := WithTab(s, t, s.tabs[t].(disposed := true));
    AbortInv(s1, t, s.tabs[t].pendingWait);
    var s2 := AbortWait(s1, s.tabs[t].pendingWait);
    if s.tabs[t].currentLoop.Some? {
      StopInv(s2, t, s.tabs[t].currentLoop.value);
    } else {
      forall u: nat | u < |s.tabs| ensures TabOk(s2, u, -1) {
        assert TabOk(s2, u, t);
      }
    }
  }

  lemma CloseInv(s: State, t: nat)
    requires Inv(s) && Enabled(s, CloseTab(t))
    ensures Inv(Close(s, t))
  {
    var s' := Close(s, t);
    forall u: nat | u < |s.tabs| ensures CurrentOk(s', u) {
      assert TabOk(s, u, -1);
    }
    forall r: nat | r < |s.requests| ensures RequestOk(s', r) {
      assert RequestOk(s, r);
    }
    TabsCarryOver(s, s', -1, t);
    forall u: nat | u < |s.tabs| ensures TabOk(s', u, -1) {
      assert TabOk(s', u, t);
    }
  }

  lemma GrantedToDisposedInv(s: State, r: nat)
    requires Inv(s) && r < |s.requests| && s.requests[r].phase in {Waiting, Stealing} && s.holder.None?
    requires s.tabs[s.requests[r].tab].disposed
    ensures Inv(WithRequest(s, r, s.requests[r].(phase := Settled)))
  {
    var t := s.requests[r].tab;
    var s' := WithRequest(s, r, s.requests[r].(phase := Settled));
    forall u: nat | u < |s.tabs| ensures CurrentOk(s', u) {
      assert TabOk(s, u, -1);
    }
    forall q: nat | q < |s.requests| ensures RequestOk(s', q) {
      assert RequestOk(s, q);
    }
    TabsCarryOver(s, s', -1, t);
    forall u: nat | u < |s.tabs| ensures TabOk(s', u, -1) {
      assert TabOk(s', u, t);
    }
  }

  lemma GrantedToLiveInv(s: State, r: nat)
    requires Inv(s) && r < |s.requests| && s.requests[r].phase in {Waiting, Stealing} && s.holder.None?
    requires !s.tabs[s.requests[r].tab].disposed
    ensures Inv(Granted(s, r))
  {
    var t := s.requests[r].tab;
    var s' := Granted(s, r);
    assert RequestOk(s, r);
    forall q: nat | q < |s.requests| ensures RequestOk(s', q) {
      assert RequestOk(s, q);
    }
    assert Keeps(s', t, r);
    forall u: nat | u < |s.tabs| ensures TabOk(s', u, -1) {
      assert TabOk(s, u, -1);
      if u != t && IsLive(s.tabs[u]) {
        var k :| Keeps(s, u, k);
        assert Keeps(s', u, k);
      }
    }
  }

  lemma GrantedInv(s: State, r: nat)
    requires Inv(s) && r < |s.requests| && s.requests[r].phase in {Waiting, Stealing} && s.holder.None?
    ensures Inv(Granted(s, r))
  {
    if s.tabs[s.requests[r].tab].disposed {
      GrantedToDisposedInv(s, r);
    } else {
      GrantedToLiveInv(s, r);
    }
  }

  /** Taking the lock away leaves its holder waiting for the news. */
  lemma StolenInv(s: State, h: nat)
    requires Inv(s) && s.holder == Some(h)
    ensures Inv(WithRequest(s, h, s.requests[h].(phase := Lost)).(holder := None))
  {
    var s' := WithRequest(s, h, s.requests[h].(phase := Lost)).(holder := None);
    assert RequestOk(s, h);
    forall u: nat | u < |s.tabs| ensures CurrentOk(s', u) {
      assert TabOk(s, u, -1);
    }
    forall q: nat | q < |s.requests| ensures RequestOk(s', q) {
      assert RequestOk(s, q);
    }
    TabsCarryOver(s, s', -1, -1);
  }

  lemma GrantStealInv(s: State, r: nat)
    requires Inv(s) && Enabled(s, DoGrantSteal(r))
    ensures Inv(GrantSteal(s, r))
  {
    if s.holder.Some? {
      var h := s.holder.value;
      assert RequestOk(s, h);
      StolenInv(s, h);
      var s' := WithRequest(s, h, s.requests[h].(phase := Lost)).(holder := None);
      GrantedInv(s', r);
      assert GrantSteal(s, r) == Granted(s', r);
    } else {
      GrantedInv(s, r);
    }
  }

  lemma ForgetLoopInv(s: State, t: nat)
    requires Inv(s) && t < |s.tabs|
    requires s.tabs[t].currentLoop.Some? && s.requests[s.tabs[t].currentLoop.value].phase == Lost
    ensures Inv(WithTab(s, t, s.tabs[t].(currentLoop := None)))
  {
    var s' := WithTab(s, t, s.tabs[t].(currentLoop := None));
    forall u: nat | u < |s.tabs| ensures CurrentOk(s', u) {
      assert TabOk(s, u, -1);
    }
    forall q: nat | q < |s.requests| ensures RequestOk(s', q) {
      assert RequestOk(s, q);
    }
    TabsCarryOver(s, s', -1, -1);
  }

  lemma SettleLostInv(s: State, r: nat)
    requires Inv(s) && r < |s.requests| && s.requests[r].phase == Lost
             && s.tabs[s.requests[r].tab].currentLoop != Some(r)
    ensures InvBut(WithRequest(s, r, StopLoop(s.requests[r].(phase := Settled))), s.requests[r].tab)
    ensures !s.tabs[s.requests[r].tab].closed
  {
    var s' := WithRequest(s, r, StopLoop(s.requests[r].(phase := Settled)));
    assert RequestOk(s, r);
    forall u: nat | u < |s.tabs| ensures CurrentOk(s', u) {
      assert TabOk(s, u, -1);
    }
    forall q: nat | q < |s.requests| ensures RequestOk(s', q) {
      assert RequestOk(s, q);
    }
    TabsCarryOver(s, s', -1, s.requests[r].tab);
  }

  lemma NoticeInv(s: State, r: nat)
    requires Inv(s) && Enabled(s, DoNotice(r))
    ensures Inv(Notice(s, r))
  {
    hide StopLoop, RequestLeadership, RequestOk, TabOk;
    var t := s.requests[r].tab;
    var s1 := if s.tabs[t].currentLoop == Some(r) then WithTab(s, t, s.tabs[t].(currentLoop := None)) else s;
    if s.tabs[t].currentLoop == Some(r) {
      ForgetLoopInv(s, t);
    }
    SettleLostInv(s1, r);
    RequestLeadershipInv(WithRequest(s1, r, StopLoop(s.requests[r].(phase := Settled))), t, false);
  }

  lemma ExitInv(s: State, r: nat)
    requires Inv(s) && Enabled(s, DoExit(r))
    ensures Inv(Exit(s, r))
  {
    var s' := Exit(s, r);
    assert RequestOk(s, r);
    forall q: nat | q < |s.requests| ensures RequestOk(s', q) {
      assert RequestOk(s, q);
    }
    forall u: nat | u < |s.tabs| ensures TabOk(s', u, -1) {
      assert TabOk(s, u, -1);
      if IsLive(s.tabs[u]) {
        var k :| Keeps(s, u, k);
        assert Keeps(s', u, k);
      }
    }
  }

  /** Every step keeps the invariant. */
  lemma StepInv(s: State, step: Step)
    requires Inv(s) && Enabled(s, step)
    ensures Inv(Next(s, step))
  {
    hide Inv, WellFormed, Open, Show, Unmount, Close, GrantSteal, Granted, Notice, Exit;
    match step
    case OpenTab(hidden) => OpenInv(s, hidden);
    case ShowTab(t) => ShowInv(s, t);
    case HideTab(t) => SetHiddenInv(s, t, true);
    case UnmountTab(t) => UnmountInv(s, t);
    case CloseTab(t) => CloseInv(s, t);
    case DoGrantSteal(r) => GrantStealInv(s, r);
    case DoGrantWaiting(r) => GrantedInv(s, r);
    case DoNotice(r) => NoticeInv(s, r);
    case DoExit(r) => ExitInv(s, r);
  }

  // ---- runs ---------------------------------------------------------------------------------

  ghost predicate IsRunFrom(states: seq<State>, steps: seq<Step>) {
    && |states| == |steps| + 1
    && forall i :: 0 <= i < |steps| ==>
         WellFormed(states[i]) && Enabled(states[i], steps[i]) && states[i + 1] == Next(states[i], steps[i])
  }

  lemma {:induction false} RunInv(states: seq<State>, steps: seq<Step>, i: nat)
    requires IsRunFrom(states, steps) && i < |states| && Inv(states[0])
    ensures Inv(states[i])
  {
    hide Inv, Next, Enabled;
    if i > 0 {
      RunInv(states, steps, i - 1);
      StepInv(states[i - 1], steps[i - 1]);
    }
  }

  /** The loop of request `r` goes on polling. */
  ghost predicate Polls(s: State, r: nat)
    requires WellFormed(s)
  {
    r < |s.requests| && IsLive(s.tabs[s.requests[r].tab]) && s.requests[r].loop == Running(false)
  }

  predicate NoticePending(s: State, r: nat) {
    r < |s.requests| && s.requests[r].phase == Lost
  }

  /**
   * Over any interleaving: a polling loop holds the lock or has its notice pending, so with no notice pending at most
   * one loop polls; and every live tab leads, waits, is taking over, or has a notice pending that will queue it again.
   */
  lemma LeadershipIsSafe(states: seq<State>, steps: seq<Step>, i: nat)
    requires IsRunFrom(states, steps) && states[0] == START && i < |states|
    ensures var s := states[i];
            && WellFormed(s)
            && (forall r: nat :: Polls(s, r) ==> s.holder == Some(r) || NoticePending(s, r))
            && ((forall r: nat :: !NoticePending(s, r)) ==>
                  forall r: nat, q: nat :: Polls(s, r) && Polls(s, q) ==> r == q)
            && (forall t: nat :: t < |s.tabs| && IsLive(s.tabs[t]) ==> Covered(s, t))
  {
    StartIsFine();
    RunInv(states, steps, i);
    var s := states[i];
    forall r: nat | Polls(s, r) ensures s.holder == Some(r) || NoticePending(s, r) {
      assert RequestOk(s, r);
    }
    forall t: nat | t < |s.tabs| && IsLive(s.tabs[t]) ensures Covered(s, t) {
      assert TabOk(s, t, -1);
    }
  }

  // ---- left to itself, the system comes to rest with one leader --------------------------------

  /** How much there is left to happen to a request without anybody deciding anything. */
  function Weight(s: State, r: nat): nat
    requires r < |s.requests|
  {
    (match s.requests[r].phase
     case Waiting => 1
     case Stealing => 4
     case Lost => 3
     case Holding => 0
     case Settled => 0) + (if MayExit(s, r) then 1 else 0)
  }

  function Weights(s: State): seq<nat> {
    seq(|s.requests|, r requires 0 <= r < |s.requests| => Weight(s, r))
  }

  function Sum(ws: seq<nat>): nat {
    if ws == [] then 0 else Sum(ws[..|ws| - 1]) + ws[|ws| - 1]
  }

  function Measure(s: State): nat {
    Sum(Weights(s))
  }

  lemma {:induction false} SumUpdate(ws: seq<nat>, i: nat, w: nat)
    requires i < |ws|
    ensures Sum(ws[i := w]) == Sum(ws) - ws[i] + w
  {
    var n := |ws| - 1;
    if i < n {
      SumUpdate(ws[..n], i, w);
      assert ws[i := w][..n] == ws[..n][i := w];
    } else {
      assert ws[i := w][..n] == ws[..n];
    }
  }

  lemma SumAppend(ws: seq<nat>, w: nat)
    ensures Sum(ws + [w]) == Sum(ws) + w
  {
    assert (ws + [w])[..|ws|] == ws;
  }

  lemma ExitMeasure(s: State, r: nat)
    requires Inv(s) && Enabled(s, DoExit(r))
    ensures Measure(Exit(s, r)) < Measure(s)
  {
    var s' := Exit(s, r);
    assert RequestOk(s, r);
    assert Weights(s') == Weights(s)[r := Weight(s', r)];
    SumUpdate(Weights(s), r, Weight(s', r));
  }

  lemma GrantedMeasure(s: State, r: nat)
    requires Inv(s) && r < |s.requests| && s.requests[r].phase in {Waiting, Stealing} && s.holder.None?
    ensures Measure(Granted(s, r)) == Measure(s) - (if s.requests[r].phase == Waiting then 1 else 4)
  {
    var s' := Granted(s, r);
    assert RequestOk(s, r);
    assert Weights(s') == Weights(s)[r := 0];
    SumUpdate(Weights(s), r, 0);
  }

  lemma GrantStealMeasure(s: State, r: nat)
    requires Inv(s) && Enabled(s, DoGrantSteal(r))
    ensures Measure(GrantSteal(s, r)) < Measure(s)
  {
    if s.holder.Some? {
      var h := s.holder.value;
      assert RequestOk(s, h);
      StolenInv(s, h);
      var s' := WithRequest(s, h, s.requests[h].(phase := Lost)).(holder := None);
      assert Weights(s') == Weights(s)[h := Weight(s', h)];
      SumUpdate(Weights(s), h, Weight(s', h));
      GrantedMeasure(s', r);
      assert GrantSteal(s, r) == Granted(s', r);
    } else {
      GrantedMeasure(s, r);
    }
  }

  lemma SettleMeasure(s: State, r: nat)
    requires Inv(s) && r < |s.requests| && s.requests[r].phase == Lost
    ensures Measure(WithRequest(s, r, StopLoop(s.requests[r].(phase := Settled)))) <= Measure(s) - 2
  {
    var s' := WithRequest(s, r, StopLoop(s.requests[r].(phase := Settled)));
    assert RequestOk(s, r);
    assert Weights(s') == Weights(s)[r := Weight(s', r)];
    SumUpdate(Weights(s), r, Weight(s', r));
  }

  lemma ForgetMeasure(s: State, t: nat)
    requires t < |s.tabs|
    ensures Measure(WithTab(s, t, s.tabs[t].(currentLoop := None))) == Measure(s)
  {
    assert Weights(WithTab(s, t, s.tabs[t].(currentLoop := None))) == Weights(s);
  }

  lemma QueueMeasure(s: State, t: nat)
    requires t < |s.tabs| && (s.tabs[t].pendingWait.Some? ==> s.tabs[t].pendingWait.value < |s.requests|)
    ensures Measure(RequestLeadership(s, t, false)) <= Measure(s) + 1
  {
    var s' := RequestLeadership(s, t, false);
    if !s.tabs[t].disposed {
      assert Weights(s') == Weights(s) + [1];
      SumAppend(Weights(s), 1);
    }
  }

  lemma NoticeMeasure(s: State, r: nat)
    requires Inv(s) && Enabled(s, DoNotice(r))
    ensures Measure(Notice(s, r)) < Measure(s)
  {
    hide Measure, RequestLeadership, StopLoop;
    var t := s.requests[r].tab;
    SettleMeasure(s, r);
    var s' := WithRequest(s, r, StopLoop(s.requests[r].(phase := Settled)));
    ForgetMeasure(s', t);
    QueueMeasure(if s.tabs[t].currentLoop == Some(r) then WithTab(s', t, s.tabs[t].(currentLoop := None)) else s', t);
  }

  /** Every step nobody decides on brings the system closer to rest. */
  lemma InternalStepsSettle(s: State, step: Step)
    requires Inv(s) && Enabled(s, step) && IsInternal(step)
    ensures Measure(Next(s, step)) < Measure(s)
  {
    hide Measure, GrantSteal, Granted, Notice, Exit;
    match step
    case DoGrantSteal(r) => GrantStealMeasure(s, r);
    case DoGrantWaiting(r) => GrantedMeasure(s, r);
    case DoNotice(r) => NoticeMeasure(s, r);
    case DoExit(r) => ExitMeasure(s, r);
  }

  /** So a run of such steps is never longer than the measure of the state it starts in. */
  lemma {:induction false} InternalRunsAreShort(states: seq<State>, steps: seq<Step>)
    requires IsRunFrom(states, steps) && Inv(states[0]) && forall i :: 0 <= i < |steps| ==> IsInternal(steps[i])
    ensures |steps| + Measure(states[|steps|]) <= Measure(states[0])
  {
    hide Measure, Inv;
    if |steps| > 0 {
      var n := |steps| - 1;
      InternalRunsAreShort(states[..n + 1], steps[..n]);
      RunInv(states, steps, n);
      InternalStepsSettle(states[n], steps[n]);
    }
  }

  /** Nothing is left that happens by itself. */
  ghost predicate AtRest(s: State) {
    forall r: nat :: r < |s.requests| ==> IsQuiet(s, r)
  }

  predicate IsQuiet(s: State, r: nat)
    requires r < |s.requests|
  {
    && s.requests[r].phase !in {Stealing, Lost}
    && (s.requests[r].phase == Waiting ==> s.holder.Some?)
    && !MayExit(s, r)
  }

  lemma RestMeansNoStep(s: State)
    ensures AtRest(s) <==> forall step :: IsInternal(step) ==> !Enabled(s, step)
  {
    if AtRest(s) {
      forall step | IsInternal(step) ensures !Enabled(s, step) {
        if step.r < |s.requests| {
          assert IsQuiet(s, step.r);
        }
      }
    } else {
      var r: nat :| r < |s.requests| && !IsQuiet(s, r);
      assert Enabled(s, DoGrantSteal(r)) || Enabled(s, DoNotice(r)) || Enabled(s, DoGrantWaiting(r))
             || Enabled(s, DoExit(r));
    }
  }

  lemma HolderAtRest(s: State, t: nat)
    requires Inv(s) && AtRest(s) && t < |s.tabs| && IsLive(s.tabs[t])
    ensures s.holder.Some? && Polls(s, s.holder.value)
  {
    assert TabOk(s, t, -1);
    var k :| Keeps(s, t, k);
    assert RequestOk(s, k) && IsQuiet(s, k);
    assert RequestOk(s, s.holder.value) && IsQuiet(s, s.holder.value);
  }

  /**
   * At rest, if any tab is live, exactly one loop polls, it holds the lock, and every other live tab waits in the
   * queue.
   */
  lemma OneLeaderAtRest(s: State, t: nat)
    requires Inv(s) && AtRest(s) && t < |s.tabs| && IsLive(s.tabs[t])
    ensures s.holder.Some? && Polls(s, s.holder.value)
    ensures forall r: nat :: Polls(s, r) ==> s.holder == Some(r)
    ensures || s.requests[s.holder.value].tab == t
            || exists r: nat :: OwnRequest(s, t, r) && s.requests[r].phase == Waiting
  {
    HolderAtRest(s, t);
    forall r: nat | Polls(s, r) ensures s.holder == Some(r) {
      assert RequestOk(s, r) && IsQuiet(s, r);
    }
    assert TabOk(s, t, -1);
    var k :| Keeps(s, t, k);
    assert RequestOk(s, k) && IsQuiet(s, k);
    assert OwnRequest(s, t, k);
  }

  // ---- the tab being looked at -------------------------------------------------------------------

  predicate IsSteal(s: State, r: nat) {
    r < |s.requests| && s.requests[r].phase == Stealing
  }

  predicate LeadsTab(s: State, t: nat) {
    s.holder.Some? && OwnRequest(s, t, s.holder.value)
  }

  /** Tab `t` leads, or has the only steals in flight. */
  ghost predicate IsAhead(s: State, t: nat) {
    && t < |s.tabs| && IsLive(s.tabs[t])
    && (forall r: nat :: IsSteal(s, r) ==> s.requests[r].tab == t)
    && ((exists r: nat :: IsSteal(s, r)) || LeadsTab(s, t))
  }

  lemma StaysAheadGranted(s: State, r: nat, t: nat)
    requires Inv(s) && IsAhead(s, t) && Enabled(s, DoGrantWaiting(r))
    ensures IsAhead(Granted(s, r), t)
  {
    var s' := Granted(s, r);
    var k :| IsSteal(s, k);
    assert IsSteal(s', k);
    forall q: nat | IsSteal(s', q) ensures s'.requests[q].tab == t {
      assert IsSteal(s, q);
    }
  }

  lemma StaysAheadGrantSteal(s: State, r: nat, t: nat)
    requires Inv(s) && IsAhead(s, t) && Enabled(s, DoGrantSteal(r))
    ensures IsAhead(GrantSteal(s, r), t)
  {
    var s' := GrantSteal(s, r);
    assert IsSteal(s, r);
    forall q: nat | IsSteal(s', q) ensures s'.requests[q].tab == t {
      assert IsSteal(s, q);
    }
  }

  lemma StaysAheadNotice(s: State, r: nat, t: nat)
    requires Inv(s) && IsAhead(s, t) && Enabled(s, DoNotice(r))
    ensures IsAhead(Notice(s, r), t)
  {
    var s' := Notice(s, r);
    assert RequestOk(s, r);
    if exists k :: IsSteal(s, k) {
      var k :| IsSteal(s, k);
      assert IsSteal(s', k);
    }
    forall q: nat | IsSteal(s', q) ensures s'.requests[q].tab == t {
      assert IsSteal(s, q);
    }
  }

  lemma StaysAheadExit(s: State, r: nat, t: nat)
    requires Inv(s) && IsAhead(s, t) && Enabled(s, DoExit(r))
    ensures IsAhead(Exit(s, r), t)
  {
    var s' := Exit(s, r);
    assert RequestOk(s, r);
    if exists k :: IsSteal(s, k) {
      var k :| IsSteal(s, k);
      assert IsSteal(s', k);
    }
    forall q: nat | IsSteal(s', q) ensures s'.requests[q].tab == t {
      assert IsSteal(s, q);
    }
  }

  lemma StaysAhead(s: State, step: Step, t: nat)
    requires Inv(s) && IsAhead(s, t) && Enabled(s, step) && IsInternal(step)
    ensures Inv(Next(s, step)) && IsAhead(Next(s, step), t)
  {
    hide IsAhead, Inv, Granted, GrantSteal, Notice, Exit;
    StepInv(s, step);
    match step
    case DoGrantSteal(r) => StaysAheadGrantSteal(s, r, t);
    case DoGrantWaiting(r) => StaysAheadGranted(s, r, t);
    case DoNotice(r) => StaysAheadNotice(s, r, t);
    case DoExit(r) => StaysAheadExit(s, r, t);
  }

  lemma ShownIsAhead(s: State, t: nat)
    requires Inv(s) && Enabled(s, ShowTab(t))
    requires forall r: nat :: !IsSteal(s, r)
    requires s.tabs[t].currentLoop.None? || s.tabs[t].currentLoop == s.holder
    ensures Inv(Show(s, t)) && IsAhead(Show(s, t), t)
  {
    ShowInv(s, t);
    var s' := Show(s, t);
    if s.tabs[t].currentLoop.None? {
      assert IsSteal(s', |s.requests|);
    }
    forall q: nat | IsSteal(s', q) ensures s'.requests[q].tab == t {
      assert q < |s.requests| ==> !IsSteal(s, q);
    }
  }

  /** Whoever is ahead stays so while the system is left alone, and leads once it is at rest. */
  lemma {:induction false} AheadToTheEnd(t: nat, states: seq<State>, steps: seq<Step>)
    requires IsRunFrom(states, steps) && forall i :: 0 <= i < |steps| ==> IsInternal(steps[i])
    requires Inv(states[0]) && IsAhead(states[0], t)
    ensures var end := states[|steps|];
            Inv(end) && IsAhead(end, t) && (AtRest(end) ==> LeadsTab(end, t))
  {
    if |steps| > 0 {
      var n := |steps| - 1;
      AheadToTheEnd(t, states[..n + 1], steps[..n]);
      StaysAhead(states[n], steps[n], t);
    }
    var end := states[|steps|];
    if r: nat :| AtRest(end) && IsSteal(end, r) {
      assert IsQuiet(end, r);
    }
  }

  /**
   * A tab that is shown leads once the system is at rest, if no other steal was in flight and the tab either had no
   * loop or already held the lock.
   */
  lemma ShownTabLeads(s: State, t: nat, states: seq<State>, steps: seq<Step>)
    requires Inv(s) && Enabled(s, ShowTab(t))
    requires forall r: nat :: !IsSteal(s, r)
    requires s.tabs[t].currentLoop.None? || s.tabs[t].currentLoop == s.holder
    requires IsRunFrom(states, steps) && states[0] == Show(s, t)
             && forall i :: 0 <= i < |steps| ==> IsInternal(steps[i])
    ensures var end := states[|steps|];
            Inv(end) && IsAhead(end, t) && (AtRest(end) ==> LeadsTab(end, t))
  {
    hide Inv, IsAhead, Show, Next, AtRest;
    ShownIsAhead(s, t);
    AheadToTheEnd(t, states, steps);
  }

  /** Request `h` of a live tab holds the lock, nobody is about to take it away, and tab `t` is another tab. */
  ghost predicate IsSettledOn(s: State, h: nat, t: nat) {
    && s.holder == Some(h) && h < |s.requests|
    && s.requests[h].tab < |s.tabs| && IsLive(s.tabs[s.requests[h].tab]) && s.requests[h].tab != t
    && forall r: nat :: !IsSteal(s, r)
  }

  lemma StaysSettledNotice(s: State, r: nat, h: nat, t: nat)
    requires Inv(s) && IsSettledOn(s, h, t) && Enabled(s, DoNotice(r))
    ensures IsSettledOn(Notice(s, r), h, t)
  {
    assert RequestOk(s, h) && RequestOk(s, r);
    var s' := Notice(s, r);
    forall q: nat ensures !IsSteal(s', q) {
      assert !IsSteal(s, q);
    }
  }

  lemma StaysSettledExit(s: State, r: nat, h: nat, t: nat)
    requires Inv(s) && IsSettledOn(s, h, t) && Enabled(s, DoExit(r))
    ensures IsSettledOn(Exit(s, r), h, t)
  {
    assert RequestOk(s, h) && RequestOk(s, r);
    var s' := Exit(s, r);
    forall q: nat ensures !IsSteal(s', q) {
      assert !IsSteal(s, q);
    }
  }

  /** By itself nothing takes the lock from a live tab. */
  lemma StaysSettled(s: State, step: Step, h: nat, t: nat)
    requires Inv(s) && IsSettledOn(s, h, t) && Enabled(s, step) && IsInternal(step)
    ensures Inv(Next(s, step)) && IsSettledOn(Next(s, step), h, t)
  {
    hide Inv, Granted, GrantSteal, Notice, Exit;
    StepInv(s, step);
    assert step.DoGrantSteal? ==> IsSteal(s, step.r);
    if step.DoNotice? {
      StaysSettledNotice(s, step.r, h, t);
    } else if step.DoExit? {
      StaysSettledExit(s, step.r, h, t);
    }
  }

  lemma ShownElsewhere(s: State, t: nat)
    requires Inv(s) && Enabled(s, ShowTab(t)) && HasLiveHolder(s) && forall r: nat :: !IsSteal(s, r)
    requires s.tabs[t].currentLoop.Some? && s.tabs[t].currentLoop != s.holder
    ensures Inv(Show(s, t)) && IsSettledOn(Show(s, t), s.holder.value, t)
  {
    ShowInv(s, t);
    assert RequestOk(s, s.holder.value);
    var s' := Show(s, t);
    forall q: nat ensures !IsSteal(s', q) {
      assert !IsSteal(s, q);
    }
  }

  predicate HasLiveHolder(s: State) {
    && s.holder.Some? && s.holder.value < |s.requests|
    && s.requests[s.holder.value].tab < |s.tabs| && IsLive(s.tabs[s.requests[s.holder.value].tab])
  }

  /** While the system is left alone the holder stays the same, and the other tab does not lead. */
  lemma {:induction false} SettledToTheEnd(h: nat, t: nat, states: seq<State>, steps: seq<Step>)
    requires IsRunFrom(states, steps) && forall i :: 0 <= i < |steps| ==> IsInternal(steps[i])
    requires Inv(states[0]) && IsSettledOn(states[0], h, t)
    ensures var end := states[|steps|];
            Inv(end) && IsSettledOn(end, h, t) && !LeadsTab(end, t)
  {
    if |steps| > 0 {
      var n := |steps| - 1;
      SettledToTheEnd(h, t, states[..n + 1], steps[..n]);
      StaysSettled(states[n], steps[n], h, t);
    }
  }

  /**
   * A tab that is shown while it has a loop that has lost the lock to another live tab does not lead, however long it
   * is left alone.
   */
  lemma ShownTabStaysBehind(s: State, t: nat, states: seq<State>, steps: seq<Step>)
    requires Inv(s) && Enabled(s, ShowTab(t)) && HasLiveHolder(s) && forall r: nat :: !IsSteal(s, r)
    requires s.tabs[t].currentLoop.Some? && s.tabs[t].currentLoop != s.holder
    requires IsRunFrom(states, steps) && states[0] == Show(s, t)
             && forall i :: 0 <= i < |steps| ==> IsInternal(steps[i])
    ensures var end := states[|steps|];
            Inv(end) && IsSettledOn(end, s.holder.value, t) && !LeadsTab(end, t)
  {
    hide Inv, IsSettledOn, Show, Next;
    ShownElsewhere(s, t);
    SettledToTheEnd(s.holder.value, t, states, steps);
  }

  /**
   * When the tab being looked at takes over. A live tab holds the lock and nobody is about to steal it: a tab that is
   * shown leads once the system is at rest if and only if it had no loop or the lock was its own already.
   */
  lemma ShownTabLeadsExactly(s: State, t: nat, states: seq<State>, steps: seq<Step>)
    requires Inv(s) && Enabled(s, ShowTab(t)) && HasLiveHolder(s) && forall r: nat :: !IsSteal(s, r)
    requires IsRunFrom(states, steps) && states[0] == Show(s, t)
             && forall i :: 0 <= i < |steps| ==> IsInternal(steps[i])
    requires AtRest(states[|steps|])
    ensures LeadsTab(states[|steps|], t) <==> s.tabs[t].currentLoop.None? || s.tabs[t].currentLoop == s.holder
  {
    hide Inv, AtRest, IsSettledOn, IsAhead, Show, Next;
    if s.tabs[t].currentLoop.None? || s.tabs[t].currentLoop == s.holder {
      ShownTabLeads(s, t, states, steps);
    } else {
      ShownTabStaysBehind(s, t, states, steps);
    }
  }

  /** A tab that goes away, or takes over because it is shown, leaves the queue it waited in; nobody else does. */
  lemma WaitIsWithdrawn(s: State, t: nat, step: Step, r: nat)
    requires Inv(s) && Enabled(s, step) && r < |s.requests|
    requires step == UnmountTab(t) || (step == ShowTab(t) && s.tabs[t].currentLoop.None?)
    ensures r < |Next(s, step).requests|
    ensures s.tabs[t].pendingWait == Some(r) ==> Next(s, step).requests[r].phase != Waiting
    ensures s.tabs[t].pendingWait != Some(r) ==> Next(s, step).requests[r].phase == s.requests[r].phase
  {
    hide RequestOk, TabOk;
  }

  // ---- a tab that is opened --------------------------------------------------------------------

  lemma OpenedInFrontIsAhead(s: State)
    requires Inv(s) && forall r: nat :: !IsSteal(s, r)
    ensures Inv(Open(s, false)) && IsAhead(Open(s, false), |s.tabs|)
  {
    OpenInv(s, false);
    var s' := Open(s, false);
    assert IsSteal(s', |s.requests|);
    forall q: nat | IsSteal(s', q) ensures s'.requests[q].tab == |s.tabs| {
      assert q < |s.requests| ==> !IsSteal(s, q);
    }
  }

  lemma OpenedBehindWaits(s: State)
    requires Inv(s) && HasLiveHolder(s) && forall r: nat :: !IsSteal(s, r)
    ensures var s' := Open(s, true);
            && Inv(s') && IsSettledOn(s', s.holder.value, |s.tabs|)
            && |s'.tabs| == |s.tabs| + 1 && IsLive(s'.tabs[|s.tabs|])
            && exists r: nat :: OwnRequest(s', |s.tabs|, r) && s'.requests[r].phase == Waiting
  {
    OpenInv(s, true);
    var s' := Open(s, true);
    forall q: nat ensures !IsSteal(s', q) {
      assert !IsSteal(s, q);
    }
    assert OwnRequest(s', |s.tabs|, |s.requests|) && s'.requests[|s.requests|].phase == Waiting;
  }

  /** A tab opened in the foreground leads once the system is at rest, if no other steal was in flight. */
  lemma OpenedTabLeads(s: State, states: seq<State>, steps: seq<Step>)
    requires Inv(s) && forall r: nat :: !IsSteal(s, r)
    requires IsRunFrom(states, steps) && states[0] == Open(s, false)
             && forall i :: 0 <= i < |steps| ==> IsInternal(steps[i])
    ensures var end := states[|steps|];
            Inv(end) && IsAhead(end, |s.tabs|) && (AtRest(end) ==> LeadsTab(end, |s.tabs|))
  {
    hide Inv, IsAhead, Open, Next, AtRest;
    OpenedInFrontIsAhead(s);
    AheadToTheEnd(|s.tabs|, states, steps);
  }

  /**
   * A tab opened in the background leaves the lock with the live tab that holds it, however long the system is left
   * alone, and waits in the queue once it is at rest.
   */
  lemma OpenedTabWaits(s: State, states: seq<State>, steps: seq<Step>)
    requires Inv(s) && HasLiveHolder(s) && forall r: nat :: !IsSteal(s, r)
    requires IsRunFrom(states, steps) && states[0] == Open(s, true)
             && forall i :: 0 <= i < |steps| ==> IsInternal(steps[i])
    ensures var end := states[|steps|];
            && Inv(end) && end.holder == s.holder && IsSettledOn(end, s.holder.value, |s.tabs|)
            && !LeadsTab(end, |s.tabs|)
            && (AtRest(end) ==>
                  exists r: nat :: OwnRequest(end, |s.tabs|, r) && end.requests[r].phase == Waiting)
  {
    hide Inv, Open, Next, AtRest;
    OpenedBehindWaits(s);
    SettledToTheEnd(s.holder.value, |s.tabs|, states, steps);
    var end := states[|steps|];
    StaysLive(|s.tabs|, states, steps);
    if AtRest(end) {
      OneLeaderAtRest(end, |s.tabs|);
    }
  }

  /** Nothing that happens by itself ends a tab. */
  lemma {:induction false} StaysLive(t: nat, states: seq<State>, steps: seq<Step>)
    requires IsRunFrom(states, steps) && forall i :: 0 <= i < |steps| ==> IsInternal(steps[i])
    requires Inv(states[0]) && t < |states[0].tabs| && IsLive(states[0].tabs[t])
    ensures Inv(states[|steps|]) && t < |states[|steps|].tabs| && IsLive(states[|steps|].tabs[t])
  {
    if |steps| > 0 {
      var n := |steps| - 1;
      StaysLive(t, states[..n + 1], steps[..n]);
      StepInv(states[n], steps[n]);
    }
  }

  /** While a live tab holds the lock and nobody is about to steal it, an opened tab takes over iff it is visible. */
  lemma OpenedTabLeadsExactly(s: State, hidden: bool, states: seq<State>, steps: seq<Step>)
    requires Inv(s) && HasLiveHolder(s) && forall r: nat :: !IsSteal(s, r)
    requires IsRunFrom(states, steps) && states[0] == Next(s, OpenTab(hidden))
             && forall i :: 0 <= i < |steps| ==> IsInternal(steps[i])
    requires AtRest(states[|steps|])
    ensures LeadsTab(states[|steps|], |s.tabs|) <==> !hidden
    ensures hidden ==> states[|steps|].holder == s.holder
  {
    hide Inv, AtRest, IsSettledOn, IsAhead, Open;
    if hidden {
      OpenedTabWaits(s, states, steps);
    } else {
      OpenedTabLeads(s, states, steps);
    }
  }

  // A run in which tab 0 leads, is hidden, loses the lock to the new tab 1, and is shown again
  // before the news of that loss has reached it.
  const FRESH := Tab(false, false, false, None, None)
  const W1 := State([FRESH], [Request(0, Stealing, NoLoop)], None)
  const W2 := State([FRESH.(currentLoop := Some(0))], [Request(0, Holding, Running(false))], Some(0))
  const W3 := State([W2.tabs[0].(hidden := true)], W2.requests, Some(0))
  const W4 := State([W3.tabs[0], FRESH], [W3.requests[0], Request(1, Stealing, NoLoop)], Some(0))
  const W5 := State([W3.tabs[0], FRESH.(currentLoop := Some(1))],
                    [Request(0, Lost, Running(false)), Request(1, Holding, Running(false))], Some(1))
  const W6 := State([W3.tabs[0], FRESH.(currentLoop := Some(1), hidden := true)], W5.requests, Some(1))
  const W7 := State([W2.tabs[0], W6.tabs[1]], W5.requests, Some(1))
  const W8 := State([FRESH.(pendingWait := Some(2)), W6.tabs[1]],
                    [Request(0, Settled, Running(true)), W5.requests[1], Request(0, Waiting, NoLoop)], Some(1))
  const W9 := State(W8.tabs, [Request(0, Settled, Exited), W8.requests[1], W8.requests[2]], Some(1))

  ghost predicate Leads(s: State, step: Step, s': State) {
    WellFormed(s) && Enabled(s, step) && Next(s, step) == s'
  }

  lemma TabZeroLeads()
    ensures Leads(START, OpenTab(false), W1) && Leads(W1, DoGrantSteal(0), W2) && Leads(W2, HideTab(0), W3)
  {
  }

  lemma TabOneSteals()
    ensures Leads(W3, OpenTab(false), W4) && Leads(W4, DoGrantSteal(1), W5) && Leads(W5, HideTab(1), W6)
  {
  }

  lemma TabZeroIsShown()
    ensures Leads(W6, ShowTab(0), W7) && Leads(W7, DoNotice(0), W8) && Leads(W8, DoExit(0), W9)
  {
  }

  /**
   * The other case does occur: a tab whose lock has been stolen but that has not been told is shown, and ends up
   * waiting behind a hidden leader.
   */
  lemma ShownTabMayWait(states: seq<State>, steps: seq<Step>)
    requires states == [START, W1, W2, W3, W4, W5, W6, W7, W8, W9]
    requires steps == [OpenTab(false), DoGrantSteal(0), HideTab(0), OpenTab(false), DoGrantSteal(1), HideTab(1),
                       ShowTab(0), DoNotice(0), DoExit(0)]
    ensures IsRunFrom(states, steps)
    ensures var end := states[9];
            AtRest(end) && LeadsTab(end, 1) && end.tabs[1].hidden && !end.tabs[0].hidden && IsLive(end.tabs[0])
  {
    TabZeroLeads();
    TabOneSteals();
    TabZeroIsShown();
    hide Next, WellFormed, Enabled;
    assert Leads(states[0], steps[0], states[1]) && Leads(states[1], steps[1], states[2])
           && Leads(states[2], steps[2], states[3]);
    assert Leads(states[3], steps[3], states[4]) && Leads(states[4], steps[4], states[5])
           && Leads(states[5], steps[5], states[6]);
    assert Leads(states[6], steps[6], states[7]) && Leads(states[7], steps[7], states[8])
           && Leads(states[8], steps[8], states[9]);
  }

  // ---- the hook's own code ---------------------------------------------------------------------------

  /** The variables of every tab's hook, and the lock manager they share. */
  class Browser {
    var tabs: seq<Tab>
    var requests: seq<Request>
    var holder: Option<nat>

    function Now(): State
      reads this
    {
      State(tabs, requests, holder)
    }

    constructor ()
      ensures Now() == START && Inv(Now())
    {
      tabs, requests, holder := [], [], None;
    }

    method Abort(wait: Option<nat>)
      requires wait.Some? ==> wait.value < |requests|
      modifies this`requests
      ensures Now() == AbortWait(old(Now()), wait)
    {
      if wait.Some? {
        var w := requests[wait.value];
        if w.phase == Waiting {
          requests := requests[wait.value := w.(phase := Settled)];
        }
      }
    }

    method Stop(l: nat)
      requires l < |requests|
      modifies this`requests
      ensures requests == old(requests)[l := StopLoop(old(requests)[l])]
    {
      if requests[l].loop.Running? {
        requests := requests[l := requests[l].(loop := Running(true))];
      }
    }

    method AskForLeadership(t: nat, steal: bool)
      requires t < |tabs| && (tabs[t].pendingWait.Some? ==> tabs[t].pendingWait.value < |requests|)
      modifies this`tabs, this`requests
      ensures Now() == RequestLeadership(old(Now()), t, steal)
    {
      if tabs[t].disposed {
        return;
      }
      if steal {
        Abort(tabs[t].pendingWait);
        tabs := tabs[t := tabs[t].(pendingWait := None)];
      } else {
        tabs := tabs[t := tabs[t].(pendingWait := Some(|requests|))];
      }
      requests := requests + [Request(t, if steal then Stealing else Waiting, NoLoop)];
    }

    /** The effect of a newly opened tab. */
    method StartEffect(hidden: bool)
      requires Inv(Now())
      modifies this`tabs, this`requests
      ensures Now() == Next(old(Now()), OpenTab(hidden)) && Inv(Now())
    {
      StepInv(Now(), OpenTab(hidden));
      tabs := tabs + [Tab(false, false, hidden, None, None)];
      if hidden {
        AskForLeadership(|tabs| - 1, false);
      } else {
        AskForLeadership(|tabs| - 1, true);
      }
    }

    method HandleVisibility(t: nat, hidden: bool)
      requires Inv(Now()) && Enabled(Now(), if hidden then HideTab(t) else ShowTab(t))
      modifies this`tabs, this`requests
      ensures Now() == Next(old(Now()), if hidden then HideTab(t) else ShowTab(t)) && Inv(Now())
    {
      StepInv(Now(), if hidden then HideTab(t) else ShowTab(t));
      tabs := tabs[t := tabs[t].(hidden := hidden)];
      if hidden {
        return;
      }
      if tabs[t].currentLoop.None? {
        AskForLeadership(t, true);
      }
    }

    /** The lock callback: the lock is this request's. */
    method LockGranted(r: nat)
      requires Inv(Now()) && Enabled(Now(), DoGrantWaiting(r))
      modifies this
      ensures Now() == Next(old(Now()), DoGrantWaiting(r)) && Inv(Now())
    {
      StepInv(Now(), DoGrantWaiting(r));
      var t := requests[r].tab;
      if tabs[t].disposed {
        requests := requests[r := requests[r].(phase := Settled)];
        return;
      }
      requests := requests[r := requests[r].(phase := Holding, loop := Running(false))];
      tabs := tabs[t := tabs[t].(currentLoop := Some(r))];
      holder := Some(r);
    }

    /** The rejection handler of a request that led and was stolen from. */
    method LockStolen(r: nat)
      requires Inv(Now()) && Enabled(Now(), DoNotice(r))
      modifies this`tabs, this`requests
      ensures Now() == Next(old(Now()), DoNotice(r)) && Inv(Now())
    {
      StepInv(Now(), DoNotice(r));
      var t := requests[r].tab;
      requests := requests[r := requests[r].(phase := Settled)];
      Stop(r);
      if tabs[t].currentLoop == Some(r) {
        tabs := tabs[t := tabs[t].(currentLoop := None)];
      }
      if !tabs[t].disposed {
        AskForLeadership(t, false);
      }
    }

    /** The cleanup function of the effect. */
    method Cleanup(t: nat)
      requires Inv(Now()) && Enabled(Now(), UnmountTab(t))
      modifies this`tabs, this`requests
      ensures Now() == Next(old(Now()), UnmountTab(t)) && Inv(Now())
    {
      StepInv(Now(), UnmountTab(t));
      tabs := tabs[t := tabs[t].(disposed := true)];
      Abort(tabs[t].pendingWait);
      if tabs[t].currentLoop.Some? {
        Stop(tabs[t].currentLoop.value);
      }
    }
  }
}
