/** Leader election over a database advisory lock, any number of electors.

    The lock belongs to a database session, is re-entrant for that session, and
    is released by as many unlocks or by the death of the session.  An elector's
    sessions come from its own pool, so no two electors share one; closing a
    connection only returns it to the pool.  Each database exchange, each
    critical section and each channel operation is one step, and sessions die at
    any time.  A query may fail before or after it took effect. */
module LeaderElection {
  import opened Wrappers

  datatype Pc =
    | Idle
    | Probing
    | Acquiring(session: nat)
    | Granted(session: nat)
    | AnnounceTrue
    | Revoking
    | Unlocking(session: nat)
    | AnnounceFalse
    | Stopped

  /** An elector with the consumer of its updates.  `attempts` are the values it
      tried to send, `dropped` how many of the latest ones found the channel
      full, `channel` the buffer of capacity one, `evalCancel` whether the
      consumer holds a cancel function, `evaluators` how many evaluators run
      uncancelled. */
  datatype Elector = Elector(
    pc: Pc, conn: Option<nat>, isLeader: bool, stopping: bool,
    attempts: seq<bool>, dropped: nat, channel: seq<bool>,
    evalCancel: bool, evaluators: nat)

  datatype Session = Session(home: nat, alive: bool)

  datatype State = State(electors: map<nat, Elector>, sessions: map<nat, Session>, holder: Option<nat>, depth: nat)

  datatype Action =
    | Tick(e: nat)
    | Connect(e: nat, s: nat)
    | TryLock(e: nat, reached: bool, answered: bool)
    | BecomeLeader(e: nat)
    | Announce(e: nat)
    | ProbeResult(e: nat, ok: bool)
    | Clear(e: nat)
    | Unlock(e: nat, reached: bool)
    | Shutdown(e: nat)
    | Consume(e: nat)
    | Die(s: nat)

  const NEW_ELECTOR := Elector(Idle, None, false, false, [], 0, [], false, 0)

  predicate Leading(el: Elector) {
    el.isLeader && el.conn.Some?
  }

  /** A send that gives up when the buffer is full. */
  function Send(el: Elector, v: bool): Elector {
    var el' := el.(attempts := el.attempts + [v]);
    if el.channel == [] then el'.(channel := [v], dropped := 0) else el'.(dropped := el.dropped + 1)
  }

  /** Starting does nothing when an evaluator is there, stopping nothing when none is. */
  function Receive(el: Elector, v: bool): Elector {
    if v then (if el.evalCancel then el else el.(evalCancel := true, evaluators := el.evaluators + 1))
    else if el.evalCancel then
      el.(evalCancel := false, evaluators := if el.evaluators > 0 then el.evaluators - 1 else 0)
    else el
  }

  predicate Enabled(st: State, a: Action) {
    match a
    case Die(s) => s in st.sessions
    case Connect(e, s) =>
      e in st.electors && st.electors[e].pc == Idle && !Leading(st.electors[e]) &&
      (s in st.sessions ==> st.sessions[s].home == e)
    case Tick(e) => e in st.electors && st.electors[e].pc == Idle && Leading(st.electors[e])
    case TryLock(e, _, _) =>
      e in st.electors && st.electors[e].pc.Acquiring? && st.electors[e].pc.session in st.sessions
    case BecomeLeader(e) => e in st.electors && st.electors[e].pc.Granted?
    case Announce(e) => e in st.electors && (st.electors[e].pc == AnnounceTrue || st.electors[e].pc == AnnounceFalse)
    case ProbeResult(e, ok) =>
      && e in st.electors && st.electors[e].pc == Probing
      && (ok ==>
            var conn := st.electors[e].conn;
            conn.Some? && conn.value in st.sessions && st.sessions[conn.value].alive)
    case Clear(e) => e in st.electors && st.electors[e].pc == Revoking
    case Unlock(e, _) => e in st.electors && st.electors[e].pc.Unlocking? && st.electors[e].pc.session in st.sessions
    case Shutdown(e) => e in st.electors && st.electors[e].pc == Idle
    case Consume(e) => e in st.electors && st.electors[e].channel != []
  }

  function With(st: State, e: nat, el: Elector): State {
    st.(electors := st.electors[e := el])
  }

  function Rest(el: Elector): Pc {
    if el.stopping then Stopped else Idle
  }

  function Apply(st: State, a: Action): State
    requires Enabled(st, a)
  {
    match a
    case Die(s) =>
      var st' := st.(sessions := st.sessions[s := st.sessions[s].(alive := false)]);
      if st.holder == Some(s) then st'.(holder := None, depth := 0) else st'
    case Tick(e) => With(st, e, st.electors[e].(pc := Probing))
    case Connect(e, s) =>
      var st' := if s in st.sessions then st else st.(sessions := st.sessions[s := Session(e, true)]);
      With(st', e, st.electors[e].(pc := Acquiring(s)))
    case TryLock(e, reached, answered) =>
      var el := st.electors[e];
      var s := el.pc.session;
      if reached && st.sessions[s].alive && (st.holder == None || st.holder == Some(s)) then
        var st' := st.(holder := Some(s), depth := if st.holder == None then 1 else st.depth + 1);
        With(st', e, el.(pc := if answered then Granted(s) else Idle))
      else With(st, e, el.(pc := Idle))
    case BecomeLeader(e) =>
      var el := st.electors[e];
      With(st, e, el.(conn := Some(el.pc.session), isLeader := true, pc := AnnounceTrue))
    case Announce(e) =>
      var el := st.electors[e];
      With(st, e, Send(el, el.pc == AnnounceTrue).(pc := Rest(el)))
    case ProbeResult(e, ok) => With(st, e, st.electors[e].(pc := if ok then Idle else Revoking))
    case Clear(e) =>
      var el := st.electors[e];
      var cleared := el.(conn := None, isLeader := false);
      With(st, e, cleared.(pc :=
        if el.conn.Some? then Unlocking(el.conn.value) else if el.isLeader then AnnounceFalse else Rest(el)))
    case Unlock(e, reached) =>
      var el := st.electors[e];
      var s := el.pc.session;
      var st' := if reached && st.sessions[s].alive && st.holder == Some(s)
                 then (if st.depth <= 1 then st.(holder := None, depth := 0) else st.(depth := st.depth - 1))
                 else st;
      With(st', e, el.(pc := AnnounceFalse))
    case Shutdown(e) => With(st, e, st.electors[e].(stopping := true, pc := Revoking))
    case Consume(e) =>
      var el := st.electors[e];
      With(st, e, Receive(el, el.channel[0]).(channel := el.channel[1..]))
  }

  ghost predicate IsRun(actions: seq<Action>, states: seq<State>) {
    && |states| == |actions| + 1
    && states[0].sessions == map[] && states[0].holder == None
    && (forall e :: e in states[0].electors ==> states[0].electors[e] == NEW_ELECTOR)
    && forall j :: 0 <= j < |actions| ==>
         Enabled(states[j], actions[j]) && states[j + 1] == Apply(states[j], actions[j])
  }

  // --------------------------------------------------------------------- safety

  ghost predicate Alive(st: State, s: nat) {
    s in st.sessions && st.sessions[s].alive
  }

  /** The session is the elector's own, and holds the lock while it lives. */
  ghost predicate Holds(st: State, e: nat, s: nat) {
    s in st.sessions && st.sessions[s].home == e && (st.sessions[s].alive ==> st.holder == Some(s))
  }

  ghost predicate LockInv(st: State, e: nat, el: Elector) {
    && (el.isLeader <==> el.conn.Some?)
    && (el.isLeader ==> Holds(st, e, el.conn.value))
    && (el.isLeader ==> el.pc == Idle || el.pc == Probing || el.pc == AnnounceTrue || el.pc == Revoking)
    && (el.stopping ==> el.pc == Revoking || el.pc.Unlocking? || el.pc == AnnounceFalse || el.pc == Stopped)
    && (el.pc.Granted? || el.pc.Unlocking? ==> Holds(st, e, el.pc.session))
    && (el.pc.Acquiring? ==> el.pc.session in st.sessions && st.sessions[el.pc.session].home == e)
  }

  ghost predicate SafetyInv(st: State) {
    && (st.holder.Some? ==> Alive(st, st.holder.value))
    && forall e :: e in st.electors ==> LockInv(st, e, st.electors[e])
  }

  /** The elector an action belongs to. */
  function Actor(a: Action): Option<nat> {
    match a
    case Die(_) => None
    case Tick(e) => Some(e) case Connect(e, _) => Some(e) case TryLock(e, _, _) => Some(e)
    case BecomeLeader(e) => Some(e) case Announce(e) => Some(e) case ProbeResult(e, _) => Some(e)
    case Clear(e) => Some(e) case Unlock(e, _) => Some(e) case Shutdown(e) => Some(e) case Consume(e) => Some(e)
  }

  lemma OwnStepSafe(st: State, a: Action)
    requires SafetyInv(st) && Enabled(st, a) && !a.Die?
    ensures
      var st' := Apply(st, a);
      && (st'.holder.Some? ==> Alive(st', st'.holder.value))
      && LockInv(st', Actor(a).value, st'.electors[Actor(a).value])
  {
    assert LockInv(st, Actor(a).value, st.electors[Actor(a).value]);
  }

  lemma OtherStepSafe(st: State, a: Action, o: nat)
    requires SafetyInv(st) && Enabled(st, a) && o in st.electors && Actor(a) != Some(o)
    ensures
      var st' := Apply(st, a);
      st'.electors.Keys == st.electors.Keys && st'.electors[o] == st.electors[o] && LockInv(st', o, st.electors[o])
  {
    assert LockInv(st, o, st.electors[o]);
    if !a.Die? { assert LockInv(st, Actor(a).value, st.electors[Actor(a).value]); }
  }

  lemma StepSafe(st: State, a: Action)
    requires SafetyInv(st) && Enabled(st, a)
    ensures SafetyInv(Apply(st, a))
  {
    var st' := Apply(st, a);
    if !a.Die? { OwnStepSafe(st, a); }
    forall o | o in st'.electors ensures LockInv(st', o, st'.electors[o]) {
      if Actor(a) != Some(o) { OtherStepSafe(st, a, o); }
    }
  }

  lemma {:induction false} RunSafe(actions: seq<Action>, states: seq<State>, n: nat)
    requires IsRun(actions, states) && n <= |actions|
    ensures SafetyInv(states[n])
  {
    if n > 0 {
      RunSafe(actions, states, n - 1);
      StepSafe(states[n - 1], actions[n - 1]);
      assert states[n] == Apply(states[n - 1], actions[n - 1]);
    }
  }

  ghost predicate LeadsAlive(st: State, e: nat) {
    e in st.electors && st.electors[e].isLeader && st.electors[e].conn.Some? && Alive(st, st.electors[e].conn.value)
  }

  /** In every interleaving, at most one elector has its leader flag set while
      its database session is alive. */
  lemma AtMostOneLeader(actions: seq<Action>, states: seq<State>, n: nat, e: nat, f: nat)
    requires IsRun(actions, states) && n <= |actions|
    requires LeadsAlive(states[n], e) && LeadsAlive(states[n], f)
    ensures e == f
  {
    RunSafe(actions, states, n);
    assert LockInv(states[n], e, states[n].electors[e]);
    assert LockInv(states[n], f, states[n].electors[f]);
  }

  // ------------------------------------------------------ how long leadership lasts

  /** Elector `e` leads on session `s` and is not about to give up. */
  ghost predicate Steady(st: State, e: nat, s: nat) {
    && e in st.electors && st.electors[e].isLeader && st.electors[e].conn == Some(s)
    && st.electors[e].pc != Revoking
  }

  lemma StepSteady(st: State, a: Action, e: nat, s: nat)
    requires SafetyInv(st) && Enabled(st, a) && Steady(st, e, s)
    requires a != ProbeResult(e, false) && a != Shutdown(e)
    ensures Steady(Apply(st, a), e, s)
  {
    assert LockInv(st, e, st.electors[e]);
  }

  /** A leader stays leader, on the same session, until a health check fails or it
      is shut down; a successful check changes nothing. */
  lemma {:induction false} LeadershipLasts(actions: seq<Action>, states: seq<State>, i: nat, n: nat, e: nat, s: nat)
    requires IsRun(actions, states) && i <= n <= |actions| && Steady(states[i], e, s)
    requires forall j :: i <= j < n ==> actions[j] != ProbeResult(e, false) && actions[j] != Shutdown(e)
    ensures Steady(states[n], e, s)
  {
    if i < n {
      LeadershipLasts(actions, states, i, n - 1, e, s);
      RunSafe(actions, states, n - 1);
      StepSteady(states[n - 1], actions[n - 1], e, s);
      assert states[n] == Apply(states[n - 1], actions[n - 1]);
    }
  }

  ghost predicate GivingUp(st: State, e: nat) {
    e in st.electors && st.electors[e].pc == Revoking
  }

  /** After a failed check or a shutdown the next thing an elector does is to clear
      its flag and connection. */
  lemma {:induction false} RevocationClears(actions: seq<Action>, states: seq<State>, i: nat, n: nat, e: nat)
    returns (m: nat)
    requires IsRun(actions, states) && i < n <= |actions|
    requires e in states[i].electors && (actions[i] == ProbeResult(e, false) || actions[i] == Shutdown(e))
    ensures GivingUp(states[n], e) ||
            (i < m < n && actions[m] == Clear(e) && e in states[m + 1].electors &&
             !states[m + 1].electors[e].isLeader && states[m + 1].electors[e].conn == None)
  {
    var st, a := states[n - 1], actions[n - 1];
    assert states[n] == Apply(st, a) && Enabled(st, a);
    m := 0;
    if i + 1 < n {
      m := RevocationClears(actions, states, i, n - 1, e);
      if GivingUp(st, e) && !GivingUp(states[n], e) {
        ClearStep(st, a, e);
        m := n - 1;
      }
    }
  }

  lemma ClearStep(st: State, a: Action, e: nat)
    requires Enabled(st, a) && GivingUp(st, e) && !GivingUp(Apply(st, a), e)
    ensures a == Clear(e) && e in Apply(st, a).electors
    ensures !Apply(st, a).electors[e].isLeader && Apply(st, a).electors[e].conn == None
  {
  }

  /** Elector `e` has been shut down: it leads only until it clears its flag. */
  ghost predicate Retiring(st: State, e: nat) {
    && e in st.electors && st.electors[e].stopping
    && (st.electors[e].isLeader ==> st.electors[e].pc == Revoking)
  }

  lemma StepRetiring(st: State, a: Action, e: nat)
    requires SafetyInv(st) && Enabled(st, a) && (Retiring(st, e) || a == Shutdown(e))
    ensures Retiring(Apply(st, a), e)
    ensures Retiring(st, e) && !st.electors[e].isLeader ==> !Apply(st, a).electors[e].isLeader
  {
    assert LockInv(st, e, st.electors[e]);
  }

  lemma RetiringNext(actions: seq<Action>, states: seq<State>, n: nat, e: nat)
    requires IsRun(actions, states) && n < |actions| && (Retiring(states[n], e) || actions[n] == Shutdown(e))
    ensures Retiring(states[n + 1], e)
    ensures Retiring(states[n], e) && !states[n].electors[e].isLeader ==> !states[n + 1].electors[e].isLeader
  {
    RunSafe(actions, states, n);
    StepRetiring(states[n], actions[n], e);
  }

  /** After a shutdown an elector clears its flag before anything else ... */
  lemma {:induction false} ShutdownRetires(actions: seq<Action>, states: seq<State>, i: nat, n: nat, e: nat)
    requires IsRun(actions, states) && i < n <= |actions| && actions[i] == Shutdown(e)
    ensures Retiring(states[n], e)
  {
    if i + 1 < n { ShutdownRetires(actions, states, i, n - 1, e); }
    RetiringNext(actions, states, n - 1, e);
  }

  /** ... and, once it has, never sets it again. */
  lemma {:induction false} ShutdownIsFinal(actions: seq<Action>, states: seq<State>, i: nat, m: nat, n: nat, e: nat)
    requires IsRun(actions, states) && i < m <= n <= |actions| && actions[i] == Shutdown(e)
    requires e in states[m].electors && !states[m].electors[e].isLeader
    ensures e in states[n].electors && !states[n].electors[e].isLeader
  {
    if m < n {
      ShutdownIsFinal(actions, states, i, m, n - 1, e);
      ShutdownRetires(actions, states, i, n - 1, e);
      RetiringNext(actions, states, n - 1, e);
    }
  }

  // --------------------------------------------------------- announcements

  predicate Odd(n: int) { n % 2 == 1 }

  /** How many announcements were made tells whether the elector leads, up to
      the one that is still due. */
  ghost predicate PhaseInv(el: Elector) {
    && (forall i :: 0 <= i < |el.attempts| ==> el.attempts[i] == !Odd(i))
    && (match el.pc
        case AnnounceTrue => el.isLeader && !Odd(|el.attempts|)
        case Unlocking(_) => !el.isLeader && Odd(|el.attempts|)
        case AnnounceFalse => !el.isLeader && Odd(|el.attempts|)
        case _ => el.isLeader == Odd(|el.attempts|))
  }

  /** The last announcement that got through is in the channel or in effect. */
  ghost predicate FlowInv(el: Elector) {
    && el.dropped <= |el.attempts| && |el.channel| <= 1
    && (el.channel != [] ==> el.channel[0] == Odd(|el.attempts| - el.dropped))
    && (el.channel == [] ==> el.evalCancel == Odd(|el.attempts| - el.dropped))
    && el.evaluators == (if el.evalCancel then 1 else 0)
  }

  ghost predicate StreamInv(el: Elector) {
    PhaseInv(el) && FlowInv(el)
  }

  lemma SendFlows(el: Elector, v: bool)
    requires FlowInv(el) && v == Odd(|el.attempts| + 1)
    ensures FlowInv(Send(el, v))
  {
  }

  lemma SendAlternates(el: Elector, v: bool)
    requires forall i :: 0 <= i < |el.attempts| ==> el.attempts[i] == !Odd(i)
    requires v == Odd(|el.attempts| + 1)
    ensures
      var el' := Send(el, v);
      && |el'.attempts| == |el.attempts| + 1 && el'.isLeader == el.isLeader
      && forall i :: 0 <= i < |el'.attempts| ==> el'.attempts[i] == !Odd(i)
  {
  }

  lemma AnnounceStream(el: Elector)
    requires StreamInv(el) && (el.pc == AnnounceTrue || el.pc == AnnounceFalse)
    ensures StreamInv(Send(el, el.pc == AnnounceTrue).(pc := Rest(el)))
  {
    var v := el.pc == AnnounceTrue;
    assert v == Odd(|el.attempts| + 1) == !Odd(|el.attempts|);
    SendFlows(el, v);
    SendAlternates(el, v);
  }

  lemma SilentKeepsFlow(st: State, a: Action)
    requires Enabled(st, a) && !a.Die? && !a.Announce? && !a.Consume? && FlowInv(st.electors[Actor(a).value])
    ensures
      var el, el' := st.electors[Actor(a).value], Apply(st, a).electors[Actor(a).value];
      FlowInv(el') && el'.attempts == el.attempts
  {
  }

  lemma SilentStepStream(st: State, a: Action)
    requires SafetyInv(st) && Enabled(st, a) && !a.Die? && !a.Announce? && !a.Consume?
    requires StreamInv(st.electors[Actor(a).value])
    ensures StreamInv(Apply(st, a).electors[Actor(a).value])
  {
    var e := Actor(a).value;
    assert LockInv(st, e, st.electors[e]);
    SilentKeepsFlow(st, a);
  }

  lemma StepStream(st: State, a: Action, e: nat)
    requires SafetyInv(st) && Enabled(st, a) && e in st.electors && StreamInv(st.electors[e])
    ensures e in Apply(st, a).electors && StreamInv(Apply(st, a).electors[e])
  {
    if Actor(a) == Some(e) {
      if a.Announce? { AnnounceStream(st.electors[e]); }
      else if !a.Consume? { SilentStepStream(st, a); }
    } else {
      OtherStepSafe(st, a, e);
    }
  }

  lemma {:induction false} RunStream(actions: seq<Action>, states: seq<State>, n: nat)
    requires IsRun(actions, states) && n <= |actions|
    ensures forall e :: e in states[n].electors ==> StreamInv(states[n].electors[e])
  {
    if n > 0 {
      var st, a := states[n - 1], actions[n - 1];
      RunStream(actions, states, n - 1);
      RunSafe(actions, states, n - 1);
      assert states[n] == Apply(st, a);
      SameElectors(st, a);
      forall e | e in st.electors ensures StreamInv(states[n].electors[e]) { StepStream(st, a, e); }
    }
  }

  lemma SameElectors(st: State, a: Action)
    requires Enabled(st, a)
    ensures Apply(st, a).electors.Keys == st.electors.Keys
  {
  }

  lemma StepDropped(st: State, a: Action, e: nat)
    requires Enabled(st, a) && e in st.electors && st.electors[e].dropped == 0
    requires a == Announce(e) ==> st.electors[e].channel == []
    ensures Apply(st, a).electors[e].dropped == 0
  {
  }

  /** Nothing is on its way: no announcement is pending or buffered. */
  predicate Settled(el: Elector) {
    el.channel == [] && !el.pc.AnnounceTrue? && !el.pc.AnnounceFalse? && !el.pc.Unlocking?
  }

  /** What each elector tries to announce alternates, starting with true; there
      are never two running evaluators; and once nothing is on its way, an
      evaluator runs exactly when the elector leads if and only if an even
      number of the latest announcements was dropped. */
  lemma EvaluatorFollowsLeadership(actions: seq<Action>, states: seq<State>, n: nat, e: nat)
    requires IsRun(actions, states) && n <= |actions| && e in states[n].electors
    ensures
      var el := states[n].electors[e];
      && (forall i :: 0 <= i < |el.attempts| ==> el.attempts[i] == !Odd(i))
      && el.evaluators <= 1
      && (Settled(el) ==> ((el.evaluators == 1 <==> el.isLeader) <==> el.dropped % 2 == 0))
  {
    RunStream(actions, states, n);
    SettledAgrees(states[n].electors[e]);
  }

  lemma SettledAgrees(el: Elector)
    requires StreamInv(el)
    ensures el.evaluators <= 1
    ensures Settled(el) ==> ((el.evaluators == 1 <==> el.isLeader) <==> el.dropped % 2 == 0)
  {
    ParityOfDifference(|el.attempts|, el.dropped);
  }

  lemma ParityOfDifference(n: nat, d: nat)
    ensures (Odd(n - d) <==> Odd(n)) <==> d % 2 == 0
  {
  }

  /** If every announcement finds the channel empty, none is dropped. */
  lemma {:induction false} PromptConsumerDropsNothing(actions: seq<Action>, states: seq<State>, n: nat, e: nat)
    requires IsRun(actions, states) && n <= |actions| && e in states[n].electors
    requires forall j :: 0 <= j < n && actions[j] == Announce(e) ==>
      e in states[j].electors && states[j].electors[e].channel == []
    ensures states[n].electors[e].dropped == 0
    ensures Settled(states[n].electors[e]) ==>
      (states[n].electors[e].evaluators == 1 <==> states[n].electors[e].isLeader)
  {
    if n > 0 {
      assert states[n] == Apply(states[n - 1], actions[n - 1]);
      SameElectors(states[n - 1], actions[n - 1]);
      PromptConsumerDropsNothing(actions, states, n - 1, e);
      StepDropped(states[n - 1], actions[n - 1], e);
    }
    EvaluatorFollowsLeadership(actions, states, n, e);
  }

  // -------------------------------------------------------------- limits of the claim

  /** The lock stays with a session whose unlock was lost: while that session
      lives and its elector does not draw it from the pool again, nobody leads. */
  ghost predicate Leaked(st: State, s: nat) {
    && st.holder == Some(s) && Alive(st, s)
    && forall e :: e in st.electors ==>
         && !st.electors[e].isLeader && !st.electors[e].pc.Granted?
         && st.electors[e].pc != Acquiring(s) && st.electors[e].pc != Unlocking(s)
  }

  lemma LeakPersists(st: State, a: Action, s: nat)
    requires SafetyInv(st) && Enabled(st, a) && Leaked(st, s)
    requires a != Die(s) && !(a.Connect? && a.s == s)
    ensures Leaked(Apply(st, a), s)
  {
    if !a.Die? { assert LockInv(st, Actor(a).value, st.electors[Actor(a).value]); }
  }

  lemma {:induction false} LeakBlocksElection(actions: seq<Action>, states: seq<State>, k: nat, n: nat, s: nat)
    requires IsRun(actions, states) && k <= n <= |actions| && Leaked(states[k], s)
    requires forall j :: k <= j < n ==> actions[j] != Die(s) && !(actions[j].Connect? && actions[j].s == s)
    ensures Leaked(states[n], s)
    ensures forall e :: e in states[n].electors ==> !states[n].electors[e].isLeader
  {
    if k < n {
      LeakBlocksElection(actions, states, k, n - 1, s);
      RunSafe(actions, states, n - 1);
      LeakPersists(states[n - 1], actions[n - 1], s);
      assert states[n] == Apply(states[n - 1], actions[n - 1]);
    }
  }

  // ------------------------------------------------------- when the lock is free

  /** The action makes the database grant the lock to session `s` once more. */
  predicate Takes(st: State, a: Action, s: nat) {
    && a.TryLock? && Enabled(st, a) && st.electors[a.e].pc.session == s
    && a.reached && st.sessions[s].alive && (st.holder == None || st.holder == Some(s))
  }

  /** The action is an unlock that reaches the living session `s`. */
  predicate Gives(st: State, a: Action, s: nat) {
    a.Unlock? && Enabled(st, a) && st.electors[a.e].pc.session == s && a.reached && st.sessions[s].alive
  }

  function Taken(actions: seq<Action>, states: seq<State>, n: nat, s: nat): nat
    requires n <= |actions| < |states|
  {
    if n == 0 then 0 else Taken(actions, states, n - 1, s) + if Takes(states[n - 1], actions[n - 1], s) then 1 else 0
  }

  function Given(actions: seq<Action>, states: seq<State>, n: nat, s: nat): nat
    requires n <= |actions| < |states|
  {
    if n == 0 then 0 else Given(actions, states, n - 1, s) + if Gives(states[n - 1], actions[n - 1], s) then 1 else 0
  }

  /** A living session holds the lock as deep as it has grants without unlocks. */
  ghost predicate Account(st: State, s: nat, taken: nat, given: nat) {
    && (st.holder.Some? ==> st.depth >= 1)
    && (s !in st.sessions ==> taken == given == 0)
    && (Alive(st, s) ==> taken == given + if st.holder == Some(s) then st.depth else 0)
  }

  lemma StepAccount(st: State, a: Action, s: nat, taken: nat, given: nat)
    requires SafetyInv(st) && Enabled(st, a) && Account(st, s, taken, given)
    ensures Account(Apply(st, a), s, taken + if Takes(st, a, s) then 1 else 0, given + if Gives(st, a, s) then 1 else 0)
  {
    if !a.Die? { assert LockInv(st, Actor(a).value, st.electors[Actor(a).value]); }
  }

  lemma {:induction false} RunAccount(actions: seq<Action>, states: seq<State>, n: nat, s: nat)
    requires IsRun(actions, states) && n <= |actions|
    ensures Account(states[n], s, Taken(actions, states, n, s), Given(actions, states, n, s))
  {
    if n > 0 {
      RunAccount(actions, states, n - 1, s);
      RunSafe(actions, states, n - 1);
      assert states[n] == Apply(states[n - 1], actions[n - 1]);
      StepAccount(states[n - 1], actions[n - 1], s, Taken(actions, states, n - 1, s), Given(actions, states, n - 1, s));
    }
  }

  ghost predicate Balanced(actions: seq<Action>, states: seq<State>, n: nat, s: nat)
    requires n <= |actions| < |states|
  {
    Alive(states[n], s) ==> Taken(actions, states, n, s) == Given(actions, states, n, s)
  }

  /** In every run the lock is free if and only if each living session has been
      reached by as many unlocks as it was granted locks. */
  lemma LockFreeIff(actions: seq<Action>, states: seq<State>, n: nat)
    requires IsRun(actions, states) && n <= |actions|
    ensures states[n].holder == None <==> forall s: nat :: Balanced(actions, states, n, s)
  {
    RunSafe(actions, states, n);
    forall s: nat ensures Balanced(actions, states, n, s) <==> states[n].holder != Some(s) {
      RunAccount(actions, states, n, s);
    }
  }

  /** So a request for the lock that reaches the database on a living session is
      granted if and only if every other living session is in balance. */
  lemma GrantIff(actions: seq<Action>, states: seq<State>, n: nat, e: nat)
    requires IsRun(actions, states) && n <= |actions| && Enabled(states[n], TryLock(e, true, true))
    requires states[n].sessions[states[n].electors[e].pc.session].alive
    ensures
      var el := Apply(states[n], TryLock(e, true, true)).electors[e];
      && (el.pc.Granted? || el.pc == Idle)
      && (el.pc.Granted? <==>
            forall s: nat :: s != states[n].electors[e].pc.session ==> Balanced(actions, states, n, s))
  {
    RunSafe(actions, states, n);
    forall s: nat ensures Balanced(actions, states, n, s) <==> states[n].holder != Some(s) {
      RunAccount(actions, states, n, s);
    }
  }

  // ----------------------------------------------- when a second flag can be set

  /** Elector `e` takes no step after the first `n`, and session `s` does not die. */
  ghost predicate Undisturbed(actions: seq<Action>, n: nat, e: nat, s: nat) {
    forall j :: n <= j < |actions| ==> Actor(actions[j]) != Some(e) && actions[j] != Die(s)
  }

  /** A continuation of the run that sets the flag of `f`, without a step of `e`
      and without the death of session `s`. */
  ghost predicate Joins(actions: seq<Action>, states: seq<State>, actions': seq<Action>, states': seq<State>,
                        e: nat, s: nat, f: nat) {
    && IsRun(actions', states') && actions <= actions' && states <= states'
    && Undisturbed(actions', |actions|, e, s)
    && f in states'[|actions'|].electors && states'[|actions'|].electors[f].isLeader
  }

  /** While `e` leads on the living session `s`, elector `f` stays out. */
  ghost predicate KeptOut(st: State, e: nat, s: nat, f: nat) {
    && e in st.electors && st.electors[e].isLeader && st.electors[e].conn == Some(s) && Alive(st, s)
    && f in st.electors && !st.electors[f].isLeader && !st.electors[f].pc.Granted?
  }

  lemma StepKeepsOut(st: State, a: Action, e: nat, s: nat, f: nat)
    requires SafetyInv(st) && Enabled(st, a) && KeptOut(st, e, s, f) && e != f
    requires Actor(a) != Some(e) && a != Die(s)
    ensures KeptOut(Apply(st, a), e, s, f)
  {
    assert LockInv(st, e, st.electors[e]);
    assert LockInv(st, f, st.electors[f]);
    if !a.Die? { assert LockInv(st, Actor(a).value, st.electors[Actor(a).value]); }
  }

  lemma {:induction false} StaysOut(actions: seq<Action>, states: seq<State>, n: nat, m: nat, e: nat, s: nat, f: nat)
    requires IsRun(actions, states) && n <= m <= |actions| && e != f
    requires KeptOut(states[n], e, s, f) && Undisturbed(actions, n, e, s)
    ensures KeptOut(states[m], e, s, f)
  {
    if n < m {
      StaysOut(actions, states, n, m - 1, e, s, f);
      RunSafe(actions, states, m - 1);
      StepKeepsOut(states[m - 1], actions[m - 1], e, s, f);
      assert states[m] == Apply(states[m - 1], actions[m - 1]);
    }
  }

  lemma {:induction false} NewSession(ids: set<nat>) returns (s: nat)
    ensures s !in ids && forall i :: i in ids ==> i < s
  {
    s := 0;
    if ids != {} {
      var x :| x in ids;
      s := NewSession(ids - {x});
      if s <= x { s := x + 1; }
      assert forall i :: i in ids ==> i == x || i in ids - {x};
    }
  }

  /** A holder other than session `s` may die, which frees the lock. */
  lemma FreeTheLock(actions: seq<Action>, states: seq<State>, e: nat, s: nat)
    returns (actions': seq<Action>, states': seq<State>)
    requires IsRun(actions, states) && !Alive(states[|actions|], s)
    ensures IsRun(actions', states') && actions <= actions' && states <= states'
    ensures Undisturbed(actions', |actions|, e, s)
    ensures states'[|actions'|].holder == None && states'[|actions'|].electors == states[|actions|].electors
  {
    var st := states[|actions|];
    RunSafe(actions, states, |actions|);
    if st.holder == None {
      actions', states' := actions, states;
    } else {
      var h := st.holder.value;
      actions', states' := actions + [Die(h)], states + [Apply(st, Die(h))];
      ExtendRun(actions, states, Die(h));
    }
  }

  /** Leader flags exclude each other exactly as long as the leader's session
      lives: while `e` has its flag set and does nothing, another idle elector can
      come to set its own, without that session dying first, if and only if the
      session is already dead. */
  lemma SecondFlagIff(actions: seq<Action>, states: seq<State>, e: nat, s: nat, f: nat)
    requires IsRun(actions, states) && e != f
    requires
      var st := states[|actions|];
      && e in st.electors && st.electors[e].isLeader && st.electors[e].conn == Some(s)
      && f in st.electors && st.electors[f].pc == Idle && !st.electors[f].isLeader
    ensures (exists actions', states' :: Joins(actions, states, actions', states', e, s, f)) <==>
            !Alive(states[|actions|], s)
  {
    if Alive(states[|actions|], s) {
      forall actions', states' ensures !Joins(actions, states, actions', states', e, s, f) {
        if IsRun(actions', states') && actions <= actions' && states <= states' &&
           Undisturbed(actions', |actions|, e, s)
        {
          StaysOut(actions', states', |actions|, |actions'|, e, s, f);
        }
      }
    } else {
      var actions', states' := SecondFlag(actions, states, e, s, f);
    }
  }

  lemma SecondFlag(actions: seq<Action>, states: seq<State>, e: nat, s: nat, f: nat)
    returns (actions': seq<Action>, states': seq<State>)
    requires IsRun(actions, states) && e != f && !Alive(states[|actions|], s)
    requires
      var st := states[|actions|];
      f in st.electors && st.electors[f].pc == Idle && !st.electors[f].isLeader
    ensures Joins(actions, states, actions', states', e, s, f)
  {
    var freed, states1 := FreeTheLock(actions, states, e, s);
    var t := NewSession(states1[|freed|].sessions.Keys);
    actions', states' := Elect(freed, states1, f, t);
  }

  // ----------------------------------------------------------------- example runs

  lemma ExtendRun(actions: seq<Action>, states: seq<State>, a: Action)
    requires IsRun(actions, states) && Enabled(states[|actions|], a)
    ensures IsRun(actions + [a], states + [Apply(states[|actions|], a)])
  {
    var actions', states' := actions + [a], states + [Apply(states[|actions|], a)];
    assert forall j :: 0 <= j < |actions| ==> states'[j] == states[j] && actions'[j] == actions[j];
  }

  lemma Extend(actions: seq<Action>, states: seq<State>, a: Action, el: Elector)
    returns (actions': seq<Action>, states': seq<State>)
    requires IsRun(actions, states) && Enabled(states[|actions|], a) && Actor(a).Some?
    requires Apply(states[|actions|], a).electors[Actor(a).value] == el
    ensures actions' == actions + [a] && states' == states + [Apply(states[|actions|], a)]
    ensures IsRun(actions', states')
    ensures states'[|actions'|].electors == states[|actions|].electors[Actor(a).value := el]
  {
    actions', states' := actions + [a], states + [Apply(states[|actions|], a)];
    ExtendRun(actions, states, a);
  }

  /** Elector `e` draws the new session `s`, wins the free lock and sets its flag. */
  lemma Elect(actions: seq<Action>, states: seq<State>, e: nat, s: nat)
    returns (actions': seq<Action>, states': seq<State>)
    requires IsRun(actions, states)
    requires
      var st := states[|actions|];
      && e in st.electors && st.electors[e].pc == Idle && !Leading(st.electors[e])
      && s !in st.sessions && st.holder == None
    ensures actions' == actions + [Connect(e, s), TryLock(e, true, true), BecomeLeader(e)]
    ensures IsRun(actions', states') && states <= states'
    ensures
      var st, st' := states[|actions|], states'[|actions'|];
      st' == State(st.electors[e := st.electors[e].(pc := AnnounceTrue, conn := Some(s), isLeader := true)],
                   st.sessions[s := Session(e, true)], Some(s), 1)
  {
    var el := states[|actions|].electors[e];
    actions', states' := Extend(actions, states, Connect(e, s), el.(pc := Acquiring(s)));
    actions', states' := Extend(actions', states', TryLock(e, true, true), el.(pc := Granted(s)));
    actions', states' := Extend(actions', states', BecomeLeader(e),
                                el.(pc := AnnounceTrue, conn := Some(s), isLeader := true));
  }

  /** The flag alone does not exclude: a leader whose session died keeps its flag
      until its next health check, while another elector already leads. */
  lemma FlagsCanOverlap() returns (actions: seq<Action>, states: seq<State>)
    ensures IsRun(actions, states)
    ensures
      var last := states[|actions|];
      0 in last.electors && 1 in last.electors && last.electors[0].isLeader && last.electors[1].isLeader
  {
    actions, states := [], [State(map[0 := NEW_ELECTOR, 1 := NEW_ELECTOR], map[], None, 0)];
    actions, states := Elect(actions, states, 0, 10);
    var last := states[|actions|];
    var died := actions + [Die(10)];
    states := states + [Apply(last, Die(10))];
    assert forall j :: 0 <= j < |actions| ==> died[j] == actions[j];
    assert IsRun(died, states);
    actions, states := Elect(died, states, 1, 11);
  }

  const LEADER := Elector(Idle, Some(10), true, false, [true], 0, [true], false, 0)

  lemma LeaderAnnounced() returns (actions: seq<Action>, states: seq<State>)
    ensures IsRun(actions, states)
    ensures states[|actions|] == State(map[0 := LEADER], map[10 := Session(0, true)], Some(10), 1)
  {
    actions, states := [], [State(map[0 := NEW_ELECTOR], map[], None, 0)];
    actions, states := Elect(actions, states, 0, 10);
    actions, states := Extend(actions, states, Announce(0), LEADER);
  }

  /** A failed health check on a live session, followed by a lost unlock, leaks
      the lock. */
  lemma LeakHappens() returns (actions: seq<Action>, states: seq<State>)
    ensures IsRun(actions, states) && Leaked(states[|actions|], 10)
  {
    actions, states := LeaderAnnounced();
    actions, states := Extend(actions, states, Tick(0), LEADER.(pc := Probing));
    actions, states := Extend(actions, states, ProbeResult(0, false), LEADER.(pc := Revoking));
    var cleared := LEADER.(conn := None, isLeader := false);
    actions, states := Extend(actions, states, Clear(0), cleared.(pc := Unlocking(10)));
    actions, states := Extend(actions, states, Unlock(0, false), cleared.(pc := AnnounceFalse));
  }

  /** A consumer that is slow once misses the end of a leadership: everything has
      settled, one announcement was dropped, and the evaluator runs without a leader. */
  lemma EvaluatorCanOutliveLeadership() returns (actions: seq<Action>, states: seq<State>)
    ensures IsRun(actions, states)
    ensures
      var last := states[|actions|];
      && 0 in last.electors && Settled(last.electors[0])
      && !last.electors[0].isLeader && last.electors[0].evaluators == 1 && last.electors[0].dropped == 1
  {
    actions, states := LeaderAnnounced();
    actions, states := Extend(actions, states, Tick(0), LEADER.(pc := Probing));
    actions, states := Extend(actions, states, ProbeResult(0, false), LEADER.(pc := Revoking));
    var cleared := LEADER.(conn := None, isLeader := false);
    actions, states := Extend(actions, states, Clear(0), cleared.(pc := Unlocking(10)));
    actions, states := Extend(actions, states, Unlock(0, true), cleared.(pc := AnnounceFalse));
    var announced := cleared.(attempts := [true, false], dropped := 1);
    actions, states := Extend(actions, states, Announce(0), announced);
    actions, states := Extend(actions, states, Consume(0),
      announced.(channel := [], evalCancel := true, evaluators := 1));
  }
}
