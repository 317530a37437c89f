/**
 The wait for a graceful shutdown (`wait_for_signals` of src/signals.rs): per server a signal task, a
 cancel task and the waiting future, with one cancel receiver behind a mutex shared by all servers.
 Every await point is a step, and the steps of all tasks interleave freely.
 */
module Signals {
  import opened Wrappers

  /** The first spawned task; `Finished` has dropped its sender. */
  datatype SignalTask = Listening | Sending | Finished

  /** The second spawned task: waiting for the lock, for a change, sending, and done. */
  datatype CancelTask = Locking | Watching | Notifying | Released

  datatype Waiter = Waiting | Delaying | Delegated

  /** `closed`: the signal stream ended without a termination signal. `queued` is the channel of capacity one. */
  datatype Server = Server(
    signals: SignalTask,
    cancel: CancelTask,
    waiter: Waiter,
    closed: bool,
    queued: nat,
    delegations: nat)

  /** The watch channel is at `version`; the shared receiver has seen `seen`. */
  datatype State = State(
    servers: seq<Server>,
    hasReceiver: bool,
    holder: Option<nat>,
    version: nat,
    seen: nat,
    senderDropped: bool)

  datatype Event =
    | Hangup(i: nat)
    | Terminate(i: nat)
    | StreamClosed(i: nat)
    | WatchChange
    | WatchDrop
    | SendSignal(i: nat)
    | Lock(i: nat)
    | Changed(i: nat)
    | SendCancel(i: nat)
    | Receive(i: nat)
    | Delegate(i: nat)

  const FRESH := Server(Listening, Locking, Waiting, false, 0, 0)

  function Init(n: nat, hasReceiver: bool): (s: State) {
    State(seq(n, _ => FRESH), hasReceiver, None, 0, 0, false)
  }

  /** A send completes when the channel has room, or fails at once when the receiver is gone. */
  predicate CanSend(v: Server) {
    v.queued == 0 || v.waiter.Delegated?
  }

  function Sent(v: Server): (q: nat) {
    if v.waiter.Delegated? then v.queued else v.queued + 1
  }

  /** The steps of one server that leave the shared receiver alone. */
  function ServerStep(v: Server, e: Event): (v': Server) {
    match e
    case Terminate(_) => if v.signals.Listening? then v.(signals := Sending) else v
    case StreamClosed(_) => if v.signals.Listening? then v.(signals := Finished, closed := true) else v
    case SendSignal(_) => if v.signals.Sending? && CanSend(v) then v.(signals := Finished, queued := Sent(v)) else v
    case Receive(_) =>
      if !v.waiter.Waiting? then v
      else if v.queued > 0 then v.(waiter := Delaying, queued := v.queued - 1)
      else if v.signals.Finished? && v.cancel.Released? then v.(waiter := Delaying)  // all senders are gone
      else v
    case Delegate(_) => if v.waiter.Delaying? then v.(waiter := Delegated, delegations := v.delegations + 1) else v
    case _ => v  // a hangup is caught and ignored
  }

  function Put(s: State, i: nat, v: Server): (s': State)
    requires i < |s.servers|
  {
    s.(servers := s.servers[i := v])
  }

  /** The cancel task of server `i`; the lock is held from `Lock` until its message is sent. */
  function CancelStep(s: State, e: Event): (s': State)
    requires (e.Lock? || e.Changed? || e.SendCancel?) && e.i < |s.servers|
  {
    var v := s.servers[e.i];
    match e
    case Lock(i) =>
      if v.cancel.Locking? && s.holder.None? then
        if s.hasReceiver then Put(s, i, v.(cancel := Watching)).(holder := Some(i)) else Put(s, i, v.(cancel := Released))
      else s
    case Changed(i) =>
      if v.cancel.Watching? && (s.seen != s.version || s.senderDropped)
      then Put(s, i, v.(cancel := Notifying)).(seen := s.version) else s
    case SendCancel(i) =>
      if v.cancel.Notifying? && CanSend(v)
      then Put(s, i, v.(cancel := Released, queued := Sent(v))).(holder := None) else s
  }

  /** Steps that are not possible leave the state unchanged. */
  function Step(s: State, e: Event): (s': State) {
    if e.WatchChange? then if s.senderDropped then s else s.(version := s.version + 1)
    else if e.WatchDrop? then s.(senderDropped := true)
    else if e.i >= |s.servers| then s
    else if e.Lock? || e.Changed? || e.SendCancel? then CancelStep(s, e)
    else Put(s, e.i, ServerStep(s.servers[e.i], e))
  }

  function Run(n: nat, hasReceiver: bool, events: seq<Event>): (s: State) {
    if events == [] then Init(n, hasReceiver)
    else Step(Run(n, hasReceiver, events[..|events| - 1]), events[|events| - 1])
  }

  // ---- Invariants

  /** The cancel task has learnt of a change or of the sender's drop. */
  predicate Cancelled(v: Server, hasReceiver: bool) {
    v.cancel.Notifying? || (v.cancel.Released? && hasReceiver)
  }

  predicate Terminated(v: Server) {
    v.signals.Sending? || (v.signals.Finished? && !v.closed)
  }

  /** Messages sent so far by the two tasks. */
  function Messages(v: Server, hasReceiver: bool): (n: nat) {
    (if v.signals.Finished? && !v.closed then 1 else 0) + (if v.cancel.Released? && hasReceiver then 1 else 0)
  }

  predicate ServerOk(v: Server, hasReceiver: bool) {
    && (v.waiter.Waiting? ==> v.queued == Messages(v, hasReceiver) <= 1)
    && v.delegations == (if v.waiter.Delegated? then 1 else 0)
    && (v.closed ==> v.signals.Finished?)
    && (v.cancel.Watching? || v.cancel.Notifying? ==> hasReceiver)
    && (!v.waiter.Waiting? ==> Messages(v, hasReceiver) > 0 || (v.closed && v.cancel.Released?))
  }

  /** The lock is held exactly by the task between `Lock` and `SendCancel`. */
  predicate LockOk(s: State) {
    forall i :: 0 <= i < |s.servers| ==>
      (s.holder == Some(i) <==> s.servers[i].cancel.Watching? || s.servers[i].cancel.Notifying?)
  }

  function CountCancelled(servers: seq<Server>, hasReceiver: bool): (n: nat) {
    if servers == [] then 0
    else CountCancelled(servers[..|servers| - 1], hasReceiver) + (if Cancelled(servers[|servers| - 1], hasReceiver) then 1 else 0)
  }

  ghost predicate Inv(s: State) {
    && (forall i :: 0 <= i < |s.servers| ==> ServerOk(s.servers[i], s.hasReceiver))
    && LockOk(s)
    && s.seen <= s.version
    && (!s.senderDropped ==> CountCancelled(s.servers, s.hasReceiver) <= s.seen)
  }

  lemma {:induction false} CountUpdate(servers: seq<Server>, hasReceiver: bool, i: nat, v: Server)
    requires i < |servers|
    ensures CountCancelled(servers[i := v], hasReceiver) == CountCancelled(servers, hasReceiver)
      - (if Cancelled(servers[i], hasReceiver) then 1 else 0) + (if Cancelled(v, hasReceiver) then 1 else 0)
  {
    var n := |servers| - 1;
    if i < n {
      assert servers[i := v][..n] == servers[..n][i := v];
      CountUpdate(servers[..n], hasReceiver, i, v);
    } else {
      assert servers[i := v][..n] == servers[..n];
    }
  }

  lemma {:induction false} CountFresh(n: nat, hasReceiver: bool)
    ensures CountCancelled(seq(n, _ => FRESH), hasReceiver) == 0
  {
    if n > 0 {
      CountFresh(n - 1, hasReceiver);
      assert seq(n, _ => FRESH)[..n - 1] == seq(n - 1, _ => FRESH);
    }
  }

  lemma ServerStepKeepsInv(s: State, e: Event)
    requires Inv(s) && !e.WatchChange? && !e.WatchDrop? && !e.Lock? && !e.Changed? && !e.SendCancel?
    requires e.i < |s.servers|
    ensures Inv(Put(s, e.i, ServerStep(s.servers[e.i], e)))
  {
    var v := s.servers[e.i];
    assert ServerOk(v, s.hasReceiver);
    ServerStepOk(v, s.hasReceiver, e);
    PutKeepsInv(s, e.i, ServerStep(v, e));
  }

  lemma ServerStepOk(v: Server, hasReceiver: bool, e: Event)
    requires ServerOk(v, hasReceiver)
    ensures ServerOk(ServerStep(v, e), hasReceiver) && ServerStep(v, e).cancel == v.cancel
  {
  }

  lemma PutKeepsInv(s: State, i: nat, v: Server)
    requires Inv(s) && i < |s.servers| && ServerOk(v, s.hasReceiver) && v.cancel == s.servers[i].cancel
    ensures Inv(Put(s, i, v))
  {
    CountUpdate(s.servers, s.hasReceiver, i, v);
  }

  lemma CancelStepKeepsInv(s: State, e: Event)
    requires Inv(s) && (e.Lock? || e.Changed? || e.SendCancel?) && e.i < |s.servers|
    ensures Inv(CancelStep(s, e))
  {
    var i, s' := e.i, CancelStep(s, e);
    assert ServerOk(s.servers[i], s.hasReceiver);
    if s' != s {
      CancelStepOk(s, e);
      CountUpdate(s.servers, s.hasReceiver, i, s'.servers[i]);
    }
  }

  /** The moves of the cancel task: who holds the lock, and what it has learnt. */
  lemma CancelStepOk(s: State, e: Event)
    requires (e.Lock? || e.Changed? || e.SendCancel?) && e.i < |s.servers|
    requires ServerOk(s.servers[e.i], s.hasReceiver) && LockOk(s) && CancelStep(s, e) != s
    ensures var s' := CancelStep(s, e);
      && s'.servers == s.servers[e.i := s'.servers[e.i]] && ServerOk(s'.servers[e.i], s.hasReceiver) && LockOk(s')
      && (Cancelled(s'.servers[e.i], s.hasReceiver) && !Cancelled(s.servers[e.i], s.hasReceiver) ==> e.Changed?)
  {
    var s' := CancelStep(s, e);
    forall j | 0 <= j < |s'.servers|
      ensures s'.holder == Some(j) <==> s'.servers[j].cancel.Watching? || s'.servers[j].cancel.Notifying?
    {
      assert s.holder == Some(j) <==> s.servers[j].cancel.Watching? || s.servers[j].cancel.Notifying?;
      assert s.holder == Some(e.i) <==> s.servers[e.i].cancel.Watching? || s.servers[e.i].cancel.Notifying?;
    }
  }

  lemma StepKeepsInv(s: State, e: Event)
    requires Inv(s)
    ensures Inv(Step(s, e))
    ensures |Step(s, e).servers| == |s.servers| && Step(s, e).hasReceiver == s.hasReceiver
  {
    if !e.WatchChange? && !e.WatchDrop? && e.i < |s.servers| {
      if e.Lock? || e.Changed? || e.SendCancel? {
        CancelStepKeepsInv(s, e);
      } else {
        ServerStepKeepsInv(s, e);
      }
    }
  }

  lemma {:induction false} RunKeepsInv(n: nat, hasReceiver: bool, events: seq<Event>)
    ensures Inv(Run(n, hasReceiver, events))
    ensures |Run(n, hasReceiver, events).servers| == n && Run(n, hasReceiver, events).hasReceiver == hasReceiver
  {
    if events == [] {
      CountFresh(n, hasReceiver);
    } else {
      var before := events[..|events| - 1];
      RunKeepsInv(n, hasReceiver, before);
      StepKeepsInv(Run(n, hasReceiver, before), events[|events| - 1]);
    }
  }

  /** What the history must contain for the state to be as it is. */
  ghost predicate Explained(s: State, events: seq<Event>) {
    && (forall i :: 0 <= i < |s.servers| ==>
          && (Terminated(s.servers[i]) ==> Terminate(i) in events)
          && (s.servers[i].closed ==> StreamClosed(i) in events)
          && (!s.servers[i].waiter.Waiting? ==> Receive(i) in events)
          && (s.servers[i].waiter.Delegated? ==> Delegate(i) in events)
          && (Cancelled(s.servers[i], s.hasReceiver) ==> s.version > 0 || s.senderDropped))
    && (s.version > 0 ==> WatchChange in events)
    && (s.senderDropped ==> WatchDrop in events)
  }

  lemma {:induction false} RunExplained(n: nat, hasReceiver: bool, events: seq<Event>)
    ensures Explained(Run(n, hasReceiver, events), events)
  {
    RunKeepsInv(n, hasReceiver, events);
    if events != [] {
      var before, e := events[..|events| - 1], events[|events| - 1];
      RunKeepsInv(n, hasReceiver, before);
      RunExplained(n, hasReceiver, before);
      assert events == before + [e];
      var s, s' := Run(n, hasReceiver, before), Run(n, hasReceiver, events);
      forall i | 0 <= i < n
        ensures Terminated(s'.servers[i]) ==> Terminate(i) in events
        ensures s'.servers[i].closed ==> StreamClosed(i) in events
        ensures !s'.servers[i].waiter.Waiting? ==> Receive(i) in events
        ensures s'.servers[i].waiter.Delegated? ==> Delegate(i) in events
        ensures Cancelled(s'.servers[i], hasReceiver) ==> s'.version > 0 || s'.senderDropped
      {
        assert s'.servers[i] == s.servers[i] || (!e.WatchChange? && !e.WatchDrop? && e.i == i);
      }
    }
  }

  // ---- Results for every run

  predicate HasCause(hasReceiver: bool, events: seq<Event>, i: nat) {
    || Terminate(i) in events
    || (hasReceiver && (WatchChange in events || WatchDrop in events))
    || (!hasReceiver && StreamClosed(i) in events)
  }

  /**
   A wait ends only after a termination signal for that server, a change or drop of the watch channel
   when there is a receiver, or the end of its signal stream when there is none. Hangups never end it.
   */
  lemma WaitEndsOnlyWithCause(n: nat, hasReceiver: bool, events: seq<Event>, i: nat)
    requires i < n
    ensures |Run(n, hasReceiver, events).servers| == n
    ensures !Run(n, hasReceiver, events).servers[i].waiter.Waiting? ==> HasCause(hasReceiver, events, i)
  {
    RunKeepsInv(n, hasReceiver, events);
    RunExplained(n, hasReceiver, events);
    assert ServerOk(Run(n, hasReceiver, events).servers[i], hasReceiver);
  }

  /** Shutdown is delegated at most once per server, and only after its wait ended for a cause and its delay passed. */
  lemma DelegatedAtMostOnce(n: nat, hasReceiver: bool, events: seq<Event>, i: nat)
    requires i < n
    ensures |Run(n, hasReceiver, events).servers| == n
    ensures var v := Run(n, hasReceiver, events).servers[i];
      && v.delegations <= 1
      && (v.delegations == 1 ==> Receive(i) in events && Delegate(i) in events && HasCause(hasReceiver, events, i))
  {
    RunKeepsInv(n, hasReceiver, events);
    RunExplained(n, hasReceiver, events);
    WaitEndsOnlyWithCause(n, hasReceiver, events, i);
    assert ServerOk(Run(n, hasReceiver, events).servers[i], hasReceiver);
  }

  /** At most one cancel task at a time is using the shared receiver. */
  lemma ReceiverIsExclusive(n: nat, hasReceiver: bool, events: seq<Event>, i: nat, j: nat)
    requires i < n && j < n
    ensures |Run(n, hasReceiver, events).servers| == n
    ensures var v := Run(n, hasReceiver, events).servers;
      (v[i].cancel.Watching? || v[i].cancel.Notifying?) && (v[j].cancel.Watching? || v[j].cancel.Notifying?) ==> i == j
  {
    RunKeepsInv(n, hasReceiver, events);
  }

  function CountChanges(events: seq<Event>): (n: nat) {
    if events == [] then 0
    else CountChanges(events[..|events| - 1]) + (if events[|events| - 1].WatchChange? then 1 else 0)
  }

  lemma {:induction false} VersionCountsChanges(n: nat, hasReceiver: bool, events: seq<Event>)
    ensures Run(n, hasReceiver, events).version <= CountChanges(events)
    ensures Run(n, hasReceiver, events).senderDropped ==> WatchDrop in events
  {
    if events != [] {
      VersionCountsChanges(n, hasReceiver, events[..|events| - 1]);
      assert events == events[..|events| - 1] + [events[|events| - 1]];
    }
  }

  /** The servers whose wait ended although no termination signal reached them. */
  ghost function EndedByCancel(servers: seq<Server>): (n: nat) {
    if servers == [] then 0
    else
      var v := servers[|servers| - 1];
      EndedByCancel(servers[..|servers| - 1]) + (if !v.waiter.Waiting? && !Terminated(v) then 1 else 0)
  }

  lemma {:induction false} EndedWereCancelled(servers: seq<Server>, hasReceiver: bool)
    requires hasReceiver && forall i :: 0 <= i < |servers| ==> ServerOk(servers[i], hasReceiver)
    ensures EndedByCancel(servers) <= CountCancelled(servers, hasReceiver)
  {
    if servers != [] {
      assert ServerOk(servers[|servers| - 1], hasReceiver);
      EndedWereCancelled(servers[..|servers| - 1], hasReceiver);
    }
  }

  /**
   A change is consumed by one server: while the sender lives, k changes end at most k waits, so one
   cancel notification stops at most one of the servers that share the receiver.
   */
  lemma EachChangeEndsAtMostOneWait(n: nat, events: seq<Event>)
    requires WatchDrop !in events
    ensures EndedByCancel(Run(n, true, events).servers) <= CountChanges(events)
  {
    RunKeepsInv(n, true, events);
    VersionCountsChanges(n, true, events);
    EndedWereCancelled(Run(n, true, events).servers, true);
  }

  /**
   A caught termination signal is enough: from any reachable state the server's own three steps
   delegate its shutdown, whichever task holds the lock.
   */
  lemma TerminationCompletes(n: nat, hasReceiver: bool, events: seq<Event>, i: nat)
    requires i < n && |Run(n, hasReceiver, events).servers| == n
    requires Terminated(Run(n, hasReceiver, events).servers[i])
    ensures var s := Run(n, hasReceiver, events);
      Step(Step(Step(s, SendSignal(i)), Receive(i)), Delegate(i)).servers[i].waiter.Delegated?
  {
    RunKeepsInv(n, hasReceiver, events);
    var s := Run(n, hasReceiver, events);
    assert ServerOk(s.servers[i], hasReceiver);
  }
}
