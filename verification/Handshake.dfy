/** The two-process spawn handshake as a state machine over the steps of parent, child and loop: any
    interleaving, any step failing. */
module Handshake {
  import opened Wrappers
  import opened Syscalls
  import Filter

  const SUPERVISOR_ACK: char := 'A'
  const CHILD_BOUNDARY_READY: char := 'B'

  /** Where the child stands between fork and exec. */
  datatype Child =
    | Forked
    | Redirected
    | Privileged      // no_new_privs is set
    | Filtered
    | HandedOff
    | Acked
    | Confined
    | Announced
    | Execing         // in its own trapped execve
    | Agent           // that execve was let run and succeeded
    | Dead            // setup or execve failed, or the agent has ended

  /** What the parent failed at. */
  datatype Stage = Receiving | Acking | AwaitingReady | Wrapping

  /** Where the parent stands in its half. */
  datatype Parent =
    | AwaitFd
    | HoldsFd
    | AwaitReady
    | Ready
    | Supervising            // returned a supervised child
    | Reaping(at: Stage)     // failed, waiting for the child to end
    | Failed(at: Stage)      // returned an error, the child reaped
    | Abandoned(at: Stage)   // returned an error, the child not reaped

  /** Who holds the listening end of the filter. Once closed, every trapped call fails. */
  datatype Listener = NotYet | ByChild | InFlight | ByParent | Closed

  /** What travels to the parent: the notify fd, or a byte. */
  datatype Packet = NotifyFd | Byte(b: char)

  /** What has really happened, whoever knows of it. */
  datatype Facts = Facts(filterInstalled: bool, ackReceived: bool, landlockApplied: bool)

  datatype State = State(landlock: bool, child: Child, parent: Parent, listener: Listener,
      toParent: seq<Packet>, toChild: seq<char>, facts: Facts)

  function Start(landlock: bool): State {
    State(landlock, Forked, AwaitFd, NotYet, [], [], Facts(false, false, false))
  }

  /** The child ends, and with it what it held. */
  function Die(s: State): State {
    s.(child := Dead, listener := if s.listener.ByChild? then Closed else s.listener)
  }

  /** The next step of the child, which fails if told to; for the agent that is its end. A read with
      nothing to read waits, unless the other end is gone; so does the trapped execve, unless
      nobody can answer it any more. */
  function ChildStep(s: State, fails: bool): State {
    if s.child.Dead? then s
    else if fails then Die(s)
    else
      match s.child
      case Forked => s.(child := Redirected)
      case Redirected => s.(child := Privileged)
      case Privileged => s.(child := Filtered, listener := ByChild, facts := s.facts.(filterInstalled := true))
      case Filtered =>
        if ParentGone(s) then Die(s)
        else s.(child := HandedOff, listener := InFlight, toParent := s.toParent + [NotifyFd])
      case HandedOff =>
        if s.toChild == [] then (if ParentGone(s) then Die(s) else s)
        else if s.toChild[0] == SUPERVISOR_ACK then
          s.(child := Acked, toChild := s.toChild[1..], facts := s.facts.(ackReceived := true))
        else Die(s.(toChild := s.toChild[1..]))
      case Acked => s.(child := Confined, facts := s.facts.(landlockApplied := s.landlock))
      case Confined =>
        if ParentGone(s) then Die(s)
        else s.(child := Announced, toParent := s.toParent + [Byte(CHILD_BOUNDARY_READY)])
      case Announced => s.(child := Execing)
      case Execing => if s.listener.Closed? then Die(s) else s
      case Agent => s
  }

  /** The parent has returned and its socket end is closed. */
  predicate ParentGone(s: State) {
    s.parent.Supervising? || s.parent.Failed? || s.parent.Abandoned?
  }

  /** The parent gives up: whatever it holds of the listener is dropped before it waits for the child.
      Whether a failed receipt takes the message off its queue makes no difference, as nobody reads
      there again. */
  function GiveUp(s: State, at: Stage): State {
    s.(parent := Reaping(at), toParent := [],
       listener := if s.listener.InFlight? || s.listener.ByParent? then Closed else s.listener)
  }

  /** The next step of the parent; waiting for the child may fail as well. */
  function ParentStep(s: State, fails: bool): State {
    match s.parent
    case AwaitFd =>
      if fails then GiveUp(s, Receiving)
      else if s.toParent == [] then (if s.child.Dead? then GiveUp(s, Receiving) else s)
      else if s.toParent[0].NotifyFd? then s.(parent := HoldsFd, listener := ByParent, toParent := s.toParent[1..])
      else GiveUp(s, Receiving)
    case HoldsFd =>
      if fails || s.child.Dead? then GiveUp(s, Acking)
      else s.(parent := AwaitReady, toChild := s.toChild + [SUPERVISOR_ACK])
    case AwaitReady =>
      if fails then GiveUp(s, AwaitingReady)
      else if s.toParent == [] then (if s.child.Dead? then GiveUp(s, AwaitingReady) else s)
      else if s.toParent[0] == Byte(CHILD_BOUNDARY_READY) then s.(parent := Ready, toParent := s.toParent[1..])
      else GiveUp(s, AwaitingReady)
    case Ready => if fails then s.(parent := Abandoned(Wrapping), listener := Closed) else s.(parent := Supervising)
    case Reaping(at) =>
      if fails then s.(parent := Abandoned(at)) else if s.child.Dead? then s.(parent := Failed(at)) else s
    case _ => s
  }

  /** The loop answers the child's execve, once there is a loop and an execve. That fails when it is
      denied, or let run and refused by the kernel. */
  function LoopStep(s: State, fails: bool): State {
    if s.parent.Supervising? && s.child.Execing? then s.(child := if fails then Dead else Agent) else s
  }

  datatype Move = ChildMoves(fails: bool) | ParentMoves(fails: bool) | LoopMoves(fails: bool)

  function Apply(s: State, m: Move): State {
    match m
    case ChildMoves(fails) => ChildStep(s, fails)
    case ParentMoves(fails) => ParentStep(s, fails)
    case LoopMoves(fails) => LoopStep(s, fails)
  }

  /** A run: the moves in the order they happen to be scheduled. */
  function Run(s: State, schedule: seq<Move>): State {
    if schedule == [] then s else Apply(Run(s, schedule[..|schedule| - 1]), schedule[|schedule| - 1])
  }

  /** Why the child's own execve waits for an answer: a program built for the shipped tables notifies
      on every execve. */
  lemma ExecveNotifies(prog: seq<Filter.Insn>, d: Filter.Data)
    requires Filter.Decides(prog, MEDIATED + DENIED_RECORDED) && Filter.ValidData(d) && d.nr == EXECVE
    ensures Filter.Exec(prog, d, 0, 0, |prog| + 1) == Ok(Filter.RET_USER_NOTIF)
  {
    hide Filter.Exec, Filter.Decides;
    ExecveIsTabled();
    Filter.TabledNotifies(prog, MEDIATED + DENIED_RECORDED, d);
  }

  lemma ExecveIsTabled()
    ensures EXECVE in MEDIATED + DENIED_RECORDED
  {
    assert (MEDIATED + DENIED_RECORDED)[24] == EXECVE;
  }

  // ----- safety -----

  /** Everything that confines the child short of the agent is in place. */
  predicate Confinement(s: State) {
    s.facts.filterInstalled && s.facts.ackReceived && s.facts.landlockApplied == s.landlock
  }

  /** And the parent holds the end at which its calls are decided. */
  predicate Boundary(s: State) {
    Confinement(s) && s.listener.ByParent?
  }

  predicate BeforeHandOff(c: Child) {
    c.Forked? || c.Redirected? || c.Privileged? || c.Filtered?
  }

  predicate PastConfinement(c: Child) {
    c.Confined? || c.Announced? || c.Execing? || c.Agent?
  }

  predicate PastAck(c: Child) {
    c.Acked? || PastConfinement(c)
  }

  predicate PastAnnouncement(c: Child) {
    c.Announced? || c.Execing? || c.Agent? || c.Dead?
  }

  /** The parent's half has failed. */
  predicate HasFailed(p: Parent) {
    p.Reaping? || p.Failed? || p.Abandoned?
  }

  /** The parent has acked. */
  predicate AckGiven(p: Parent) {
    || p.AwaitReady? || p.Ready? || p.Supervising?
    || (HasFailed(p) && (p.at.AwaitingReady? || p.at.Wrapping?))
  }

  /** The parent has had the word that the boundary is ready. */
  predicate HadReady(p: Parent) {
    p.Ready? || p.Supervising? || p == Abandoned(Wrapping)
  }

  ghost predicate ChildInv(s: State) {
    && (s.child.Filtered? || s.child.HandedOff? || PastAck(s.child) ==> s.facts.filterInstalled)
    && (PastAck(s.child) ==> s.facts.ackReceived)
    && (PastConfinement(s.child) ==> s.facts.landlockApplied == s.landlock)
    && (s.facts.ackReceived ==> s.child.Dead? || PastAck(s.child))
    && (!s.landlock ==> !s.facts.landlockApplied)
    && (s.child.Agent? ==> s.parent.Supervising?)
    && (s.parent.Failed? ==> s.child.Dead?)
  }

  ghost predicate WireInv(s: State) {
    && (forall b :: b in s.toChild ==> b == SUPERVISOR_ACK)
    && (s.toChild != [] || s.facts.ackReceived ==> AckGiven(s.parent))
    && (NotifyFd in s.toParent ==> s.facts.filterInstalled && !BeforeHandOff(s.child))
    && (Byte(CHILD_BOUNDARY_READY) in s.toParent || HadReady(s.parent) ==>
          Confinement(s) && PastAnnouncement(s.child))
    && (s.parent.Reaping? || s.parent.Failed? ==> !s.parent.at.Wrapping?)
    && (s.toChild == [] && !s.facts.ackReceived && AckGiven(s.parent) ==> s.child.Dead?)
  }

  ghost predicate ListenerInv(s: State) {
    && (s.parent.HoldsFd? || (AckGiven(s.parent) && !HasFailed(s.parent)) ==> s.listener.ByParent?)
    && (HasFailed(s.parent) ==> !s.listener.ByParent?)
    && (HasFailed(s.parent) && !s.parent.at.Receiving? ==> s.listener.Closed?)
    && (s.listener.NotYet? ==> s.child.Forked? || s.child.Redirected? || s.child.Privileged? || s.child.Dead?)
    && (s.listener.ByChild? ==> s.child.Filtered?)
    && (BeforeHandOff(s.child) ==> s.parent.AwaitFd? || (HasFailed(s.parent) && s.parent.at.Receiving?))
  }

  ghost predicate Inv(s: State) {
    ChildInv(s) && WireInv(s) && ListenerInv(s)
  }

  lemma ChildKeepsWire(s: State, fails: bool)
    requires Inv(s)
    ensures WireInv(ChildStep(s, fails))
  {
    hide ListenerInv;
    var t := ChildStep(s, fails);
    assert forall b :: b in t.toChild ==> b in s.toChild;
    assert forall p :: p in t.toParent ==>
      || p in s.toParent
      || (p == NotifyFd && s.child.Filtered?)
      || (p == Byte(CHILD_BOUNDARY_READY) && s.child.Confined?);
  }

  lemma ChildKeepsRest(s: State, fails: bool)
    requires Inv(s)
    ensures ChildInv(ChildStep(s, fails)) && ListenerInv(ChildStep(s, fails))
    ensures ChildStep(s, fails).landlock == s.landlock
  {
    hide WireInv;
  }

  /** What the parent is at when it gives up. */
  predicate At(p: Parent, at: Stage) {
    || (p.AwaitFd? && at.Receiving?) || (p.HoldsFd? && at.Acking?) || (p.AwaitReady? && at.AwaitingReady?)
  }

  lemma GiveUpKeepsInv(s: State, at: Stage)
    requires Inv(s) && At(s.parent, at)
    ensures Inv(GiveUp(s, at)) && GiveUp(s, at).landlock == s.landlock
  {}

  /** Taking the next packet: nothing new is on the wire. */
  lemma TakeKeepsWire(s: State, p: Parent)
    requires Inv(s) && s.toParent != []
    requires || (s.parent.AwaitFd? && p.HoldsFd?)
             || (s.parent.AwaitReady? && p.Ready? && s.toParent[0] == Byte(CHILD_BOUNDARY_READY))
    ensures WireInv(s.(parent := p, listener := ByParent, toParent := s.toParent[1..]))
  {
    assert forall q :: q in s.toParent[1..] ==> q in s.toParent;
    assert s.toParent[0] in s.toParent;
  }

  lemma TakeKeepsRest(s: State, p: Parent)
    requires Inv(s) && s.toParent != []
    requires (s.parent.AwaitFd? && p.HoldsFd? && s.toParent[0].NotifyFd?) || (s.parent.AwaitReady? && p.Ready?)
    ensures var t := s.(parent := p, listener := ByParent, toParent := s.toParent[1..]); ChildInv(t) && ListenerInv(t)
  {
    assert s.toParent[0] in s.toParent;
  }

  lemma ParentKeepsInv(s: State, fails: bool)
    requires Inv(s)
    ensures Inv(ParentStep(s, fails)) && ParentStep(s, fails).landlock == s.landlock
  {
    if s.parent.AwaitFd? || s.parent.HoldsFd? || s.parent.AwaitReady? {
      var at := match s.parent case AwaitFd => Receiving case HoldsFd => Acking case _ => AwaitingReady;
      GiveUpKeepsInv(s, at);
      if ParentStep(s, fails) != GiveUp(s, at) {
        if s.parent.HoldsFd? {
          AckKeepsInv(s);
        } else if s.toParent != [] {
          var p := if s.parent.AwaitFd? then HoldsFd else Ready;
          hide ChildInv, WireInv, GiveUp;
          TakeKeepsWire(s, p);
          TakeKeepsRest(s, p);
          assert s.parent.AwaitReady? ==> s.listener.ByParent?;
        }
      }
    }
  }

  lemma AckKeepsInv(s: State)
    requires Inv(s) && s.parent.HoldsFd?
    ensures Inv(s.(parent := AwaitReady, toChild := s.toChild + [SUPERVISOR_ACK]))
  {}

  lemma MoveKeepsInv(s: State, m: Move)
    requires Inv(s)
    ensures Inv(Apply(s, m)) && Apply(s, m).landlock == s.landlock
  {
    hide ChildStep, ParentStep;
    match m
    case ChildMoves(fails) =>
      ChildKeepsWire(s, fails);
      ChildKeepsRest(s, fails);
    case ParentMoves(fails) =>
      ParentKeepsInv(s, fails);
    case LoopMoves(_) =>
  }

  lemma {:induction false} RunKeepsInv(landlock: bool, schedule: seq<Move>)
    ensures Inv(Run(Start(landlock), schedule)) && Run(Start(landlock), schedule).landlock == landlock
  {
    if schedule != [] {
      hide Inv, Apply;
      RunKeepsInv(landlock, schedule[..|schedule| - 1]);
      MoveKeepsInv(Run(Start(landlock), schedule[..|schedule| - 1]), schedule[|schedule| - 1]);
    } else {
      assert Run(Start(landlock), schedule) == Start(landlock);
    }
  }

  /** In every interleaving with any steps failing: the agent runs only under a parent that has
      returned to supervise it, behind an installed filter whose listener that parent holds, and
      behind Landlock if that was asked for; the parent returns a supervised child only when all
      that already stands. No failed spawn ever has a running agent or an open way to answer one. */
  lemma AgentOnlyBehindBoundary(landlock: bool, schedule: seq<Move>)
    ensures var s := Run(Start(landlock), schedule);
            && (s.child.Agent? ==> s.parent.Supervising?)
            && (s.parent.Supervising? ==> Boundary(s))
            && (HasFailed(s.parent) ==> !s.child.Agent? && !s.listener.ByParent?)
            && (s.facts.landlockApplied ==> landlock)
  {
    RunKeepsInv(landlock, schedule);
  }

  lemma {:induction false} RunConcat(s: State, a: seq<Move>, b: seq<Move>)
    ensures Run(s, a + b) == Run(Run(s, a), b)
  {
    if b == [] {
      assert a + b == a;
    } else {
      assert (a + b)[..|a + b| - 1] == a + b[..|b| - 1];
      RunConcat(s, a, b[..|b| - 1]);
    }
  }

  const CHILD: Move := ChildMoves(false)
  const PARENT: Move := ParentMoves(false)
  const LOOP: Move := LoopMoves(false)

  lemma OneMove(s: State, m: Move)
    ensures Run(s, [m]) == Apply(s, m)
  {
    assert [m][..0] == [];
    assert Run(s, []) == s;
  }

  lemma TwoMoves(s: State, m: Move, m': Move)
    ensures Run(s, [m, m']) == Apply(Apply(s, m), m')
  {
    OneMove(s, m);
    OneMove(Apply(s, m), m');
    RunConcat(s, [m], [m']);
    assert [m] + [m'] == [m, m'];
  }

  // ----- failed spawns -----

  function ChildTurns(after: seq<Move>): nat {
    if after == [] then 0
    else ChildTurns(after[..|after| - 1]) + (if after[|after| - 1].ChildMoves? then 1 else 0)
  }

  /** The steps a child has before it, its execve included. */
  function TurnsLeft(c: Child): nat {
    match c
    case Forked => 9 case Redirected => 8 case Privileged => 7 case Filtered => 6 case HandedOff => 5
    case Acked => 4 case Confined => 3 case Announced => 2 case Execing => 1 case Agent => 0 case Dead => 0
  }

  /** The child of the waiting parent `s` is dead after `after`: it was, a step of its own failed, or
      it was past waiting for the ack and has come to its execve, which nobody can answer. */
  ghost predicate DiesBy(s: State, after: seq<Move>)
    requires s.parent.Reaping?
  {
    || s.child.Dead? || ChildMoves(true) in after
    || (s.parent.at.AwaitingReady? && ChildTurns(after) >= TurnsLeft(s.child))
  }

  /** The parent, still waiting, looks for the child once it is dead. */
  ghost predicate Finds(s: State, after: seq<Move>)
    requires s.parent.Reaping?
  {
    exists k :: 0 <= k < |after| && after[k] == PARENT && ParentMoves(true) !in after[..k] && DiesBy(s, after[..k])
  }

  lemma FindsOneMore(s: State, after: seq<Move>, m: Move)
    requires s.parent.Reaping?
    ensures Finds(s, after + [m]) <==>
            Finds(s, after) || (m == PARENT && ParentMoves(true) !in after && DiesBy(s, after))
  {
    hide DiesBy;
    var more := after + [m];
    forall k | 0 <= k < |after| ensures more[k] == after[k] && more[..k] == after[..k] {}
    assert more[|after|] == m && more[..|after|] == after;
    if Finds(s, after) {
      var k :| 0 <= k < |after| && after[k] == PARENT && ParentMoves(true) !in after[..k] && DiesBy(s, after[..k]);
      assert more[k] == PARENT && more[..k] == after[..k];
    }
  }

  lemma TurnsOneMore(after: seq<Move>, m: Move)
    ensures ChildTurns(after + [m]) == ChildTurns(after) + (if m.ChildMoves? then 1 else 0)
    ensures forall x :: x in after + [m] <==> x in after || x == m
  {
    assert (after + [m])[..|after|] == after;
  }

  /** One step of a child whose parent waits for it. */
  lemma WaitedForChild(s: State, fails: bool)
    requires Inv(s) && s.parent.Reaping?
    ensures var t := ChildStep(s, fails);
            && t.parent == s.parent
            && (t.child.Dead? <==> s.child.Dead? || fails || (s.parent.at.AwaitingReady? && TurnsLeft(s.child) <= 1))
            && (s.parent.at.AwaitingReady? && !t.child.Dead? ==> TurnsLeft(t.child) + 1 == TurnsLeft(s.child))
  {
    if s.toChild != [] {
      assert s.toChild[0] in s.toChild;
    }
  }

  ghost predicate Waiting(s: State, after: seq<Move>, t: State)
    requires s.parent.Reaping?
  {
    && t.parent == s.parent && (t.child.Dead? <==> DiesBy(s, after))
    && (s.parent.at.AwaitingReady? && !t.child.Dead? ==> TurnsLeft(t.child) + ChildTurns(after) == TurnsLeft(s.child))
  }

  /** What a parent that waits for its child comes to. */
  lemma {:induction false} WaitingParent(s: State, after: seq<Move>)
    requires Inv(s) && s.parent.Reaping?
    ensures var t := Run(s, after);
            && Inv(t)
            && (if Finds(s, after) then t.parent == Failed(s.parent.at)
                else if ParentMoves(true) in after then t.parent == Abandoned(s.parent.at)
                else Waiting(s, after, t))
  {
    if after == [] {
      NotYetWaited(s);
    } else {
      hide Inv, ChildStep, Finds;
      var before, m := after[..|after| - 1], after[|after| - 1];
      assert after == before + [m];
      var u := Run(s, before);
      WaitingParent(s, before);
      MoveKeepsInv(u, m);
      FindsOneMore(s, before, m);
      TurnsOneMore(before, m);
      if m.ChildMoves? {
        ChildLeavesParent(u, m.fails);
        if u.parent.Reaping? {
          WaitedForChild(u, m.fails);
        }
      }
    }
  }

  lemma NotYetWaited(s: State)
    requires Inv(s) && s.parent.Reaping?
    ensures Run(s, []) == s && Waiting(s, [], s) && !Finds(s, [])
  {
    assert !s.child.Agent?;
  }

  lemma ChildLeavesParent(s: State, fails: bool)
    ensures ChildStep(s, fails).parent == s.parent
  {}

  lemma {:induction false} ReturnedStays(s: State, after: seq<Move>)
    requires s.parent.Failed? || s.parent.Abandoned?
    ensures Run(s, after).parent == s.parent
  {
    if after != [] {
      hide ChildStep;
      var before, m := after[..|after| - 1], after[|after| - 1];
      ReturnedStays(s, before);
      if m.ChildMoves? {
        ChildLeavesParent(Run(s, before), m.fails);
      }
    }
  }

  /** What becomes of a failed spawn, over all runs and all their continuations. A parent that has
      returned has returned. One that waits reaps its child if it looks once the child is dead and
      the wait itself has not failed before; if the wait does fail, it returns without reaping; else
      it waits on. */
  lemma FailedSpawnEnds(landlock: bool, before: seq<Move>, after: seq<Move>)
    requires HasFailed(Run(Start(landlock), before).parent)
    ensures var s, t := Run(Start(landlock), before), Run(Start(landlock), before + after);
            t.parent == if !s.parent.Reaping? then s.parent
                        else if Finds(s, after) then Failed(s.parent.at)
                        else if ParentMoves(true) in after then Abandoned(s.parent.at)
                        else s.parent
  {
    hide Inv, Run;
    var s := Run(Start(landlock), before);
    RunKeepsInv(landlock, before);
    RunConcat(Start(landlock), before, after);
    if s.parent.Reaping? {
      WaitingParent(s, after);
    } else {
      ReturnedStays(s, after);
    }
  }

  /** Where the promise to reap on any failure holds, by what the parent failed at. Give the child
      five turns and the parent, whose wait does not fail, one after them: the child has been reaped
      exactly when the parent has not returned already at wrapping or from a failed wait, and it had
      acked, or the child was dead or has failed by itself. Otherwise, and only then, the parent
      waits for a living child. */
  lemma ReapedExactlyWhen(landlock: bool, before: seq<Move>, after: seq<Move>)
    requires HasFailed(Run(Start(landlock), before).parent)
    requires ChildTurns(after) >= 5 && ParentMoves(true) !in after
    ensures var s, t := Run(Start(landlock), before), Run(Start(landlock), before + (after + [PARENT]));
            && (t.parent.Failed? <==>
                  && !s.parent.Abandoned?
                  && (s.parent.at.AwaitingReady? || s.child.Dead? || ChildMoves(true) in after))
            && (t.parent.Abandoned? <==> s.parent.Abandoned?)
            && (t.parent.Reaping? ==> !t.child.Dead?)
  {
    var s := Run(Start(landlock), before);
    RunKeepsInv(landlock, before);
    hide Run, Inv;
    RunConcat(Start(landlock), before, after + [PARENT]);
    if s.parent.Reaping? {
      WaitingParent(s, after + [PARENT]);
      FindsOneMore(s, after, PARENT);
      WaitingParent(s, after);
      TurnsOneMore(after, PARENT);
      if Finds(s, after) {
        FoundWhenOver(s, after);
      }
      if s.parent.at.AwaitingReady? {
        TurnsAtMostFive(s);
      }
    } else {
      ReturnedStays(s, after + [PARENT]);
      DeadOnceReaped(s);
    }
  }

  lemma DeadOnceReaped(s: State)
    requires Inv(s)
    ensures s.parent.Failed? ==> s.child.Dead?
  {}

  lemma TurnsAtMostFive(s: State)
    requires Inv(s) && s.parent == Reaping(AwaitingReady)
    ensures TurnsLeft(s.child) <= 5
  {}

  /** A child found dead early is dead later. */
  lemma FoundWhenOver(s: State, after: seq<Move>)
    requires s.parent.Reaping? && Finds(s, after)
    ensures DiesBy(s, after)
  {
    var k :| 0 <= k < |after| && after[k] == PARENT && ParentMoves(true) !in after[..k] && DiesBy(s, after[..k]);
    TurnsGrow(after, k);
  }

  lemma {:induction false} TurnsGrow(after: seq<Move>, k: nat)
    requires k <= |after|
    ensures ChildTurns(after[..k]) <= ChildTurns(after)
  {
    if k < |after| {
      TurnsGrow(after[..|after| - 1], k);
      assert after[..|after| - 1][..k] == after[..k];
    } else {
      assert after[..k] == after;
    }
  }

  /** A parent that fails after its ack has dropped the listener, so the child's execve fails and the
      child ends: it is reaped after five turns of the child and one of the parent. */
  lemma AckedFailureIsReaped(s: State, after: seq<Move>)
    requires Inv(s) && s.parent == Reaping(AwaitingReady)
    requires ChildTurns(after) >= 5 && ParentMoves(true) !in after
    ensures Run(s, after + [PARENT]).parent == Failed(AwaitingReady)
  {
    hide Run, Inv;
    WaitingParent(s, after + [PARENT]);
    FindsOneMore(s, after, PARENT);
    TurnsAtMostFive(s);
  }

  /** A parent that fails before its ack waits for a child that waits for the ack: with the child alive
      they wait for each other for ever exactly as long as no step of the child and no wait of the
      parent fails, whatever is scheduled. */
  lemma StuckWithoutAck(s: State, after: seq<Move>)
    requires Inv(s) && s.parent.Reaping? && !AckGiven(s.parent) && !s.child.Dead?
    ensures var t := Run(s, after);
            && (t.parent.Reaping? && !t.child.Dead? <==> ChildMoves(true) !in after && ParentMoves(true) !in after)
            && !PastAck(t.child)
  {
    hide Run;
    WaitingParent(s, after);
    var t := Run(s, after);
    assert s.parent.at.Receiving? || s.parent.at.Acking?;
    if Finds(s, after) {
      FoundWhenOver(s, after);
    }
  }

  /** It does happen: the parent cannot receive the notify fd the child has sent, say for want of a
      free descriptor. From then on nothing moves. */
  lemma {:induction false} SpawnCanHang(landlock: bool, after: seq<Move>)
    requires ChildMoves(true) !in after && ParentMoves(true) !in after
    ensures Run(Start(landlock), [CHILD, CHILD] + [CHILD, CHILD] + [ParentMoves(true)] + after) ==
            State(landlock, HandedOff, Reaping(Receiving), Closed, [], [], Facts(true, false, false))
  {
    var s0, so := Start(landlock), [CHILD, CHILD] + [CHILD, CHILD];
    var stuck := State(landlock, HandedOff, Reaping(Receiving), Closed, [], [], Facts(true, false, false));
    if after == [] {
      hide Run;
      var s1 := State(landlock, Privileged, AwaitFd, NotYet, [], [], Facts(false, false, false));
      TwoMoves(s0, CHILD, CHILD);
      RunConcat(s0, [CHILD, CHILD], [CHILD, CHILD]);
      TwoMoves(s1, CHILD, CHILD);
      RunConcat(s0, so, [ParentMoves(true)]);
      OneMove(Run(s0, so), ParentMoves(true));
      assert so + [ParentMoves(true)] + after == so + [ParentMoves(true)];
    } else {
      var before, m := after[..|after| - 1], after[|after| - 1];
      assert m in after;
      SpawnCanHang(landlock, before);
      hide Run;
      OneMove(stuck, m);
      RunConcat(s0, so + [ParentMoves(true)] + before, [m]);
      assert so + [ParentMoves(true)] + after == so + [ParentMoves(true)] + before + [m];
    }
  }

  /** Some move of the parent failed where that leaves the child. */
  ghost predicate LeftChild(landlock: bool, schedule: seq<Move>, at: Stage) {
    exists k :: 0 <= k < |schedule| && schedule[k] == ParentMoves(true)
                && LeavesChild(Run(Start(landlock), schedule[..k]).parent, at)
  }

  lemma LeftChildOneMore(landlock: bool, schedule: seq<Move>, m: Move, at: Stage)
    ensures LeftChild(landlock, schedule + [m], at) <==>
            LeftChild(landlock, schedule, at)
            || (m == ParentMoves(true) && LeavesChild(Run(Start(landlock), schedule).parent, at))
  {
    hide Run, LeavesChild;
    var more := schedule + [m];
    forall k | 0 <= k < |schedule| ensures more[k] == schedule[k] && more[..k] == schedule[..k] {}
    assert more[|schedule|] == m && more[..|schedule|] == schedule;
    if LeftChild(landlock, schedule, at) {
      var k :| 0 <= k < |schedule| && schedule[k] == ParentMoves(true)
               && LeavesChild(Run(Start(landlock), schedule[..k]).parent, at);
      assert more[k] == ParentMoves(true) && more[..k] == schedule[..k];
    }
  }

  /** Over whole runs, the parent has returned an error without reaping exactly when one of its moves
      failed while it wrapped the notify fd, or while it waited for the child after failing at `at`;
      and then no agent runs and the listener cannot answer one. */
  lemma UnreapedExactlyWhen(landlock: bool, schedule: seq<Move>, at: Stage)
    ensures var s := Run(Start(landlock), schedule);
            && (s.parent == Abandoned(at) <==> LeftChild(landlock, schedule, at))
            && (s.parent.Abandoned? ==> !s.child.Agent? && !s.listener.ByParent?)
  {
    hide Run, Inv, LeftChild;
    AbandonedAsLeft(landlock, schedule, at);
    AgentOnlyBehindBoundary(landlock, schedule);
  }

  lemma {:induction false} AbandonedAsLeft(landlock: bool, schedule: seq<Move>, at: Stage)
    ensures Run(Start(landlock), schedule).parent == Abandoned(at) <==> LeftChild(landlock, schedule, at)
  {
    if schedule != [] {
      hide ChildStep, LeftChild, LeavesChild, ParentStep;
      var before, m := schedule[..|schedule| - 1], schedule[|schedule| - 1];
      assert schedule == before + [m];
      AbandonedAsLeft(landlock, before, at);
      LeftChildOneMore(landlock, before, m, at);
      AbandonedOnlyByFailing(Run(Start(landlock), before), m, at);
    }
  }

  /** A failing move here returns without reaping. */
  predicate LeavesChild(p: Parent, at: Stage) {
    (p.Ready? && at.Wrapping?) || p == Reaping(at)
  }

  lemma AbandonedOnlyByFailing(s: State, m: Move, at: Stage)
    ensures Apply(s, m).parent == Abandoned(at) <==>
            s.parent == Abandoned(at) || (m == ParentMoves(true) && LeavesChild(s.parent, at))
  {}

  /** A child left unreaped ends by itself within the steps it has left: its socket or its execve
      fails. What stays is a zombie. */
  lemma {:induction false} AbandonedChildDies(s: State, after: seq<Move>)
    requires Inv(s) && s.parent.Abandoned?
    ensures var t := Run(s, after);
            && Inv(t) && t.parent == s.parent && !t.child.Agent?
            && (t.child.Dead? || TurnsLeft(t.child) + ChildTurns(after) <= TurnsLeft(s.child))
            && (ChildTurns(after) >= 9 ==> t.child.Dead?)
  {
    if after != [] {
      hide Inv, ChildStep;
      var before, m := after[..|after| - 1], after[|after| - 1];
      AbandonedChildDies(s, before);
      MoveKeepsInv(Run(s, before), m);
      if m.ChildMoves? {
        AbandonedChildSteps(Run(s, before), m.fails);
      }
    }
    TurnsAtMostNine(s, Run(s, after));
  }

  lemma AbandonedChildSteps(s: State, fails: bool)
    requires Inv(s) && s.parent.Abandoned?
    ensures var t := ChildStep(s, fails);
            t.parent == s.parent && (t.child.Dead? || TurnsLeft(t.child) + 1 <= TurnsLeft(s.child))
  {}

  lemma TurnsAtMostNine(s: State, t: State)
    requires Inv(t) && t.parent.Abandoned?
    ensures TurnsLeft(s.child) <= 9 && !t.child.Agent? && (t.child.Dead? || TurnsLeft(t.child) >= 1)
  {}

  /** The child sets up and hands off, the parent takes the fd and acks, the child confines itself
      and announces it. */
  function UpToAnnounced(): seq<Move> {
    [CHILD, CHILD] + [CHILD, CHILD] + [PARENT, PARENT] + [CHILD, CHILD] + [CHILD, PARENT]
  }

  lemma FdIsTaken(landlock: bool)
    ensures Run(Start(landlock), [CHILD, CHILD] + [CHILD, CHILD] + [PARENT, PARENT]) ==
            State(landlock, HandedOff, AwaitReady, ByParent, [], [SUPERVISOR_ACK], Facts(true, false, false))
  {
    hide Run;
    var s0 := Start(landlock);
    var s1 := State(landlock, Privileged, AwaitFd, NotYet, [], [], Facts(false, false, false));
    var s2 := State(landlock, HandedOff, AwaitFd, InFlight, [NotifyFd], [], Facts(true, false, false));
    TwoMoves(s0, CHILD, CHILD);
    RunConcat(s0, [CHILD, CHILD], [CHILD, CHILD]);
    TwoMoves(s1, CHILD, CHILD);
    assert Run(s0, [CHILD, CHILD] + [CHILD, CHILD]) == s2;
    RunConcat(s0, [CHILD, CHILD] + [CHILD, CHILD], [PARENT, PARENT]);
    TwoMoves(s2, PARENT, PARENT);
  }

  lemma ReadyIsReached(landlock: bool)
    ensures Run(Start(landlock), UpToAnnounced()) ==
            State(landlock, Announced, Ready, ByParent, [], [], Facts(true, true, landlock))
  {
    hide Run;
    var s0, so := Start(landlock), [CHILD, CHILD] + [CHILD, CHILD] + [PARENT, PARENT];
    var s3 := State(landlock, HandedOff, AwaitReady, ByParent, [], [SUPERVISOR_ACK], Facts(true, false, false));
    var s4 := State(landlock, Confined, AwaitReady, ByParent, [], [], Facts(true, true, landlock));
    FdIsTaken(landlock);
    RunConcat(s0, so, [CHILD, CHILD]);
    TwoMoves(s3, CHILD, CHILD);
    assert Run(s0, so + [CHILD, CHILD]) == s4;
    RunConcat(s0, so + [CHILD, CHILD], [CHILD, PARENT]);
    TwoMoves(s4, CHILD, PARENT);
    assert UpToAnnounced() == so + [CHILD, CHILD] + [CHILD, PARENT];
  }

  /** It does happen: with the boundary up the fd cannot be wrapped, and the child ends at its execve
      with nobody to reap it, whatever else is scheduled. */
  lemma SpawnCanLeaveZombie(landlock: bool, after: seq<Move>)
    ensures var t := Run(Start(landlock), UpToAnnounced() + ([ParentMoves(true)] + [CHILD, CHILD]) + after);
            t.child.Dead? && t.parent == Abandoned(Wrapping)
  {
    hide Run, Inv;
    var s0 := Start(landlock);
    var s1 := State(landlock, Announced, Ready, ByParent, [], [], Facts(true, true, landlock));
    var s2 := State(landlock, Announced, Abandoned(Wrapping), Closed, [], [], Facts(true, true, landlock));
    ReadyIsReached(landlock);
    RunConcat(s0, UpToAnnounced(), [ParentMoves(true)] + [CHILD, CHILD]);
    RunConcat(s1, [ParentMoves(true)], [CHILD, CHILD]);
    OneMove(s1, ParentMoves(true));
    TwoMoves(s2, CHILD, CHILD);
    var so := UpToAnnounced() + ([ParentMoves(true)] + [CHILD, CHILD]);
    RunConcat(s0, so, after);
    ReturnedStays(Run(s0, so), after);
    DeadStays(Run(s0, so), after);
  }

  lemma {:induction false} DeadStays(s: State, after: seq<Move>)
    requires s.child.Dead?
    ensures Run(s, after).child.Dead?
  {
    if after != [] {
      DeadStays(s, after[..|after| - 1]);
    }
  }

  // ----- runs in which no step fails -----

  ghost predicate FailureFree(schedule: seq<Move>) {
    forall m :: m in schedule ==> !m.fails
  }

  /** Where the two processes can stand together when nothing has failed. */
  ghost predicate Flow(s: State) {
    match s.child
    case Forked | Redirected | Privileged => s.parent.AwaitFd? && s.listener.NotYet? && Quiet(s)
    case Filtered => s.parent.AwaitFd? && s.listener.ByChild? && Quiet(s)
    case HandedOff =>
      || (s.parent.AwaitFd? && s.listener.InFlight? && s.toParent == [NotifyFd] && s.toChild == [])
      || (s.parent.HoldsFd? && s.listener.ByParent? && Quiet(s))
      || (s.parent.AwaitReady? && s.listener.ByParent? && s.toParent == [] && s.toChild == [SUPERVISOR_ACK])
    case Acked | Confined => s.parent.AwaitReady? && s.listener.ByParent? && Quiet(s)
    case Announced | Execing =>
      && s.listener.ByParent?
      && ((s.parent.AwaitReady? && s.toParent == [Byte(CHILD_BOUNDARY_READY)] && s.toChild == [])
          || ((s.parent.Ready? || s.parent.Supervising?) && Quiet(s)))
    case Agent => s.parent.Supervising? && s.listener.ByParent? && Quiet(s)
    case Dead => false
  }

  predicate Quiet(s: State) {
    s.toParent == [] && s.toChild == []
  }

  /** The agent's execve is before the loop: the first event it mediates. */
  predicate Served(s: State) {
    s.child.Execing? && s.parent.Supervising?
  }

  predicate Complete(s: State) {
    s.child.Agent? && s.parent.Supervising?
  }

  function ParentRank(p: Parent): nat {
    match p case AwaitFd => 4 case HoldsFd => 3 case AwaitReady => 2 case Ready => 1 case _ => 0
  }

  function Rank(s: State): nat {
    TurnsLeft(s.child) + ParentRank(s.parent)
  }

  /** Any step keeps the flow, and gets nearer the end or changes nothing. */
  lemma FlowGoesOn(s: State, m: Move)
    requires Flow(s) && !m.fails
    ensures Flow(Apply(s, m)) && (Apply(s, m) == s || Rank(Apply(s, m)) < Rank(s))
  {}

  /** Until the handshake is complete one of the two can move, or only the loop's answer is missing. */
  lemma SomeoneCanMove(s: State)
    requires Flow(s) && !Complete(s)
    ensures Apply(s, CHILD) != s || Apply(s, PARENT) != s || (Served(s) && Complete(Apply(s, LOOP)))
  {}

  predicate SameMover(m: Move, other: Move) {
    (m.ChildMoves? && other.ChildMoves?) || (m.ParentMoves? && other.ParentMoves?) || (m.LoopMoves? && other.LoopMoves?)
  }

  /** Whoever can move still can after another has. */
  lemma StaysAble(s: State, m: Move, other: Move)
    requires Flow(s) && !m.fails && !other.fails && !SameMover(m, other) && Apply(s, m) != s
    ensures Apply(Apply(s, other), m) != Apply(s, other)
  {}

  lemma {:induction false} TurnIsUsed(s: State, r: seq<Move>, m: Move)
    requires Flow(s) && FailureFree(r) && !m.fails && Apply(s, m) != s
    ensures Flow(Run(s, r)) && Rank(Run(s, r)) <= Rank(s)
    ensures if m in r then Rank(Run(s, r)) < Rank(s) else Apply(Run(s, r), m) != Run(s, r)
  {
    if r != [] {
      var before, x := r[..|r| - 1], r[|r| - 1];
      assert r == before + [x] && x in r;
      assert forall y :: y in before ==> y in r;
      TurnIsUsed(s, before, m);
      FlowGoesOn(Run(s, before), x);
      if m !in r {
        StaysAble(Run(s, before), m, x);
      }
    }
  }

  lemma {:induction false} RunStaysInFlow(s: State, r: seq<Move>)
    requires Flow(s) && FailureFree(r)
    ensures Flow(Run(s, r)) && Rank(Run(s, r)) <= Rank(s) && (Complete(s) ==> Complete(Run(s, r)))
  {
    if r != [] {
      var before, x := r[..|r| - 1], r[|r| - 1];
      assert x in r && forall y :: y in before ==> y in r;
      RunStaysInFlow(s, before);
      FlowGoesOn(Run(s, before), x);
    }
  }

  /** However the moves have been scheduled, with no step failing the two never wait for each other:
      one of them can move, or both wait for the loop's answer, which completes the start. */
  lemma NeverDeadlocked(landlock: bool, schedule: seq<Move>)
    requires FailureFree(schedule)
    ensures var s := Run(Start(landlock), schedule);
            || Complete(s) || Apply(s, CHILD) != s || Apply(s, PARENT) != s
            || (Served(s) && Complete(Apply(s, LOOP)))
  {
    hide Apply, Run, Complete;
    RunStaysInFlow(Start(landlock), schedule);
    if !Complete(Run(Start(landlock), schedule)) {
      SomeoneCanMove(Run(Start(landlock), schedule));
    }
  }

  /** A stretch of the schedule in which nothing fails and each process and the loop get at least one
      turn, in any order and with any others between. */
  ghost predicate Round(r: seq<Move>) {
    FailureFree(r) && CHILD in r && PARENT in r && LOOP in r
  }

  lemma RoundAdvances(s: State, r: seq<Move>)
    requires Flow(s) && Round(r)
    ensures Flow(Run(s, r)) && (Complete(s) ==> Complete(Run(s, r)))
    ensures Complete(s) || Rank(Run(s, r)) < Rank(s)
  {
    hide Flow, Rank, Run, Apply;
    RunStaysInFlow(s, r);
    if !Complete(s) {
      SomeoneCanMove(s);
      TurnIsUsed(s, r, if Apply(s, CHILD) != s then CHILD else if Apply(s, PARENT) != s then PARENT else LOOP);
    }
  }

  function Flatten(rounds: seq<seq<Move>>): seq<Move> {
    if rounds == [] then [] else Flatten(rounds[..|rounds| - 1]) + rounds[|rounds| - 1]
  }

  lemma {:induction false} RoundsAdvance(s: State, rounds: seq<seq<Move>>)
    requires Flow(s) && forall i :: 0 <= i < |rounds| ==> Round(rounds[i])
    ensures var t := Run(s, Flatten(rounds)); Flow(t) && (Complete(t) || Rank(t) + |rounds| <= Rank(s))
  {
    if rounds != [] {
      hide Flow, Rank, Complete;
      var before, r := rounds[..|rounds| - 1], rounds[|rounds| - 1];
      RoundsAdvance(s, before);
      RunConcat(s, Flatten(before), r);
      RoundAdvances(Run(s, Flatten(before)), r);
    }
  }

  /** With no step failing and the loop letting the execve run, the agent starts under supervision in
      every schedule that keeps giving all three turns: thirteen rounds are enough, however they are
      filled. */
  lemma HandshakeCompletes(landlock: bool, rounds: seq<seq<Move>>)
    requires |rounds| >= 13 && forall i :: 0 <= i < |rounds| ==> Round(rounds[i])
    ensures var s := Run(Start(landlock), Flatten(rounds)); Complete(s) && Boundary(s)
  {
    RoundsAdvance(Start(landlock), rounds);
    RunKeepsInv(landlock, Flatten(rounds));
    RankZeroIsComplete(Run(Start(landlock), Flatten(rounds)));
  }

  lemma RankZeroIsComplete(s: State)
    requires Flow(s) && Rank(s) == 0
    ensures Complete(s)
  {}
}
