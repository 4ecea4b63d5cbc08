/** What the log says of each kind of call: where the facts of its event came from, and what decided
    it. Stated on the registers and the events of the notification, not through the monitor. */
module CallLaws {
  import opened Wrappers
  import opened Vocabulary
  import opened Syscalls
  import opened Recorder
  import opened Invocations
  import opened Decisions
  import opened Protocol
  import opened LoopLaws
  import opened Registers
  import Bits
  import F = Facts
  import HC = HullChecks
  import Host
  import L = Landlock
  import P = Policy
  import Sockaddr
  import Text

  // ----- where what is known comes from -----

  /** Event `x` happened after the receipt at `b`. */
  ghost predicate Happened(log: seq<Event>, b: nat, x: Event) {
    exists q :: b < q < |log| && log[q] == x
  }

  lemma HappenedMore(log: seq<Event>, b: nat, e: Event)
    requires b < |log|
    ensures forall x :: Happened(log + [e], b, x) <==> Happened(log, b, x) || x == e
  {
    forall x ensures Happened(log + [e], b, x) <==> Happened(log, b, x) || x == e {
      assert (log + [e])[|log|] == e;
      if Happened(log, b, x) {
        var q :| b < q < |log| && log[q] == x;
        assert (log + [e])[q] == x;
      }
      if Happened(log + [e], b, x) {
        var q :| b < q < |log + [e]| && (log + [e])[q] == x;
        assert q < |log| ==> log[q] == x;
      }
    }
  }

  /** The target was found in the tree, exactly if a walk from the root said so. */
  ghost predicate WalkKnown(c: Config, n: Notification, k: Known, log: seq<Event>, b: nat) {
    && (k.inTree == Some(true) <==> Happened(log, b, TreeWalked(c.rootPid, TargetPid(n), Some(true))))
    && (k.inTree == None ==> forall r, t, w :: !Happened(log, b, TreeWalked(r, t, w)))
  }

  /** The clone flags, exactly if they were read. */
  ghost predicate WordKnown(n: Notification, k: Known, log: seq<Event>, b: nat) {
    && (forall w :: k.word == Some(w) <==> Happened(log, b, WordRead(n.pid, n.data.args[0], w)))
    && (k.word == None ==> forall p, a, w :: !Happened(log, b, WordRead(p, a, w)))
    && (k.word.Some? ==> n.data.nr == CLONE3)
  }

  /** Where the fixed-size reads of a call go: address and length, by register. */
  function BufferAt(n: Notification, j: nat): (nat, nat) {
    var args := n.data.args;
    if n.data.nr == SENDTO then (if j == 0 then (args[4], args[5]) else (args[1], args[2])) else (args[1], args[2])
  }

  ghost predicate BytesKnown(n: Notification, k: Known, log: seq<Event>, b: nat) {
    && (FamilyOf(n).Network? ==>
          forall j :: 0 <= j < |k.bytes| ==>
            Happened(log, b, BytesRead(n.pid, BufferAt(n, j).0, BufferAt(n, j).1, k.bytes[j])))
    && (FamilyOf(n).FileSystem? ==> forall j :: 0 <= j < |k.bytes| && k.bytes[j].Some? ==> |k.bytes[j].value| >= 24)
  }

  /** Some argument of the call could not be read. */
  ghost predicate ReadFailed(n: Notification, log: seq<Event>, b: nat) {
    || (exists a :: Happened(log, b, PathRead(n.pid, a, None)))
    || (exists a, len :: Happened(log, b, BytesRead(n.pid, a, len, None)))
  }

  ghost predicate FailureKnown(n: Notification, k: Known, log: seq<Event>, b: nat) {
    && (k.failed ==> ReadFailed(n, log, b))
    && forall j :: 0 <= j < |k.bytes| && k.bytes[j].None? ==> k.failed
  }

  /** Path argument `j` as it was read: the text itself, or behind its anchor if that could be read. */
  ghost predicate Spelled(n: Notification, j: nat, text: string, log: seq<Event>, b: nat) {
    && j < |PathArgs(n)|
    && var arg := PathArgs(n)[j];
    exists t :: Happened(log, b, PathRead(n.pid, n.data.args[arg.pathArg], Some(t)))
      && if !NeedsAnchor(arg, t) then text == t
         else || (Happened(log, b, AnchorRead(n.pid, AnchorOf(n, arg), None)) && text == t)
              || exists prefix :: Happened(log, b, AnchorRead(n.pid, AnchorOf(n, arg), Some(prefix)))
                           && text == Joined(prefix, t)
  }

  ghost predicate TextsKnown(n: Notification, k: Known, log: seq<Event>, b: nat) {
    && |k.texts| <= |PathArgs(n)|
    && (forall j :: 0 <= j < (if k.anchored then |k.texts| else |k.texts| - 1) ==> Spelled(n, j, k.texts[j], log, b))
    && (!k.anchored ==> k.texts != [] && var arg := PathArgs(n)[|k.texts| - 1];
          && NeedsAnchor(arg, k.texts[|k.texts| - 1])
          && Happened(log, b, PathRead(n.pid, n.data.args[arg.pathArg], Some(k.texts[|k.texts| - 1]))))
  }

  /** The errno of an operand that could not be pinned. */
  ghost predicate RefusedWith(log: seq<Event>, b: nat, errno: nat) {
    exists path, follow, missing :: Happened(log, b, Prepared(path, follow, missing, Unpinned(errno)))
  }

  ghost predicate RefusalKnown(c: Config, k: Known, log: seq<Event>, b: nat) {
    && (forall errno: nat :: k.refused == Some(errno) <==> RefusedWith(log, b, errno))
    && (k.refused.Some? ==> c.mode == Enforce)
  }

  /** The operand was pinned under its token. */
  ghost predicate PinnedAs(log: seq<Event>, b: nat, token: nat, operand: Operand) {
    exists path, follow, missing :: Happened(log, b, Prepared(path, follow, missing, Pinned(token, operand)))
  }

  ghost predicate PinsKnown(k: Known, log: seq<Event>, b: nat) {
    forall j :: 0 <= j < |k.operands| ==> PinnedAs(log, b, k.operands[j].0, k.operands[j].1)
  }

  ghost predicate Origins(c: Config, n: Notification, k: Known, log: seq<Event>, b: nat) {
    && WalkKnown(c, n, k, log, b) && WordKnown(n, k, log, b) && BytesKnown(n, k, log, b)
    && TextsKnown(n, k, log, b) && RefusalKnown(c, k, log, b) && PinsKnown(k, log, b) && FailureKnown(n, k, log, b)
  }

  lemma WalkOneMore(c: Config, n: Notification, h: History, e: Event, log: seq<Event>, b: nat)
    requires PolicyLoaded(c) && Admits(c, n, h, e) && b < |log| && WalkKnown(c, n, h.known, log, b)
    ensures WalkKnown(c, n, Learn(n, h.known, e), log + [e], b)
  {
    hide DecisionOf, EventOf, Invocation, Requests, AsksOf, Ready, ResponseOf, Raisable, NextPin, NextBytes;
    hide Destination, MayRelease, MayAct, Committable, Happened, TargetPid;
    HappenedMore(log, b, e);
  }

  lemma WordOneMore(c: Config, n: Notification, h: History, e: Event, log: seq<Event>, b: nat)
    requires PolicyLoaded(c) && Admits(c, n, h, e) && b < |log| && WordKnown(n, h.known, log, b)
    ensures WordKnown(n, Learn(n, h.known, e), log + [e], b)
  {
    hide DecisionOf, EventOf, Invocation, Requests, AsksOf, Ready, ResponseOf, Raisable, NextPin, NextBytes;
    hide Destination, MayRelease, MayAct, Committable, Happened;
    HappenedMore(log, b, e);
  }

  lemma BytesOneMore(c: Config, n: Notification, h: History, e: Event, log: seq<Event>, b: nat)
    requires PolicyLoaded(c) && Admits(c, n, h, e) && b < |log| && BytesKnown(n, h.known, log, b)
    ensures BytesKnown(n, Learn(n, h.known, e), log + [e], b)
  {
    hide DecisionOf, EventOf, Invocation, Requests, AsksOf, Ready, ResponseOf, Raisable, NextPin;
    hide Destination, MayRelease, MayAct, Committable, Happened;
    HappenedMore(log, b, e);
  }

  lemma RefusedMore(log: seq<Event>, b: nat, e: Event, errno: nat)
    requires b < |log|
    ensures RefusedWith(log + [e], b, errno) <==>
            RefusedWith(log, b, errno) || (e.Prepared? && e.prepared == Unpinned(errno))
  {
    hide Happened;
    HappenedMore(log, b, e);
    if RefusedWith(log, b, errno) {
      var path, follow, missing :| Happened(log, b, Prepared(path, follow, missing, Unpinned(errno)));
      assert Happened(log + [e], b, Prepared(path, follow, missing, Unpinned(errno)));
    }
    if e.Prepared? && e.prepared == Unpinned(errno) {
      assert e == Prepared(e.path, e.follow, e.missing, Unpinned(errno));
    }
  }

  lemma RefusalOneMore(c: Config, n: Notification, h: History, e: Event, log: seq<Event>, b: nat)
    requires PolicyLoaded(c) && Admits(c, n, h, e) && b < |log| && RefusalKnown(c, h.known, log, b)
    ensures RefusalKnown(c, Learn(n, h.known, e), log + [e], b)
  {
    hide DecisionOf, EventOf, Invocation, Requests, AsksOf, Ready, ResponseOf, Raisable, NextBytes;
    hide Destination, MayRelease, MayAct, Committable, RefusedWith;
    forall errno: nat
      ensures RefusedWith(log + [e], b, errno) <==>
              RefusedWith(log, b, errno) || (e.Prepared? && e.prepared == Unpinned(errno))
    {
      RefusedMore(log, b, e, errno);
    }
    if e.Prepared? {
      PinsOnlyUnrefused(n, h.known);
      forall errno: nat ensures !RefusedWith(log, b, errno) {
        assert h.known.refused == None;
      }
    }
  }

  lemma PinsOnlyUnrefused(n: Notification, k: Known)
    ensures NextPin(n, k).Some? ==> k.refused == None
  {
    hide Invocation;
  }

  lemma SpelledStays(n: Notification, j: nat, text: string, log: seq<Event>, b: nat, e: Event)
    requires b < |log| && Spelled(n, j, text, log, b)
    ensures Spelled(n, j, text, log + [e], b)
  {
    hide Happened, AnchorOf, Joined, PathArgs, NeedsAnchor;
    HappenedMore(log, b, e);
    var arg := PathArgs(n)[j];
    var t :| Happened(log, b, PathRead(n.pid, n.data.args[arg.pathArg], Some(t)))
      && if !NeedsAnchor(arg, t) then text == t
         else || (Happened(log, b, AnchorRead(n.pid, AnchorOf(n, arg), None)) && text == t)
              || exists prefix :: Happened(log, b, AnchorRead(n.pid, AnchorOf(n, arg), Some(prefix)))
                           && text == Joined(prefix, t);
    assert Happened(log + [e], b, PathRead(n.pid, n.data.args[arg.pathArg], Some(t)));
    if prefix :| Happened(log, b, AnchorRead(n.pid, AnchorOf(n, arg), Some(prefix))) && text == Joined(prefix, t) {
      assert Happened(log + [e], b, AnchorRead(n.pid, AnchorOf(n, arg), Some(prefix)));
    }
  }

  /** What gathering a path admits. */
  lemma PathGathering(c: Config, n: Notification, h: History, e: Event)
    requires PolicyLoaded(c) && Admits(c, n, h, e)
    ensures e.PathRead? ==> h.known.anchored && |h.known.texts| < |PathArgs(n)|
                            && e.pid == n.pid && e.addr == n.data.args[PathArgs(n)[|h.known.texts|].pathArg]
    ensures e.AnchorRead? ==> !h.known.anchored && 0 < |h.known.texts| <= |PathArgs(n)|
                              && e.pid == n.pid && e.anchor == AnchorOf(n, PathArgs(n)[|h.known.texts| - 1])
    ensures !e.PathRead? && !e.AnchorRead? ==>
              Learn(n, h.known, e).texts == h.known.texts && Learn(n, h.known, e).anchored == h.known.anchored
  {
    hide DecisionOf, EventOf, Invocation, Requests, AsksOf, Ready, ResponseOf, Raisable, NextPin, NextBytes;
    hide Destination, MayRelease, MayAct, Committable, PathArgs, AnchorOf;
  }

  lemma TextsOneMore(c: Config, n: Notification, h: History, e: Event, log: seq<Event>, b: nat)
    requires PolicyLoaded(c) && Admits(c, n, h, e) && b < |log| && TextsKnown(n, h.known, log, b)
    ensures TextsKnown(n, Learn(n, h.known, e), log + [e], b)
  {
    hide Admits, Spelled, Happened, AnchorOf, Joined, PathArgs, Learn, NeedsAnchor;
    var k, k' := h.known, Learn(n, h.known, e);
    PathGathering(c, n, h, e);
    HappenedMore(log, b, e);
    forall j | 0 <= j < (if k.anchored then |k.texts| else |k.texts| - 1)
      ensures Spelled(n, j, k.texts[j], log + [e], b) {
      SpelledStays(n, j, k.texts[j], log, b, e);
    }
    if e.PathRead? {
      LearnsPath(n, k, e);
      if k'.texts != k.texts && k'.anchored {
        PathIsSpelled(n, |k.texts|, e, log + [e], b);
      }
    } else if e.AnchorRead? {
      LearnsAnchor(n, k, e);
      AnchoredIsSpelled(n, |k.texts| - 1, k.texts[|k.texts| - 1], e.prefix, log + [e], b);
    }
  }

  lemma LearnsPath(n: Notification, k: Known, e: Event)
    requires e.PathRead? && |k.texts| < |PathArgs(n)| && k.anchored
    ensures var k' := Learn(n, k, e);
            if e.text.None? then k'.texts == k.texts && k'.anchored
            else k'.texts == k.texts + [e.text.value]
                 && k'.anchored == !NeedsAnchor(PathArgs(n)[|k.texts|], e.text.value)
  {
    hide PathArgs, NeedsAnchor;
  }

  lemma LearnsAnchor(n: Notification, k: Known, e: Event)
    requires e.AnchorRead? && k.texts != []
    ensures var k', last := Learn(n, k, e), |k.texts| - 1;
            && k'.anchored && |k'.texts| == |k.texts| && k'.texts[..last] == k.texts[..last]
            && k'.texts[last] == (match e.prefix case None => k.texts[last] case Some(p) => Joined(p, k.texts[last]))
  {
    hide Joined;
  }

  lemma PathIsSpelled(n: Notification, j: nat, e: Event, log: seq<Event>, b: nat)
    requires j < |PathArgs(n)| && e.PathRead? && e.text.Some? && !NeedsAnchor(PathArgs(n)[j], e.text.value)
    requires e.pid == n.pid && e.addr == n.data.args[PathArgs(n)[j].pathArg] && Happened(log, b, e)
    ensures Spelled(n, j, e.text.value, log, b)
  {
    hide Happened, PathArgs, NeedsAnchor, AnchorOf, Joined;
    assert e == PathRead(n.pid, n.data.args[PathArgs(n)[j].pathArg], Some(e.text.value));
  }

  lemma AnchoredIsSpelled(n: Notification, j: nat, t: string, prefix: Option<string>, log: seq<Event>, b: nat)
    requires j < |PathArgs(n)| && NeedsAnchor(PathArgs(n)[j], t)
    requires Happened(log, b, PathRead(n.pid, n.data.args[PathArgs(n)[j].pathArg], Some(t)))
    requires Happened(log, b, AnchorRead(n.pid, AnchorOf(n, PathArgs(n)[j]), prefix))
    ensures Spelled(n, j, match prefix case None => t case Some(p) => Joined(p, t), log, b)
  {
    hide Happened, PathArgs, NeedsAnchor, AnchorOf, Joined;
    if prefix.Some? {
      assert Happened(log, b, AnchorRead(n.pid, AnchorOf(n, PathArgs(n)[j]), Some(prefix.value)));
    }
  }

  lemma PinsOneMore(n: Notification, k: Known, e: Event, log: seq<Event>, b: nat)
    requires b < |log| && PinsKnown(k, log, b)
    ensures PinsKnown(Learn(n, k, e), log + [e], b)
  {
    hide Happened;
    HappenedMore(log, b, e);
    forall token, operand | PinnedAs(log, b, token, operand) ensures PinnedAs(log + [e], b, token, operand) {
      var path, follow, missing :| Happened(log, b, Prepared(path, follow, missing, Pinned(token, operand)));
      assert Happened(log + [e], b, Prepared(path, follow, missing, Pinned(token, operand)));
    }
    if e.Prepared? && e.prepared.Pinned? {
      assert e == Prepared(e.path, e.follow, e.missing, Pinned(e.prepared.token, e.prepared.operand));
      assert PinnedAs(log + [e], b, e.prepared.token, e.prepared.operand);
    }
  }

  lemma FailureOneMore(c: Config, n: Notification, h: History, e: Event, log: seq<Event>, b: nat)
    requires PolicyLoaded(c) && Admits(c, n, h, e) && b < |log| && FailureKnown(n, h.known, log, b)
    ensures FailureKnown(n, Learn(n, h.known, e), log + [e], b)
  {
    hide DecisionOf, EventOf, Invocation, Requests, AsksOf, Ready, ResponseOf, Raisable, NextPin, NextBytes;
    hide Destination, MayRelease, MayAct, Committable, Happened;
    HappenedMore(log, b, e);
    if a :| Happened(log, b, PathRead(n.pid, a, None)) {
      assert Happened(log + [e], b, PathRead(n.pid, a, None));
    }
    if a, len :| Happened(log, b, BytesRead(n.pid, a, len, None)) {
      assert Happened(log + [e], b, BytesRead(n.pid, a, len, None));
    }
    if e.PathRead? && e.text.None? {
      assert Happened(log + [e], b, PathRead(n.pid, e.addr, None));
    }
    if e.BytesRead? && e.bytes.None? {
      assert Happened(log + [e], b, BytesRead(n.pid, e.addr, e.len, None));
    }
  }

  lemma OriginsOneMore(c: Config, n: Notification, h: History, e: Event, log: seq<Event>, b: nat)
    requires PolicyLoaded(c) && Admits(c, n, h, e) && b < |log| && Origins(c, n, h.known, log, b)
    ensures Origins(c, n, Learn(n, h.known, e), log + [e], b)
  {
    hide Admits, Learn, WalkKnown, WordKnown, BytesKnown, TextsKnown, RefusalKnown, PinsKnown, FailureKnown;
    WalkOneMore(c, n, h, e, log, b);
    WordOneMore(c, n, h, e, log, b);
    BytesOneMore(c, n, h, e, log, b);
    TextsOneMore(c, n, h, e, log, b);
    RefusalOneMore(c, n, h, e, log, b);
    PinsOneMore(n, h.known, e, log, b);
    FailureOneMore(c, n, h, e, log, b);
  }

  lemma NothingKnown(c: Config, n: Notification, log: seq<Event>)
    requires log != []
    ensures Origins(c, n, NOTHING, log, |log| - 1)
  {}

  /** Whatever is known of the notification in hand has its origin in the log since its receipt. */
  lemma {:induction false} KnownFromLog(c: Config, log: seq<Event>) returns (b: nat)
    requires PolicyLoaded(c) && Watch(c, log).Handling?
    ensures b < |log| && log[b] == Received(Watch(c, log).n) && forall q :: b < q < |log| ==> !log[q].Received?
    ensures Origins(c, Watch(c, log).n, Watch(c, log).h.known, log, b)
  {
    hide Admits, Learn, Live, Came, BadDescriptor, Done, Origins;
    var before, e := log[..|log| - 1], log[|log| - 1];
    assert log == before + [e];
    if e.Received? {
      b := |before|;
      NothingKnown(c, e.notification, log);
    } else {
      b := KnownFromLog(c, before);
      OriginsOneMore(c, Watch(c, before).n, Watch(c, before).h, e, before, b);
    }
  }

  /** An event and the notification it is about. */
  lemma EventInHand(c: Config, log: seq<Event>, i: nat) returns (b: nat)
    requires PolicyLoaded(c) && Accepted(c, log) && i < |log| && log[i].Appended?
    ensures b < i && log[b].Received? && forall q :: b < q < i ==> !log[q].Received?
    ensures var s := Watch(c, log[..i]);
            && s.Handling? && s.n == log[b].notification && Ready(c, s.n, s.h)
            && log[i].event == EventOf(c, s.n, s.h.known, s.h.answer)
            && Origins(c, s.n, s.h.known, log[..i], b)
  {
    hide Watch, Admits, EventOf, Ready, Origins, Requests, AsksOf, DecisionOf;
    InHand(c, log, i);
    var s := Watch(c, log[..i]);
    StepForbids(c, s.n, s.h, log[i]);
    b := KnownFromLog(c, log[..i]);
  }

  /** What every event says of its notification, whatever the call. */
  lemma EventWords(c: Config, n: Notification, k: Known, answer: Option<AskResolution>)
    requires PolicyLoaded(c)
    ensures var e, d := EventOf(c, n, k, answer), DecisionOf(c, n, k, answer);
            && e.pid == n.pid && e.fact == FactOf(c, n, k) && e.decision == d.event && e.askResolution == d.ask
            && e.matchedRule == d.rule && e.wouldDeny == d.wouldDeny
  {
    hide DecisionOf, FactOf, OperandEvidence, FamilyOf, F.Name;
  }

  // ----- cross-process control -----

  /** The process a cross-process call reaches for, by its register. */
  function Target(n: Notification): nat {
    Low32(n.data.args[if n.data.nr == PTRACE then 1 else 0])
  }

  /** It is the caller, by number or by zero, or a walk from the root of the run found it. */
  ghost predicate WithinTree(c: Config, n: Notification, log: seq<Event>, b: nat) {
    Target(n) == 0 || Target(n) == n.pid || Happened(log, b, TreeWalked(c.rootPid, Target(n), Some(true)))
  }

  /** The event of a cross-process call: recorded only, it is allowed; enforced, it is allowed by the
      tree exactly when the target is within it, and denied by it otherwise. */
  lemma CrossControlEvent(c: Config, log: seq<Event>, i: nat) returns (b: nat)
    requires PolicyLoaded(c) && Accepted(c, log) && i < |log| && log[i].Appended?
    ensures b < i && log[b].Received? && forall q :: b < q < i ==> !log[q].Received?
    ensures var n, e := log[b].notification, log[i].event;
            Native(n) && IsCrossCall(n.data.nr) ==>
              && e.fact == CrossProcess(Target(n)) && e.pid == n.pid && e.askResolution == None
              && if c.mode == RecordOnly then e.decision == Allow && e.matchedRule == RECORD_ONLY
                 else if WithinTree(c, n, log[..i], b) then e.decision == Allow && e.matchedRule == ProcessTree
                 else e.decision == Deny && e.matchedRule == ProcessTreeDeny
  {
    hide Watch, EventOf, DecisionOf, FactOf, WordKnown, BytesKnown, TextsKnown, RefusalKnown, Happened, Accepted;
    b := EventInHand(c, log, i);
    var s := Watch(c, log[..i]);
    EventWords(c, s.n, s.h.known, s.h.answer);
    if Native(s.n) && IsCrossCall(s.n.data.nr) {
      FamiliesByName(s.n);
      PidRegister(s.n.data.nr);
      TargetBySignature(s.n, if s.n.data.nr == PTRACE then 1 else 0);
      CrossControlDecision(c, s.n, s.h, log[..i], b);
    }
  }

  lemma CrossControlDecision(c: Config, n: Notification, h: History, log: seq<Event>, b: nat)
    requires PolicyLoaded(c) && FamilyOf(n).CrossControl? && Ready(c, n, h) && WalkKnown(c, n, h.known, log, b)
    requires TargetPid(n) == Target(n)
    ensures FactOf(c, n, h.known) == CrossProcess(Target(n))
    ensures DecisionOf(c, n, h.known, h.answer) ==
            if c.mode == RecordOnly then Fixed(Allow, RECORD_ONLY)
            else if WithinTree(c, n, log, b) then Fixed(Allow, ProcessTree)
            else Fixed(Deny, ProcessTreeDeny)
  {
    hide Happened, TargetPid, Target;
  }

  /** So in an enforcing run a cross-process call the filter can raise is let run only if its target
      is within the tree. */
  lemma CrossControlStaysInTree(c: Config, log: seq<Event>, i: nat) returns (b: nat)
    requires PolicyLoaded(c) && Accepted(c, log) && i < |log| && log[i].Sent? && log[i].response == Continue
    ensures b < i && log[b].Received? && log[i].id == log[b].notification.id
    ensures forall q :: b < q < i ==> !log[q].Received?
    ensures var n := log[b].notification;
            c.mode == Enforce && Native(n) && IsCrossCall(n.data.nr) ==> WithinTree(c, n, log[..i], b)
  {
    hide Watch, Raisable, Grants, Happened, Accepted;
    var a;
    b, a := ContinueFollowsAllow(c, log, i);
    var n := log[b].notification;
    if c.mode == Enforce && Native(n) && IsCrossCall(n.data.nr) {
      FamiliesByName(n);
      MediatedIsRaised(n);
      var b' := CrossControlEvent(c, log, a);
      assert b' == b;
      DeniedGrantsNothing(log[a].event);
      HappenedEarlier(log, b, a, i, TreeWalked(c.rootPid, Target(n), Some(true)));
    }
  }

  lemma DeniedGrantsNothing(e: SyscallEvent)
    ensures Grants(e) ==> e.decision != Deny
  {}

  lemma HappenedEarlier(log: seq<Event>, b: nat, a: nat, i: nat, x: Event)
    requires a <= i <= |log|
    ensures Happened(log[..a], b, x) ==> Happened(log[..i], b, x)
  {
    if Happened(log[..a], b, x) {
      var q :| b < q < |log[..a]| && log[..a][q] == x;
      assert log[..i][q] == x;
    }
  }

  // ----- process creation -----

  /** The event of a creation: always allowed but for a `clone3` whose size is implausible or whose
      flags cannot be read; the flags recorded are the register's, or those read. */
  lemma CreationEvent(c: Config, log: seq<Event>, i: nat) returns (b: nat)
    requires PolicyLoaded(c) && Accepted(c, log) && i < |log| && log[i].Appended?
    ensures b < i && log[b].Received? && forall q :: b < q < i ==> !log[q].Received?
    ensures var n, e := log[b].notification, log[i].event;
            var rule := if c.mode == RecordOnly then RECORD_ONLY else ProcessCreation;
            Native(n) && IsCreation(n.data.nr) ==>
              if n.data.nr != CLONE3 then
                && e.decision == Allow && e.matchedRule == rule
                && e.fact == Process(if n.data.nr == CLONE then Some(n.data.args[0]) else None)
              else if 8 <= n.data.args[1] <= 88
                      && exists w :: Happened(log[..i], b, WordRead(n.pid, n.data.args[0], Some(w))) then
                && e.decision == Allow && e.matchedRule == rule && e.fact.Process? && e.fact.flags.Some?
                && Happened(log[..i], b, WordRead(n.pid, n.data.args[0], Some(e.fact.flags.value)))
              else e.decision == Deny && e.matchedRule == MemoryRead && e.fact == Raw
  {
    hide Watch, EventOf, DecisionOf, FactOf, WalkKnown, BytesKnown, TextsKnown, RefusalKnown, Happened, Accepted;
    b := EventInHand(c, log, i);
    var s := Watch(c, log[..i]);
    EventWords(c, s.n, s.h.known, s.h.answer);
    if Native(s.n) && IsCreation(s.n.data.nr) {
      FamiliesByName(s.n);
      CreationDecision(c, s.n, s.h);
    }
  }

  lemma CreationDecision(c: Config, n: Notification, h: History)
    requires PolicyLoaded(c) && FamilyOf(n).Creation? && Ready(c, n, h)
    requires h.known.word.Some? ==> n.data.nr == CLONE3
    ensures var bad := n.data.nr == CLONE3 && (!(8 <= n.data.args[1] <= 88) || h.known.word == Some(None));
            && DecisionOf(c, n, h.known, h.answer) ==
               (if bad then Fixed(Deny, MemoryRead)
                else Fixed(Allow, if c.mode == RecordOnly then RECORD_ONLY else ProcessCreation))
            && FactOf(c, n, h.known) ==
               (if bad then Raw
                else if n.data.nr == CLONE then Process(Some(n.data.args[0]))
                else if n.data.nr == CLONE3 then Process(h.known.word.value)
                else Process(None))
            && (n.data.nr == CLONE3 && 8 <= n.data.args[1] <= 88 ==> h.known.word.Some?)
  {}

  // ----- refused in every mode -----

  /** Foreign and x32 entries, and the calls on the deny list, are denied in every mode, without a
      fact and by a rule of the supervisor's own. */
  lemma RefusedInEveryMode(c: Config, log: seq<Event>, i: nat) returns (b: nat)
    requires PolicyLoaded(c) && Accepted(c, log) && i < |log| && log[i].Appended?
    ensures b < i && log[b].Received? && forall q :: b < q < i ==> !log[q].Received?
    ensures var n, e := log[b].notification, log[i].event;
            && (n.data.arch != AUDIT_ARCH_X86_64 || (n.data.nr / 0x4000_0000) % 2 == 1 ==>
                  e.decision == Deny && e.matchedRule == ForeignAbi && e.fact == Raw)
            && (Native(n) && IsDeniedCall(n.data.nr) ==>
                  && e.decision == Deny && e.fact == Raw
                  && e.matchedRule == (if n.data.nr == PIDFD_GETFD then PidfdGetfd else IoUring))
  {
    hide Watch, EventOf, Origins, Accepted;
    b := EventInHand(c, log, i);
    var s := Watch(c, log[..i]);
    EventWords(c, s.n, s.h.known, s.h.answer);
    FamiliesByName(s.n);
  }

  // ----- decided by the policy -----

  /** The event is the policy's word on this request; without a policy everything is allowed. */
  ghost predicate DecidedBy(c: Config, e: SyscallEvent, request: P.Request)
    requires PolicyLoaded(c)
  {
    && (match c.policy
        case Some(p) =>
          var ev := P.Evaluate(p, request, c.mode);
          e.decision == ev.decision && e.matchedRule == ByPolicy(ev.matched) && e.wouldDeny == ev.wouldDeny
        case None => e.decision == Allow && e.matchedRule == RECORD_ONLY && !e.wouldDeny)
    && (e.askResolution.Some? <==> e.decision == Ask)
  }

  lemma OneRequestDecides(c: Config, n: Notification, k: Known, answer: Option<AskResolution>, request: P.Request)
    requires PolicyLoaded(c) && Requests(c, n, k) == [request]
             && DecisionOf(c, n, k, answer) == ByPolicyOf(c, n, k, answer)
    ensures DecidedBy(c, EventOf(c, n, k, answer), request)
  {
    hide Requests, DecisionOf, EventOf, Resolution, P.Evaluate;
    EventWords(c, n, k, answer);
    assert JudgeAll(c, [request]) == [Judge(c, request)];
    OneVerdict(Judge(c, request), Resolution(c, n, k, answer));
  }

  lemma OneVerdict(eval: P.Evaluation, resolution: Option<AskResolution>)
    ensures Verdict([eval], resolution) == Finalize(eval, resolution)
  {
    VerdictLaw([eval], resolution);
  }

  /** The event of an execution: decided by the policy on the path as it was read and anchored, or
      denied without a fact if it could not be read. */
  lemma ExecEvent(c: Config, log: seq<Event>, i: nat) returns (b: nat)
    requires PolicyLoaded(c) && Accepted(c, log) && i < |log| && log[i].Appended?
    ensures b < i && log[b].Received? && forall q :: b < q < i ==> !log[q].Received?
    ensures var n, e := log[b].notification, log[i].event;
            Native(n) && IsExec(n.data.nr) ==>
              if e.fact.Exec? then Spelled(n, 0, e.fact.binary, log[..i], b) && DecidedBy(c, e, P.Exec(e.fact.binary))
              else e.fact == Raw && e.decision == Deny && e.matchedRule == MemoryRead && ReadFailed(n, log[..i], b)
  {
    hide Watch, EventOf, DecisionOf, FactOf, WalkKnown, BytesKnown, WordKnown, RefusalKnown, Spelled, Accepted;
    hide ReadFailed;
    hide DecidedBy;
    hide Ready, Requests, ByPolicyOf, PathArgs;
    b := EventInHand(c, log, i);
    var s := Watch(c, log[..i]);
    EventWords(c, s.n, s.h.known, s.h.answer);
    if Native(s.n) && IsExec(s.n.data.nr) {
      FamiliesByName(s.n);
      ExecDecision(c, s.n, s.h);
      if log[i].event.fact.Exec? {
        OneRequestDecides(c, s.n, s.h.known, s.h.answer, P.Exec(s.h.known.texts[0]));
      }
    }
  }

  lemma ExecDecision(c: Config, n: Notification, h: History)
    requires PolicyLoaded(c) && FamilyOf(n).Execution? && Ready(c, n, h)
    ensures if FactOf(c, n, h.known).Exec? then
              && h.known.texts != [] && h.known.anchored && FactOf(c, n, h.known) == Fact.Exec(h.known.texts[0])
              && Requests(c, n, h.known) == [P.Exec(h.known.texts[0])]
              && DecisionOf(c, n, h.known, h.answer) == ByPolicyOf(c, n, h.known, h.answer)
            else
              && FactOf(c, n, h.known) == Raw && h.known.failed
              && DecisionOf(c, n, h.known, h.answer) == Fixed(Deny, MemoryRead)
  {
    hide ByPolicyOf;
  }

  /** The event of a network call: with a fact, it is decided by the policy on the destination that the
      bytes of its address register say, under the name the cache has for it; without, the call could
      not be understood, and only the camera lets it pass. */
  lemma NetworkEvent(c: Config, log: seq<Event>, i: nat) returns (b: nat)
    requires PolicyLoaded(c) && Accepted(c, log) && i < |log| && log[i].Appended?
    ensures b < i && log[b].Received? && forall q :: b < q < i ==> !log[q].Received?
    ensures var n, e := log[b].notification, log[i].event;
            Native(n) && IsNetworkCall(n.data.nr) ==>
              if e.fact.Net? then
                && DecidedBy(c, e, P.Net(e.fact.host, ResolvedHostname(c, e.fact.host), e.fact.port))
                && exists bytes :: Sockaddr.Parse(bytes) == Some((e.fact.host, e.fact.port))
                                   && Happened(log[..i], b,
                                      BytesRead(n.pid, BufferAt(n, 0).0, BufferAt(n, 0).1, Some(bytes)))
              else
                && e.fact == Raw && NotUnderstood(c, n, log[..i], b)
                && (c.mode == RecordOnly ==> e.decision == Allow && e.matchedRule == RECORD_ONLY)
                && (c.mode == Enforce ==> e.decision == Deny && e.matchedRule == MemoryRead)
  {
    hide NotUnderstood;
    hide Watch, EventOf, DecisionOf, FactOf, WalkKnown, TextsKnown, WordKnown, RefusalKnown, Happened, Accepted;
    hide DecidedBy;
    hide Ready, Requests, ByPolicyOf, Sockaddr.Parse, ResolvedHostname;
    b := EventInHand(c, log, i);
    var s := Watch(c, log[..i]);
    EventWords(c, s.n, s.h.known, s.h.answer);
    if Native(s.n) && IsNetworkCall(s.n.data.nr) {
      FamiliesByName(s.n);
      NetworkDecision(c, s.n, s.h);
      var fact := log[i].event.fact;
      if fact.Net? {
        OneRequestDecides(c, s.n, s.h.known, s.h.answer, P.Net(fact.host, ResolvedHostname(c, fact.host), fact.port));
      } else {
        NotUnderstoodBecause(c, s.n, s.h, log[..i], b);
      }
    }
  }

  /** Why a network call has no destination: its address is longer than 128 octets, could not be read
      or is none; or a send's payload, while enforcing, is longer than 65535 or could not be read. */
  ghost predicate NotUnderstood(c: Config, n: Notification, log: seq<Event>, b: nat) {
    || BufferAt(n, 0).1 > 128
    || Happened(log, b, BytesRead(n.pid, BufferAt(n, 0).0, BufferAt(n, 0).1, None))
    || (exists bytes :: Sockaddr.Parse(bytes) == None
                        && Happened(log, b, BytesRead(n.pid, BufferAt(n, 0).0, BufferAt(n, 0).1, Some(bytes))))
    || (n.data.nr == SENDTO && c.mode == Enforce
        && (n.data.args[2] > 65535 || Happened(log, b, BytesRead(n.pid, n.data.args[1], n.data.args[2], None))))
  }

  lemma NotUnderstoodBecause(c: Config, n: Notification, h: History, log: seq<Event>, b: nat)
    requires FamilyOf(n).Network? && Ready(c, n, h) && BytesKnown(n, h.known, log, b)
    requires FactOf(c, n, h.known) == Raw
    ensures NotUnderstood(c, n, log, b)
  {
    hide Happened, Sockaddr.Parse;
    var k := h.known;
    if BufferAt(n, 0).1 <= 128 && k.bytes[0].Some? && Sockaddr.Parse(k.bytes[0].value).None? {
      assert Happened(log, b, BytesRead(n.pid, BufferAt(n, 0).0, BufferAt(n, 0).1, Some(k.bytes[0].value)));
    }
  }

  lemma NetworkDecision(c: Config, n: Notification, h: History)
    requires PolicyLoaded(c) && FamilyOf(n).Network? && Ready(c, n, h)
    ensures var fact := FactOf(c, n, h.known);
            if fact.Net? then
              && |h.known.bytes| > 0 && h.known.bytes[0].Some?
              && Sockaddr.Parse(h.known.bytes[0].value) == Some((fact.host, fact.port))
              && Requests(c, n, h.known) == [P.Net(fact.host, ResolvedHostname(c, fact.host), fact.port)]
              && DecisionOf(c, n, h.known, h.answer) == ByPolicyOf(c, n, h.known, h.answer)
            else
              && fact == Raw
              && DecisionOf(c, n, h.known, h.answer) ==
                 Fixed(if c.mode == RecordOnly then Allow else Deny,
                       if c.mode == RecordOnly then RECORD_ONLY else MemoryRead)
  {
    hide ByPolicyOf, Sockaddr.Parse, ResolvedHostname;
  }

  /** In an enforcing run the first rule that applies to a destination, in its own words, decides its
      event and is named by it. */
  lemma FirstRuleDecidesEvent(c: Config, e: SyscallEvent, j: nat)
    requires PolicyLoaded(c) && c.mode == Enforce && c.policy.Some? && j < |c.policy.value.net| && e.fact.Net?
    requires e.fact.host.Valid() && DecidedBy(c, e, P.Net(e.fact.host, ResolvedHostname(c, e.fact.host), e.fact.port))
    requires P.NetRuleApplies(c.policy.value.net[j], e.fact.host, ResolvedHostname(c, e.fact.host), e.fact.port)
    requires forall k :: 0 <= k < j ==>
               !P.NetRuleApplies(c.policy.value.net[k], e.fact.host, ResolvedHostname(c, e.fact.host), e.fact.port)
    ensures P.Stands(c.policy.value.net[j].action, e.decision)
    ensures e.matchedRule == ByPolicy(P.Rule(P.NetFamily, j + 1))
  {
    hide P.NetRuleApplies, ResolvedHostname, P.Evaluate, P.Loaded;
    FirstIsOnlyFirst(c.policy.value, e.fact.host, ResolvedHostname(c, e.fact.host), e.fact.port, j);
  }

  lemma FirstIsOnlyFirst(p: P.Policy, ip: Host.Ip, hostname: Option<string>, port: nat, j: nat)
    requires P.Loaded(p) && ip.Valid() && j < |p.net| && P.NetRuleApplies(p.net[j], ip, hostname, port)
    requires forall k :: 0 <= k < j ==> !P.NetRuleApplies(p.net[k], ip, hostname, port)
    ensures P.Stands(p.net[j].action, P.Evaluate(p, P.Net(ip, hostname, port), Enforce).decision)
    ensures P.Evaluate(p, P.Net(ip, hostname, port), Enforce).matched == P.Rule(P.NetFamily, j + 1)
  {
    hide P.NetRuleApplies, P.Evaluate, P.Stands, Host.WellFormed;
    P.FirstNetRuleDecides(p, ip, hostname, port);
    var i :| 0 <= i < |p.net| && P.NetRuleApplies(p.net[i], ip, hostname, port)
      && (forall k :: 0 <= k < i ==> !P.NetRuleApplies(p.net[k], ip, hostname, port))
      && P.Stands(p.net[i].action, P.Evaluate(p, P.Net(ip, hostname, port), Enforce).decision)
      && P.Evaluate(p, P.Net(ip, hostname, port), Enforce).matched == P.Rule(P.NetFamily, i + 1);
    assert i == j;
  }

  /** In particular a first rule by host name decides every destination that the name's cached
      addresses hold, on its port. */
  lemma NameRuleDecidesEvent(c: Config, log: seq<Event>, i: nat) returns (b: nat)
    requires PolicyLoaded(c) && Accepted(c, log) && i < |log| && log[i].Appended? && log[i].event.fact.Net?
    requires c.mode == Enforce && c.policy.Some? && c.resolvedHosts.Some? && c.policy.value.net != []
    requires var rule, fact, cache := c.policy.value.net[0], log[i].event.fact, c.resolvedHosts.value;
             && rule.host.Exact? && rule.host.name in cache && fact.host in cache[rule.host.name]
             && (rule.port.None? || rule.port == Some(fact.port))
    ensures b < i && log[b].Received? && forall q :: b < q < i ==> !log[q].Received?
    ensures Native(log[b].notification) && IsNetworkCall(log[b].notification.data.nr) ==>
              && P.Stands(c.policy.value.net[0].action, log[i].event.decision)
              && log[i].event.matchedRule == ByPolicy(P.Rule(P.NetFamily, 1))
  {
    hide Happened, Accepted, DecidedBy, P.NetRuleApplies, Sockaddr.Parse, ResolvedHostname;
    b := NetworkEvent(c, log, i);
    var n, e := log[b].notification, log[i].event;
    if Native(n) && IsNetworkCall(n.data.nr) {
      var bytes :| Sockaddr.Parse(bytes) == Some((e.fact.host, e.fact.port))
        && Happened(log[..i], b, BytesRead(n.pid, BufferAt(n, 0).0, BufferAt(n, 0).1, Some(bytes)));
      Sockaddr.ParsedIsNormal(bytes);
      NameRuleApplies(c, e.fact.host, e.fact.port);
      FirstRuleDecidesEvent(c, e, 0);
    }
  }

  lemma NameRuleApplies(c: Config, ip: Host.Ip, port: nat)
    requires PolicyLoaded(c) && c.policy.Some? && c.resolvedHosts.Some? && c.policy.value.net != []
    requires var rule := c.policy.value.net[0]; NamesDestination(rule, c.resolvedHosts.value, ip)
    requires c.policy.value.net[0].port.None? || c.policy.value.net[0].port == Some(port)
    ensures P.NetRuleApplies(c.policy.value.net[0], ip, ResolvedHostname(c, ip), port)
  {
    hide Host.Lower;
    var rules, cache := c.policy.value.net, c.resolvedHosts.value;
    var name := FirstHostOf(rules, cache, ip);
    assert NamesDestination(rules[0], cache, ip);
    assert name.Some?;
    var j :| 0 <= j < |rules| && NamesDestination(rules[j], cache, ip) && name == Some(rules[j].host.name)
      && forall k :: 0 <= k < j ==> !NamesDestination(rules[k], cache, ip);
    assert j == 0;
  }

  /** Some pinned operand has this identity. */
  ghost predicate PinnedIdentity(log: seq<Event>, b: nat, identity: string) {
    exists token, operand :: PinnedAs(log, b, token, operand) && operand.identity == identity
  }

  predicate IsSymlinkCall(nr: nat) {
    nr == SYMLINK || nr == SYMLINKAT
  }

  /** The event of a file call. Recorded only, it names the paths as read and anchored and is the
      policy's word on the first. Granted while enforcing, it names the identities that were pinned,
      but for a symlink's text. Without a fact it is denied as unreadable, and with an operand that
      could not be pinned as unrealizable. */
  lemma FileEvent(c: Config, log: seq<Event>, i: nat) returns (b: nat)
    requires PolicyLoaded(c) && Accepted(c, log) && i < |log| && log[i].Appended?
    ensures b < i && log[b].Received? && forall q :: b < q < i ==> !log[q].Received?
    ensures var n, e, before := log[b].notification, log[i].event, log[..i];
            Native(n) && IsFileCall(n.data.nr) ==>
              if e.fact.Fs? then
                && (e.fact.dest.Some? <==> |PathArgs(n)| == 2)
                && (c.mode == RecordOnly ==>
                      && Spelled(n, 0, e.fact.path, before, b)
                      && (e.fact.dest.Some? ==> Spelled(n, 1, e.fact.dest.value, before, b))
                      && DecidedBy(c, e, P.Fs(e.fact.path, e.fact.access)))
                && (c.mode == Enforce && Grants(e) ==>
                      && (if IsSymlinkCall(n.data.nr) then Spelled(n, 0, e.fact.path, before, b)
                          else PinnedIdentity(before, b, e.fact.path))
                      && (e.fact.dest.Some? ==> PinnedIdentity(before, b, e.fact.dest.value)))
                && (c.mode == Enforce && (exists errno :: RefusedWith(before, b, errno)) ==>
                      e.decision == Deny && e.matchedRule == Realization)
              else
                && e.fact == Raw && e.decision == Deny && e.matchedRule == MemoryRead
                && (n.data.nr == CREAT || (n.data.nr == OPENAT2 && n.data.args[3] < 24) || ReadFailed(n, before, b))
  {
    hide Watch, EventOf, DecisionOf, FactOf, WalkKnown, WordKnown, Spelled, Accepted, DecidedBy, PinnedAs, ReadFailed;
    hide Ready, Requests, ByPolicyOf, PathArgs, Invocation, RefusedWith, Grants, IsFileCall, FamilyOf;
    b := EventInHand(c, log, i);
    var s := Watch(c, log[..i]);
    EventWords(c, s.n, s.h.known, s.h.answer);
    if Native(s.n) && IsFileCall(s.n.data.nr) {
      FamiliesByName(s.n);
      EventSpeaksForResponse(c, s.n, s.h.known, s.h.answer);
      FileDecision(c, s.n, s.h);
      if log[i].event.fact.Fs? {
        InvocationOfPaths(s.n, s.h.known);
        if c.mode == RecordOnly {
          OneRequestDecides(c, s.n, s.h.known, s.h.answer, P.Fs(log[i].event.fact.path, log[i].event.fact.access));
        } else if Grants(log[i].event) {
          FactNamesPins(c, s.n, s.h.known);
        }
      } else if !s.h.known.failed {
        ReadableCallsAreDecided(s.n, s.h.known);
      }
    }
  }

  lemma FileDecision(c: Config, n: Notification, h: History)
    requires PolicyLoaded(c) && FamilyOf(n).FileSystem? && Ready(c, n, h)
    ensures FactOf(c, n, h.known).Fs? <==> Invocation(n, h.known).Some?
    ensures FsGathered(n, h.known)
    ensures !FactOf(c, n, h.known).Fs? ==>
              FactOf(c, n, h.known) == Raw && DecisionOf(c, n, h.known, h.answer) == Fixed(Deny, MemoryRead)
    ensures Invocation(n, h.known).Some? ==>
              var k, fact, (access, inv) := h.known, FactOf(c, n, h.known), Invocation(n, h.known).value;
              && |k.texts| > 0 && fact == FsFact(c, k, access, inv)
              && (k.refused.Some? ==> DecisionOf(c, n, k, h.answer) == Fixed(Deny, Realization))
              && (c.mode == Enforce && k.refused.None? ==> |k.operands| == |OperandInputs(k, inv)| > 0)
              && (k.refused.None? ==> DecisionOf(c, n, k, h.answer) == ByPolicyOf(c, n, k, h.answer))
              && (c.mode == RecordOnly ==> Requests(c, n, k) == [P.Fs(k.texts[0], access)])
  {
    hide ByPolicyOf, F.OpenAccess, OpenOfHow, MutationOf, OperandInputs;
    InvocationHasPaths(n, h.known);
  }

  lemma InvocationHasPaths(n: Notification, k: Known)
    requires FamilyOf(n).FileSystem?
    ensures Invocation(n, k).Some? ==> |k.texts| > 0
  {
    hide F.OpenAccess, OpenOfHow, MutationOf;
  }

  lemma FactNamesPins(c: Config, n: Notification, k: Known)
    requires FamilyOf(n).FileSystem? && Invocation(n, k).Some? && c.mode == Enforce && k.refused.None? && |k.texts| > 0
    requires |k.operands| == |OperandInputs(k, Invocation(n, k).value.1)| > 0
    ensures var (access, inv) := Invocation(n, k).value;
            var fact := FsFact(c, k, access, inv);
            && fact.Fs? && (IsSymlink(inv) <==> IsSymlinkCall(n.data.nr))
            && fact.path == (if IsSymlinkCall(n.data.nr) then k.texts[0] else k.operands[0].1.identity)
            && (fact.dest.Some? ==>
                  if IsSymlinkCall(n.data.nr) then fact.dest.value == k.operands[0].1.identity
                  else |k.operands| > 1 && fact.dest.value == k.operands[1].1.identity)
            && (fact.dest.Some? <==> |k.texts| == 2)
  {
    hide F.OpenAccess, FamilyOf;
    InvocationOfPaths(n, k);
  }

  // ----- the evidence of two operands -----

  /** An entry of the evidence is the policy's word on its access to the identity that the event names
      for its operand. */
  ghost predicate EntryIsTrue(c: Config, e: SyscallEvent, d: FsOperandDecision)
    requires PolicyLoaded(c) && c.policy.Some? && e.fact.Fs?
  {
    && (d.operand.DestOperand? ==> e.fact.dest.Some?)
    && var identity := if d.operand.PathOperand? then e.fact.path else e.fact.dest.value;
    var ev := P.Evaluate(c.policy.value, P.Fs(identity, [d.access]), Enforce);
    d.decision == ev.decision && d.matchedRule == ByPolicy(ev.matched) && (d.askResolution.Some? <==> d.decision == Ask)
  }

  /** The evidence shown with a brokered two-path call is true, entry by entry. */
  lemma EvidenceIsTrue(c: Config, log: seq<Event>, i: nat)
    requires PolicyLoaded(c) && Accepted(c, log) && i < |log| && log[i].Appended? && log[i].event.operandDecisions.Some?
    ensures c.mode == Enforce && c.policy.Some? && log[i].event.fact.Fs?
    ensures forall j :: 0 <= j < |log[i].event.operandDecisions.value| ==>
              EntryIsTrue(c, log[i].event, log[i].event.operandDecisions.value[j])
  {
    hide Watch, EventOf, DecisionOf, FactOf, Origins, Accepted, Ready, Requests, Invocation, OperandEvidence, FsFact;
    hide EntryIsTrue;
    var b := EventInHand(c, log, i);
    var s := Watch(c, log[..i]);
    EventWords(c, s.n, s.h.known, s.h.answer);
    EventEvidence(c, s.n, s.h.known, s.h.answer);
    EvidenceOnlyBrokered(c, s.n, s.h.known, s.h.answer);
    FileDecision(c, s.n, s.h);
    ServedIsRunnable(c, log[..i]);
    EvidenceEntries(c, s.n, s.h.known, s.h.answer, log[i].event);
  }

  lemma EventEvidence(c: Config, n: Notification, k: Known, answer: Option<AskResolution>)
    requires PolicyLoaded(c)
    ensures EventOf(c, n, k, answer).operandDecisions == OperandEvidence(c, n, k, answer)
  {
    hide DecisionOf, FactOf, OperandEvidence, FamilyOf, F.Name;
  }

  lemma EvidenceOnlyBrokered(c: Config, n: Notification, k: Known, answer: Option<AskResolution>)
    requires PolicyLoaded(c) && OperandEvidence(c, n, k, answer).Some?
    ensures FamilyOf(n).FileSystem? && c.mode == Enforce && k.refused.None?
    ensures Invocation(n, k).Some? && k.operands != []
  {
    hide Invocation, Evidence, JudgeAll, RequestsOn, Resolution, FamilyOf;
  }

  lemma EvidenceEntries(c: Config, n: Notification, k: Known, answer: Option<AskResolution>, e: SyscallEvent)
    requires PolicyLoaded(c) && c.policy.Some? && c.mode == Enforce && FamilyOf(n).FileSystem? && Invocation(n, k).Some?
    requires k.refused.None? && |k.texts| > 0 && |k.operands| == |OperandInputs(k, Invocation(n, k).value.1)| > 0
    requires e.fact == FsFact(c, k, Invocation(n, k).value.0, Invocation(n, k).value.1)
    requires e.operandDecisions == OperandEvidence(c, n, k, answer) && e.operandDecisions.Some?
    ensures e.fact.Fs?
    ensures forall j :: 0 <= j < |e.operandDecisions.value| ==> EntryIsTrue(c, e, e.operandDecisions.value[j])
  {
    hide Invocation, FamilyOf, Resolution, P.Evaluate, EntryIsTrue, FsFact, PrimaryAccess, SecondaryAccess;
    hide Evidence, JudgeAll, RequestsOn;
    var (access, inv) := Invocation(n, k).value;
    var resolution := Resolution(c, n, k, answer);
    FactNamesPins(c, n, k);
    InvocationOfPaths(n, k);
    var first := PrimaryAccess(inv, access);
    var evidence := Evidence(if IsSymlink(inv) then DestOperand else PathOperand, first,
                             JudgeAll(c, RequestsOn(k.operands[0].1.identity, first)), resolution);
    EntriesOf(c, e, if IsSymlink(inv) then DestOperand else PathOperand, k.operands[0].1.identity, first, resolution);
    if IsSymlink(inv) {
      assert e.operandDecisions.value == evidence;
    } else {
      var second := SecondaryAccess(inv, k.operands[1].1.exists_);
      EntriesOf(c, e, DestOperand, k.operands[1].1.identity, second, resolution);
      assert e.operandDecisions.value ==
        evidence + Evidence(DestOperand, second, JudgeAll(c, RequestsOn(k.operands[1].1.identity, second)), resolution);
    }
  }

  lemma EntriesOf(c: Config, e: SyscallEvent, operand: FsOperand, identity: string, access: seq<FsAccess>,
                  resolution: Option<AskResolution>)
    requires PolicyLoaded(c) && c.policy.Some? && c.mode == Enforce && e.fact.Fs?
    requires if operand.PathOperand? then e.fact.path == identity else e.fact.dest == Some(identity)
    ensures var evidence := Evidence(operand, access, JudgeAll(c, RequestsOn(identity, access)), resolution);
            forall j :: 0 <= j < |evidence| ==> EntryIsTrue(c, e, evidence[j])
  {
    hide P.Evaluate;
  }

  // ----- what is pinned, committed and transmitted is the call -----

  /** A path pinned is one of the call's, as read and anchored: a symlink's second, else its first and
      then its second, followed and allowed to be missing as the call's rules say. */
  lemma PinnedIsTheCalls(c: Config, log: seq<Event>, i: nat) returns (b: nat, j: nat)
    requires PolicyLoaded(c) && Accepted(c, log) && i < |log| && log[i].Prepared?
    ensures b < i && log[b].Received? && forall q :: b < q < i ==> !log[q].Received?
    ensures c.mode == Enforce && Spelled(log[b].notification, j, log[i].path, log[..i], b)
    ensures var s := Watch(c, log[..i]);
            && s.Handling? && s.n == log[b].notification && FamilyOf(s.n).FileSystem?
            && Invocation(s.n, s.h.known).Some?
            && var inv := Invocation(s.n, s.h.known).value.1;
            && j == (if IsSymlink(inv) then 1 else |s.h.known.operands|)
            && (s.h.known.operands == [] ==>
                  log[i].follow == PrepareModes(inv).0 && log[i].missing == PrepareModes(inv).1)
            && (s.h.known.operands != [] ==> !log[i].follow && log[i].missing)
  {
    hide Watch, Accepted, Spelled, WalkKnown, WordKnown, BytesKnown, RefusalKnown, Admits, Invocation;
    InHand(c, log, i);
    b := KnownFromLog(c, log[..i]);
    var s := Watch(c, log[..i]);
    PinAdmitted(c, s.n, s.h, log[i]);
    j := if IsSymlink(Invocation(s.n, s.h.known).value.1) then 1 else |s.h.known.operands|;
  }

  lemma PinAdmitted(c: Config, n: Notification, h: History, e: Event)
    requires PolicyLoaded(c) && e.Prepared? && Admits(c, n, h, e)
    ensures c.mode == Enforce && FamilyOf(n).FileSystem? && Invocation(n, h.known).Some?
    ensures var k, inv := h.known, Invocation(n, h.known).value.1;
            var j := if IsSymlink(inv) then 1 else |k.operands|;
            && k.anchored && j < |k.texts| && e.path == k.texts[j]
            && (k.operands == [] ==> e.follow == PrepareModes(inv).0 && e.missing == PrepareModes(inv).1)
            && (k.operands != [] ==> !e.follow && e.missing)
  {
    hide DecisionOf, EventOf, Requests, AsksOf, Ready, ResponseOf, Raisable, NextBytes, Destination, MayRelease, MayAct;
    PinIsNext(n, h.known);
  }

  lemma PinIsNext(n: Notification, k: Known)
    requires NextPin(n, k).Some?
    ensures FamilyOf(n).FileSystem? && Invocation(n, k).Some?
    ensures var inv, (path, follow, missing) := Invocation(n, k).value.1, NextPin(n, k).value;
            var j := if IsSymlink(inv) then 1 else |k.operands|;
            && k.anchored && j < |k.texts| && path == k.texts[j]
            && (k.operands == [] ==> follow == PrepareModes(inv).0 && missing == PrepareModes(inv).1)
            && (k.operands != [] ==> !follow && missing)
  {
    hide OpenOfHow, F.OpenAccess;
    InvocationOfPaths(n, k);
  }

  lemma InvocationOfPaths(n: Notification, k: Known)
    requires FamilyOf(n).FileSystem? && Invocation(n, k).Some?
    ensures k.anchored && |k.texts| == |PathArgs(n)| && 1 <= |k.texts| <= 2
    ensures var inv := Invocation(n, k).value.1;
            && (inv.Open? ==> |k.texts| == 1)
            && (inv.Mutate? ==> MutationOf(n.data.nr, n.data.args, k.texts[0]) == Some(inv.mutation))
            && (|k.texts| == 2 <==> IsSymlink(inv) || TwoOperands(inv))
  {
    hide F.OpenAccess, MutationOf;
    if F.ShapeOf(n.data.nr).value.access.Fixed? {
      OperandsMatchArguments(n.data.nr, n.data.args, k.texts[0]);
    }
  }

  /** A commit performs the call: an open with its flags and mode, a mutation with its parameters,
      both as the registers say. */
  lemma CommitIsTheCall(c: Config, log: seq<Event>, i: nat) returns (b: nat)
    requires PolicyLoaded(c) && Accepted(c, log) && i < |log| && (log[i].OpenCommitted? || log[i].MutationCommitted?)
    ensures b < i && log[b].Received? && forall q :: b < q < i ==> !log[q].Received?
    ensures var n := log[b].notification;
            && (log[i].OpenCommitted? ==>
                  && (n.data.nr == OPEN || n.data.nr == OPENAT || n.data.nr == OPENAT2)
                  && (n.data.nr == OPEN ==> log[i].flags == n.data.args[1] && log[i].mode == Low32(n.data.args[2]))
                  && (n.data.nr == OPENAT ==> log[i].flags == n.data.args[2] && log[i].mode == Low32(n.data.args[3])))
            && (log[i].MutationCommitted? ==>
                  exists path :: Spelled(n, 0, path, log[..i], b)
                                 && MutationOf(n.data.nr, n.data.args, path) == Some(log[i].mutation))
  {
    hide Watch, Accepted, Spelled, WalkKnown, WordKnown, BytesKnown, RefusalKnown, Admits, Invocation, MutationOf;
    InHand(c, log, i);
    b := KnownFromLog(c, log[..i]);
    var s := Watch(c, log[..i]);
    CommitAdmitted(c, s.n, s.h, log[i]);
    InvocationOfPaths(s.n, s.h.known);
    if log[i].OpenCommitted? {
      OpenBySignature(s.n, s.h.known);
    } else {
      assert Spelled(s.n, 0, s.h.known.texts[0], log[..i], b);
    }
  }

  lemma CommitAdmitted(c: Config, n: Notification, h: History, e: Event)
    requires PolicyLoaded(c) && (e.OpenCommitted? || e.MutationCommitted?) && Admits(c, n, h, e)
    ensures FamilyOf(n).FileSystem? && Invocation(n, h.known).Some?
    ensures e.OpenCommitted? ==> Invocation(n, h.known).value.1 == Open(e.flags, e.mode, None)
    ensures e.MutationCommitted? ==> Invocation(n, h.known).value.1 == Mutate(e.mutation)
  {
    hide MayAct, Invocation;
  }

  /** A transmission is the call: its operation by name, the address as read at its register, for a
      send the payload as read at its buffer and the low word of its flags, and the socket duplicated
      from its descriptor before. */
  lemma TransmissionIsTheCall(c: Config, log: seq<Event>, i: nat) returns (b: nat)
    requires PolicyLoaded(c) && Accepted(c, log) && i < |log| && log[i].Transmitted?
    ensures b < i && log[b].Received? && forall q :: b < q < i ==> !log[q].Received?
    ensures var n, e := log[b].notification, log[i];
            && (e.operation == Connect <==> n.data.nr == CONNECT) && (e.operation == Bind <==> n.data.nr == BIND)
            && (e.operation == SendTo <==> n.data.nr == SENDTO)
            && Happened(log[..i], b, BytesRead(n.pid, BufferAt(n, 0).0, BufferAt(n, 0).1, Some(e.address)))
            && (if n.data.nr == SENDTO then
                  && e.flags == Low32(n.data.args[3])
                  && Happened(log[..i], b, BytesRead(n.pid, n.data.args[1], n.data.args[2], Some(e.payload)))
                else e.flags == 0 && e.payload == [])
            && Happened(log[..i], b, Duplicated(n.pid, n.data.args[0], None))
  {
    hide Watch, Accepted, WalkKnown, WordKnown, TextsKnown, RefusalKnown, Admits, Happened;
    InHand(c, log, i);
    b := KnownFromLog(c, log[..i]);
    var s := Watch(c, log[..i]);
    TransmissionAdmitted(c, s.n, s.h, log[i]);
    DuplicatedBefore(c, log[..i], b);
  }

  lemma TransmissionAdmitted(c: Config, n: Notification, h: History, e: Event)
    requires PolicyLoaded(c) && e.Transmitted? && Admits(c, n, h, e)
    ensures FamilyOf(n).Network? && IsNetworkCall(n.data.nr) && h.duplicated
    ensures e.operation == if n.data.nr == CONNECT then Connect else if n.data.nr == BIND then Bind else SendTo
    ensures |h.known.bytes| > 0 && h.known.bytes[0] == Some(e.address)
    ensures if n.data.nr == SENDTO then e.flags == Low32(n.data.args[3]) && |h.known.bytes| == 2
                                     && h.known.bytes[1] == Some(e.payload)
            else e.flags == 0 && e.payload == []
  {
    hide DecisionOf, Sockaddr.Parse;
  }

  lemma {:induction false} DuplicatedBefore(c: Config, log: seq<Event>, b: nat)
    requires PolicyLoaded(c) && Watch(c, log).Handling? && b < |log| && log[b] == Received(Watch(c, log).n)
    requires forall q :: b < q < |log| ==> !log[q].Received?
    ensures var n := Watch(c, log).n;
            Watch(c, log).h.duplicated ==> Happened(log, b, Duplicated(n.pid, n.data.args[0], None))
  {
    hide Admits, Learn, Live, Came, BadDescriptor, Done, Happened;
    var before, e := log[..|log| - 1], log[|log| - 1];
    assert log == before + [e];
    if !e.Received? {
      var s := Watch(c, before);
      assert before[b] == log[b];
      DuplicatedBefore(c, before, b);
      HappenedMore(before, b, e);
      DuplicationOfCall(c, s.n, s.h, e);
    }
  }

  lemma DuplicationOfCall(c: Config, n: Notification, h: History, e: Event)
    requires PolicyLoaded(c) && Admits(c, n, h, e)
    ensures e.Duplicated? ==> e.pid == n.pid && e.fd == n.data.args[0]
  {
    hide DecisionOf, EventOf, Invocation, Requests, AsksOf, Ready, ResponseOf, Raisable, NextPin, NextBytes;
    hide Destination, MayRelease, MayAct, Committable;
  }

  // ----- answers -----

  /** What an effect came to, or the failure to set one up. */
  function ResultOf(e: Event): Option<BrokerResult> {
    match e
    case OpenCommitted(_, _, _, result) => result
    case MutationCommitted(_, _, _, result) => result
    case Transmitted(_, _, _, _, result) => result
    case Duplicated(_, _, Some(errno)) => Some(Errno(errno))
    case _ => None
  }

  /** The result at `x` is what the notification in hand came to, of the very call that is known. */
  ghost predicate CameTo(c: Config, n: Notification, h: History, e: Event)
    requires PolicyLoaded(c)
  {
    && h.recorded.Some? && h.outcome == ResultOf(e) && h.outcome.Some?
    && Brokered(c, n) && DecisionOf(c, n, h.known, h.answer).response == Allow && h.confirmed
    && Unsupported(n, h.known).None?
    && (e.OpenCommitted? ==> Committable(n, h.known, Open(e.flags, e.mode, None)))
    && (!e.OpenCommitted? ==>
          !FamilyOf(n).FileSystem? || (Invocation(n, h.known).Some? && !Invocation(n, h.known).value.1.Open?))
  }

  lemma ResultComes(c: Config, n: Notification, h: History, e: Event)
    requires PolicyLoaded(c) && Admits(c, n, h, e) && ResultOf(e).Some?
    ensures CameTo(c, n, Extend(n, h, e), e)
  {
    hide DecisionOf, Invocation, Destination, CarriesPayload;
  }

  lemma ResultStays(c: Config, n: Notification, h: History, e: Event, x: Event)
    requires PolicyLoaded(c) && Admits(c, n, h, e) && CameTo(c, n, h, x)
    ensures CameTo(c, n, Extend(n, h, e), x)
  {
    hide DecisionOf, EventOf, Invocation, Requests, AsksOf, ResponseOf, Ready, Raisable, NextPin, NextBytes;
    hide Destination;
    hide Brokered, Unsupported, Committable, MayRelease;
    StepForbids(c, n, h, e);
  }

  lemma {:induction false} ResultInHand(c: Config, log: seq<Event>, x: nat)
    requires PolicyLoaded(c) && Watch(c, log).Handling? && x < |log| && ResultOf(log[x]).Some?
    requires forall q :: x < q < |log| ==> !log[q].Received?
    ensures CameTo(c, Watch(c, log).n, Watch(c, log).h, log[x])
    decreases |log|
  {
    hide Admits, Extend, BadDescriptor, Done, CameTo;
    var before, e := log[..|log| - 1], log[|log| - 1];
    var s := Watch(c, before);
    if x == |log| - 1 {
      ResultComes(c, s.n, s.h, e);
    } else {
      assert before[x] == log[x];
      ResultInHand(c, before, x);
      ResultStays(c, s.n, s.h, e, log[x]);
    }
  }

  /** The answer after an effect passes its result on: a value as it is, an errno unchanged, a
      descriptor with close-on-exec exactly when the open asked for it (bit 19). */
  lemma AnswerPassesResultOn(c: Config, log: seq<Event>, x: nat, i: nat)
    requires PolicyLoaded(c) && Accepted(c, log) && x < i < |log| && ResultOf(log[x]).Some? && log[i].Sent?
    requires !log[i - 1].GaveUp? && forall q :: x < q <= i ==> !log[q].Received?
    ensures match ResultOf(log[x]).value
            case Value(value) => log[i].response == Complete(value)
            case Errno(errno) => log[i].response == Refuse(errno)
            case Fd =>
              log[i].response ==
              InjectFd(if log[x].OpenCommitted? && Bits.Bit(log[x].flags, 19) then 0x8_0000 else 0)
  {
    hide Watch, Accepted, Admits;
    AdmittedAt(c, log, i);
    AnswerInHand(c, log, i);
    var s := Watch(c, log[..i]);
    assert log[..i][x] == log[x];
    ResultInHand(c, log[..i], x);
    AnswerOfResult(c, s.n, s.h, log[x], log[i]);
  }

  /** Unless it is the last one while tearing down, an answer is to the notification in hand. */
  lemma AnswerInHand(c: Config, log: seq<Event>, i: nat)
    requires PolicyLoaded(c) && Accepted(c, log) && 0 < i < |log| && log[i].Sent? && !log[i - 1].GaveUp?
    ensures var s := Watch(c, log[..i]); s.Handling? && Admits(c, s.n, s.h, log[i])
  {
    hide Watch, Admits, BadDescriptor, Extend, Accepted;
    AdmittedAt(c, log, i);
    if !Watch(c, log[..i]).Handling? {
      PrefixAccepted(c, log, i);
      AbortedFrom(c, log, i);
    } else {
      InHand(c, log, i);
    }
  }

  lemma AnswerOfResult(c: Config, n: Notification, h: History, x: Event, e: Event)
    requires PolicyLoaded(c) && e.Sent? && Admits(c, n, h, e) && CameTo(c, n, h, x)
    ensures match ResultOf(x).value
            case Value(value) => e.response == Complete(value)
            case Errno(errno) => e.response == Refuse(errno)
            case Fd => e.response == InjectFd(if x.OpenCommitted? && Bits.Bit(x.flags, 19) then 0x8_0000 else 0)
  {
    hide DecisionOf, EventOf, Requests, AsksOf, Invocation, Raisable, Unsupported;
    FollowBits();
    if x.OpenCommitted? {
      Bits.AndSingleBit(x.flags, 19);
    }
  }

  /** A denied call is answered by its cause: ENOSYS (38) for a foreign entry or a call on the deny
      list, the errno of an operand that could not be pinned, and EACCES (13) otherwise. */
  lemma RefusalByCause(c: Config, log: seq<Event>, a: nat, i: nat) returns (b: nat)
    requires PolicyLoaded(c) && Accepted(c, log) && a < i < |log| && log[a].Appended? && !Grants(log[a].event)
    requires log[i].Sent? && !log[i - 1].GaveUp? && forall q :: a < q <= i ==> !log[q].Received?
    ensures b < a && log[b].Received? && forall q :: b < q < i ==> !log[q].Received?
    ensures var n := log[b].notification;
            if FamilyOf(n).Foreign? || FamilyOf(n).AlwaysDenied? then log[i].response == Refuse(38)
            else if exists errno :: RefusedWith(log[..i], b, errno) then
              log[i].response.Refuse? && RefusedWith(log[..i], b, log[i].response.errno)
            else log[i].response == Refuse(13)
  {
    hide Watch, Accepted, Admits, RefusedWith, WalkKnown, WordKnown, BytesKnown, TextsKnown, DecisionOf;
    hide EventOf, Grants;
    AnswerInHand(c, log, i);
    var s := Watch(c, log[..i]);
    b := KnownFromLog(c, log[..i]);
    var a', v, p;
    var b';
    b', a', v, p := Recall(c, log[..i]);
    assert b' == b && log[..i][a] == log[a];
    EventSpeaksForResponse(c, s.n, s.h.known, s.h.answer);
    RefusalAdmitted(c, s.n, s.h, log[i]);
  }

  lemma RefusalAdmitted(c: Config, n: Notification, h: History, e: Event)
    requires PolicyLoaded(c) && e.Sent? && Admits(c, n, h, e) && h.recorded.Some?
    requires DecisionOf(c, n, h.known, h.answer).response != Allow
    ensures e.response == if FamilyOf(n).Foreign? || FamilyOf(n).AlwaysDenied? then Refuse(38)
                          else Refuse(if h.known.refused.Some? then h.known.refused.value else 13)
  {
    hide DecisionOf, EventOf, Raisable, FamilyOf;
  }

  // ----- what an enforcing run lets through -----

  /** Nothing that the broker could perform is let run by itself. */
  ghost predicate LetsThroughNone(log: seq<Event>) {
    forall i :: 0 <= i < |log| && log[i].Sent? && log[i].response == Continue ==> LetsThroughOther(log, i)
  }

  /** The answer at `i` is to a notification the filter cannot raise, or to one that is neither a file
      nor a network call. */
  ghost predicate LetsThroughOther(log: seq<Event>, i: nat)
    requires i < |log| && log[i].Sent?
  {
    exists b :: 0 <= b < i && log[b].Received? && log[b].notification.id == log[i].id
      && (forall q :: b < q < i ==> !log[q].Received?)
      && var n := log[b].notification;
      !Raisable(n) || !Native(n) || !(IsFileCall(n.data.nr) || IsNetworkCall(n.data.nr))
  }

  /** In an enforcing run no file or network call that the filter can raise is answered Continue. */
  lemma EnforcedIsNeverLetThrough(c: Config, log: seq<Event>)
    requires PolicyLoaded(c) && Accepted(c, log) && c.mode == Enforce
    ensures LetsThroughNone(log)
  {
    hide Accepted, LetsThroughOther;
    forall i | 0 <= i < |log| && log[i].Sent? && log[i].response == Continue ensures LetsThroughOther(log, i) {
      ContinuedIsOther(c, log, i);
    }
  }

  lemma ContinuedIsOther(c: Config, log: seq<Event>, i: nat)
    requires PolicyLoaded(c) && Accepted(c, log) && c.mode == Enforce
    requires i < |log| && log[i].Sent? && log[i].response == Continue
    ensures LetsThroughOther(log, i)
  {
    hide Watch, Accepted, Admits, EventOf, Requests, AsksOf, ResponseOf, Ready, Raisable, IsFileCall;
    hide IsNetworkCall, Native;
    AdmittedAt(c, log, i);
    ContinueIsNotRefusal(c, log, i);
    AnswerInHand(c, log, i);
    var s := Watch(c, log[..i]);
    var b, _, _, _ := Recall(c, log[..i]);
    StepForbids(c, s.n, s.h, log[i]);
    assert log[..i][b] == log[b];
    ContinueAdmitted(c, s.n, s.h, log[i]);
  }

  /** What is answered while tearing down is a refusal. */
  lemma ContinueIsNotRefusal(c: Config, log: seq<Event>, i: nat)
    requires PolicyLoaded(c) && Accepted(c, log) && i < |log| && log[i].Sent? && log[i].response == Continue
    ensures i > 0 && !log[i - 1].GaveUp?
  {
    hide Admits, Extend, BadDescriptor, Accepted;
    AdmittedAt(c, log, i);
    if i > 0 {
      AdmittedAt(c, log, i - 1);
    }
  }

  lemma ContinueAdmitted(c: Config, n: Notification, h: History, e: Event)
    requires PolicyLoaded(c) && e.Sent? && e.response == Continue && Admits(c, n, h, e) && c.mode == Enforce
    ensures !Raisable(n) || !Native(n) || !(IsFileCall(n.data.nr) || IsNetworkCall(n.data.nr))
  {
    hide DecisionOf, EventOf, Raisable, FamilyOf, IsFileCall, IsNetworkCall, Unsupported;
    if Native(n) {
      FamiliesByName(n);
    }
  }

  // ----- what the kernel looks for when the broker commits -----

  /** What the kernel looks for on the operand under `t`. */
  function NeedsOf(e: Event, t: nat, x: HC.Circumstances, abi: nat): L.Rights {
    match e
    case OpenCommitted(token, flags, mode, _) =>
      if t == token then HC.FirstNeeds(Open(flags, mode, None), x, abi) else {}
    case MutationCommitted(primary, secondary, mutation, _) =>
      if t == primary then HC.FirstNeeds(Mutate(mutation), x, abi)
      else if secondary == Some(t) then HC.SecondNeeds(Mutate(mutation), x)
      else {}
    case _ => {}
  }

  /** The operand under `t` is the source of a hard link between directories. */
  predicate LinkSource(e: Event, t: nat, x: HC.Circumstances) {
    e.MutationCommitted? && t == e.primary && e.mutation.Link? && x.across
  }

  /** End to end with the kernel: every right it looks for when the broker commits is held by the hull
      at or above the operand's pinned identity. The one exception is the source of a hard link
      between directories, where that holds exactly when the policy asks, there or above, for
      creating or deleting. */
  lemma CommitsPassTheKernel(c: Config, abi: nat, log: seq<Event>, i: nat, t: nat) returns (p: nat)
    requires PolicyLoaded(c) && Accepted(c, log) && i < |log| && Commits(log[i], t)
    ensures p < i && log[p].Prepared? && log[p].prepared.Pinned? && log[p].prepared.token == t
    ensures (forall k :: p <= k < i ==> !log[k].Received?) && c.policy.Some?
    ensures var operand, policy := log[p].prepared.operand, c.policy.value;
            var path := Text.Components(operand.identity);
            forall x: HC.Circumstances, right | x.existing == operand.exists_ && right in NeedsOf(log[i], t, x, abi) ::
              if LinkSource(log[i], t, x)
              then L.Covered(L.FsGrants(policy, abi), path, {right}) <==> HC.AskedFor(policy, abi, path, L.Refer)
              else L.Covered(L.FsGrants(policy, abi), path, {right})
  {
    hide Accepted, Takes, Permitted, L.Covered, L.FsGrants, L.NeededRights, HC.AskedFor, Text.Components, NeedsOf;
    p := CommitsAreCovered(c, abi, log, i, t);
    var operand, policy := log[p].prepared.operand, c.policy.value;
    var path := Text.Components(operand.identity);
    forall x: HC.Circumstances, right | x.existing == operand.exists_ && right in NeedsOf(log[i], t, x, abi)
      ensures if LinkSource(log[i], t, x)
              then L.Covered(L.FsGrants(policy, abi), path, {right}) <==> HC.AskedFor(policy, abi, path, L.Refer)
              else L.Covered(L.FsGrants(policy, abi), path, {right})
    {
      if LinkSource(log[i], t, x) {
        LinkSourceNeeds(log[i], t, x, abi, right);
        HC.GrantedExactlyWhenAskedFor(policy, abi, path, L.Refer);
      } else {
        var a := TakesNeed(log[i], t, operand, x, abi, right);
        CoveredPart(L.FsGrants(policy, abi), path, L.NeededRights(a, abi), right);
      }
    }
  }

  lemma LinkSourceNeeds(e: Event, t: nat, x: HC.Circumstances, abi: nat, right: L.Right)
    requires LinkSource(e, t, x) && right in NeedsOf(e, t, x, abi)
    ensures right == L.Refer
  {}

  lemma CoveredPart(fs: map<Text.Path, L.Rights>, path: Text.Path, needed: L.Rights, right: L.Right)
    requires L.Covered(fs, path, needed) && right in needed
    ensures L.Covered(fs, path, {right})
  {
    var root :| L.Granted(fs, root, needed) && Text.Beneath(root, path);
    assert L.Granted(fs, root, {right});
  }

  /** A right looked for comes with an access the commit takes to that operand. */
  lemma TakesNeed(e: Event, t: nat, operand: Operand, x: HC.Circumstances, abi: nat, right: L.Right)
    returns (a: FsAccess)
    requires right in NeedsOf(e, t, x, abi) && !LinkSource(e, t, x) && x.existing == operand.exists_
    ensures Takes(e, t, operand, a) && right in L.NeededRights(a, abi)
  {
    hide F.OpenAccess, HC.FirstNeeds, HC.SecondNeeds, HC.ModesBehind, PrimaryAccess, SecondaryAccess;
    var inv := if e.OpenCommitted? then Open(e.flags, e.mode, None) else Mutate(e.mutation);
    var listed := if e.OpenCommitted? then F.OpenAccess(e.flags) else [];
    HC.DemandsBringNeeds(inv, listed, x, abi, right);
    var taken := if e.OpenCommitted? || t == e.primary then PrimaryAccess(inv, listed)
                 else SecondaryAccess(inv, x.existing);
    assert HC.Brings(taken, right);
    a :| a in taken && P.ModeFor(a) in HC.ModesBehind(right);
    HC.ModeGrantsItsRow(P.ModeFor(a), right);
    HC.HandledRights(right, abi);
    OpenTakesItsList(inv, listed);
  }

  lemma OpenTakesItsList(inv: FsInvocation, listed: seq<FsAccess>)
    ensures inv.Open? ==> PrimaryAccess(inv, listed) == listed
  {}
}