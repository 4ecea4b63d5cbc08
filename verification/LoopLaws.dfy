/** What every accepted run obeys. The loop's runs are all accepted; these laws hold of any
    observer's record of them. */
module LoopLaws {
  import opened Wrappers
  import opened Vocabulary
  import opened Recorder
  import opened Invocations
  import opened Decisions
  import opened Protocol
  import F = Facts
  import Filter
  import L = Landlock
  import P = Policy
  import Sockaddr
  import opened Syscalls
  import Text

  // ----- runs and their prefixes -----

  lemma {:induction false} PrefixAccepted(c: Config, log: seq<Event>, i: nat)
    requires PolicyLoaded(c) && Accepted(c, log) && i <= |log|
    ensures Accepted(c, log[..i])
    decreases |log|
  {
    hide Admits, Extend, BadDescriptor;
    if i == |log| {
      assert log[..i] == log;
    } else {
      PrefixAccepted(c, log[..|log| - 1], i);
      assert log[..|log| - 1][..i] == log[..i];
    }
  }

  /** Event `i` of an accepted run was admitted where the run stood. */
  lemma AdmittedAt(c: Config, log: seq<Event>, i: nat)
    requires PolicyLoaded(c) && Accepted(c, log) && i < |log|
    ensures Watch(c, log[..i]) != Rejected
    ensures Watch(c, log[..i + 1]) == Step(c, Watch(c, log[..i]), log[i]) != Rejected
  {
    hide Step;
    PrefixAccepted(c, log, i);
    PrefixAccepted(c, log, i + 1);
    assert log[..i + 1][..i] == log[..i];
  }

  // ----- one step -----

  /** What an admitted step was allowed by, and what it leaves alone. */
  lemma StepForbids(c: Config, n: Notification, h: History, e: Event)
    requires PolicyLoaded(c) && Admits(c, n, h, e)
    ensures e.Prompted? ==> h.answer.None? && h.recorded.None? && c.attendance == Attended
                            && e.asks == AsksOf(c, Requests(c, n, h.known)) != []
    ensures e.Appended? ==> h.recorded.None? && Ready(c, n, h) && e.event == EventOf(c, n, h.known, h.answer)
                            && (AsksOf(c, Requests(c, n, h.known)) != [] && c.attendance == Attended ==> h.answer.Some?)
    ensures e.Sent? || e.Validity? ==> e.id == n.id
    ensures IsEffect(e) ==> MayAct(c, n, h)
    ensures h.recorded.Some? || h.answer.Some? || e.Prompted? || e.Appended? ==> Learn(n, h.known, e) == h.known
    ensures h.recorded.Some? ==> !e.Prompted? && !ReadsMemory(e)
    ensures !Active(h) ==> e.Released?
  {
    hide DecisionOf, EventOf, Invocation, Requests, AsksOf, Ready, ResponseOf, Raisable, NextPin, NextBytes;
    hide Destination;
    hide MayRelease, MayAct, Committable;
    if IsEffect(e) || e.Duplicated? {
      EffectsAreActive(c, n, h);
    }
  }

  lemma EffectsAreActive(c: Config, n: Notification, h: History)
    requires PolicyLoaded(c) && MayAct(c, n, h)
    ensures Active(h) && Brokered(c, n) && h.recorded.Some? && h.confirmed && !h.acted
    ensures DecisionOf(c, n, h.known, h.answer).response == Allow
  {
    hide DecisionOf;
  }

  /** A history is what happened since its notification was received at `b`: the one append of it
      is at `a`, an ID_VALID answer after that at `v`, the one prompt before it at `p`. */
  ghost predicate Tells(c: Config, log: seq<Event>, n: Notification, h: History, b: nat, a: nat, v: nat, p: nat)
    requires PolicyLoaded(c)
  {
    && b < |log| && log[b] == Received(n) && (forall k :: b < k < |log| ==> !log[k].Received?)
    && (h.recorded.Some? ==> b < a < |log| && log[a] == Appended(h.recorded.value, true)
                             && h.recorded.value == EventOf(c, n, h.known, h.answer))
    && (forall k :: b < k < |log| && log[k].Appended? ==> h.recorded.Some? && k == a)
    && (h.confirmed ==> h.recorded.Some? && a < v < |log| && log[v] == Validity(n.id, Some(true)))
    && (h.answer.Some? ==> b < p < |log| && c.attendance == Attended
                           && log[p] == Prompted(AsksOf(c, Requests(c, n, h.known)), h.answer.value)
                           && AsksOf(c, Requests(c, n, h.known)) != [])
    && (forall k :: b < k < |log| && log[k].Prompted? ==> h.answer.Some? && k == p)
    && (forall k :: b < k < |log| && IsEffect(log[k]) ==> h.acted && Brokered(c, n))
    && (forall k :: b < k < |log| && log[k].Sent? ==> h.sent)
    && (forall k :: b < k < |log| && SaysAlive(log[k], false) ==> h.died)
  }

  lemma TellsOneMore(c: Config, log: seq<Event>, n: Notification, h: History, e: Event, b: nat, a: nat, v: nat, p: nat)
    returns (a': nat, v': nat, p': nat)
    requires PolicyLoaded(c) && Tells(c, log, n, h, b, a, v, p)
    requires !e.Received? && Admits(c, n, h, e) && (e.Appended? ==> e.landed)
    ensures Tells(c, log + [e], n, Extend(n, h, e), b, a', v', p')
  {
    hide EventOf, Admits, Learn, Live, Came, Ready, MayAct, Requests, AsksOf, Brokered, ReadsMemory, P.Loaded;
    StepForbids(c, n, h, e);
    if IsEffect(e) {
      EffectsAreActive(c, n, h);
    }
    a' := if e.Appended? then |log| else a;
    v' := if SaysAlive(e, true) && h.recorded.Some? then |log| else v;
    p' := if e.Prompted? then |log| else p;
    assert forall k :: 0 <= k < |log| ==> (log + [e])[k] == log[k];
  }

  lemma {:induction false} Recall(c: Config, log: seq<Event>) returns (b: nat, a: nat, v: nat, p: nat)
    requires PolicyLoaded(c) && Watch(c, log).Handling?
    ensures Tells(c, log, Watch(c, log).n, Watch(c, log).h, b, a, v, p)
  {
    hide EventOf, Admits, Extend, BadDescriptor, Done, Requests, AsksOf, Brokered;
    var before, e := log[..|log| - 1], log[|log| - 1];
    assert log == before + [e];
    if e.Received? {
      b, a, v, p := |before|, 0, 0, 0;
    } else {
      b, a, v, p := Recall(c, before);
      a, v, p := TellsOneMore(c, before, Watch(c, before).n, Watch(c, before).h, e, b, a, v, p);
    }
  }

  /** An effect or any other act on a notification happens only while one is in hand. */
  lemma InHand(c: Config, log: seq<Event>, i: nat)
    requires PolicyLoaded(c) && Accepted(c, log) && i < |log|
    requires !log[i].Received? && !log[i].GaveUp? && !log[i].Killed? && (log[i].Sent? ==> Watch(c, log[..i]).Handling?)
    ensures var s := Watch(c, log[..i]); s.Handling? && Admits(c, s.n, s.h, log[i])
  {
    hide Admits, Extend, BadDescriptor;
    AdmittedAt(c, log, i);
  }

  /** Notifications are served only by a run that may be. */
  lemma {:induction false} ServedIsRunnable(c: Config, log: seq<Event>)
    requires PolicyLoaded(c) && Watch(c, log).Handling?
    ensures Runnable(c)
  {
    hide Admits, Extend, BadDescriptor, Done, Fails;
    if !log[|log| - 1].Received? || Watch(c, log[..|log| - 1]).Handling? {
      ServedIsRunnable(c, log[..|log| - 1]);
    }
  }

  // ----- effects -----

  /** The event says whether the action is granted, and the answer agrees with it. */
  lemma EventSpeaksForResponse(c: Config, n: Notification, k: Known, answer: Option<AskResolution>)
    requires PolicyLoaded(c)
    ensures DecisionOf(c, n, k, answer).response == Allow <==> Grants(EventOf(c, n, k, answer))
  {
    hide DecisionOf, FactOf, OperandEvidence, FamilyOf, F.Name;
    DecisionIsConsistent(c, n, k, answer);
  }

  /** The answer is an allow exactly when the decision on record is one, or an approved ask. */
  lemma DecisionIsConsistent(c: Config, n: Notification, k: Known, answer: Option<AskResolution>)
    requires PolicyLoaded(c)
    ensures var d := DecisionOf(c, n, k, answer);
            d.response == Allow <==> d.event == Allow || (d.event == Ask && d.ask == Some(Approved))
  {
    hide JudgeAll, Requests, Resolution, Invocation, Destination, Verdict, FamilyOf;
    VerdictIsConsistent(JudgeAll(c, Requests(c, n, k)), Resolution(c, n, k, answer));
  }

  lemma VerdictIsConsistent(evals: seq<P.Evaluation>, resolution: Option<AskResolution>)
    ensures var d := Verdict(evals, resolution);
            d.response == Allow <==> d.event == Allow || (d.event == Ask && d.ask == Some(Approved))
  {}

  /** Every effect the broker is asked for comes after the event that grants it is on record and
      after the caller was seen alive since, and is the notification's first and only one, with
      no answer sent before it. */
  lemma EffectsAreAuthorized(c: Config, log: seq<Event>, i: nat) returns (b: nat, a: nat, v: nat)
    requires PolicyLoaded(c) && Accepted(c, log) && i < |log| && IsEffect(log[i])
    ensures b < a < v < i
    ensures log[b].Received? && log[a].Appended? && log[a].landed && Grants(log[a].event)
    ensures log[v] == Validity(log[b].notification.id, Some(true))
    ensures forall k :: b < k < i ==> !log[k].Received? && !IsEffect(log[k]) && !log[k].Sent?
    ensures c.mode == Enforce
  {
    hide Admits, EventOf, DecisionOf, Requests, AsksOf, Ready, MayAct;
    hide Grants, Watch, Extend, FamilyOf, Learn, ReadsMemory, Accepted;
    InHand(c, log, i);
    var s := Watch(c, log[..i]);
    StepForbids(c, s.n, s.h, log[i]);
    EffectsAreActive(c, s.n, s.h);
    EventSpeaksForResponse(c, s.n, s.h.known, s.h.answer);
    var p;
    b, a, v, p := Recall(c, log[..i]);
    assert log[..i][a] == log[a] && log[..i][b] == log[b];
  }

  /** At most one effect per notification. */
  lemma OneEffectPerNotification(c: Config, log: seq<Event>, i: nat, j: nat)
    requires PolicyLoaded(c) && Accepted(c, log) && i < j < |log| && IsEffect(log[i]) && IsEffect(log[j])
    ensures exists r :: i < r < j && log[r].Received?
  {
    hide Watch;
    var b, _, _ := EffectsAreAuthorized(c, log, j);
    assert i <= b;
    assert log[b].Received? && i != b;
  }

  // ----- answers -----

  /** What an answer inside a notification rests on. */
  lemma AnswerIsCalledFor(c: Config, n: Notification, h: History, response: Response)
    requires PolicyLoaded(c) && ResponseOf(c, n, h) == Some(response)
    ensures h.recorded.Some? && h.live == map[]
    ensures response == Continue ==> DecisionOf(c, n, h.known, h.answer).response == Allow && !Brokered(c, n)
    ensures response.Complete? || response.InjectFd? ==> h.outcome.Some? && !h.outcome.value.Errno?
  {
    hide DecisionOf, Brokered, Unsupported;
  }

  /** The call is let run only when an event granting it is already on record in its own
      notification, or when the filter could never have raised it; and a call that is let run is
      never also performed by the broker. */
  lemma ContinueFollowsAllow(c: Config, log: seq<Event>, i: nat) returns (b: nat, a: nat)
    requires PolicyLoaded(c) && Accepted(c, log) && i < |log| && log[i].Sent? && log[i].response == Continue
    ensures b < i && log[b].Received? && log[i].id == log[b].notification.id
    ensures forall k :: b < k < i ==> !log[k].Received? && !log[k].Sent? && !IsEffect(log[k])
    ensures Raisable(log[b].notification) ==> b < a < i && log[a].Appended? && log[a].landed && Grants(log[a].event)
  {
    hide EventOf, DecisionOf, Requests, AsksOf, Ready, Grants, Watch, Extend, Raisable, ResponseOf, MayAct;
    AdmittedAt(c, log, i);
    InHand(c, log, i);
    var s := Watch(c, log[..i]);
    StepForbids(c, s.n, s.h, log[i]);
    var v, p;
    b, a, v, p := Recall(c, log[..i]);
    if ResponseOf(c, s.n, s.h) == Some(Continue) {
      AnswerIsCalledFor(c, s.n, s.h, Continue);
      EventSpeaksForResponse(c, s.n, s.h.known, s.h.answer);
    }
  }

  /** The installed program raises this notification. */
  ghost predicate RaisedBy(prog: seq<Filter.Insn>, n: Notification) {
    && Filter.ValidData(n.data)
    && Filter.Exec(prog, n.data, 0, 0, |prog| + 1) == Ok(Filter.RET_USER_NOTIF)
  }

  /** Filter and loop together: with a program the builder emits for the shipped tables in front
      of the loop, nothing is let run without a granting event on record first, so the silent
      paths are never taken. */
  lemma FilterAndLoopCompose(c: Config, prog: seq<Filter.Insn>, log: seq<Event>, i: nat) returns (b: nat, a: nat)
    requires Filter.Decides(prog, MEDIATED + DENIED_RECORDED)
    requires PolicyLoaded(c) && Accepted(c, log) && i < |log| && log[i].Sent? && log[i].response == Continue
    requires forall k :: 0 <= k < |log| && log[k].Received? ==> RaisedBy(prog, log[k].notification)
    ensures b < a < i && log[b].Received? && log[a].Appended? && log[a].landed && Grants(log[a].event)
    ensures forall k :: b < k < i ==> !log[k].Received? && !log[k].Sent?
  {
    hide Watch, Filter.Exec, Filter.Traps, Grants;
    b, a := ContinueFollowsAllow(c, log, i);
    assert RaisedBy(prog, log[b].notification);
    assert Raisable(log[b].notification);
  }

  /** Success is reported only of an effect that was requested. */
  lemma SuccessIsEarned(c: Config, log: seq<Event>, i: nat) returns (b: nat, x: nat)
    requires PolicyLoaded(c) && Accepted(c, log) && i < |log| && log[i].Sent?
    requires log[i].response.Complete? || log[i].response.InjectFd?
    ensures b < x < i && log[b].Received? && IsEffect(log[x]) && forall k :: b < k < i ==> !log[k].Received?
  {
    hide EventOf, DecisionOf, Requests, AsksOf, Ready, Watch, Extend, Raisable, MayAct, Unsupported, ResponseOf, Done;
    AdmittedAt(c, log, i);
    InHand(c, log, i);
    var s := Watch(c, log[..i]);
    AnswerIsCalledFor(c, s.n, s.h, log[i].response);
    b, x := OutcomeIsEarned(c, log[..i]);
  }

  /** A result other than an errno comes from an effect of the same notification. */
  lemma {:induction false} OutcomeIsEarned(c: Config, log: seq<Event>) returns (b: nat, x: nat)
    requires PolicyLoaded(c) && Watch(c, log).Handling?
    ensures b < |log| && log[b] == Received(Watch(c, log).n) && forall k :: b < k < |log| ==> !log[k].Received?
    ensures var outcome := Watch(c, log).h.outcome;
            outcome.Some? && !outcome.value.Errno? ==> b < x < |log| && IsEffect(log[x])
  {
    hide Admits, BadDescriptor, Done, Learn, Live;
    var e := log[|log| - 1];
    if e.Received? {
      b, x := |log| - 1, 0;
    } else {
      b, x := OutcomeIsEarned(c, log[..|log| - 1]);
      if IsEffect(e) {
        x := |log| - 1;
      }
    }
  }

  lemma {:induction false} SentHoldsNothing(c: Config, log: seq<Event>)
    requires PolicyLoaded(c) && Watch(c, log).Handling? && Watch(c, log).h.sent
    ensures Watch(c, log).h.live == map[]
  {
    hide EventOf, DecisionOf, Requests, AsksOf, Ready, BadDescriptor, Raisable;
    hide MayAct, MayRelease, Learn, Came, Invocation, NextPin, NextBytes, Destination;
    var e := log[|log| - 1];
    if !e.Received? {
      var s := Watch(c, log[..|log| - 1]);
      if s.h.sent {
        SentHoldsNothing(c, log[..|log| - 1]);
        StepForbids(c, s.n, s.h, e);
      }
    }
  }

  /** No notification is answered twice: after an answer that was not refused by the kernel itself
      the next one belongs to a later notification. */
  lemma OneAnswerPerNotification(c: Config, log: seq<Event>, i: nat, j: nat)
    requires PolicyLoaded(c) && Accepted(c, log) && i < j < |log|
    requires log[i].Sent? && !log[i].delivery.SendFailed? && log[j].Sent?
    ensures exists r :: i < r < j && log[r].Received?
  {
    hide Admits, Extend, Watch, MayAct, Requests, AsksOf, EventOf, Done;
    AdmittedAt(c, log, j);
    var s := Watch(c, log[..j]);
    if s.Handling? {
      InHand(c, log, j);
      StepForbids(c, s.n, s.h, log[j]);
      UnansweredSince(c, log, i, j);
    } else {
      AbortedFrom(c, log, j);
      var u := Watch(c, log[..j - 1]);
      if u.Handling? {
        EffectsAreActive(c, u.n, u.h);
        UnansweredSince(c, log, i, j - 1);
      } else {
        BrokenFrom(c, log, j - 1);
        UnansweredSince(c, log, i, j - 2);
      }
    }
  }

  /** The notification in hand has been answered or found dead since it was received. */
  lemma {:induction false} SettledSince(c: Config, log: seq<Event>) returns (b: nat, k: nat)
    requires PolicyLoaded(c) && Watch(c, log).Handling? && (Watch(c, log).h.sent || Watch(c, log).h.died)
    ensures b < k < |log| && log[b] == Received(Watch(c, log).n) && Settles(log[k], Watch(c, log).n.id)
    ensures forall r :: b < r < |log| ==> !log[r].Received?
  {
    hide Admits, BadDescriptor, Done, Learn, Live, Came;
    var before, e := log[..|log| - 1], log[|log| - 1];
    var s := Watch(c, before);
    if s.h.sent || s.h.died {
      b, k := SettledSince(c, before);
    } else {
      var a, v, p;
      b, a, v, p := Recall(c, before);
      k := |before|;
      StepForbids(c, s.n, s.h, e);
    }
  }

  /** The notification `id` is answered, or its caller found dead. */
  predicate Settles(e: Event, id: nat) {
    (e.Sent? || SaysAlive(e, false)) && e.id == id
  }

  /** No notification is passed over: before the next one is received, this one has been answered
      or its caller has been found dead. */
  lemma NoneIsPassedOver(c: Config, log: seq<Event>, i: nat, j: nat) returns (k: nat)
    requires PolicyLoaded(c) && Accepted(c, log) && i < j < |log| && log[i].Received? && log[j].Received?
    requires forall r :: i < r < j ==> !log[r].Received?
    ensures i < k < j && Settles(log[k], log[i].notification.id)
  {
    hide Admits, Extend, Watch, BadDescriptor, Settles;
    AdmittedAt(c, log, j);
    NeverIdleAgain(c, log[..j]);
    var b;
    b, k := SettledSince(c, log[..j]);
    assert log[..j][b] == log[b] && log[..j][i] == log[i];
    assert b == i;
  }

  lemma NeverIdleAgain(c: Config, log: seq<Event>)
    requires PolicyLoaded(c) && log != []
    ensures !Watch(c, log).Idle?
  {
    hide Admits, Extend, BadDescriptor;
  }

  /** With the notification in hand at `j` unanswered, an answer at `i` was to an earlier one. */
  lemma UnansweredSince(c: Config, log: seq<Event>, i: nat, j: nat)
    requires PolicyLoaded(c) && i < j <= |log| && Watch(c, log[..j]).Handling? && !Watch(c, log[..j]).h.sent
    requires log[i].Sent?
    ensures exists r :: i < r < j && log[r].Received?
  {
    hide Watch, Requests, AsksOf, EventOf;
    var b, _, _, _ := Recall(c, log[..j]);
    assert log[..j][i] == log[i] && log[..j][b] == log[b];
  }

  /** A last answer while tearing down follows giving up on a notification. */
  lemma AbortedFrom(c: Config, log: seq<Event>, j: nat)
    requires PolicyLoaded(c) && Accepted(c, log) && j <= |log| && Watch(c, log[..j]).Aborting?
    requires Watch(c, log[..j]).pending.Some?
    ensures j > 0 && log[j - 1].GaveUp?
    ensures var u := Watch(c, log[..j - 1]); u.Broken? || (u.Handling? && BadDescriptor(c, u.n, u.h))
  {
    hide Admits, Extend, BadDescriptor;
    assert log[..j][..j - 1] == log[..j - 1];
  }

  /** The infrastructure breaks in the middle of a notification that is still unanswered. */
  lemma BrokenFrom(c: Config, log: seq<Event>, j: nat)
    requires PolicyLoaded(c) && Accepted(c, log) && j <= |log| && Watch(c, log[..j]).Broken?
    ensures j > 0 && Fails(log[j - 1])
    ensures var u := Watch(c, log[..j - 1]); u.Handling? && !u.h.sent
  {
    hide Extend, BadDescriptor, DecisionOf, Requests, AsksOf, EventOf, Ready, ResponseOf, MayAct, MayRelease;
    assert log[..j][..j - 1] == log[..j - 1];
    var u := Watch(c, log[..j - 1]);
    if u.h.sent {
      SentHoldsNothing(c, log[..j - 1]);
      StepForbids(c, u.n, u.h, log[j - 1]);
    }
  }

  // ----- failures -----

  /** After a broken event there is at most this: giving up, one refusal, the kill. */
  ghost predicate OnlyTeardown(log: seq<Event>, i: nat) {
    && |log| <= i + 4
    && (i + 1 < |log| ==> log[i + 1].GaveUp?)
    && (i + 2 < |log| ==> log[i + 2].Sent? && log[i + 2].response == Refuse(EIO))
    && (i + 3 < |log| ==> log[i + 3].Killed?)
  }

  lemma BrokenOnlyTearsDown(c: Config, log: seq<Event>, i: nat)
    requires PolicyLoaded(c) && Accepted(c, log) && i < |log| && Watch(c, log[..i + 1]).Broken?
    ensures OnlyTeardown(log, i)
  {
    hide Admits, Extend, Watch, BadDescriptor;
    if i + 1 < |log| {
      AdmittedAt(c, log, i + 1);
    }
    if i + 2 < |log| {
      AdmittedAt(c, log, i + 2);
    }
    if i + 3 < |log| {
      AdmittedAt(c, log, i + 3);
    }
    if i + 4 < |log| {
      AdmittedAt(c, log, i + 4);
    }
  }

  /** An event that could not be recorded is the last thing of the run but for a refusal: it is
      followed by no effect, no allow and no further notification. */
  lemma FailedAppendEndsRun(c: Config, log: seq<Event>, i: nat)
    requires PolicyLoaded(c) && Accepted(c, log) && i < |log| && log[i].Appended? && !log[i].landed
    ensures OnlyTeardown(log, i)
  {
    hide Admits, Extend, Watch, BadDescriptor;
    InHand(c, log, i);
    AdmittedAt(c, log, i);
    BrokenOnlyTearsDown(c, log, i);
  }

  /** Once ID_VALID has said the caller is gone, its notification gets no record, no effect and no
      answer: until the next one there is nothing but giving pinned operands back, and tearing
      down should that fail. */
  lemma DroppedIsSilent(c: Config, log: seq<Event>, i: nat, j: nat)
    requires PolicyLoaded(c) && Accepted(c, log) && i < j < |log| && SaysAlive(log[i], false)
    requires forall k :: i < k <= j ==> !log[k].Received?
    ensures || log[j].Released? || log[j].GaveUp? || log[j].Killed?
            || (log[j].Sent? && log[j].response == Refuse(EIO) && log[j - 1].GaveUp?)
  {
    hide Admits, Extend, Watch, BadDescriptor, Requests, AsksOf, EventOf;
    AdmittedAt(c, log, j);
    var s := Watch(c, log[..j]);
    if s.Handling? && !log[j].GaveUp? && !log[j].Killed? {
      InHand(c, log, j);
      var b, _, _, _ := Recall(c, log[..j]);
      assert log[..j][i] == log[i] && log[..j][b] == log[b];
      StepForbids(c, s.n, s.h, log[j]);
    } else if log[j].Sent? {
      AbortedFrom(c, log, j);
    }
  }

  /** The event of a dropped notification. A caller found dead before the append leaves none. The
      event stands exactly when the death was seen after its append, and then the run enforces, the
      call is a brokered one and its event grants it. */
  lemma DroppedEventExactlyWhenRecordedFirst(c: Config, log: seq<Event>, i: nat, j: nat) returns (b: nat)
    requires PolicyLoaded(c) && Accepted(c, log) && i <= j < |log| && SaysAlive(log[i], false)
    requires forall k :: i < k <= j ==> !log[k].Received?
    ensures b < i && log[b].Received? && log[i].id == log[b].notification.id
    ensures forall k :: b < k <= j ==> !log[k].Received?
    ensures (exists a :: b < a <= j && log[a].Appended?) <==> (exists a :: b < a < i && log[a].Appended?)
    ensures forall a :: b < a <= j && log[a].Appended? ==>
              log[a].landed && c.mode == Enforce && Brokered(c, log[b].notification) && Grants(log[a].event)
  {
    hide Admits, Extend, Watch, BadDescriptor, Requests, AsksOf, EventOf, DecisionOf, Brokered, Grants;
    InHand(c, log, i);
    var s := Watch(c, log[..i]);
    DeathIsTimely(c, s.n, s.h, log[i]);
    var r, v, p;
    b, r, v, p := Recall(c, log[..i]);
    assert log[..i][b] == log[b];
    forall a | b < a <= j && log[a].Appended?
      ensures a < i && log[a].landed && c.mode == Enforce && Brokered(c, log[b].notification) && Grants(log[a].event)
    {
      if a > i {
        DroppedIsSilent(c, log, i, a);
      }
      assert log[..i][a] == log[a];
    }
  }

  /** When ID_VALID may be asked, and what an append leaves to be asked. */
  lemma DeathIsTimely(c: Config, n: Notification, h: History, e: Event)
    requires PolicyLoaded(c) && e.Validity? && Admits(c, n, h, e)
    ensures e.id == n.id && Active(h)
    ensures h.recorded.Some? && h.recorded.value == EventOf(c, n, h.known, h.answer) ==>
              c.mode == Enforce && Brokered(c, n) && Grants(h.recorded.value)
  {
    hide DecisionOf, EventOf, Grants;
    EventSpeaksForResponse(c, n, h.known, h.answer);
  }

  lemma AppendLeavesToAsk(c: Config, n: Notification, h: History, e: Event)
    requires PolicyLoaded(c) && e.Appended? && Admits(c, n, h, e) && !h.confirmed
    ensures Admits(c, n, Extend(n, h, e), Validity(n.id, Some(false))) <==> Brokered(c, n) && Grants(e.event)
  {
    hide DecisionOf, EventOf, Requests, AsksOf, Ready, Brokered, Grants;
    EventSpeaksForResponse(c, n, h.known, h.answer);
  }

  /** So whether a recorded notification can still be dropped is settled by its append: it can
      exactly when the call is brokered and the event grants it. */
  lemma RecordedThenDroppedExactlyWhen(c: Config, log: seq<Event>) returns (b: nat)
    requires PolicyLoaded(c) && Accepted(c, log) && log != []
    requires log[|log| - 1].Appended? && log[|log| - 1].landed
    ensures b < |log| - 1 && log[b].Received? && forall k :: b < k < |log| ==> !log[k].Received?
    ensures Accepted(c, log + [Validity(log[b].notification.id, Some(false))]) <==>
            Brokered(c, log[b].notification) && Grants(log[|log| - 1].event)
  {
    hide Admits, Extend, BadDescriptor, EventOf, DecisionOf, Requests, AsksOf, Brokered, Grants;
    var before, e := log[..|log| - 1], log[|log| - 1];
    var s := Watch(c, before);
    InHand(c, log, |log| - 1);
    var a, v, p;
    b, a, v, p := Recall(c, before);
    StepForbids(c, s.n, s.h, e);
    AppendLeavesToAsk(c, s.n, s.h, e);
    var death := Validity(s.n.id, Some(false));
    assert (log + [death])[..|log|] == log;
  }

  // ----- a run that drops a recorded notification -----

  /** The modelled run: the path of an unlink is read, pinned and allowed, and the caller dies
      right after the event is on record. */
  ghost function UnlinkKnown(path: string, operand: Operand, token: nat): Known {
    Known([path], true, [], None, None, false, [(token, operand)], None)
  }

  ghost function UnlinkRun(c: Config, n: Notification, path: string, operand: Operand, token: nat): seq<Event>
    requires PolicyLoaded(c)
  {
    [ Received(n), Validity(n.id, Some(true)), PathRead(n.pid, n.data.args[0], Some(path)), Validity(n.id, Some(true)),
      Prepared(path, false, false, Pinned(token, operand)),
      Appended(EventOf(c, n, UnlinkKnown(path, operand, token), None), true),
      Validity(n.id, Some(false)), Released(token, true) ]
  }

  predicate IsUnlink(n: Notification) {
    n.data.nr == UNLINK && n.data.arch == AUDIT_ARCH_X86_64
  }

  /** In every enforcing run an allowed unlink of any pinned file can go this way: its event stands,
      granting what was neither done nor answered. */
  lemma DroppedEventCanStand(c: Config, n: Notification, path: string, operand: Operand, token: nat)
    requires PolicyLoaded(c) && Runnable(c) && c.mode == Enforce && IsUnlink(n)
    requires Text.Absolute(path) && Text.Absolute(operand.identity)
    requires Judge(c, P.Fs(operand.identity, [Delete])).decision == Allow
    ensures var s := Watch(c, UnlinkRun(c, n, path, operand, token));
            && s.Handling? && s.n == n && Done(s.h) && s.h.died && !s.h.sent && !s.h.acted
            && s.h.recorded.Some? && Grants(s.h.recorded.value)
  {
    hide Watch, Admits, EventOf, DecisionOf, Judge, Grants, Extend;
    var log, known := UnlinkRun(c, n, path, operand, token), UnlinkKnown(path, operand, token);
    var h := UnlinkHistory(known, map[token := operand]).(recorded := Some(log[5].event));
    var died := h.(died := true);
    UnlinkIsFileSystem(n);
    UnlinkRunsToItsRecord(c, n, path, operand, token);
    UnlinkIsAllowed(c, n, path, operand, token);
    EventSpeaksForResponse(c, n, known, None);
    UnlinkMayEnd(c, n, h, log[6], died);
    UnlinkMayEnd(c, n, died, log[7], died.(live := map[]));
    Onward(c, log, 6, n, h, died);
    Onward(c, log, 7, n, died, died.(live := map[]));
    assert log[..8] == log;
  }

  lemma UnlinkMayEnd(c: Config, n: Notification, h: History, e: Event, next: History)
    requires PolicyLoaded(c) && Brokered(c, n) && h.recorded.Some? && !h.confirmed && !h.sent
    requires DecisionOf(c, n, h.known, h.answer).response == Allow
    requires || (e == Validity(n.id, Some(false)) && !h.died && next == h.(died := true))
             || (e.Released? && h.died && e.token in h.live && next == h.(live := h.live - {e.token}))
    ensures Admits(c, n, h, e) && Extend(n, h, e) == next
  {
    hide DecisionOf, Brokered;
  }

  function UnlinkHistory(known: Known, live: map<nat, Operand>): History {
    Fresh().(known := known, vouched := true, live := live)
  }

  /** Event `e` is let happen next. */
  lemma GoesOn(c: Config, log: seq<Event>, n: Notification, h: History, e: Event)
    requires PolicyLoaded(c) && Watch(c, log) == Handling(n, h)
    requires Admits(c, n, h, e) && !Fails(e)
    ensures Watch(c, log + [e]) == Handling(n, Extend(n, h, e))
  {
    hide Extend, BadDescriptor, Done, EventOf, DecisionOf, ResponseOf, MayAct, MayRelease, Ready;
    assert (log + [e])[..|log|] == log;
  }

  /** The run up to the append, step by step. */
  lemma UnlinkRunsToItsRecord(c: Config, n: Notification, path: string, operand: Operand, token: nat)
    requires PolicyLoaded(c) && Runnable(c) && c.mode == Enforce && IsUnlink(n)
    requires Text.Absolute(path) && Text.Absolute(operand.identity)
    requires Judge(c, P.Fs(operand.identity, [Delete])).decision == Allow
    ensures var log, known := UnlinkRun(c, n, path, operand, token), UnlinkKnown(path, operand, token);
            Watch(c, log[..6]) ==
            Handling(n, UnlinkHistory(known, map[token := operand]).(recorded := Some(log[5].event)))
  {
    hide Watch, Admits, EventOf, DecisionOf, Judge, Learn, Requests, AsksOf, Ready, Extend;
    var log, known := UnlinkRun(c, n, path, operand, token), UnlinkKnown(path, operand, token);
    var vouched, read := UnlinkHistory(NOTHING, map[]), UnlinkHistory(known.(operands := []), map[]);
    var pinned := UnlinkHistory(known, map[token := operand]);
    UnlinkIsFileSystem(n);
    UnlinkIsReceived(c, n, log);
    UnlinkIsRead(c, n, path, log[2]);
    UnlinkIsPinned(c, n, path, operand, token, log[4]);
    UnlinkIsAllowed(c, n, path, operand, token);
    UnlinkIsRecorded(c, n, known, map[token := operand], log[5]);
    Onward(c, log, 1, n, Fresh(), vouched);
    Onward(c, log, 2, n, vouched, read.(unconfirmed := true));
    Onward(c, log, 3, n, read.(unconfirmed := true), read);
    Onward(c, log, 4, n, read, pinned);
    Onward(c, log, 5, n, pinned, pinned.(recorded := Some(log[5].event)));
  }

  lemma Onward(c: Config, log: seq<Event>, i: nat, n: Notification, h: History, next: History)
    requires PolicyLoaded(c) && i < |log| && Watch(c, log[..i]) == Handling(n, h)
    requires Admits(c, n, h, log[i]) && !Fails(log[i]) && Extend(n, h, log[i]) == next
    ensures Watch(c, log[..i + 1]) == Handling(n, next)
  {
    hide Watch, Admits, Extend, Fails;
    GoesOn(c, log[..i], n, h, log[i]);
    assert log[..i] + [log[i]] == log[..i + 1];
  }

  lemma UnlinkIsReceived(c: Config, n: Notification, log: seq<Event>)
    requires PolicyLoaded(c) && Runnable(c) && log != [] && log[0] == Received(n)
    ensures Watch(c, log[..1]) == Handling(n, Fresh())
  {
    assert log[..1][..0] == [];
  }

  lemma UnlinkIsRead(c: Config, n: Notification, path: string, e: Event)
    requires PolicyLoaded(c) && IsUnlink(n) && Text.Absolute(path) && PathArgs(n) == [F.Cwd(0)]
    requires e == PathRead(n.pid, n.data.args[0], Some(path))
    ensures var alive, vouched := Validity(n.id, Some(true)), UnlinkHistory(NOTHING, map[]);
            var read := UnlinkHistory(NOTHING.(texts := [path]), map[]);
            && Admits(c, n, Fresh(), alive) && Extend(n, Fresh(), alive) == vouched
            && Admits(c, n, vouched, e) && Extend(n, vouched, e) == read.(unconfirmed := true)
            && Admits(c, n, read.(unconfirmed := true), alive)
            && Extend(n, read.(unconfirmed := true), alive) == read
  {
    hide DecisionOf, PathArgs;
  }

  lemma UnlinkIsPinned(c: Config, n: Notification, path: string, operand: Operand, token: nat, e: Event)
    requires PolicyLoaded(c) && c.mode == Enforce && IsUnlink(n) && Text.Absolute(operand.identity)
    requires FamilyOf(n) == FileSystem(F.ShapeOf(UNLINK).value) && PathArgs(n) == [F.Cwd(0)]
    requires e == Prepared(path, false, false, Pinned(token, operand))
    ensures var read := UnlinkHistory(NOTHING.(texts := [path]), map[]);
            var pinned := UnlinkHistory(UnlinkKnown(path, operand, token), map[token := operand]);
            Admits(c, n, read, e) && Extend(n, read, e) == pinned
  {
    hide PathArgs, FamilyOf;
    assert Invocation(n, NOTHING.(texts := [path])) == Some(([Delete], Mutate(Unlink(0))));
  }

  /** What the pinned unlink asks for, and that it is let do so without asking anyone. */
  lemma UnlinkIsAllowed(c: Config, n: Notification, path: string, operand: Operand, token: nat)
    requires PolicyLoaded(c) && c.mode == Enforce && IsUnlink(n)
    requires FamilyOf(n) == FileSystem(F.ShapeOf(UNLINK).value) && PathArgs(n) == [F.Cwd(0)]
    requires Judge(c, P.Fs(operand.identity, [Delete])).decision == Allow
    ensures var known := UnlinkKnown(path, operand, token);
            && AsksOf(c, Requests(c, n, known)) == [] && Gathered(c, n, known)
            && DecisionOf(c, n, known, None).response == Allow
  {
    hide PathArgs, FamilyOf, Judge;
    var known := UnlinkKnown(path, operand, token);
    var request := P.Fs(operand.identity, [Delete]);
    assert Invocation(n, known) == Some(([Delete], Mutate(Unlink(0))));
    assert Requests(c, n, known) == [request];
    assert [request][..0] == [];
    assert JudgeAll(c, [request]) == [Judge(c, request)];
    assert DecisionOf(c, n, known, None).response == Allow by {
      VerdictLaw([Judge(c, request)], None);
    }
  }

  lemma UnlinkIsRecorded(c: Config, n: Notification, known: Known, live: map<nat, Operand>, e: Event)
    requires PolicyLoaded(c) && AsksOf(c, Requests(c, n, known)) == [] && Gathered(c, n, known)
    requires e == Appended(EventOf(c, n, known, None), true) && known.refused.None?
    ensures var h := UnlinkHistory(known, live);
            Admits(c, n, h, e) && Extend(n, h, e) == h.(recorded := Some(e.event))
  {
    hide DecisionOf, EventOf, Gathered, Requests, AsksOf;
  }

  lemma UnlinkIsFileSystem(n: Notification)
    requires IsUnlink(n)
    ensures FamilyOf(n) == FileSystem(F.ShapeOf(UNLINK).value) && PathArgs(n) == [F.Cwd(0)]
  {
    Filter.X32IsBitThirty(UNLINK);
  }

  /** And one such run, in full. */
  lemma DroppedEventWitness()
    ensures exists c: Config, log: seq<Event> ::
              && PolicyLoaded(c) && Watch(c, log).Handling?
              && var h := Watch(c, log).h;
              h.died && !h.acted && Done(h) && h.recorded.Some? && Grants(h.recorded.value)
  {
    var policy := P.Policy("/w", [], [], []);
    var c := Config(Enforce, Some(policy), Attendance.Unattended, 1, true, None);
    var n: Notification := Call(1, 2, Filter.Data(UNLINK, AUDIT_ARCH_X86_64, [0, 0, 0, 0, 0, 0]));
    var operand := Operand("/w/f", true);
    assert operand.identity[..2] == policy.workspace;
    assert P.PathUnderWorkspace(policy.workspace, operand.identity);
    DroppedEventCanStand(c, n, operand.identity, operand, 0);
  }

  // ----- tokens -----

  /** The tokens given out, and the tokens consumed by a release or a commit. */
  ghost function Issued(log: seq<Event>): multiset<nat> {
    if log == [] then multiset{}
    else Issued(log[..|log| - 1]) + IssuedBy(log[|log| - 1])
  }

  ghost function IssuedBy(e: Event): multiset<nat> {
    if e.Prepared? && e.prepared.Pinned? then multiset{e.prepared.token} else multiset{}
  }

  ghost function Consumed(log: seq<Event>): multiset<nat> {
    if log == [] then multiset{}
    else Consumed(log[..|log| - 1]) + ConsumedBy(log[|log| - 1])
  }

  ghost function ConsumedBy(e: Event): multiset<nat> {
    match e
    case Released(token, _) => multiset{token}
    case OpenCommitted(token, _, _, _) => multiset{token}
    case MutationCommitted(primary, secondary, _, _) =>
      multiset{primary} + (if secondary.Some? then multiset{secondary.value} else multiset{})
    case _ => multiset{}
  }

  /** The tokens an event may touch, given those that are live. */
  ghost predicate TokensFit(live: map<nat, Operand>, e: Event) {
    match e
    case Prepared(_, _, _, Pinned(token, _)) => token !in live
    case Released(token, _) => token in live
    case OpenCommitted(token, _, _, _) => live.Keys == {token}
    case MutationCommitted(primary, secondary, _, _) =>
      live.Keys == {primary} + (if secondary.Some? then {secondary.value} else {}) && secondary != Some(primary)
    case _ => true
  }

  lemma AdmittedTokensFit(c: Config, n: Notification, h: History, e: Event)
    requires PolicyLoaded(c) && Admits(c, n, h, e)
    ensures TokensFit(h.live, e)
  {
    hide MayAct, MayRelease, EventOf, DecisionOf, Requests, AsksOf;
    hide Ready, ResponseOf, Invocation, Committable, NextPin, NextBytes, Destination;
  }

  lemma PairKeys(a: nat, b: nat)
    requires a != b
    ensures multiset({a, b}) == multiset{a} + multiset{b}
  {}

  lemma TokensMove(live: map<nat, Operand>, e: Event)
    requires TokensFit(live, e)
    ensures multiset(live.Keys) + IssuedBy(e) == multiset(Live(live, e).Keys) + ConsumedBy(e)
  {
    if e.MutationCommitted? {
      if e.secondary.Some? {
        assert live.Keys == {e.primary, e.secondary.value};
        PairKeys(e.primary, e.secondary.value);
      } else {
        assert live.Keys == {e.primary};
      }
    } else if e.Prepared? && e.prepared.Pinned? {
      assert live[e.prepared.token := e.prepared.operand].Keys == live.Keys + {e.prepared.token};
    } else if e.Released? {
      assert (live - {e.token}).Keys == live.Keys - {e.token};
    }
  }

  ghost function LiveKeys(s: Stage): multiset<nat> {
    if s.Handling? then multiset(s.h.live.Keys) else multiset{}
  }

  lemma TokensOfStep(c: Config, s: Stage, e: Event)
    requires PolicyLoaded(c) && (s.Idle? || s.Handling?) && (Step(c, s, e).Idle? || Step(c, s, e).Handling?)
    ensures LiveKeys(s) + IssuedBy(e) == LiveKeys(Step(c, s, e)) + ConsumedBy(e)
  {
    hide Admits, Fails, BadDescriptor, Learn, Live, Came;
    if s.Handling? && !e.Received? {
      AdmittedTokensFit(c, s.n, s.h, e);
      TokensMove(s.h.live, e);
    }
  }

  lemma Balance(issued: multiset<nat>, consumed: multiset<nat>, live: multiset<nat>, more: multiset<nat>,
                live': multiset<nat>, gone: multiset<nat>)
    requires issued == consumed + live && live + more == live' + gone
    ensures issued + more == (consumed + gone) + live'
  {
    assert issued + more == consumed + (live + more);
    assert consumed + (live' + gone) == (consumed + gone) + live';
  }

  lemma {:induction false} TokensConserved(c: Config, log: seq<Event>)
    requires PolicyLoaded(c) && (Watch(c, log).Idle? || Watch(c, log).Handling?)
    ensures Issued(log) == Consumed(log) + LiveKeys(Watch(c, log))
  {
    hide Step, LiveKeys, IssuedBy, ConsumedBy;
    if log == [] {
      NoKeysIdle();
    } else {
      var before, e := log[..|log| - 1], log[|log| - 1];
      BeforeInHand(c, Watch(c, before), e);
      TokensConserved(c, before);
      TokensOfStep(c, Watch(c, before), e);
      Balance(Issued(before), Consumed(before), LiveKeys(Watch(c, before)),
        IssuedBy(e), LiveKeys(Watch(c, log)), ConsumedBy(e));
    }
  }

  lemma NoKeysIdle()
    ensures LiveKeys(Idle) == multiset{}
  {}

  lemma BeforeInHand(c: Config, s: Stage, e: Event)
    requires PolicyLoaded(c) && (Step(c, s, e).Idle? || Step(c, s, e).Handling?)
    ensures s.Idle? || s.Handling?
  {
    hide Admits, Extend, BadDescriptor, Fails;
  }

  /** Between notifications every token ever issued has been consumed, each exactly as often as it
      was issued. */
  lemma NothingLeftPinned(c: Config, log: seq<Event>)
    requires PolicyLoaded(c) && (Watch(c, log).Idle? || (Watch(c, log).Handling? && Done(Watch(c, log).h)))
    ensures Issued(log) == Consumed(log)
  {
    hide Watch;
    TokensConserved(c, log);
    assert LiveKeys(Watch(c, log)) == multiset{};
  }

  /** A token is never issued while it is still out: when it comes up again, it has been consumed
      as often as it was issued. */
  lemma IssuedTokensAreFree(c: Config, log: seq<Event>, i: nat)
    requires PolicyLoaded(c) && Accepted(c, log) && i < |log| && log[i].Prepared? && log[i].prepared.Pinned?
    ensures var t := log[i].prepared.token; Issued(log[..i])[t] == Consumed(log[..i])[t]
  {
    hide Watch, Extend, Admits, Issued, Consumed;
    InHand(c, log, i);
    var s := Watch(c, log[..i]);
    AdmittedTokensFit(c, s.n, s.h, log[i]);
    TokensConserved(c, log[..i]);
  }

  // ----- facts and prompts -----

  /** Every read of child memory since `b` lies between two ID_VALID answers that said the caller
      of notification `id` was alive. */
  ghost predicate Bracketed(log: seq<Event>, b: nat, id: nat) {
    forall r :: b < r < |log| && ReadsMemory(log[r]) ==> AliveIn(log, b, r, id) && AliveIn(log, r, |log|, id)
  }

  ghost predicate AliveIn(log: seq<Event>, from: nat, to: nat, id: nat)
    requires to <= |log|
  {
    exists v :: from < v < to && log[v] == Validity(id, Some(true))
  }

  lemma AliveStays(log: seq<Event>, more: seq<Event>, from: nat, to: nat, id: nat)
    requires to <= |log| <= |more| && more[..|log|] == log && AliveIn(log, from, to, id)
    ensures AliveIn(more, from, |more|, id) && AliveIn(more, from, to, id)
  {
    var v :| from < v < to && log[v] == Validity(id, Some(true));
    assert more[v] == log[v];
  }

  /** What a single admitted event does to the bracket. */
  lemma ReadsAreVouched(c: Config, n: Notification, h: History, e: Event)
    requires PolicyLoaded(c) && Admits(c, n, h, e)
    ensures ReadsMemory(e) ==> h.vouched
    ensures e.Validity? ==> e.id == n.id
    ensures Extend(n, h, e).vouched ==> h.vouched || e == Validity(n.id, Some(true))
    ensures !Extend(n, h, e).unconfirmed ==> !ReadsMemory(e) && (!h.unconfirmed || e == Validity(n.id, Some(true)))
  {
    hide DecisionOf, EventOf, Invocation, Requests, AsksOf, Ready, ResponseOf, Raisable, NextPin, NextBytes;
    hide Destination;
    hide MayRelease, MayAct, Committable, Learn, Live, Came;
  }

  lemma {:induction false} ReadsAreOpened(c: Config, log: seq<Event>, b: nat)
    requires PolicyLoaded(c) && Watch(c, log).Handling?
    requires b < |log| && log[b].Received? && forall k :: b < k < |log| ==> !log[k].Received?
    ensures Watch(c, log).h.vouched ==> AliveIn(log, b, |log|, Watch(c, log).n.id)
    ensures forall r :: b < r < |log| && ReadsMemory(log[r]) ==> AliveIn(log, b, r, Watch(c, log).n.id)
  {
    hide Admits, Extend, ReadsMemory, AliveIn, BadDescriptor, Done;
    var before, e := log[..|log| - 1], log[|log| - 1];
    if e.Received? {
      assert b == |log| - 1;
    } else {
      var s := Watch(c, before);
      assert before[b] == log[b];
      ReadsAreOpened(c, before, b);
      ReadsAreVouched(c, s.n, s.h, e);
      if s.h.vouched {
        AliveStays(before, log, b, |before|, s.n.id);
      } else if e == Validity(s.n.id, Some(true)) {
        AliveLast(log, b, s.n.id);
      }
      forall r | b < r < |log| && ReadsMemory(log[r]) ensures AliveIn(log, b, r, s.n.id) {
        if r < |before| {
          assert before[r] == log[r];
          AliveStays(before, log, b, r, s.n.id);
        }
      }
    }
  }

  lemma AliveLast(log: seq<Event>, from: nat, id: nat)
    requires from + 1 < |log| && log[|log| - 1] == Validity(id, Some(true))
    ensures AliveIn(log, from, |log|, id)
  {}

  lemma {:induction false} ReadsAreClosed(c: Config, log: seq<Event>, b: nat)
    requires PolicyLoaded(c) && Watch(c, log).Handling? && !Watch(c, log).h.unconfirmed
    requires b < |log| && log[b].Received? && forall k :: b < k < |log| ==> !log[k].Received?
    ensures forall r :: b < r < |log| && ReadsMemory(log[r]) ==> AliveIn(log, r, |log|, Watch(c, log).n.id)
  {
    hide Admits, Extend, ReadsMemory, AliveIn, BadDescriptor, Done;
    var before, e := log[..|log| - 1], log[|log| - 1];
    if !e.Received? {
      var s := Watch(c, before);
      assert before[b] == log[b];
      ReadsAreVouched(c, s.n, s.h, e);
      if s.h.unconfirmed {
        forall r | b < r < |log| && ReadsMemory(log[r]) ensures AliveIn(log, r, |log|, s.n.id) {
          AliveLast(log, r, s.n.id);
        }
      } else {
        ReadsAreClosed(c, before, b);
        forall r | b < r < |log| && ReadsMemory(log[r]) ensures AliveIn(log, r, |log|, s.n.id) {
          assert before[r] == log[r];
          AliveStays(before, log, r, |before|, s.n.id);
        }
      }
    }
  }

  /** Only some calls have anything read for them. */
  lemma ReadsTouchMemory(c: Config, n: Notification, h: History, e: Event)
    requires PolicyLoaded(c) && Admits(c, n, h, e) && ReadsMemory(e)
    ensures TouchesMemory(n)
  {
    hide DecisionOf, EventOf, Invocation, Requests, AsksOf, Ready, ResponseOf, Raisable, NextPin, Destination;
    hide MayRelease, MayAct, Committable, Learn, Live, Came;
  }

  lemma {:induction false} NothingWasRead(c: Config, log: seq<Event>, b: nat)
    requires PolicyLoaded(c) && Watch(c, log).Handling? && !TouchesMemory(Watch(c, log).n)
    requires b < |log| && log[b].Received? && forall k :: b < k < |log| ==> !log[k].Received?
    ensures forall r :: b < r < |log| ==> !ReadsMemory(log[r])
  {
    hide Admits, Extend, ReadsMemory, TouchesMemory, BadDescriptor, Done;
    var before, e := log[..|log| - 1], log[|log| - 1];
    if e.Received? {
      assert b == |log| - 1;
    } else {
      assert before[b] == log[b];
      NothingWasRead(c, before, b);
      if ReadsMemory(e) {
        ReadsTouchMemory(c, Watch(c, before).n, Watch(c, before).h, e);
      }
      assert forall r :: b < r < |before| ==> log[r] == before[r];
    }
  }

  /** What is recorded of a call was read while the caller was alive: each read of its memory lies
      between two ID_VALID answers, asked of this very notification, that said so. */
  lemma FactsAreBracketed(c: Config, log: seq<Event>, i: nat) returns (b: nat)
    requires PolicyLoaded(c) && Accepted(c, log) && i < |log| && log[i].Appended?
    ensures b < i && log[b].Received? && forall k :: b < k < i ==> !log[k].Received?
    ensures Bracketed(log[..i], b, log[b].notification.id)
    ensures log[i].event.pid == log[b].notification.pid
  {
    hide Watch, Extend, DecisionOf, Requests, AsksOf, Gathered, ResponseOf, ReadsMemory, AliveIn, TouchesMemory;
    InHand(c, log, i);
    var s := Watch(c, log[..i]);
    StepForbids(c, s.n, s.h, log[i]);
    var a, v, p;
    b, a, v, p := Recall(c, log[..i]);
    assert log[..i][b] == log[b];
    if TouchesMemory(s.n) {
      ReadsAreOpened(c, log[..i], b);
      ReadsAreClosed(c, log[..i], b);
    } else {
      NothingWasRead(c, log[..i], b);
    }
  }

  /** The operator is asked once per notification at most, and before its event exactly when the
      run is attended and some request matched an ask rule; the prompt lists exactly those. */
  lemma PromptedExactlyForAsks(c: Config, log: seq<Event>, i: nat) returns (b: nat, p: nat)
    requires PolicyLoaded(c) && Accepted(c, log) && i < |log| && log[i].Appended?
    ensures b < i && log[b].Received? && forall k :: b < k < i ==> !log[k].Received?
    ensures var s := Watch(c, log[..i]);
            && s.Handling? && s.n == log[b].notification
            && var asks := AsksOf(c, Requests(c, s.n, s.h.known));
               if asks != [] && c.attendance == Attended
               then b < p < i && log[p].Prompted? && log[p].asks == asks
                    && forall k :: b < k < i && k != p ==> !log[k].Prompted?
               else forall k :: b < k < i ==> !log[k].Prompted?
  {
    hide Watch, Extend, DecisionOf, EventOf, Requests, AsksOf, Ready, ResponseOf;
    InHand(c, log, i);
    var s := Watch(c, log[..i]);
    StepForbids(c, s.n, s.h, log[i]);
    var a, v;
    b, a, v, p := Recall(c, log[..i]);
  }

  // ----- commits, the policy and the kernel hull -----

  /** A token that is live after a step was pinned by it, or was live before. */
  lemma LiveStep(c: Config, n: Notification, h: History, e: Event, t: nat)
    requires PolicyLoaded(c) && Admits(c, n, h, e) && t in Live(h.live, e)
    ensures if e.Prepared? && e.prepared.Pinned? && e.prepared.token == t
            then e.prepared.operand == Live(h.live, e)[t] && Text.Absolute(Live(h.live, e)[t].identity)
            else t in h.live && Live(h.live, e)[t] == h.live[t]
  {
    hide MayAct, MayRelease, EventOf, DecisionOf, Requests, AsksOf;
    hide Ready, ResponseOf, Invocation, Committable, NextPin, NextBytes, Destination;
  }

  /** A live operand was pinned, under its token, in the notification in hand. */
  lemma {:induction false} LiveWasPinned(c: Config, log: seq<Event>, t: nat) returns (p: nat)
    requires PolicyLoaded(c) && Watch(c, log).Handling? && t in Watch(c, log).h.live
    ensures p < |log| && log[p].Prepared? && log[p].prepared == Pinned(t, Watch(c, log).h.live[t])
    ensures Text.Absolute(Watch(c, log).h.live[t].identity)
    ensures forall k :: p <= k < |log| ==> !log[k].Received?
  {
    hide Learn, Came, Live, Done, BadDescriptor, Fails, Admits;
    var before, e := log[..|log| - 1], log[|log| - 1];
    var s := Watch(c, before);
    LiveStep(c, s.n, s.h, e, t);
    if e.Prepared? && e.prepared.Pinned? && e.prepared.token == t {
      p := |log| - 1;
    } else {
      p := LiveWasPinned(c, before, t);
    }
  }

  /** The commit at `i` works on the operand pinned under `t` and takes access `a` to it. */
  ghost predicate Takes(e: Event, t: nat, operand: Operand, a: FsAccess) {
    match e
    case OpenCommitted(token, flags, _, _) => t == token && a in F.OpenAccess(flags)
    case MutationCommitted(primary, secondary, mutation, _) =>
      || (t == primary && a in PrimaryAccess(Mutate(mutation), []))
      || (secondary == Some(t) && a in SecondaryAccess(Mutate(mutation), operand.exists_))
    case _ => false
  }

  lemma RequestOn(identity: string, access: seq<FsAccess>, a: FsAccess)
    requires a in access
    ensures P.Fs(identity, [a]) in RequestsOn(identity, access)
  {
    var i :| 0 <= i < |access| && access[i] == a;
    assert RequestsOn(identity, access)[i] == P.Fs(identity, [a]);
  }

  lemma AllowedFsIsByPolicy(c: Config, n: Notification, k: Known, answer: Option<AskResolution>)
    requires PolicyLoaded(c) && FamilyOf(n).FileSystem? && DecisionOf(c, n, k, answer).response == Allow
    ensures Invocation(n, k).Some? && k.refused.None?
    ensures Verdict(JudgeAll(c, Requests(c, n, k)), Resolution(c, n, k, answer)).response == Allow
  {
    hide Invocation, Requests, Resolution, Verdict, JudgeAll;
  }

  /** What a commit takes was among the requests the decision was made on. */
  lemma TakenWasRequested(c: Config, n: Notification, h: History, e: Event, t: nat, a: FsAccess)
    requires PolicyLoaded(c) && Admits(c, n, h, e) && t in h.live && Takes(e, t, h.live[t], a)
    ensures P.Fs(h.live[t].identity, [a]) in Requests(c, n, h.known)
    ensures IsEffect(e) && FamilyOf(n).FileSystem?
  {
    hide EventOf, DecisionOf, AsksOf, Ready, ResponseOf, Invocation, NextPin, NextBytes, Destination, RequestsOn, Judge;
    EffectsAreActive(c, n, h);
    AllowedFsIsByPolicy(c, n, h.known, h.answer);
    var (access, inv) := Invocation(n, h.known).value;
    OpenInvocationAccess(n, h.known, access, inv);
    var first := h.known.operands[0];
    if t == first.0 {
      RequestOn(first.1.identity, PrimaryAccess(inv, access), a);
    } else {
      var second := h.known.operands[1];
      RequestOn(second.1.identity, SecondaryAccess(inv, second.1.exists_), a);
    }
  }

  lemma OpenInvocationAccess(n: Notification, k: Known, access: seq<FsAccess>, inv: FsInvocation)
    requires FamilyOf(n).FileSystem? && Invocation(n, k) == Some((access, inv))
    ensures inv.Open? ==> access == F.OpenAccess(inv.flags)
  {}

  /** Every request of an allowed notification was allowed, or was an ask the operator approved. */
  lemma AllowedRequestsArePermitted(c: Config, requests: seq<P.Request>, resolution: Option<AskResolution>,
                                    r: P.Request)
    requires PolicyLoaded(c) && Verdict(JudgeAll(c, requests), resolution).response == Allow && r in requests
    ensures Allows(Judge(c, r), resolution)
  {
    hide Judge, Verdict;
    VerdictLaw(JudgeAll(c, requests), resolution);
    var i :| 0 <= i < |requests| && requests[i] == r;
    assert JudgeAll(c, requests)[i] == Judge(c, r);
  }

  lemma {:induction false} AskIsListed(c: Config, requests: seq<P.Request>, r: P.Request)
    requires PolicyLoaded(c) && r in requests && Judge(c, r).decision == Ask
    ensures PendingAsk(r, Judge(c, r).matched) in AsksOf(c, requests)
  {
    hide Judge;
    if requests[|requests| - 1] != r {
      assert r in requests[..|requests| - 1];
      AskIsListed(c, requests[..|requests| - 1], r);
    }
  }

  /** By the policy in enforce mode the request is allowed, or it is an ask and the operator, shown
      that request and its rule in a prompt of the same notification before `i`, approved. */
  ghost predicate Permitted(c: Config, log: seq<Event>, i: nat, request: P.Request)
    requires PolicyLoaded(c) && c.policy.Some? && i <= |log|
  {
    var eval := P.Evaluate(c.policy.value, request, Enforce);
    || eval.decision == Allow
    || (eval.decision == Ask && ApprovedBefore(log, i, PendingAsk(request, eval.matched)))
  }

  ghost predicate ApprovedBefore(log: seq<Event>, i: nat, ask: PendingAsk)
    requires i <= |log|
  {
    exists q :: 0 <= q < i && log[q].Prompted? && log[q].answer == Approved && ask in log[q].asks
                && forall k :: q < k < i ==> !log[k].Received?
  }

  /** What the answer in hand lets through was permitted, as the log shows. */
  lemma AllowedIsPermitted(c: Config, log: seq<Event>, i: nat, r: P.Request)
    requires PolicyLoaded(c) && c.mode == Enforce && c.policy.Some? && i <= |log| && Watch(c, log[..i]).Handling?
    requires var s := Watch(c, log[..i]);
             r in Requests(c, s.n, s.h.known) && Allows(Judge(c, r), Resolution(c, s.n, s.h.known, s.h.answer))
    ensures Permitted(c, log, i, r)
  {
    hide Watch, P.Evaluate, Requests, AsksOf, EventOf, IsEffect;
    if Judge(c, r).decision == Ask {
      var s := Watch(c, log[..i]);
      var _, _, _, p := Recall(c, log[..i]);
      AskIsListed(c, Requests(c, s.n, s.h.known), r);
      assert log[..i][p] == log[p];
      assert ApprovedBefore(log, i, PendingAsk(r, Judge(c, r).matched));
    }
  }

  /** The commit consumes the operand pinned under `t`. */
  predicate Commits(e: Event, t: nat) {
    match e
    case OpenCommitted(token, _, _, _) => t == token
    case MutationCommitted(primary, secondary, _, _) => t == primary || secondary == Some(t)
    case _ => false
  }

  /** End to end: whatever the broker commits, each access it takes to each operand was, at the
      identity pinned for that operand in the same notification, allowed by the policy or approved
      by the operator in a prompt that listed it; and so the kernel hull derived from the same
      policy covers it. */
  lemma CommitsAreCovered(c: Config, abi: nat, log: seq<Event>, i: nat, t: nat) returns (p: nat)
    requires PolicyLoaded(c) && Accepted(c, log) && i < |log| && Commits(log[i], t)
    ensures p < i && log[p].Prepared? && log[p].prepared.Pinned? && log[p].prepared.token == t
    ensures forall k :: p <= k < i ==> !log[k].Received?
    ensures c.mode == Enforce && c.policy.Some?
    ensures var identity := log[p].prepared.operand.identity;
            Text.Absolute(identity)
            && forall a :: Takes(log[i], t, log[p].prepared.operand, a) ==>
                 && Permitted(c, log, i, P.Fs(identity, [a]))
                 && L.Covered(L.FsGrants(c.policy.value, abi), Text.Components(identity), L.NeededRights(a, abi))
  {
    hide Watch, EventOf, AsksOf, DecisionOf, Requests, Text.Components, ApprovedBefore, Takes;
    hide L.Covered, L.FsGrants, L.NeededRights, P.Evaluate, Verdict, JudgeAll, Admits;
    InHand(c, log, i);
    var s := Watch(c, log[..i]);
    AdmittedTokensFit(c, s.n, s.h, log[i]);
    assert t in s.h.live.Keys;
    p := LiveWasPinned(c, log[..i], t);
    assert log[..i][p] == log[p];
    StepForbids(c, s.n, s.h, log[i]);
    EffectsAreActive(c, s.n, s.h);
    ServedIsRunnable(c, log[..i]);
    forall a | Takes(log[i], t, s.h.live[t], a)
      ensures Permitted(c, log, i, P.Fs(s.h.live[t].identity, [a]))
      ensures L.Covered(L.FsGrants(c.policy.value, abi), Text.Components(s.h.live[t].identity), L.NeededRights(a, abi))
    {
      TakenIsPermitted(c, log, i, t, a);
      L.HullCoversFs(c.policy.value, abi, s.h.live[t].identity, a);
    }
  }

  lemma TakenIsPermitted(c: Config, log: seq<Event>, i: nat, t: nat, a: FsAccess)
    requires PolicyLoaded(c) && c.mode == Enforce && c.policy.Some? && i < |log| && Watch(c, log[..i]).Handling?
    requires var s := Watch(c, log[..i]);
             && Admits(c, s.n, s.h, log[i]) && IsEffect(log[i])
             && t in s.h.live && Takes(log[i], t, s.h.live[t], a)
    ensures Permitted(c, log, i, P.Fs(Watch(c, log[..i]).h.live[t].identity, [a]))
  {
    hide Watch, EventOf, AsksOf, DecisionOf, Requests, Resolution, Permitted, Takes, Verdict, JudgeAll, Judge;
    hide Admits, IsEffect;
    var s := Watch(c, log[..i]);
    var request := P.Fs(s.h.live[t].identity, [a]);
    StepForbids(c, s.n, s.h, log[i]);
    TakenWasRequested(c, s.n, s.h, log[i], t, a);
    EffectsAreActive(c, s.n, s.h);
    AllowedFsIsByPolicy(c, s.n, s.h.known, s.h.answer);
    AllowedRequestsArePermitted(
      c, Requests(c, s.n, s.h.known), Resolution(c, s.n, s.h.known, s.h.answer), request);
    AllowedIsPermitted(c, log, i, request);
  }

  /** The same for the network: what is transmitted was decided on the destination its own bytes
      name, the hull grants that port, and the loaded rules let it pass unless it is port 0. */
  lemma TransmissionsAreCovered(c: Config, abi: nat, log: seq<Event>, i: nat)
    requires PolicyLoaded(c) && Accepted(c, log) && i < |log| && log[i].Transmitted?
    ensures Sockaddr.Parse(log[i].address).Some? && c.mode == Enforce && c.policy.Some?
    ensures var (ip, port) := Sockaddr.Parse(log[i].address).value;
            && Permitted(c, log, i, P.Net(ip, ResolvedHostname(c, ip), port))
            && (L.AnyPort(c.policy.value.net) || port in L.PermittedPorts(c.policy.value.net))
            && (L.PortOpen(abi, L.NetGrantOf(c.policy.value.net), port) <==> abi < L.ABI_NET || port != 0)
  {
    hide Watch, EventOf, AsksOf, DecisionOf, P.Evaluate, ApprovedBefore, L.NetGrantOf, L.PortOpen;
    hide Verdict, JudgeAll, Sockaddr.Parse, L.AnyPort, L.PermittedPorts, ResolvedHostname;
    InHand(c, log, i);
    var s := Watch(c, log[..i]);
    EffectsAreActive(c, s.n, s.h);
    ServedIsRunnable(c, log[..i]);
    var (ip, port) := Sockaddr.Parse(log[i].address).value;
    var request := P.Net(ip, ResolvedHostname(c, ip), port);
    DestinationIsDecided(c, s.n, s.h.known, s.h.answer, request);
    AllowedRequestsArePermitted(c, [request], Resolution(c, s.n, s.h.known, s.h.answer), request);
    AllowedIsPermitted(c, log, i, request);
    L.HullCoversNet(c.policy.value, ip, ResolvedHostname(c, ip), port);
    Sockaddr.ParsedIsNormal(log[i].address);
    L.RulesetCoversNet(c.policy.value, abi, ip, ResolvedHostname(c, ip), port);
  }

  lemma DestinationIsDecided(c: Config, n: Notification, k: Known, answer: Option<AskResolution>, request: P.Request)
    requires PolicyLoaded(c) && FamilyOf(n).Network? && Destination(c, n, k).Some?
    requires DecisionOf(c, n, k, answer).response == Allow
    requires var (ip, port) := Destination(c, n, k).value; request == P.Net(ip, ResolvedHostname(c, ip), port)
    ensures Verdict(JudgeAll(c, [request]), Resolution(c, n, k, answer)).response == Allow
  {
    hide Resolution, Verdict, JudgeAll, Destination, ResolvedHostname;
  }

  /** A readable brokered call is allowed exactly when there is something to decide and every
      access of every pinned operand is allowed, or is an ask under the one shared approval. */
  lemma AllowedIffEveryAccessIs(c: Config, n: Notification, k: Known, answer: Option<AskResolution>)
    requires PolicyLoaded(c) && FamilyOf(n).FileSystem? && Invocation(n, k).Some? && k.refused.None?
    ensures DecisionOf(c, n, k, answer).response == Allow <==>
            Requests(c, n, k) != []
            && forall r :: r in Requests(c, n, k) ==> Allows(Judge(c, r), Resolution(c, n, k, answer))
  {
    hide Judge, Verdict, Requests, Resolution, Invocation;
    var requests, resolution := Requests(c, n, k), Resolution(c, n, k, answer);
    var evals := JudgeAll(c, requests);
    VerdictLaw(evals, resolution);
    if Verdict(evals, resolution).response == Allow {
      forall r | r in requests ensures Allows(Judge(c, r), resolution) {
        AllowedRequestsArePermitted(c, requests, resolution, r);
      }
    } else if requests != [] {
      var i :| 0 <= i < |evals| && !Allows(evals[i], resolution);
      assert requests[i] in requests;
    }
  }

  // ----- the calls that cannot be allowed -----

  /** A filesystem call whose arguments could all be read is decided by the policy, unless it is
      `creat`, or an `openat2` with an undersized structure: those are refused in every mode. */
  lemma ReadableCallsAreDecided(n: Notification, k: Known)
    requires FamilyOf(n).FileSystem? && PathsDone(n, k) && !k.failed
    requires PassesHow(n) ==> |k.bytes| == 1 && k.bytes[0].Some? && |k.bytes[0].value| >= OPEN_HOW_SIZE
    ensures Invocation(n, k).None? <==> n.data.nr == CREAT || (n.data.nr == OPENAT2 && n.data.args[3] < OPEN_HOW_SIZE)
  {
    hide OpenOfHow, F.OpenAccess;
  }

  lemma CreatIsRefused(c: Config, n: Notification, k: Known, answer: Option<AskResolution>)
    requires PolicyLoaded(c) && FamilyOf(n).FileSystem? && n.data.nr == CREAT
    ensures DecisionOf(c, n, k, answer) == Fixed(Deny, MemoryRead) && FactOf(c, n, k) == Raw
  {
    hide ByPolicyOf;
  }
}
