/** Every signature the U2F stack hands out was confirmed by the user, once, for that very app. */
module ConfirmTheorems {
  import opened Device
  import opened MainLoop
  import U2f = U2fRequests

  predicate WasAccepted(log: seq<Entry>, id: nat, before: nat)
    requires before <= |log|
  {
    exists r | id < r < before :: log[r] == Accepted(id)
  }

  predicate NeverSigned(log: seq<Entry>, id: nat) {
    forall q | 0 <= q < |log| && log[q].Signed? :: log[q].id != id
  }

  /** The signature at position p answers a confirmation of the same kind and app that was started
      and then accepted earlier, and that no other signature uses. */
  predicate Justified(log: seq<Entry>, p: nat)
    requires p < |log| && log[p].Signed?
  {
    var e := log[p];
    && e.id < p
    && log[e.id] == Started(e.kind, e.appId)
    && WasAccepted(log, e.id, p)
    && forall q | 0 <= q < |log| && q != p && log[q].Signed? :: log[q].id != e.id
  }

  predicate GoodLog(log: seq<Entry>) {
    forall p: nat | p < |log| && log[p].Signed? :: Justified(log, p)
  }

  /** The confirmation on screen is the latest one started, is still unused, and counts as accepted
      only if the user accepted it. */
  predicate ConfirmInv(s: Sys) {
    && GoodLog(s.log)
    && (s.confirm != NoWorkflow ==>
        && s.confirmId < |s.log|
        && s.log[s.confirmId] == Started(s.app.outstanding, s.app.appId)
        && NeverSigned(s.log, s.confirmId)
        && (s.confirm == Done(true) ==> WasAccepted(s.log, s.confirmId, |s.log|)))
  }

  lemma AcceptedLater(log: seq<Entry>, e: Entry, id: nat, before: nat)
    requires before <= |log| && WasAccepted(log, id, before)
    ensures WasAccepted(log + [e], id, before)
  {
    var r :| id < r < before && log[r] == Accepted(id);
    assert (log + [e])[r] == Accepted(id);
  }

  lemma AppendUnsigned(log: seq<Entry>, e: Entry)
    requires GoodLog(log) && !e.Signed?
    ensures GoodLog(log + [e])
  {
    forall p: nat | p < |log + [e]| && (log + [e])[p].Signed?
      ensures Justified(log + [e], p)
    {
      assert Justified(log, p);
      AcceptedLater(log, e, log[p].id, p);
    }
  }

  lemma AppendSigned(log: seq<Entry>, kind: Confirm, appId: AppId, id: nat)
    requires GoodLog(log) && id < |log| && log[id] == Started(kind, appId)
    requires NeverSigned(log, id) && WasAccepted(log, id, |log|)
    ensures GoodLog(log + [Signed(kind, appId, id)])
  {
    var e := Signed(kind, appId, id);
    AcceptedLater(log, e, id, |log|);
    forall p: nat | p < |log| && log[p].Signed?
      ensures Justified(log + [e], p)
    {
      assert Justified(log, p);
      AcceptedLater(log, e, log[p].id, p);
    }
  }

  // What a step may do to the confirmation

  predicate Leaves(s: Sys, t: Sys) {
    t.confirm == s.confirm && t.confirmId == s.confirmId && t.app == s.app && t.log == s.log
  }

  predicate Starts(s: Sys, t: Sys) {
    && t.app.outstanding != NoConfirm && t.confirm == Pending && t.confirmId == |s.log|
    && t.log == s.log + [Started(t.app.outstanding, t.app.appId)]
  }

  predicate Drops(s: Sys, t: Sys) {
    t.confirm == NoWorkflow && t.log == s.log
  }

  predicate Answers(s: Sys, t: Sys) {
    && s.confirm == Pending && t.confirm.Done? && t.confirmId == s.confirmId && t.app == s.app
    && t.log == if t.confirm.ok then s.log + [Accepted(s.confirmId)] else s.log
  }

  predicate Signs(s: Sys, t: Sys) {
    && s.confirm == Done(true) && t.confirm == NoWorkflow
    && t.log == s.log + [Signed(s.app.outstanding, s.app.appId, s.confirmId)]
  }

  /** A success reply goes with using an accepted confirmation up, and nothing else does. */
  predicate ConfirmStep(s: Sys, t: Sys, reply: Reply) {
    if reply.U2fSuccess? then Signs(s, t) && reply.kind == s.app.outstanding && reply.appId == s.app.appId
    else Leaves(s, t) || Starts(s, t) || Drops(s, t) || Answers(s, t)
  }

  lemma StartKeepsConfirm(s: Sys, t: Sys)
    requires GoodLog(s.log) && Starts(s, t)
    ensures ConfirmInv(t)
  {
    AppendUnsigned(s.log, t.log[|s.log|]);
    forall q: nat | q < |s.log| && s.log[q].Signed?
      ensures s.log[q].id != |s.log|
    {
      assert Justified(s.log, q);
    }
  }

  lemma AnswerKeepsConfirm(s: Sys, t: Sys)
    requires ConfirmInv(s) && Answers(s, t)
    ensures ConfirmInv(t)
  {
    if t.confirm.ok {
      AppendUnsigned(s.log, Accepted(s.confirmId));
      assert t.log[|s.log|] == Accepted(s.confirmId);
    }
  }

  lemma ConfirmStepKeeps(s: Sys, t: Sys, reply: Reply)
    requires ConfirmInv(s) && ConfirmStep(s, t, reply)
    ensures ConfirmInv(t)
  {
    if reply.U2fSuccess? {
      AppendSigned(s.log, s.app.outstanding, s.app.appId, s.confirmId);
    } else if Starts(s, t) {
      StartKeepsConfirm(s, t);
    } else if Answers(s, t) {
      AnswerKeepsConfirm(s, t);
    }
  }

  lemma RegisterConfirm(s: Sys, p: Packet, env: U2f.Env)
    ensures
      var r := U2f.CmdRegister(s, p, env);
      r.Ok? ==> ConfirmStep(s, r.value.0, r.value.1)
  {
  }

  lemma AuthenticateConfirm(s: Sys, p: Packet, env: U2f.Env)
    ensures
      var r := U2f.CmdAuthenticate(s, p, env);
      r.Ok? ==> ConfirmStep(s, r.value.0, r.value.1)
  {
  }

  lemma U2fPacketConfirm(s: Sys, p: Packet, env: U2f.Env)
    ensures
      var r := ArbitrateU2f(s, p, env);
      r.Ok? ==> ConfirmStep(s, r.value.0, r.value.1)
  {
    var s1 := s.(u2f := s.u2f.(cid := p.cid));
    RegisterConfirm(s1, p, env);
    AuthenticateConfirm(s1, p, env);
  }

  lemma StepConfirm(s: Sys, e: Event)
    requires Step(s, e).Ok?
    ensures ConfirmStep(s, Step(s, e).value.0, Step(s, e).value.1)
  {
    match e
    case U2fPacket(p, env) => U2fPacketConfirm(s, p, env);
    case _ =>
  }

  function SuccessOf(reply: Reply): seq<(Confirm, AppId)> {
    if reply.U2fSuccess? then [(reply.kind, reply.appId)] else []
  }

  /** `earlier`, followed by the success replies of a run in order. */
  function Successes(earlier: seq<(Confirm, AppId)>, s: Sys, events: seq<Event>): seq<(Confirm, AppId)>
    decreases |events|
  {
    if events == [] || Step(s, events[0]).Abort? then earlier
    else
      var r := Step(s, events[0]).value;
      Successes(earlier + SuccessOf(r.1), r.0, events[1..])
  }

  function SignaturesIn(log: seq<Entry>): seq<(Confirm, AppId)> {
    if log == [] then []
    else
      SignaturesIn(log[..|log| - 1]) +
      (match log[|log| - 1] case Signed(kind, appId, _) => [(kind, appId)] case _ => [])
  }

  lemma SignaturesAppend(log: seq<Entry>, e: Entry)
    ensures SignaturesIn(log + [e]) ==
            SignaturesIn(log) + (match e case Signed(kind, appId, _) => [(kind, appId)] case _ => [])
  {
    assert (log + [e])[..|log|] == log;
  }

  lemma ConfirmStepSignatures(s: Sys, t: Sys, reply: Reply)
    requires ConfirmStep(s, t, reply)
    ensures SignaturesIn(t.log) == SignaturesIn(s.log) + SuccessOf(reply)
  {
    if t.log != s.log {
      assert t.log == s.log + [t.log[|s.log|]];
      SignaturesAppend(s.log, t.log[|s.log|]);
    }
  }

  lemma StepKeepsConfirm(s: Sys, e: Event)
    requires ConfirmInv(s) && Step(s, e).Ok?
    ensures ConfirmInv(Step(s, e).value.0)
  {
    StepConfirm(s, e);
    ConfirmStepKeeps(s, Step(s, e).value.0, Step(s, e).value.1);
  }

  lemma StepSignatures(s: Sys, e: Event)
    requires Step(s, e).Ok?
    ensures SignaturesIn(Step(s, e).value.0.log) == SignaturesIn(s.log) + SuccessOf(Step(s, e).value.1)
  {
    StepConfirm(s, e);
    ConfirmStepSignatures(s, Step(s, e).value.0, Step(s, e).value.1);
  }

  /** Over every run: each signature in the log uses up one earlier accepted confirmation of the
      same kind and app, never shared. */
  lemma {:induction false} RunConfirmed(s: Sys, events: seq<Event>)
    requires ConfirmInv(s) && Run(s, events).Ok?
    ensures ConfirmInv(Run(s, events).value)
    decreases |events|
  {
    if events != [] {
      StepKeepsConfirm(s, events[0]);
      RunConfirmed(Step(s, events[0]).value.0, events[1..]);
    }
  }

  /** Over every run: the success replies sent to the host are exactly the signatures in the log. */
  lemma {:induction false} RunSuccesses(s: Sys, events: seq<Event>)
    requires Run(s, events).Ok?
    ensures SignaturesIn(Run(s, events).value.log) == Successes(SignaturesIn(s.log), s, events)
    decreases |events|
  {
    if events != [] {
      StepSignatures(s, events[0]);
      RunSuccesses(Step(s, events[0]).value.0, events[1..]);
    }
  }
}
