/** What BOOT_WAIT really waits for: of all outstanding peers, check_for_ipi_acks keeps the verdict of
    the last one only (services/boot/hss_boot_service.c). */
module BootAcks {
  import opened Words
  import opened Wrappers
  import opened BootImage
  import opened BootSpec
  import opened BootProtocol
  import opened BootRuns
  import opened BootStart
  import opened BootProgress

  predicate LastOutstanding(aux: seq<Option<nat>>, i: nat) {
    i < |aux| && aux[i].Some? && forall j :: i < j < |aux| ==> aux[j].None?
  }

  predicate Acked(aux: seq<Option<nat>>, completed: set<nat>, i: nat)
    requires i < |aux|
  {
    aux[i].Some? && aux[i].value in completed
  }

  /** Completed messages are forgotten, the others kept; the verdict is that of the last outstanding
      peer, or the one it started with if there is none. */
  lemma {:induction false} AckLoopIs(aux: seq<Option<nat>>, completed: set<nat>, i: nat, result: bool)
    requires |aux| == HARTS && i <= HARTS
    ensures var r := AckLoop(aux, completed, i, result);
      && (forall k :: 0 <= k < HARTS ==> r.0[k] == if i <= k && Acked(aux, completed, k) then None else aux[k])
      && (forall k: nat :: i <= k && LastOutstanding(aux, k) ==> (r.1 <==> aux[k].value in completed))
      && ((forall k :: i <= k < HARTS ==> aux[k].None?) ==> r.1 == result)
    decreases HARTS - i
  {
    if i < HARTS {
      if aux[i].None? {
        AckLoopIs(aux, completed, i + 1, result);
      } else if aux[i].value in completed {
        var next := aux[i := None];
        AckLoopIs(next, completed, i + 1, true);
        forall k: nat | i <= k && LastOutstanding(aux, k)
          ensures AckLoop(aux, completed, i, result).1 <==> aux[k].value in completed
        {
          if k > i { assert LastOutstanding(next, k); }
        }
      } else {
        AckLoopIs(aux, completed, i + 1, false);
      }
    }
  }

  lemma {:induction false} HasLast(aux: seq<Option<nat>>, i: nat)
    requires i < |aux| && aux[i].Some?
    ensures exists j: nat :: i <= j && LastOutstanding(aux, j)
    decreases |aux| - i
  {
    if j :| i < j < |aux| && aux[j].Some? {
      HasLast(aux, j);
    } else {
      assert LastOutstanding(aux, i);
    }
  }

  // ---------------------------------------------------------------- no PMP message is outstanding by then

  /** Once past the PMP setup the machine has no message of that kind. */
  predicate PmpForgotten(m: Machine) {
    m.core.state in {BOOT_ZERO_INIT_CHUNKS, BOOT_DOWNLOAD_CHUNKS, BOOT_OPENSBI_INIT, BOOT_WAIT} ==> m.msgIndex.None?
  }

  lemma TransitionForgets(b: Board, h: nat, m: Machine, env: Env)
    requires Shaped(b, h, m) && PmpForgotten(m)
    ensures PmpForgotten(Transition(b, h, m, env).m)
  {
  }

  lemma HandlerForgets(b: Board, h: nat, m: Machine, env: Env, complete: seq<bool>)
    requires Shaped(b, h, m) && PmpForgotten(m)
    ensures PmpForgotten(Handler(b, h, m.core.state, m, env, complete).m)
  {
  }

  lemma CallForgets(b: Board, h: nat, m: Machine, env: Env, complete: seq<bool>)
    requires Shaped(b, h, m) && PmpForgotten(m) && |complete| == HARTS
    ensures PmpForgotten(RunMachine(b, h, m, env, complete).m)
  {
    hide Transition, Handler;
    TransitionForgets(b, h, m, env);
    HandlerForgets(b, h, Transition(b, h, m, env).m, env, Completing(h, m, complete));
  }

  lemma StepForgets(b: Board, w: World, a: Action)
    requires Sane(b, w) && (a.Call? ==> a.h < HARTS) && forall h :: 0 <= h < HARTS ==> PmpForgotten(w.machines[h])
    ensures forall h :: 0 <= h < HARTS ==> PmpForgotten(Step(b, w, a).machines[h])
  {
    hide RunMachine;
    if a.Call? { CallForgets(b, a.h, w.machines[a.h], a.env, w.complete); }
  }

  /** In every run a machine in BOOT_WAIT has no PMP message outstanding. */
  lemma {:induction false} NoPmpInWait(b: Board, mem: seq<byte>, actions: seq<Action>)
    requires WellFormed(b) && Possible(actions)
    ensures forall h :: 0 <= h < HARTS ==> PmpForgotten(Run(b, Initial(b, mem), actions).machines[h])
    decreases |actions|
  {
    hide Step;
    if actions != [] {
      NoPmpInWait(b, mem, actions[..|actions| - 1]);
      StepForgets(b, Run(b, Initial(b, mem), actions[..|actions| - 1]), actions[|actions| - 1]);
    }
  }

  // ---------------------------------------------------------------- the handler

  lemma HandlerWaits(b: Board, h: nat, m: Machine, env: Env)
    requires Shaped(b, h, m) && b.image.harts[h].entryPoint != 0 && !env.timedOut && m.msgIndex.None?
    requires m.core.state == BOOT_WAIT
    ensures WaitHandler(b, h, m, env).core.state == BOOT_COMPLETE <==>
      forall k: nat :: LastOutstanding(m.msgIndexAux, k) ==> m.msgIndexAux[k].value in env.completed
  {
    AckLoopIs(m.msgIndexAux, env.completed, 0, true);
    if i: nat :| i < HARTS && m.msgIndexAux[i].Some? { HasLast(m.msgIndexAux, i); }
  }

  lemma HandlerCompletesEarly(b: Board, h: nat, m: Machine, env: Env, i: nat)
    requires Shaped(b, h, m) && b.image.harts[h].entryPoint != 0 && !env.timedOut && m.msgIndex.None?
    requires m.core.state == BOOT_WAIT && i < HARTS
    ensures WaitHandler(b, h, m, env).core.state == BOOT_COMPLETE && WaitHandler(b, h, m, env).msgIndexAux[i].Some? <==>
      && m.msgIndexAux[i].Some? && m.msgIndexAux[i].value !in env.completed
      && exists j: nat :: i < j && LastOutstanding(m.msgIndexAux, j) && m.msgIndexAux[j].value in env.completed
  {
    AckLoopIs(m.msgIndexAux, env.completed, 0, true);
    HandlerWaits(b, h, m, env);
    if m.msgIndexAux[i].Some? { HasLast(m.msgIndexAux, i); }
  }

  // ---------------------------------------------------------------- in every run

  /** Which messages are outstanding when the handler of machine `h` is called next. */
  function Outstanding(b: Board, w: World, h: nat, env: Env): seq<Option<nat>>
    requires Sane(b, w) && h < HARTS
  {
    Transition(b, h, w.machines[h], env).m.msgIndexAux
  }

  lemma WaitCall(b: Board, w: World, h: nat, env: Env, mem: seq<byte>)
    requires WorldOk(b, w, mem) && h < HARTS && w.machines[h].core.state == BOOT_WAIT && PmpForgotten(w.machines[h])
    ensures b.image.harts[h].entryPoint != 0
    ensures var t := Transition(b, h, w.machines[h], env).m;
      && t.core.state == BOOT_WAIT && t.msgIndex.None?
      && Step(b, w, Call(h, env)).machines[h].core.state == WaitHandler(b, h, t, env).core.state
      && Step(b, w, Call(h, env)).machines[h].msgIndexAux == WaitHandler(b, h, t, env).msgIndexAux
  {
    hide Transition;
    TransitionForgets(b, h, w.machines[h], env);
  }

  /** A machine in BOOT_WAIT completes exactly when no peer is outstanding or the last one has answered. */
  lemma WaitsForLast(b: Board, mem: seq<byte>, actions: seq<Action>, h: nat, env: Env)
    requires WellFormed(b) && Possible(actions) && h < HARTS && !env.timedOut
    ensures var w := Run(b, Initial(b, mem), actions);
      var aux := Outstanding(b, w, h, env);
      w.machines[h].core.state == BOOT_WAIT ==>
        (Step(b, w, Call(h, env)).machines[h].core.state == BOOT_COMPLETE <==>
          forall k: nat :: LastOutstanding(aux, k) ==> aux[k].value in env.completed)
  {
    hide Run, Step, Transition, WaitHandler;
    var w := Run(b, Initial(b, mem), actions);
    RunKeeps(b, mem, actions);
    NoPmpInWait(b, mem, actions);
    if w.machines[h].core.state == BOOT_WAIT {
      WaitCall(b, w, h, env, mem);
      var t := Transition(b, h, w.machines[h], env).m;
      HandlerWaits(b, h, t, env);
      assert Outstanding(b, w, h, env) == t.msgIndexAux;
    }
  }

  /** It leaves peer `i`'s answer outstanding exactly when that peer comes before the last outstanding
      one and only the latter has answered. */
  lemma CompletesEarly(b: Board, mem: seq<byte>, actions: seq<Action>, h: nat, env: Env, i: nat)
    requires WellFormed(b) && Possible(actions) && h < HARTS && i < HARTS && !env.timedOut
    ensures var w := Run(b, Initial(b, mem), actions);
      var aux, n := Outstanding(b, w, h, env), Step(b, w, Call(h, env)).machines[h];
      w.machines[h].core.state == BOOT_WAIT ==>
        (n.core.state == BOOT_COMPLETE && n.msgIndexAux[i].Some? <==>
          && aux[i].Some? && aux[i].value !in env.completed
          && exists j: nat :: i < j && LastOutstanding(aux, j) && aux[j].value in env.completed)
  {
    hide Run, Step, Transition, WaitHandler;
    var w := Run(b, Initial(b, mem), actions);
    RunKeeps(b, mem, actions);
    NoPmpInWait(b, mem, actions);
    if w.machines[h].core.state == BOOT_WAIT {
      WaitCall(b, w, h, env, mem);
      HandlerCompletesEarly(b, h, Transition(b, h, w.machines[h], env).m, env, i);
    }
  }

  // ---------------------------------------------------------------- a peer that nobody waits for

  /** Outstanding are exactly the peers sent to so far, by messages from `msgs`. */
  ghost predicate SentSoFar(b: Board, h: nat, m: Machine, msgs: set<nat>)
    requires Shaped(b, h, m)
  {
    && (forall p: nat :: p < HARTS ==> (m.msgIndexAux[p].Some? <==> p < m.peerIndex && p != h && SameEntry(b, h, p)))
    && (forall p: nat :: p < HARTS && m.msgIndexAux[p].Some? ==> m.msgIndexAux[p].value in msgs)
  }

  ghost predicate Sending(b: Board, h: nat, m: Machine, msgs: set<nat>) {
    && Shaped(b, h, m)
    && (m.core.state == BOOT_OPENSBI_INIT && m.core.prevState == BOOT_OPENSBI_INIT ==> SentSoFar(b, h, m, msgs))
    && (Leaving(m) ==> SentSoFar(b, h, m, msgs) && m.peerIndex >= HARTS)
  }

  lemma TransitionSends(b: Board, h: nat, m: Machine, env: Env, v: View, msgs: set<nat>)
    requires MachineOk(b, h, m, v) && Primary(b, h) && Sending(b, h, m, msgs) && !Leaving(m)
    ensures Sending(b, h, Transition(b, h, m, env).m, msgs)
  {
    hide CopyFrom, ZeroFrom, Peers, SetupOk, CopyingOk;
  }

  lemma HandlerSends(b: Board, h: nat, m: Machine, env: Env, complete: seq<bool>, msgs: set<nat>)
    requires Shaped(b, h, m) && m.core.prevState == m.core.state && Primary(b, h)
    requires Sending(b, h, m, msgs) && env.newMessage in msgs
    ensures Sending(b, h, Handler(b, h, m.core.state, m, env, complete).m, msgs)
  {
    hide CopyAt, ZeroAt, Advance, AtEnd;
  }

  lemma CallSends(b: Board, h: nat, m: Machine, env: Env, complete: seq<bool>, v: View, msgs: set<nat>)
    requires MachineOk(b, h, m, v) && |complete| == HARTS && Primary(b, h)
    requires Sending(b, h, m, msgs) && !Leaving(m) && env.newMessage in msgs
    ensures Sending(b, h, RunMachine(b, h, m, env, complete).m, msgs)
  {
    hide Transition, Handler;
    var t := Transition(b, h, m, env);
    TransitionSends(b, h, m, env, v, msgs);
    TransitionOk(b, h, m, env, v);
    HandlerSends(b, h, t.m, env, Completing(h, m, complete), msgs);
  }

  lemma {:induction false} AttemptSends(b: Board, w: World, actions: seq<Action>, h: nat, msgs: set<nat>,
      mem: seq<byte>)
    requires WorldOk(b, w, mem) && Possible(actions) && h < HARTS && Undisturbed(actions, h)
      && AllWilling(actions, h, msgs)
    requires Primary(b, h) && !b.image.harts[h].skipAutoboot && Attempting(w.machines[h], msgs)
    requires CallsOf(actions, h) <= Remaining(b, h, w.machines[h]) && Sending(b, h, w.machines[h], msgs)
    ensures Sending(b, h, Run(b, w, actions).machines[h], msgs)
    decreases |actions|
  {
    hide Step, Sending, MachineOk;
    if actions != [] {
      var before, a := actions[..|actions| - 1], actions[|actions| - 1];
      AttemptSends(b, w, before, h, msgs, mem);
      AttemptCounts(b, w, before, h, msgs, mem);
      StepSends(b, Run(b, w, before), a, h, msgs, mem);
    }
  }

  lemma StepSends(b: Board, w: World, a: Action, h: nat, msgs: set<nat>, mem: seq<byte>)
    requires WorldOk(b, w, mem) && (a.Call? ==> a.h < HARTS) && h < HARTS && Primary(b, h) && Spared(a, h)
    requires Sending(b, h, w.machines[h], msgs)
    requires a.Call? && a.h == h ==> !Leaving(w.machines[h]) && a.env.newMessage in msgs
    ensures Sending(b, h, Step(b, w, a).machines[h], msgs)
  {
    hide RunMachine, Sending;
    if a.Call? && a.h == h {
      CallSends(b, h, w.machines[h], a.env, w.complete, ViewOf(w.log, h), msgs);
    } else {
      Others(b, w, a, h);
    }
  }

  /** While the attempt sends to the peers. */
  const SENDING := Env(true, true, true, false, 1, {1})

  /** At the call in which the machine sends to itself: the peers have answered and it has not, if one of them
      has a higher number, and only it itself has, if none does. */
  function Ending(b: Board, h: nat): Env
    requires WellFormed(b) && h < HARTS
  {
    Env(true, true, true, false, 2, if HigherPeer(b, h) then {1} else {2})
  }

  predicate HigherPeer(b: Board, h: nat)
    requires WellFormed(b) && h < HARTS
  {
    exists p :: h < p < HARTS && SameEntry(b, h, p)
  }

  /** Whose message stays unanswered, `g` being some peer. */
  function Ignored(b: Board, h: nat, g: nat): (i: nat)
    requires WellFormed(b) && h < HARTS && g < HARTS
    ensures i < HARTS
  {
    if HigherPeer(b, h) then h else g
  }

  /** In BOOT_WAIT, and the call completes the machine with message `i` unanswered. */
  ghost predicate Completes(b: Board, w: World, h: nat, env: Env, i: nat)
    requires Sane(b, w) && h < HARTS
  {
    var n := Step(b, w, Call(h, env)).machines[h];
    && w.machines[h].core.state == BOOT_WAIT && n.core.state == BOOT_COMPLETE
    && i < HARTS && n.msgIndexAux[i].Some? && n.msgIndexAux[i].value !in env.completed
  }

  /** The machine leaves BOOT_OPENSBI_INIT, sends to itself, the last outstanding message is answered, and it
      completes. */
  lemma LastCall(b: Board, w: World, h: nat, g: nat, mem: seq<byte>)
    requires WorldOk(b, w, mem) && h < HARTS && Primary(b, h) && g != h && SameEntry(b, h, g)
    requires Leaving(w.machines[h]) && Sending(b, h, w.machines[h], {1}) && PmpForgotten(w.machines[h])
    ensures Completes(b, w, h, Ending(b, h), Ignored(b, h, g))
  {
    hide Step, Transition, WaitHandler, MachineOk;
    var env, i := Ending(b, h), Ignored(b, h, g);
    WaitCall(b, w, h, env, mem);
    var t := Transition(b, h, w.machines[h], env).m;
    LeavingSendsToItself(b, h, w.machines[h], env);
    if p: nat :| h < p < HARTS && SameEntry(b, h, p) {
      HasLast(t.msgIndexAux, p);
    } else {
      assert LastOutstanding(t.msgIndexAux, h);
    }
    HandlerCompletesEarly(b, h, t, env, i);
    KeptOutstanding(b, h, t, env, i);
  }

  lemma LeavingSendsToItself(b: Board, h: nat, m: Machine, env: Env)
    requires Shaped(b, h, m) && Primary(b, h) && Leaving(m)
    ensures Transition(b, h, m, env).m.msgIndexAux == m.msgIndexAux[h := Some(env.newMessage)]
  {
  }

  lemma KeptOutstanding(b: Board, h: nat, m: Machine, env: Env, i: nat)
    requires Shaped(b, h, m) && i < HARTS && !env.timedOut && m.msgIndex.None? && b.image.harts[h].entryPoint != 0
    ensures WaitHandler(b, h, m, env).msgIndexAux[i] == if Acked(m.msgIndexAux, env.completed, i) then None
      else m.msgIndexAux[i]
  {
    AckLoopIs(m.msgIndexAux, env.completed, 0, true);
  }

  /** For every hart that boots by itself and has a peer: a run up to the point where all its peers are sent to,
      from which one more call completes it with a message unanswered. */
  lemma UnansweredRun(b: Board, h: nat, g: nat, mem: seq<byte>)
    requires WellFormed(b) && h < HARTS && Primary(b, h) && !b.image.harts[h].skipAutoboot
    requires g != h && SameEntry(b, h, g)
    ensures var actions := [Restart({h})] + Repeat(Call(h, SENDING), Attempt(b, h));
      Possible(actions) && Completes(b, Run(b, Initial(b, mem), actions), h, Ending(b, h), Ignored(b, h, g))
  {
    hide Run, Step, Sending, MachineOk, Completes;
    var w0, restart, calls := Initial(b, mem), [Restart({h})], Repeat(Call(h, SENDING), Attempt(b, h));
    RunKeeps(b, mem, restart);
    RestartedFresh(b, h, mem);
    var w := Run(b, w0, restart);
    RepeatCounts(h, SENDING, Attempt(b, h));
    FreshSends(b, h);
    AttemptSends(b, w, calls, h, {1}, mem);
    AttemptTakes(b, w, calls, h, {1}, mem);
    RunConcat(b, w0, restart, calls);
    RunKeeps(b, mem, restart + calls);
    NoPmpInWait(b, mem, restart + calls);
    LastCall(b, Run(b, w0, restart + calls), h, g, mem);
  }

  lemma FreshSends(b: Board, h: nat)
    requires WellFormed(b) && h < HARTS
    ensures Sending(b, h, To(Fresh(), BOOT_INITIALIZATION), {1})
  {
  }

  // ---------------------------------------------------------------- whose machines can complete early

  /** Some run brings the machine there. */
  ghost predicate MayComplete(b: Board, h: nat, mem: seq<byte>)
    requires WellFormed(b) && h < HARTS
  {
    exists actions: seq<Action>, env: Env, i: nat :: EndsEarly(b, h, mem, actions, env, i)
  }

  ghost predicate EndsEarly(b: Board, h: nat, mem: seq<byte>, actions: seq<Action>, env: Env, i: nat)
    requires WellFormed(b) && h < HARTS
  {
    Possible(actions) && Completes(b, Run(b, Initial(b, mem), actions), h, env, i)
  }

  /** Whose messages can be outstanding while the machine sends and waits. */
  ghost predicate Shares(b: Board, h: nat, m: Machine)
    requires Shaped(b, h, m)
  {
    var s, p := m.core.state, m.core.prevState;
    && (s in {BOOT_ZERO_INIT_CHUNKS, BOOT_DOWNLOAD_CHUNKS, BOOT_OPENSBI_INIT, BOOT_WAIT} ==>
          !b.image.harts[h].skipAutoboot)
    && (s == BOOT_WAIT || (s == BOOT_OPENSBI_INIT && p == s) ==>
          forall g: nat :: g < HARTS && m.msgIndexAux[g].Some? ==> SameEntry(b, h, g))
  }

  lemma TransitionShares(b: Board, h: nat, m: Machine, env: Env, v: View)
    requires MachineOk(b, h, m, v) && Shares(b, h, m)
    ensures Shares(b, h, Transition(b, h, m, env).m)
  {
    hide CopyFrom, ZeroFrom, Peers, SetupOk, CopyingOk;
  }

  lemma HandlerShares(b: Board, h: nat, m: Machine, env: Env, complete: seq<bool>)
    requires Shaped(b, h, m) && m.core.prevState == m.core.state && Shares(b, h, m)
    ensures Shares(b, h, Handler(b, h, m.core.state, m, env, complete).m)
  {
    hide CopyAt, ZeroAt, Advance, AtEnd;
    AckLoopIs(m.msgIndexAux, env.completed, 0, true);
  }

  lemma StepShares(b: Board, w: World, a: Action, h: nat, mem: seq<byte>)
    requires WorldOk(b, w, mem) && (a.Call? ==> a.h < HARTS) && h < HARTS && Shares(b, h, w.machines[h])
    ensures Shares(b, h, Step(b, w, a).machines[h])
  {
    hide Transition, Handler;
    if a.Call? && a.h == h {
      var m := w.machines[h];
      TransitionShares(b, h, m, a.env, ViewOf(w.log, h));
      TransitionOk(b, h, m, a.env, ViewOf(w.log, h));
      HandlerShares(b, h, Transition(b, h, m, a.env).m, a.env, Completing(h, m, w.complete));
    }
  }

  lemma FreshShares(b: Board, h: nat)
    requires WellFormed(b) && h < HARTS
    ensures Shares(b, h, Fresh())
  {
  }

  lemma {:induction false} RunShares(b: Board, mem: seq<byte>, actions: seq<Action>, h: nat)
    requires WellFormed(b) && Possible(actions) && h < HARTS
    ensures Shares(b, h, Run(b, Initial(b, mem), actions).machines[h])
    decreases |actions|
  {
    hide Step, Shares, MachineOk;
    if actions == [] {
      FreshShares(b, h);
    } else {
      var before := actions[..|actions| - 1];
      RunShares(b, mem, before, h);
      RunKeeps(b, mem, before);
      StepShares(b, Run(b, Initial(b, mem), before), actions[|actions| - 1], h, mem);
    }
  }

  /** A call that completes the machine early leaves two messages outstanding before it, and not both are
      to itself. */
  lemma EarlyShares(b: Board, w: World, h: nat, env: Env, i: nat, mem: seq<byte>)
    requires WorldOk(b, w, mem) && h < HARTS && Shares(b, h, w.machines[h]) && PmpForgotten(w.machines[h])
    requires Completes(b, w, h, env, i)
    ensures Primary(b, h) && !b.image.harts[h].skipAutoboot && exists g: nat :: g != h && SameEntry(b, h, g)
  {
    hide Transition, Step, WaitHandler;
    var m := w.machines[h];
    WaitCall(b, w, h, env, mem);
    TransitionShares(b, h, m, env, ViewOf(w.log, h));
    var t := Transition(b, h, m, env).m;
    NotTimedOut(b, h, t, env);
    HandlerCompletesEarly(b, h, t, env, i);
    var j: nat :| i < j && LastOutstanding(t.msgIndexAux, j);
    assert SameEntry(b, h, i) && SameEntry(b, h, j);
  }

  lemma NotTimedOut(b: Board, h: nat, m: Machine, env: Env)
    requires Shaped(b, h, m) && b.image.harts[h].entryPoint != 0
    requires WaitHandler(b, h, m, env).core.state == BOOT_COMPLETE
    ensures !env.timedOut
  {
  }

  /** In some run a machine completes with a message unanswered exactly if its hart boots by itself and
      another hart has the same entry point. */
  lemma CompletesEarlyIffShared(b: Board, h: nat, mem: seq<byte>)
    requires WellFormed(b) && h < HARTS
    ensures MayComplete(b, h, mem) <==>
      Primary(b, h) && !b.image.harts[h].skipAutoboot && exists g: nat :: g != h && SameEntry(b, h, g)
  {
    hide Run, Completes, MachineOk, Shares;
    if actions: seq<Action>, env: Env, i: nat :| EndsEarly(b, h, mem, actions, env, i) {
      RunKeeps(b, mem, actions);
      RunShares(b, mem, actions, h);
      NoPmpInWait(b, mem, actions);
      EarlyShares(b, Run(b, Initial(b, mem), actions), h, env, i, mem);
    }
    if Primary(b, h) && !b.image.harts[h].skipAutoboot {
      if g: nat :| g != h && SameEntry(b, h, g) {
        UnansweredRun(b, h, g, mem);
        var actions := [Restart({h})] + Repeat(Call(h, SENDING), Attempt(b, h));
        assert EndsEarly(b, h, mem, actions, Ending(b, h), Ignored(b, h, g));
      }
    }
  }
}
