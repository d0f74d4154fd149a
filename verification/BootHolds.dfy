/** What holds a machine up, and how a failed attempt ends (services/boot/hss_boot_service.c). */
module BootHolds {
  import opened Words
  import opened Wrappers
  import opened BootImage
  import opened BootSpec
  import opened BootProtocol
  import opened BootRuns
  import opened BootCauses
  import opened BootStart
  import opened BootAcks

  // ---------------------------------------------------------------- calls that change nothing

  /** The call got the machine nowhere: not to another state, nor further in one of the tables. */
  predicate Wasted(before: Machine, after: Machine) {
    && after.core.state == before.core.state
    && after.cursor == before.cursor && after.ziChunk == before.ziChunk && after.peerIndex == before.peerIndex
  }

  /** The machine is waiting for memory, for startup, for an answer or for the other machines, or has nothing left
      to do; `aux` are the messages outstanding when its handler runs, and `zi` is the zero-init entry it is at. */
  ghost predicate HeldUp(b: Board, h: nat, m: Machine, aux: seq<Option<nat>>, zi: nat, env: Env, complete: seq<bool>)
    requires WellFormed(b) && h < HARTS && zi < |b.image.ziChunks| && |complete| == HARTS
  {
    var s := m.core.state;
    && (s == BOOT_INITIALIZATION ==> !env.ddrTrained || !env.startupComplete)
    && (s == BOOT_SETUP_PMP ==> false)
    && (s == BOOT_SETUP_PMP_COMPLETE ==> !env.timedOut && m.msgIndex.Some? && m.msgIndex.value !in env.completed)
    && (s == BOOT_ZERO_INIT_CHUNKS ==>
          var z := b.image.ziChunks[zi];
          z.size > 0 && z.owner == h + 1 && InDdr(b, z.execAddr) && !env.ddrTrained)
    && (s == BOOT_DOWNLOAD_CHUNKS ==> false)
    && (s == BOOT_OPENSBI_INIT ==> b.image.harts[h].entryPoint == 0)
    && (s == BOOT_WAIT ==>
          !env.timedOut && exists k: nat :: LastOutstanding(aux, k) && aux[k].value !in env.completed)
    && (s == BOOT_ERROR ==> false)
    && (s == BOOT_COMPLETE ==> exists g :: 0 <= g < HARTS && g != h && !complete[g])
  }

  lemma HandlerWastes(b: Board, h: nat, m: Machine, env: Env, complete: seq<bool>, v: View)
    requires Entered(b, h, m, v) && |complete| == HARTS && PmpForgotten(m)
    requires m.core.state == BOOT_COMPLETE ==> complete[h]
    ensures Wasted(m, Handler(b, h, m.core.state, m, env, complete).m) <==>
      HeldUp(b, h, m, m.msgIndexAux, m.ziChunk, env, complete)
  {
    var s := m.core.state;
    if s == BOOT_WAIT {
      WaitWastes(b, h, m, env, complete, v);
    } else if s == BOOT_SETUP_PMP_COMPLETE {
      AcksWhenNone(m.msgIndexAux, env.completed, 0, true);
    } else if s == BOOT_COMPLETE {
      assert false in complete <==> exists g :: 0 <= g < HARTS && g != h && !complete[g];
    }
    hide CopyFrom, ZeroFrom, Peers, CopyAt, ZeroAt;
  }

  lemma WaitWastes(b: Board, h: nat, m: Machine, env: Env, complete: seq<bool>, v: View)
    requires Entered(b, h, m, v) && |complete| == HARTS && PmpForgotten(m) && m.core.state == BOOT_WAIT
    ensures Wasted(m, WaitHandler(b, h, m, env)) <==> HeldUp(b, h, m, m.msgIndexAux, m.ziChunk, env, complete)
  {
    if !env.timedOut { HandlerWaits(b, h, m, env); }
    hide CopyFrom, ZeroFrom, Peers;
  }

  /** A machine that is in BOOT_COMPLETE and has been called there has its flag up. */
  ghost predicate FlagUp(w: World, h: nat)
    requires h < |w.machines| && h < |w.complete|
  {
    var m := w.machines[h];
    m.core.state == BOOT_COMPLETE && m.core.prevState == BOOT_COMPLETE ==> w.complete[h]
  }

  lemma FlagStep(b: Board, w: World, a: Action, h: nat)
    requires Sane(b, w) && (a.Call? ==> a.h < HARTS) && h < HARTS && FlagUp(w, h)
    ensures FlagUp(Step(b, w, a), h)
  {
    hide RunMachine;
    if a.Call? && a.h == h { RanOnce(b, h, w.machines[h], a.env, w.complete); }
  }

  lemma {:induction false} FlagsUp(b: Board, mem: seq<byte>, actions: seq<Action>, h: nat)
    requires WellFormed(b) && Possible(actions) && h < HARTS
    ensures FlagUp(Run(b, Initial(b, mem), actions), h)
    decreases |actions|
  {
    hide Step;
    if actions != [] {
      FlagsUp(b, mem, actions[..|actions| - 1], h);
      FlagStep(b, Run(b, Initial(b, mem), actions[..|actions| - 1]), actions[|actions| - 1], h);
    }
  }

  /** In every run a call is wasted exactly if one of these things holds the machine up. */
  lemma WastedIffHeldUp(b: Board, mem: seq<byte>, actions: seq<Action>, h: nat, env: Env)
    requires WellFormed(b) && Possible(actions) && h < HARTS
    ensures var w := Run(b, Initial(b, mem), actions);
      var t := Transition(b, h, w.machines[h], env).m;
      Wasted(t, Step(b, w, Call(h, env)).machines[h]) <==>
        HeldUp(b, h, t, t.msgIndexAux, t.ziChunk, env, w.complete)
  {
    hide Run, Transition, Handler, MachineOk, HeldUp;
    var w := Run(b, Initial(b, mem), actions);
    var m := w.machines[h];
    var t := Transition(b, h, m, env).m;
    var now := Completing(h, m, w.complete);
    RunKeeps(b, mem, actions);
    NoPmpInWait(b, mem, actions);
    FlagsUp(b, mem, actions, h);
    TransitionOk(b, h, m, env, ViewOf(w.log, h));
    TransitionForgets(b, h, m, env);
    HandlerWastes(b, h, t, env, now, LookAll(ViewOf(w.log, h), Transition(b, h, m, env).events, h));
    OwnFlagDoesNotMatter(b, h, t, env, w.complete, now);
  }

  lemma OwnFlagDoesNotMatter(b: Board, h: nat, m: Machine, env: Env, one: seq<bool>, two: seq<bool>)
    requires Shaped(b, h, m) && |one| == |two| == HARTS && forall g :: 0 <= g < HARTS && g != h ==> one[g] == two[g]
    ensures HeldUp(b, h, m, m.msgIndexAux, m.ziChunk, env, one) <==>
      HeldUp(b, h, m, m.msgIndexAux, m.ziChunk, env, two)
  {
  }

  // ---------------------------------------------------------------- before the first restart

  ghost predicate NeverRestarted(actions: seq<Action>, h: nat) {
    forall i :: 0 <= i < |actions| && actions[i].Restart? ==> h !in actions[i].harts
  }

  /** The machine is idle, its flag is down, and the log has nothing of its hart. */
  ghost predicate Untouched(w: World, h: nat)
    requires h < |w.machines| && h < |w.complete|
  {
    w.machines[h].core.state == BOOT_IDLE && !w.complete[h] && forall i :: 0 <= i < |w.log| ==> w.log[i].h != h
  }

  lemma IdleCall(b: Board, h: nat, m: Machine, env: Env, complete: seq<bool>, v: View)
    requires MachineOk(b, h, m, v) && |complete| == HARTS && m.core.state == BOOT_IDLE
    ensures var e := RunMachine(b, h, m, env, complete); e.m.core.state == BOOT_IDLE && e.events == []
  {
    hide CopyFrom, ZeroFrom, Peers;
  }

  lemma UntouchedStep(b: Board, w: World, a: Action, h: nat, mem: seq<byte>)
    requires WorldOk(b, w, mem) && (a.Call? ==> a.h < HARTS) && h < HARTS && Untouched(w, h)
      && (a.Restart? ==> h !in a.harts)
    ensures Untouched(Step(b, w, a), h)
  {
    hide RunMachine, MachineOk;
    match a
    case Call(g, env) =>
      CallOwns(b, g, w.machines[g], env, w.complete, ViewOf(w.log, g));
      if g == h { IdleCall(b, h, w.machines[h], env, w.complete, ViewOf(w.log, h)); }
    case Restart(harts) =>
      RestartsRequested(w.machines, harts, HARTS);
  }

  /** In every run a machine does nothing until a restart reaches it. */
  lemma {:induction false} IdleUntilRestarted(b: Board, mem: seq<byte>, actions: seq<Action>, h: nat)
    requires WellFormed(b) && Possible(actions) && h < HARTS && NeverRestarted(actions, h)
    ensures Untouched(Run(b, Initial(b, mem), actions), h)
    decreases |actions|
  {
    hide Step, Untouched;
    if actions == [] {
      InitiallyUntouched(b, mem, h);
    } else {
      var before := actions[..|actions| - 1];
      IdleUntilRestarted(b, mem, before, h);
      RunKeeps(b, mem, before);
      UntouchedStep(b, Run(b, Initial(b, mem), before), actions[|actions| - 1], h, mem);
    }
  }

  lemma InitiallyUntouched(b: Board, mem: seq<byte>, h: nat)
    requires WellFormed(b) && h < HARTS
    ensures Untouched(Initial(b, mem), h)
  {
  }

  // ---------------------------------------------------------------- how a failed attempt ends

  /** There is no image when it is asked for, or the PMP setup or the final answer takes too long. */
  predicate Fails(m: Machine, env: Env) {
    || (m.core.state == BOOT_INITIALIZATION && env.ddrTrained && env.startupComplete && !env.imageRegistered)
    || (m.core.state in {BOOT_SETUP_PMP_COMPLETE, BOOT_WAIT} && env.timedOut)
  }

  predicate Forgotten(m: Machine) { m.msgIndex.None? && NoneOutstanding(m) }

  /** In every run a call that fails brings the machine to BOOT_ERROR, and only such a call does; after a timeout
      no message is outstanding any more. The next call, whatever it meets, brings it to BOOT_COMPLETE. */
  lemma FailureEnds(b: Board, mem: seq<byte>, actions: seq<Action>, h: nat, env: Env, later: Env)
    requires WellFormed(b) && Possible(actions) && h < HARTS
    ensures var w := Run(b, Initial(b, mem), actions);
      var v := Step(b, w, Call(h, env));
      && (v.machines[h].core.state == BOOT_ERROR <==> Fails(w.machines[h], env))
      && (Fails(w.machines[h], env) && env.timedOut && w.machines[h].core.state != BOOT_INITIALIZATION ==>
            Forgotten(v.machines[h]))
      && (Fails(w.machines[h], env) ==> Step(b, v, Call(h, later)).machines[h].core.state == BOOT_COMPLETE)
  {
    hide Run, Transition, Handler, MachineOk, Step;
    var w := Run(b, Initial(b, mem), actions);
    var m := w.machines[h];
    RunKeeps(b, mem, actions);
    TransitionOk(b, h, m, env, ViewOf(w.log, h));
    CallMachine(b, w, h, env);
    var t := Transition(b, h, m, env);
    HandlerFails(b, h, t.m, env, Completing(h, m, w.complete), LookAll(ViewOf(w.log, h), t.events, h));
    if Fails(m, env) {
      var v := Step(b, w, Call(h, env));
      CallMachine(b, v, h, later);
      ErrorEnds(b, h, v.machines[h], later, v.complete);
    }
  }

  lemma CallMachine(b: Board, w: World, h: nat, env: Env)
    requires Sane(b, w) && h < HARTS
    ensures var n := RunMachine(b, h, w.machines[h], env, w.complete).m;
      && Step(b, w, Call(h, env)).machines[h] == n
      && n == var e := Handler(b, h, w.machines[h].core.state, Transition(b, h, w.machines[h], env).m, env,
           Completing(h, w.machines[h], w.complete)).m;
         e.(core := e.core.(executionCount := e.core.executionCount + 1))
  {
  }

  lemma HandlerFails(b: Board, h: nat, m: Machine, env: Env, complete: seq<bool>, v: View)
    requires Entered(b, h, m, v)
    ensures var n := Handler(b, h, m.core.state, m, env, complete).m;
      && (n.core.state == BOOT_ERROR <==> Fails(m, env))
      && (Fails(m, env) && env.timedOut && m.core.state != BOOT_INITIALIZATION ==> Forgotten(n))
  {
    hide CopyFrom, ZeroFrom, Peers, CopyAt, ZeroAt, Advance, AtEnd;
  }

  lemma ErrorEnds(b: Board, h: nat, m: Machine, env: Env, complete: seq<bool>)
    requires Shaped(b, h, m) && |complete| == HARTS && m.core.state == BOOT_ERROR
    ensures RunMachine(b, h, m, env, complete).m.core.state == BOOT_COMPLETE
  {
    hide Transition;
  }
}
