/** Which action of a run each log entry comes from, and what that action met: no event without its cause
    (services/boot/hss_boot_service.c). */
module BootCauses {
  import opened Words
  import opened MemoryOps
  import opened BootImage
  import opened BootLayout
  import opened BootSpec
  import opened BootProtocol
  import opened BootRuns

  // ---------------------------------------------------------------- what an event needs

  /** The start message goes to a hart with the sender's own entry point, which is not zero, and is a GOTO
      exactly if that hart's flags say to skip OpenSBI. */
  predicate RightMessage(b: Board, h: nat, to: nat, kind: Kind)
    requires WellFormed(b)
  {
    && h < HARTS && to < HARTS
    && b.image.harts[to].entryPoint == b.image.harts[h].entryPoint && b.image.harts[h].entryPoint != 0
    && (kind == Goto <==> b.image.harts[to].skipOpenSbi)
  }

  /** A fill is an entry of the zero-init table for the hart, made in DDR only when that is trained; a copy
      is a piece of a chunk for the hart. */
  ghost predicate RightWrite(b: Board, h: nat, op: Op, env: Env)
    requires WellFormed(b)
  {
    match op
    case Fill(dst, len) =>
      && (exists k :: 0 <= k < |b.image.ziChunks| && b.image.ziChunks[k] == ZiChunk(h + 1, dst, len))
      && (InDdr(b, dst) ==> env.ddrTrained)
    case Copy(dst, src, len) =>
      exists k :: 0 <= k < |b.image.chunks| && b.image.chunks[k].owner == h + 1 && PieceOf(b, k, dst, src, len)
  }

  /** A call that met `env` may cause event `e`. */
  ghost predicate Allows(b: Board, env: Env, e: BootEvent)
    requires WellFormed(b)
  {
    match e
    case Restarted(_) => false
    case Ready(_) => env.ddrTrained && env.startupComplete && env.imageRegistered
    case PmpRequested(_, msg) => msg == env.newMessage
    case PmpCompleted(_, msg) => msg in env.completed && !env.timedOut
    case Wrote(h, op) => RightWrite(b, h, op, env)
    case Delivered(h, to, kind, _) => RightMessage(b, h, to, kind)
    case _ => true
  }

  /** Action `a` may cause event `e`: a call of the event's own machine, or a restart of its hart. */
  ghost predicate Warrants(b: Board, a: Action, e: BootEvent)
    requires WellFormed(b)
  {
    match a
    case Call(h, env) => h == e.h && Allows(b, env, e)
    case Restart(harts) => e.Restarted? && e.h in harts
  }

  ghost predicate AllAllowed(b: Board, env: Env, events: seq<BootEvent>)
    requires WellFormed(b)
  {
    forall i :: 0 <= i < |events| ==> Allows(b, env, events[i])
  }

  // ---------------------------------------------------------------- one call

  lemma TransitionAllowed(b: Board, h: nat, m: Machine, env: Env, v: View)
    requires MachineOk(b, h, m, v)
    ensures AllAllowed(b, env, Transition(b, h, m, env).events)
  {
    hide CopyFrom, ZeroFrom, Peers, RightWrite;
  }

  lemma WriteAllowed(b: Board, h: nat, m: Machine, env: Env, v: View)
    requires Entered(b, h, m, v) && m.core.state in {BOOT_ZERO_INIT_CHUNKS, BOOT_DOWNLOAD_CHUNKS}
    ensures AllAllowed(b, env, Handler(b, h, m.core.state, m, env, []).events)
  {
    HandlerOwns(b, h, m, env, [], v);
    var es := Handler(b, h, m.core.state, m, env, []).events;
    forall i | 0 <= i < |es| ensures Allows(b, env, es[i]) { assert LegalEvent(b, es[i]); }
  }

  lemma HandlerAllowed(b: Board, h: nat, m: Machine, env: Env, complete: seq<bool>, v: View)
    requires Entered(b, h, m, v)
    ensures AllAllowed(b, env, Handler(b, h, m.core.state, m, env, complete).events)
  {
    if m.core.state in {BOOT_ZERO_INIT_CHUNKS, BOOT_DOWNLOAD_CHUNKS} {
      WriteAllowed(b, h, m, env, v);
    }
  }

  lemma CallAllowed(b: Board, h: nat, m: Machine, env: Env, complete: seq<bool>, v: View)
    requires MachineOk(b, h, m, v) && |complete| == HARTS
    ensures AllAllowed(b, env, RunMachine(b, h, m, env, complete).events)
  {
    hide Handler, Transition, Allows;
    var t := Transition(b, h, m, env);
    TransitionAllowed(b, h, m, env, v);
    TransitionOk(b, h, m, env, v);
    HandlerAllowed(b, h, t.m, env, Completing(h, m, complete), LookAll(v, t.events, h));
  }

  // ---------------------------------------------------------------- runs

  /** Position `i` of the log was written by action `k`. */
  ghost predicate LoggedBy(b: Board, w: World, actions: seq<Action>, i: nat, k: nat)
    requires Sane(b, w) && Possible(actions) && k < |actions|
  {
    |Before(b, w, actions, k).log| <= i < |Before(b, w, actions, k + 1).log|
  }

  /** What one action adds to the log, and that the action warrants it. */
  lemma StepWarrants(b: Board, w: World, a: Action, mem: seq<byte>)
    requires WorldOk(b, w, mem) && (a.Call? ==> a.h < HARTS)
    ensures var log := Step(b, w, a).log;
      && w.log <= log
      && forall i :: |w.log| <= i < |log| ==> Warrants(b, a, log[i])
  {
    hide RunMachine, MachineOk, Allows;
    match a
    case Call(h, env) =>
      var es := RunMachine(b, h, w.machines[h], env, w.complete).events;
      CallAllowed(b, h, w.machines[h], env, w.complete, ViewOf(w.log, h));
      CallOwns(b, h, w.machines[h], env, w.complete, ViewOf(w.log, h));
      forall i | |w.log| <= i < |w.log + es| ensures Warrants(b, a, (w.log + es)[i]) {
        assert (w.log + es)[i] == es[i - |w.log|];
      }
    case Restart(harts) =>
      RestartsRequested(w.machines, harts, HARTS);
  }

  lemma {:induction false} RestartsRequested(machines: seq<Machine>, harts: set<nat>, n: nat)
    requires n <= |machines|
    ensures forall i :: 0 <= i < |RestartLog(machines, harts, n)| ==>
      RestartLog(machines, harts, n)[i].Restarted? && RestartLog(machines, harts, n)[i].h in harts
    decreases n
  {
    if n > 0 { RestartsRequested(machines, harts, n - 1); }
  }

  /** Action `k` wrote position `i` of the log, and warrants it. */
  ghost predicate CausedBy(b: Board, w: World, actions: seq<Action>, i: nat, k: nat)
    requires Sane(b, w) && Possible(actions) && WellFormed(b) && i < |Run(b, w, actions).log|
  {
    k < |actions| && LoggedBy(b, w, actions, i, k) && Warrants(b, actions[k], Run(b, w, actions).log[i])
  }

  /** In every run each log entry was written by an action that warrants it. */
  lemma {:induction false} EventsAreCaused(b: Board, mem: seq<byte>, actions: seq<Action>, i: nat)
    requires WellFormed(b) && Possible(actions) && i < |Run(b, Initial(b, mem), actions).log|
    ensures exists k: nat :: CausedBy(b, Initial(b, mem), actions, i, k)
    decreases |actions|
  {
    hide Step, Warrants, WorldOk;
    var w, n := Initial(b, mem), |actions| - 1;
    if actions != [] {
      RunKeeps(b, mem, actions[..n]);
      StepWarrants(b, Run(b, w, actions[..n]), actions[n], mem);
      WholeRun(b, w, actions);
      if i < |Before(b, w, actions, n).log| {
        EventsAreCaused(b, mem, actions[..n], i);
        var k: nat :| CausedBy(b, w, actions[..n], i, k);
        SameBefore(b, w, actions, n, k);
        assert CausedBy(b, w, actions, i, k);
      } else {
        assert CausedBy(b, w, actions, i, n);
      }
    }
  }

  lemma WholeRun(b: Board, w: World, actions: seq<Action>)
    requires Sane(b, w) && Possible(actions)
    ensures Before(b, w, actions, |actions|) == Run(b, w, actions)
  {
    assert actions[..|actions|] == actions;
  }

  lemma SameBefore(b: Board, w: World, actions: seq<Action>, n: nat, k: nat)
    requires Sane(b, w) && Possible(actions) && k < n <= |actions|
    ensures Before(b, w, actions[..n], k) == Before(b, w, actions, k)
    ensures Before(b, w, actions[..n], k + 1) == Before(b, w, actions, k + 1)
  {
    hide Run;
    assert actions[..n][..k] == actions[..k] && actions[..n][..k + 1] == actions[..k + 1];
  }

  // ---------------------------------------------------------------- the events of an attempt

  /** Position `r` was written by a call that met trained DDR and a complete startup. */
  ghost predicate SawReady(b: Board, w: World, actions: seq<Action>, h: nat, r: nat)
    requires Sane(b, w) && Possible(actions)
  {
    exists k: nat :: k < |actions| && LoggedBy(b, w, actions, r, k) && MetReady(actions[k], h)
  }

  predicate MetReady(a: Action, h: nat) { a.Call? && a.h == h && a.env.ddrTrained && a.env.startupComplete }

  /** Position `c` was written by a call at which message `msg` had been answered. */
  ghost predicate SawAnswer(b: Board, w: World, actions: seq<Action>, h: nat, msg: nat, c: nat)
    requires Sane(b, w) && Possible(actions)
  {
    exists k: nat :: k < |actions| && LoggedBy(b, w, actions, c, k) && MetAnswer(actions[k], h, msg)
  }

  predicate MetAnswer(a: Action, h: nat, msg: nat) { a.Call? && a.h == h && msg in a.env.completed }

  lemma ReadyIsSeen(b: Board, mem: seq<byte>, actions: seq<Action>, h: nat, r: nat)
    requires WellFormed(b) && Possible(actions) && r < |Run(b, Initial(b, mem), actions).log|
    ensures Run(b, Initial(b, mem), actions).log[r] == Ready(h) ==> SawReady(b, Initial(b, mem), actions, h, r)
  {
    hide Run, LoggedBy;
    EventsAreCaused(b, mem, actions, r);
  }

  lemma CompletionIsAnswered(b: Board, mem: seq<byte>, actions: seq<Action>, h: nat, msg: nat, c: nat)
    requires WellFormed(b) && Possible(actions) && c < |Run(b, Initial(b, mem), actions).log|
    ensures Run(b, Initial(b, mem), actions).log[c] == PmpCompleted(h, msg) ==>
      SawAnswer(b, Initial(b, mem), actions, h, msg, c)
  {
    hide Run, LoggedBy;
    EventsAreCaused(b, mem, actions, c);
  }

  /** Every start message of every run is one to a hart of the sender's set, of the kind its flags ask for. */
  lemma MessagesAreRight(b: Board, mem: seq<byte>, actions: seq<Action>, i: nat)
    requires WellFormed(b) && Possible(actions) && i < |Run(b, Initial(b, mem), actions).log|
    ensures var e := Run(b, Initial(b, mem), actions).log[i];
      e.Delivered? ==> RightMessage(b, e.h, e.to, e.kind)
  {
    hide Run, LoggedBy;
    EventsAreCaused(b, mem, actions, i);
  }
}
