/** The boot machines are among those whose hooks leave `state` alone, so their calls have the visit
    shape that the engine guarantees for such machines. */
module BootEngine {
  import opened Words
  import opened BootImage
  import opened BootSpec
  import StateMachine

  /** What a boot machine's run looks like to the engine: calls, and writes to `state` by restarts. */
  function EngineSteps(b: Board, w: World, actions: seq<Action>, h: nat): seq<StateMachine.Step>
    requires Sane(b, w) && Possible(actions) && h < HARTS
  {
    if actions == [] then [] else
    var before, a := actions[..|actions| - 1], actions[|actions| - 1];
    var steps := EngineSteps(b, w, before, h);
    var was, now := Run(b, w, before).machines[h].core.state, Run(b, w, actions).machines[h].core.state;
    match a
    case Call(g, _) => if g == h then steps + [StateMachine.Run(StateMachine.Call(was, was, now))] else steps
    case Restart(harts) => if h in harts then steps + [StateMachine.Write(now)] else steps
  }

  lemma CallIsEngineCall(b: Board, h: nat, m: Machine, env: Env, complete: seq<bool>)
    requires Shaped(b, h, m) && |complete| == HARTS
    ensures var n := RunMachine(b, h, m, env, complete).m.core;
      n == StateMachine.Next(m.core, StateMachine.Call(m.core.state, m.core.state, n.state))
  {
  }

  lemma QuietGrows(c: StateMachine.Core, steps: seq<StateMachine.Step>, more: StateMachine.Step)
    requires StateMachine.Quiet(c, steps, |steps|)
    requires var at := StateMachine.RunCore(c, steps); more.Run? ==> StateMachine.AfterHooks(at, more.call) == at.state
    ensures StateMachine.Quiet(c, steps + [more], |steps| + 1)
    ensures StateMachine.RunCore(c, steps + [more]) == StateMachine.StepCore(StateMachine.RunCore(c, steps), more)
  {
    var all := steps + [more];
    assert all[..|steps|] == steps;
    forall i: nat | i < |all| ensures !StateMachine.HooksMove(c, all, i) {
      if i < |steps| { assert all[..i] == steps[..i] && !StateMachine.HooksMove(c, steps, i); }
    }
  }

  /** The engine, fed with those steps, is where the boot machine is, and its hooks were quiet. */
  lemma {:induction false} EngineFollows(b: Board, w: World, actions: seq<Action>, h: nat)
    requires Sane(b, w) && Possible(actions) && h < HARTS
    ensures var steps := EngineSteps(b, w, actions, h);
      && StateMachine.RunCore(w.machines[h].core, steps) == Run(b, w, actions).machines[h].core
      && StateMachine.InRange(steps, BOOT_NUM_STATES)
      && StateMachine.Quiet(w.machines[h].core, steps, |steps|)
    decreases |actions|
  {
    if actions != [] {
      var before, a := actions[..|actions| - 1], actions[|actions| - 1];
      EngineFollows(b, w, before, h);
      var m, now, steps := Run(b, w, before).machines[h], Run(b, w, actions).machines[h].core.state,
        EngineSteps(b, w, before, h);
      match a
      case Call(g, env) =>
        if g == h {
          CallIsEngineCall(b, h, m, env, Run(b, w, before).complete);
          QuietGrows(w.machines[h].core, steps, StateMachine.Run(StateMachine.Call(m.core.state, m.core.state, now)));
        }
      case Restart(harts) =>
        if h in harts { QuietGrows(w.machines[h].core, steps, StateMachine.Write(now)); }
    }
  }

  /** Every boot machine's hooks and handlers, in any run, are called in complete visits but for the last. */
  lemma BootVisits(b: Board, mem: seq<byte>, actions: seq<Action>, h: nat) returns (vs: seq<StateMachine.Visit>)
    requires WellFormed(b) && Possible(actions) && h < HARTS
    ensures var core := Run(b, Initial(b, mem), actions).machines[h].core;
      var steps := EngineSteps(b, Initial(b, mem), actions, h);
      && StateMachine.Proper(vs)
      && StateMachine.Trace(Fresh().core, steps, BOOT_NUM_STATES) == StateMachine.Render(vs)
      && (vs != [] ==> vs[|vs| - 1] == StateMachine.Visit(core.prevState, core.executionCount))
  {
    EngineFollows(b, Initial(b, mem), actions, h);
    vs := StateMachine.TraceShape(BOOT_IDLE, EngineSteps(b, Initial(b, mem), actions, h), BOOT_NUM_STATES);
  }
}
