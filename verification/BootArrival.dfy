/** Where an attempt ends: after how many of its own calls a machine is in BOOT_COMPLETE, which machines never
    get there, and when the end of booting is therefore reported (services/boot/hss_boot_service.c). */
module BootArrival {
  import opened Words
  import opened BootImage
  import opened BootSpec
  import opened BootProtocol
  import opened BootRuns
  import opened BootProgress
  import opened BootAcks
  import opened BootCompletion

  // ---------------------------------------------------------------- how far it is

  /** The hart boots by itself and has chunks, but no entry point: BOOT_OPENSBI_INIT has nothing for it to do,
      not even to leave. */
  predicate Stranded(b: Board, h: nat)
    requires WellFormed(b) && h < HARTS
  {
    var hart := b.image.harts[h];
    !hart.skipAutoboot && hart.numChunks > 0 && hart.entryPoint == 0
  }

  /** From entering BOOT_OPENSBI_INIT: one call for each hart, one to leave it, one in BOOT_WAIT. */
  function StartCalls(b: Board, h: nat): nat
    requires WellFormed(b) && h < HARTS
  {
    if b.image.harts[h].entryPoint == 0 then 0 else HARTS + 2
  }

  function DownloadCalls(b: Board, h: nat): nat
    requires WellFormed(b) && h < HARTS
  {
    var hart := b.image.harts[h];
    if hart.numChunks == 0 then 1 else Budget(b, h, hart.firstChunk, 0) + StartCalls(b, h)
  }

  /** From BOOT_INITIALIZATION to BOOT_COMPLETE, or to BOOT_OPENSBI_INIT for a stranded hart: one call each to see
      memory ready, request and await the PMP setup; that is all for a hart that is not to boot by itself. Then
      one for each zero-init entry and the sentinel, and the download; without chunks that is one call. */
  function ArrivalCalls(b: Board, h: nat): nat
    requires WellFormed(b) && h < HARTS
  {
    if b.image.harts[h].skipAutoboot then 3 else 3 + |b.image.ziChunks| + DownloadCalls(b, h)
  }

  /** What is left of that. */
  function ToGo(b: Board, h: nat, m: Machine): nat
    requires Shaped(b, h, m)
  {
    var s, entering, hart := m.core.state, m.core.prevState != m.core.state, b.image.harts[h];
    if s == BOOT_INITIALIZATION then ArrivalCalls(b, h)
    else if s == BOOT_SETUP_PMP then ArrivalCalls(b, h) - 1
    else if s == BOOT_SETUP_PMP_COMPLETE then ArrivalCalls(b, h) - 2
    else if s == BOOT_ZERO_INIT_CHUNKS then
      |b.image.ziChunks| - (if entering then 0 else m.ziChunk) + DownloadCalls(b, h)
    else if s == BOOT_DOWNLOAD_CHUNKS then
      if hart.numChunks == 0 then 1 else DownloadLeft(b, h, m) + StartCalls(b, h)
    else if s == BOOT_OPENSBI_INIT && hart.entryPoint != 0 then
      if entering || m.peerIndex > HARTS then HARTS + 2 else HARTS + 2 - m.peerIndex
    else if s == BOOT_WAIT then 1
    else 0
  }

  /** Somewhere on the way, with messages from `msgs` outstanding only; in BOOT_COMPLETE the flag is still to be
      raised. */
  ghost predicate Underway(b: Board, h: nat, m: Machine, msgs: set<nat>)
    requires Shaped(b, h, m)
  {
    var s, p := m.core.state, m.core.prevState;
    && s in {BOOT_INITIALIZATION, BOOT_SETUP_PMP, BOOT_SETUP_PMP_COMPLETE, BOOT_ZERO_INIT_CHUNKS, BOOT_DOWNLOAD_CHUNKS,
             BOOT_OPENSBI_INIT, BOOT_WAIT, BOOT_COMPLETE}
    && PmpForgotten(m)
    && (s == BOOT_SETUP_PMP_COMPLETE && m.msgIndex.Some? ==> m.msgIndex.value in msgs)
    && (s in {BOOT_ZERO_INIT_CHUNKS, BOOT_DOWNLOAD_CHUNKS, BOOT_OPENSBI_INIT, BOOT_WAIT} ==>
          !b.image.harts[h].skipAutoboot)
    && (s == BOOT_WAIT || (s == BOOT_OPENSBI_INIT && p == s) ==>
          forall g: nat :: g < HARTS && m.msgIndexAux[g].Some? ==> m.msgIndexAux[g].value in msgs)
    && (s == BOOT_COMPLETE ==> p != s && !Stranded(b, h))
  }

  /** It has raised its flag. */
  predicate Home(m: Machine) {
    m.core.state == BOOT_IDLE || (m.core.state == BOOT_COMPLETE && m.core.prevState == BOOT_COMPLETE)
  }

  // ---------------------------------------------------------------- one call

  lemma EntryArrives(b: Board, h: nat, m: Machine, env: Env, v: View, msgs: set<nat>)
    requires MachineOk(b, h, m, v) && Underway(b, h, m, msgs) && env.newMessage in msgs && m.core.state != BOOT_COMPLETE
    ensures var t := Transition(b, h, m, env).m; Underway(b, h, t, msgs) && ToGo(b, h, t) == ToGo(b, h, m)
  {
    CallsPositive(b, h);
    hide CopyFrom, ZeroFrom, Peers, CallsLeft, Budget;
  }

  lemma CallsPositive(b: Board, h: nat)
    requires WellFormed(b) && h < HARTS
    ensures b.image.harts[h].numChunks > 0 ==>
      CallsLeft(b, h, StartCursor(b, h)) == Budget(b, h, b.image.harts[h].firstChunk, 0) > 0
  {
    if b.image.harts[h].numChunks > 0 { CallsAreBudget(b, h, b.image.harts[h].firstChunk, 0); }
  }

  lemma HandlerArrives(b: Board, h: nat, m: Machine, env: Env, complete: seq<bool>, v: View, msgs: set<nat>)
    requires Entered(b, h, m, v) && Underway(b, h, m, msgs) && Willing(env, msgs) && ToGo(b, h, m) > 0
    ensures var n := Handler(b, h, m.core.state, m, env, complete).m;
      && n.core.prevState == m.core.state && Underway(b, h, n, msgs) && ToGo(b, h, n) == ToGo(b, h, m) - 1
  {
    var s := m.core.state;
    if s == BOOT_WAIT {
      HandlerWaits(b, h, m, env);
    } else if s == BOOT_DOWNLOAD_CHUNKS {
      DownloadArrives(b, h, m, env, v, msgs);
    } else {
      OtherArrives(b, h, m, env, complete, v, msgs);
    }
  }

  lemma DownloadArrives(b: Board, h: nat, m: Machine, env: Env, v: View, msgs: set<nat>)
    requires Entered(b, h, m, v) && Underway(b, h, m, msgs) && m.core.state == BOOT_DOWNLOAD_CHUNKS
    ensures var n := DownloadHandler(b, h, m).m;
      && n.core.prevState == m.core.state && Underway(b, h, n, msgs) && ToGo(b, h, n) == ToGo(b, h, m) - 1
  {
    hide CopyFrom, ZeroFrom, Peers, Budget, CopyAt;
  }

  lemma OtherArrives(b: Board, h: nat, m: Machine, env: Env, complete: seq<bool>, v: View, msgs: set<nat>)
    requires Entered(b, h, m, v) && Underway(b, h, m, msgs) && Willing(env, msgs) && ToGo(b, h, m) > 0
    requires m.core.state != BOOT_WAIT && m.core.state != BOOT_DOWNLOAD_CHUNKS
    ensures var n := Handler(b, h, m.core.state, m, env, complete).m;
      && n.core.prevState == m.core.state && Underway(b, h, n, msgs) && ToGo(b, h, n) == ToGo(b, h, m) - 1
  {
    CallsPositive(b, h);
    if m.core.state == BOOT_SETUP_PMP_COMPLETE { AcksWhenNone(m.msgIndexAux, env.completed, 0, true); }
    hide CopyFrom, ZeroFrom, Peers, CallsLeft, Budget, CopyAt;
  }

  /** A call that nothing holds up brings the machine one call nearer. */
  lemma CallArrives(b: Board, h: nat, m: Machine, env: Env, complete: seq<bool>, v: View, msgs: set<nat>)
    requires MachineOk(b, h, m, v) && |complete| == HARTS && Willing(env, msgs)
    requires Underway(b, h, m, msgs) && ToGo(b, h, m) > 0
    ensures var n := RunMachine(b, h, m, env, complete).m;
      Underway(b, h, n, msgs) && ToGo(b, h, n) == ToGo(b, h, m) - 1
  {
    hide Transition, Handler;
    var t := Transition(b, h, m, env);
    TransitionOk(b, h, m, env, v);
    EntryArrives(b, h, m, env, v, msgs);
    HandlerArrives(b, h, t.m, env, Completing(h, m, complete), LookAll(v, t.events, h), msgs);
  }

  /** At the end of the way a stranded machine stays where it is; any other raises its flag and keeps it up. */
  lemma CallStays(b: Board, h: nat, m: Machine, env: Env, complete: seq<bool>, v: View, msgs: set<nat>)
    requires MachineOk(b, h, m, v) && |complete| == HARTS && Willing(env, msgs)
    requires Home(m) || (Underway(b, h, m, msgs) && ToGo(b, h, m) == 0)
    ensures var n := RunMachine(b, h, m, env, complete).m;
      if !Home(m) && m.core.state == BOOT_OPENSBI_INIT then Underway(b, h, n, msgs) && ToGo(b, h, n) == 0
        && n.core.state == BOOT_OPENSBI_INIT
      else Home(n)
    ensures Completing(h, m, complete)[h] == (complete[h] || (m.core.state == BOOT_COMPLETE && !Home(m)))
  {
    CallsPositive(b, h);
    hide CopyFrom, ZeroFrom, Peers, CallsLeft, Budget;
  }

  lemma EndOfTheWay(b: Board, h: nat, m: Machine, v: View, msgs: set<nat>)
    requires MachineOk(b, h, m, v) && Underway(b, h, m, msgs)
    ensures ToGo(b, h, m) == 0 <==> m.core.state == if Stranded(b, h) then BOOT_OPENSBI_INIT else BOOT_COMPLETE
    ensures !Home(m) && m.core.state != BOOT_IDLE && (Stranded(b, h) ==> m.core.state != BOOT_COMPLETE)
  {
    CallsPositive(b, h);
  }

  // ---------------------------------------------------------------- runs

  /** After `calls` calls of its own, of which `way` were needed. */
  ghost predicate Along(b: Board, h: nat, m: Machine, up: bool, was: bool, way: nat, calls: nat, msgs: set<nat>)
    requires Shaped(b, h, m)
  {
    if Stranded(b, h) then
      Underway(b, h, m, msgs) && up == was && ToGo(b, h, m) == if calls < way then way - calls else 0
    else if calls <= way then Underway(b, h, m, msgs) && up == was && ToGo(b, h, m) == way - calls
    else Home(m) && up
  }

  lemma AlongCall(b: Board, w: World, h: nat, env: Env, was: bool, way: nat, calls: nat, msgs: set<nat>, mem: seq<byte>)
    requires WorldOk(b, w, mem) && h < HARTS && Willing(env, msgs)
    requires Along(b, h, w.machines[h], w.complete[h], was, way, calls, msgs)
    ensures var v := Step(b, w, Call(h, env)); Along(b, h, v.machines[h], v.complete[h], was, way, calls + 1, msgs)
  {
    hide RunMachine, MachineOk, ToGo, Underway;
    var m := w.machines[h];
    if Underway(b, h, m, msgs) { EndOfTheWay(b, h, m, ViewOf(w.log, h), msgs); }
    if Underway(b, h, m, msgs) && ToGo(b, h, m) > 0 {
      CallArrives(b, h, m, env, w.complete, ViewOf(w.log, h), msgs);
    } else {
      CallStays(b, h, m, env, w.complete, ViewOf(w.log, h), msgs);
    }
  }

  lemma OthersKeepFlag(b: Board, w: World, a: Action, h: nat)
    requires Sane(b, w) && (a.Call? ==> a.h < HARTS) && h < HARTS && !(a.Call? && a.h == h)
    ensures Step(b, w, a).complete[h] == w.complete[h]
  {
  }

  lemma {:induction false} StaysAlong(b: Board, w: World, actions: seq<Action>, h: nat, msgs: set<nat>, mem: seq<byte>)
    requires WorldOk(b, w, mem) && Possible(actions) && h < HARTS && Undisturbed(actions, h)
      && AllWilling(actions, h, msgs)
    requires w.machines[h].core.state == BOOT_INITIALIZATION
    ensures var v := Run(b, w, actions);
      && WorldOk(b, v, mem)
      && Along(b, h, v.machines[h], v.complete[h], w.complete[h], ArrivalCalls(b, h), CallsOf(actions, h), msgs)
    decreases |actions|
  {
    hide Step, MachineOk;
    if actions != [] {
      var before, a := actions[..|actions| - 1], actions[|actions| - 1];
      StaysAlong(b, w, before, h, msgs, mem);
      var v := Run(b, w, before);
      hide Along;
      match a
      case Call(g, env) =>
        CallStepKeeps(b, v, g, env, mem);
        if g == h {
          AlongCall(b, v, h, env, w.complete[h], ArrivalCalls(b, h), CallsOf(before, h), msgs, mem);
        } else {
          Others(b, v, a, h);
          OthersKeepFlag(b, v, a, h);
        }
      case Restart(harts) =>
        RestartStepKeeps(b, v, harts, mem);
        Others(b, v, a, h);
        OthersKeepFlag(b, v, a, h);
    }
  }

  /** Whatever the other machines do: with calls that nothing holds up, a machine is in BOOT_COMPLETE, or idle after
      it, exactly from its prescribed number of own calls on, and its flag is up from the next one on. A stranded
      machine is in BOOT_OPENSBI_INIT from then on instead, and raises no flag. */
  lemma Arrives(b: Board, w: World, actions: seq<Action>, h: nat, msgs: set<nat>, mem: seq<byte>)
    requires WorldOk(b, w, mem) && Possible(actions) && h < HARTS && Undisturbed(actions, h)
      && AllWilling(actions, h, msgs)
    requires w.machines[h].core.state == BOOT_INITIALIZATION
    ensures var v, calls := Run(b, w, actions), CallsOf(actions, h);
      var s := v.machines[h].core.state;
      if Stranded(b, h) then
        && (s == BOOT_OPENSBI_INIT <==> calls >= ArrivalCalls(b, h))
        && s != BOOT_COMPLETE && s != BOOT_IDLE && v.complete[h] == w.complete[h]
      else
        && (s == BOOT_COMPLETE || s == BOOT_IDLE <==> calls >= ArrivalCalls(b, h))
        && (v.complete[h] <==> w.complete[h] || calls > ArrivalCalls(b, h))
  {
    hide Run, MachineOk, ToGo;
    StaysAlong(b, w, actions, h, msgs, mem);
    var v := Run(b, w, actions);
    if Underway(b, h, v.machines[h], msgs) { EndOfTheWay(b, h, v.machines[h], ViewOf(v.log, h), msgs); }
  }

  // ---------------------------------------------------------------- all harts

  /** The calls of every machine are ones that nothing holds up, there are enough of each, and no machine is
      restarted. */
  ghost predicate Plenty(b: Board, actions: seq<Action>, msgs: seq<set<nat>>)
    requires WellFormed(b) && |msgs| == HARTS
  {
    forall h: nat :: h < HARTS ==>
      Undisturbed(actions, h) && AllWilling(actions, h, msgs[h]) && CallsOf(actions, h) > ArrivalCalls(b, h)
  }

  /** From a point of a run where all machines are at the beginning and none has completed before: in whatever
      order they are then called, all flags come up, and the end of booting is reported, exactly if no hart is
      stranded. */
  lemma AllArrive(b: Board, mem: seq<byte>, before: seq<Action>, actions: seq<Action>, msgs: seq<set<nat>>)
    requires WellFormed(b) && Possible(before) && Possible(actions) && |msgs| == HARTS && Plenty(b, actions, msgs)
    ensures var w, v := Run(b, Initial(b, mem), before), Run(b, Initial(b, mem), before + actions);
      AtStart(w) ==>
        && (false !in v.complete <==> forall h: nat :: h < HARTS ==> !Stranded(b, h))
        && (Reported(v.log) <==> forall h: nat :: h < HARTS ==> !Stranded(b, h))
  {
    hide Run, MachineOk, ArrivalCalls, Stranded, Reported;
    var w, v := Run(b, Initial(b, mem), before), Run(b, Initial(b, mem), before + actions);
    RunKeeps(b, mem, before);
    RunConcat(b, Initial(b, mem), before, actions);
    ReportedWhenAllUp(b, mem, before + actions);
    if AtStart(w) {
      forall h: nat | h < HARTS ensures v.complete[h] <==> !Stranded(b, h) { Arrives(b, w, actions, h, msgs[h], mem); }
      AllUp(v.complete);
    }
  }

  predicate AtStart(w: World) {
    && |w.machines| == HARTS && |w.complete| == HARTS
    && forall h :: 0 <= h < HARTS ==> w.machines[h].core.state == BOOT_INITIALIZATION && !w.complete[h]
  }

  lemma AllUp(complete: seq<bool>)
    ensures false !in complete <==> forall i :: 0 <= i < |complete| ==> complete[i]
  {
  }
}
