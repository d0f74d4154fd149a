/** How many calls an attempt takes, in any interleaving with the other machines. */
module BootProgress {
  import opened Words
  import opened BootImage
  import opened BootSpec
  import opened BootProtocol
  import opened BootRuns
  import opened BootStart

  // ---------------------------------------------------------------- counting one machine's calls

  function CallsOf(actions: seq<Action>, h: nat): nat {
    if actions == [] then 0 else
    var before, a := CallsOf(actions[..|actions| - 1], h), actions[|actions| - 1];
    if a.Call? && a.h == h then before + 1 else before
  }

  predicate Spared(a: Action, h: nat) { a.Restart? ==> h !in a.harts }

  ghost predicate Undisturbed(actions: seq<Action>, h: nat) {
    forall i :: 0 <= i < |actions| ==> Spared(actions[i], h)
  }

  lemma Others(b: Board, w: World, a: Action, h: nat)
    requires Sane(b, w) && (a.Call? ==> a.h < HARTS) && h < HARTS && Spared(a, h) && !(a.Call? && a.h == h)
    ensures Step(b, w, a).machines[h] == w.machines[h]
  {
  }

  lemma {:induction false} RunConcat(b: Board, w: World, first: seq<Action>, rest: seq<Action>)
    requires Sane(b, w) && Possible(first) && Possible(rest)
    ensures Run(b, w, first + rest) == Run(b, Run(b, w, first), rest)
    decreases |rest|
  {
    if rest == [] {
      assert first + rest == first;
    } else {
      assert (first + rest)[..|first + rest| - 1] == first + rest[..|rest| - 1];
      RunConcat(b, w, first, rest[..|rest| - 1]);
    }
  }

  // ---------------------------------------------------------------- a visit to the download state

  function DownloadLeft(b: Board, h: nat, m: Machine): nat
    requires Shaped(b, h, m) && b.image.harts[h].numChunks > 0
  {
    if m.core.state != BOOT_DOWNLOAD_CHUNKS then 0
    else CallsLeft(b, h, if m.core.prevState == BOOT_DOWNLOAD_CHUNKS then m.cursor else StartCursor(b, h))
  }

  function Visited(m: Machine): nat {
    if m.core.prevState == BOOT_DOWNLOAD_CHUNKS then m.core.executionCount else 0
  }

  lemma DownloadCall(b: Board, h: nat, m: Machine, env: Env, complete: seq<bool>)
    requires Shaped(b, h, m) && |complete| == HARTS && b.image.harts[h].numChunks > 0
    requires m.core.state == BOOT_DOWNLOAD_CHUNKS
    ensures var n := RunMachine(b, h, m, env, complete).m;
      && n.core.prevState == BOOT_DOWNLOAD_CHUNKS
      && n.core.state in {BOOT_DOWNLOAD_CHUNKS, BOOT_OPENSBI_INIT}
      && Visited(n) == Visited(m) + 1
      && DownloadLeft(b, h, n) == DownloadLeft(b, h, m) - 1
  {
  }

  /** Whatever else runs and whatever the environment, a visit to the download state is left, for
      BOOT_OPENSBI_INIT, at exactly its budgeted number of calls. */
  lemma {:induction false} DownloadVisit(b: Board, w: World, actions: seq<Action>, h: nat)
    requires Sane(b, w) && Possible(actions) && h < HARTS && Undisturbed(actions, h)
    requires WellFormed(b) && b.image.harts[h].numChunks > 0
    requires w.machines[h].core.state == BOOT_DOWNLOAD_CHUNKS && w.machines[h].core.prevState != BOOT_DOWNLOAD_CHUNKS
    requires CallsOf(actions, h) <= Budget(b, h, b.image.harts[h].firstChunk, 0)
    ensures var n, calls := Run(b, w, actions).machines[h], CallsOf(actions, h);
      && n.core.state == (if calls == Budget(b, h, b.image.harts[h].firstChunk, 0) then BOOT_OPENSBI_INIT
        else BOOT_DOWNLOAD_CHUNKS)
      && (calls == 0 ==> n == w.machines[h])
      && (calls > 0 ==> n.core.prevState == BOOT_DOWNLOAD_CHUNKS && n.core.executionCount == calls)
  {
    CallsAreBudget(b, h, b.image.harts[h].firstChunk, 0);
    DownloadCounts(b, w, actions, h);
  }

  lemma {:induction false} DownloadCounts(b: Board, w: World, actions: seq<Action>, h: nat)
    requires Sane(b, w) && Possible(actions) && h < HARTS && Undisturbed(actions, h)
    requires WellFormed(b) && b.image.harts[h].numChunks > 0
    requires w.machines[h].core.state == BOOT_DOWNLOAD_CHUNKS && w.machines[h].core.prevState != BOOT_DOWNLOAD_CHUNKS
    requires CallsOf(actions, h) <= DownloadLeft(b, h, w.machines[h])
    ensures var m, n, calls := w.machines[h], Run(b, w, actions).machines[h], CallsOf(actions, h);
      && n.core.state in {BOOT_DOWNLOAD_CHUNKS, BOOT_OPENSBI_INIT}
      && DownloadLeft(b, h, n) == DownloadLeft(b, h, m) - calls
      && Visited(n) == calls
      && if calls == 0 then n == m else n.core.prevState == BOOT_DOWNLOAD_CHUNKS
    decreases |actions|
  {
    if actions != [] {
      var before, a := actions[..|actions| - 1], actions[|actions| - 1];
      DownloadCounts(b, w, before, h);
      var v := Run(b, w, before);
      if a.Call? && a.h == h {
        DownloadCall(b, h, v.machines[h], a.env, v.complete);
      } else {
        Others(b, v, a, h);
      }
    }
  }

  // ---------------------------------------------------------------- a whole attempt

  /** Calls until the machine has decided to leave BOOT_OPENSBI_INIT, if nothing holds it up. */
  function Remaining(b: Board, h: nat, m: Machine): nat
    requires Shaped(b, h, m) && Primary(b, h) && m.peerIndex <= HARTS
  {
    var s, entering := m.core.state, m.core.prevState != m.core.state;
    var download := Budget(b, h, b.image.harts[h].firstChunk, 0);
    var start := HARTS + 1;
    if s == BOOT_INITIALIZATION then 3 + |b.image.ziChunks| + download + start
    else if s == BOOT_SETUP_PMP then 2 + |b.image.ziChunks| + download + start
    else if s == BOOT_SETUP_PMP_COMPLETE then 1 + |b.image.ziChunks| + download + start
    else if s == BOOT_ZERO_INIT_CHUNKS then |b.image.ziChunks| - (if entering then 0 else m.ziChunk) + download + start
    else if s == BOOT_DOWNLOAD_CHUNKS then DownloadLeft(b, h, m) + start
    else if s == BOOT_OPENSBI_INIT then start - (if entering then 0 else m.peerIndex)
    else 0
  }

  /** Nothing holds the machine up: memory is ready, no timeout, and its messages are answered. */
  predicate Willing(env: Env, msgs: set<nat>) {
    && env.ddrTrained && env.startupComplete && env.imageRegistered && !env.timedOut
    && env.newMessage in msgs && msgs <= env.completed
  }

  /** The machine is somewhere in an attempt, or has just finished sending to its peers. */
  predicate Attempting(m: Machine, msgs: set<nat>) {
    && (m.core.state in {BOOT_INITIALIZATION, BOOT_SETUP_PMP, BOOT_SETUP_PMP_COMPLETE, BOOT_ZERO_INIT_CHUNKS,
                         BOOT_DOWNLOAD_CHUNKS, BOOT_OPENSBI_INIT} || Leaving(m))
    && (m.core.state == BOOT_SETUP_PMP_COMPLETE && m.msgIndex.Some? ==> m.msgIndex.value in msgs)
    && m.peerIndex <= HARTS
  }

  lemma EntryCounts(b: Board, h: nat, m: Machine, env: Env, v: View)
    requires MachineOk(b, h, m, v) && Primary(b, h) && m.peerIndex <= HARTS
    ensures var t := Transition(b, h, m, env).m; t.peerIndex <= HARTS && Remaining(b, h, t) == Remaining(b, h, m)
    ensures m.core.state == BOOT_SETUP_PMP_COMPLETE ==> Transition(b, h, m, env).m.msgIndex == m.msgIndex
  {
    CallsAreBudget(b, h, b.image.harts[h].firstChunk, 0);
  }

  lemma HandlerCounts(b: Board, h: nat, m: Machine, env: Env, complete: seq<bool>, v: View, msgs: set<nat>)
    requires Entered(b, h, m, v) && Primary(b, h) && !b.image.harts[h].skipAutoboot
    requires Attempting(m, msgs) && Willing(env, msgs)
    ensures var n := Handler(b, h, m.core.state, m, env, complete).m;
      && n.core.prevState == m.core.state && n.peerIndex <= HARTS
      && Attempting(n, msgs) && Remaining(b, h, n) == Remaining(b, h, m) - 1
  {
    CallsAreBudget(b, h, b.image.harts[h].firstChunk, 0);
    if m.core.state == BOOT_SETUP_PMP_COMPLETE { AcksWhenNone(m.msgIndexAux, env.completed, 0, true); }
  }

  /** An undisturbed call of an attempt brings it one call nearer. */
  lemma CallCounts(b: Board, h: nat, m: Machine, env: Env, complete: seq<bool>, v: View, msgs: set<nat>)
    requires MachineOk(b, h, m, v) && |complete| == HARTS && Primary(b, h) && !b.image.harts[h].skipAutoboot
    requires Attempting(m, msgs) && !Leaving(m) && Willing(env, msgs)
    ensures var n := RunMachine(b, h, m, env, complete).m;
      n.peerIndex <= HARTS && Attempting(n, msgs) && Remaining(b, h, n) == Remaining(b, h, m) - 1
  {
    var t := Transition(b, h, m, env);
    TransitionOk(b, h, m, env, v);
    EntryCounts(b, h, m, env, v);
    HandlerCounts(b, h, t.m, env, Completing(h, m, complete), LookAll(v, t.events, h), msgs);
  }

  ghost predicate AllWilling(actions: seq<Action>, h: nat, msgs: set<nat>) {
    forall i :: 0 <= i < |actions| && actions[i].Call? && actions[i].h == h ==> Willing(actions[i].env, msgs)
  }

  /** An undisturbed attempt takes exactly its number of calls, in any interleaving. */
  lemma {:induction false} AttemptCounts(b: Board, w: World, actions: seq<Action>, h: nat, msgs: set<nat>,
      mem: seq<byte>)
    requires WorldOk(b, w, mem) && Possible(actions) && h < HARTS && Undisturbed(actions, h)
      && AllWilling(actions, h, msgs)
    requires Primary(b, h) && !b.image.harts[h].skipAutoboot && Attempting(w.machines[h], msgs)
    requires CallsOf(actions, h) <= Remaining(b, h, w.machines[h])
    ensures var n := Run(b, w, actions).machines[h];
      Attempting(n, msgs) && Remaining(b, h, n) == Remaining(b, h, w.machines[h]) - CallsOf(actions, h)
    ensures WorldOk(b, Run(b, w, actions), mem)
    decreases |actions|
  {
    if actions != [] {
      var before, a := actions[..|actions| - 1], actions[|actions| - 1];
      AttemptCounts(b, w, before, h, msgs, mem);
      var v := Run(b, w, before);
      match a
      case Call(g, env) =>
        CallStepKeeps(b, v, g, env, mem);
        if g == h {
          CallCounts(b, h, v.machines[h], env, v.complete, ViewOf(v.log, h), msgs);
        } else {
          Others(b, v, a, h);
        }
      case Restart(harts) =>
        RestartStepKeeps(b, v, harts, mem);
        Others(b, v, a, h);
    }
  }

  /** One call each to see memory ready, request and await the PMP setup, pass over each zero-init entry
      and the sentinel, then the download's budget, then one for each hart and one more. */
  function Attempt(b: Board, h: nat): nat
    requires WellFormed(b) && h < HARTS && Primary(b, h)
  {
    3 + |b.image.ziChunks| + Budget(b, h, b.image.harts[h].firstChunk, 0) + HARTS + 1
  }

  /** From BOOT_INITIALIZATION, at that many of its own calls and no sooner the machine is leaving
      BOOT_OPENSBI_INIT. */
  lemma AttemptTakes(b: Board, w: World, actions: seq<Action>, h: nat, msgs: set<nat>, mem: seq<byte>)
    requires WorldOk(b, w, mem) && Possible(actions) && h < HARTS && Undisturbed(actions, h)
      && AllWilling(actions, h, msgs)
    requires Primary(b, h) && !b.image.harts[h].skipAutoboot
    requires w.machines[h].core.state == BOOT_INITIALIZATION && w.machines[h].peerIndex <= HARTS
    requires CallsOf(actions, h) <= Attempt(b, h)
    ensures Leaving(Run(b, w, actions).machines[h]) <==> CallsOf(actions, h) == Attempt(b, h)
  {
    AttemptCounts(b, w, actions, h, msgs, mem);
    RemainingPositive(b, h, Run(b, w, actions).machines[h], ViewOf(Run(b, w, actions).log, h), msgs);
  }

  lemma RemainingPositive(b: Board, h: nat, m: Machine, v: View, msgs: set<nat>)
    requires MachineOk(b, h, m, v) && Primary(b, h) && Attempting(m, msgs)
    ensures Remaining(b, h, m) == 0 <==> Leaving(m)
  {
  }

  // ---------------------------------------------------------------- the window is always reachable

  const READY := Env(true, true, true, false, 0, {0})

  function Repeat(a: Action, n: nat): seq<Action> { seq(n, _ => a) }

  lemma {:induction false} RepeatCounts(h: nat, env: Env, n: nat)
    ensures CallsOf(Repeat(Call(h, env), n), h) == n
  {
    if n > 0 {
      assert Repeat(Call(h, env), n)[..n - 1] == Repeat(Call(h, env), n - 1);
      RepeatCounts(h, env, n - 1);
    }
  }

  /** Restart hart `h` and run it for a whole attempt. */
  function OneAttempt(b: Board, h: nat): seq<Action>
    requires WellFormed(b) && h < HARTS && Primary(b, h)
  {
    [Restart({h})] + Repeat(Call(h, READY), Attempt(b, h))
  }

  lemma AttemptFrom(b: Board, w: World, h: nat, mem: seq<byte>)
    requires WorldOk(b, w, mem) && h < HARTS && Primary(b, h) && !b.image.harts[h].skipAutoboot
    requires w.machines[h] == To(Fresh(), BOOT_INITIALIZATION)
    ensures Leaving(Run(b, w, Repeat(Call(h, READY), Attempt(b, h))).machines[h])
  {
    var calls := Repeat(Call(h, READY), Attempt(b, h));
    RepeatCounts(h, READY, Attempt(b, h));
    AttemptTakes(b, w, calls, h, {0}, mem);
  }

  lemma RestartedFresh(b: Board, h: nat, mem: seq<byte>)
    requires WellFormed(b) && h < HARTS
    ensures Run(b, Initial(b, mem), [Restart({h})]).machines[h] == To(Fresh(), BOOT_INITIALIZATION)
  {
    assert [Restart({h})][..0] == [];
    assert Run(b, Initial(b, mem), []) == Initial(b, mem);
  }

  lemma AttemptLeaves(b: Board, h: nat, mem: seq<byte>)
    requires WellFormed(b) && h < HARTS && Primary(b, h) && !b.image.harts[h].skipAutoboot
    ensures Possible(OneAttempt(b, h)) && Leaving(Run(b, Initial(b, mem), OneAttempt(b, h)).machines[h])
  {
    var w0, restart, calls := Initial(b, mem), [Restart({h})], Repeat(Call(h, READY), Attempt(b, h));
    RunKeeps(b, mem, restart);
    RestartedFresh(b, h, mem);
    var w := Run(b, w0, restart);
    AttemptFrom(b, w, h, mem);
    RunConcat(b, w0, restart, calls);
  }

  /** So for every hart that boots by itself there is a run with an unjustified start message. */
  lemma UnjustifiedRun(b: Board, h: nat, mem: seq<byte>)
    requires WellFormed(b) && h < HARTS && Primary(b, h) && !b.image.harts[h].skipAutoboot
    ensures var actions := OneAttempt(b, h) + [Restart({h}), Call(h, READY)];
      Possible(actions)
      && !AllJustified(b, Run(b, Initial(b, mem), actions).log) && !AllEvident(Run(b, Initial(b, mem), actions).log)
  {
    var n, actions, w0 := |OneAttempt(b, h)|, OneAttempt(b, h) + [Restart({h}), Call(h, READY)], Initial(b, mem);
    AttemptLeaves(b, h, mem);
    assert actions[..n] == OneAttempt(b, h);
    assert LateRestart(b, w0, actions, n, h);
    assert actions[n + 1] == Call(h, READY) && CalledAfter(actions, n, h);
    JustifiedIffNotCaught(b, mem, actions);
    EvidentIffNotCaught(b, mem, actions);
  }
}
