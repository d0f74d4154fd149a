/** When start messages are delivered: only after a full attempt, unless a restart catches a machine
    between deciding to leave BOOT_OPENSBI_INIT and leaving it. */
module BootStart {
  import opened Words
  import opened MemoryOps
  import opened BootImage
  import opened BootLayout
  import opened BootScript
  import opened BootSpec
  import opened BootProtocol
  import opened BootRuns
  import opened BootCauses

  // ---------------------------------------------------------------- what a stage means

  /** The current attempt of hart `h` began at `r`: it saw DDR trained and startup complete then, and no
      restart has reset the machine since. */
  ghost predicate Begun(log: seq<BootEvent>, h: nat, r: nat) {
    && r < |log| && log[r] == Ready(h)
    && forall i :: r < i < |log| ==> log[i] != Restarted(h)
  }

  /** ... then had its PMP setup requested at `q` and completed, by that very message, at `c`, ... */
  ghost predicate Protected(log: seq<BootEvent>, h: nat, r: nat, q: nat, c: nat) {
    && Begun(log, h, r) && r < q < c < |log|
    && log[q].PmpRequested? && log[q].h == h && log[c] == PmpCompleted(h, log[q].msg)
  }

  /** ... then finished its zero-init pass at `z` and its download at `d`. */
  ghost predicate Finished(log: seq<BootEvent>, h: nat, r: nat, q: nat, c: nat, z: nat, d: nat) {
    Protected(log, h, r, q, c) && c < z < d < |log| && log[z] == Zeroed(h) && log[d] == Downloaded(h)
  }

  ghost predicate Means(log: seq<BootEvent>, h: nat, s: Stage, r: nat, q: nat, c: nat, z: nat, d: nat) {
    && (s.Seen? ==> Begun(log, h, r))
    && (s.Requested? ==> Begun(log, h, r) && r < q < |log| && log[q] == PmpRequested(h, s.msg))
    && (s.PmpDone? ==> Protected(log, h, r, q, c))
    && (s.ZeroDone? ==> Protected(log, h, r, q, c) && c < z < |log| && log[z] == Zeroed(h))
    && (s.Loaded? ==> Finished(log, h, r, q, c, z, d))
  }

  lemma {:induction false} StageMeans(log: seq<BootEvent>, h: nat) returns (r: nat, q: nat, c: nat, z: nat, d: nat)
    ensures Means(log, h, ViewOf(log, h).stage, r, q, c, z, d)
    decreases |log|
  {
    if log == [] {
      r, q, c, z, d := 0, 0, 0, 0, 0;
    } else {
      var n := |log| - 1;
      r, q, c, z, d := StageMeans(log[..n], h);
      var e := log[n];
      if e.h == h {
        if e.Ready? { r := n; }
        if e.PmpRequested? { q := n; }
        if e.PmpCompleted? { c := n; }
        if e.Zeroed? { z := n; }
        if e.Downloaded? { d := n; }
      }
    }
  }

  // ---------------------------------------------------------------- justified messages

  /** The delivery at position `i` comes from an attempt that has done all its work. */
  ghost predicate Justified(b: Board, log: seq<BootEvent>, i: nat)
    requires WellFormed(b) && i < |log|
  {
    log[i].Delivered? ==>
      var h, v := log[i].h, ViewOf(log[..i], log[i].h);
      h < HARTS && v.stage.Loaded? && b.image.harts[h].numChunks > 0 && v.ops == Script(b, h)
  }

  ghost predicate AllJustified(b: Board, log: seq<BootEvent>)
    requires WellFormed(b)
  {
    forall i :: 0 <= i < |log| ==> Justified(b, log, i)
  }

  /** Behind position `i`, hart `h` has a finished attempt, which began in a call that met trained DDR and a
      complete startup, and whose PMP setup completed in one at which its message had been answered. */
  ghost predicate Earned(b: Board, w: World, actions: seq<Action>, h: nat, i: nat)
    requires Sane(b, w) && Possible(actions) && i < |Run(b, w, actions).log|
  {
    exists r: nat, q: nat, c: nat, z: nat, d: nat :: EarnedAt(b, w, actions, h, i, r, q, c, z, d)
  }

  ghost predicate EarnedAt(b: Board, w: World, actions: seq<Action>, h: nat, i: nat, r: nat, q: nat, c: nat, z: nat,
      d: nat)
    requires Sane(b, w) && Possible(actions) && i < |Run(b, w, actions).log|
  {
    var log := Run(b, w, actions).log;
    && Finished(log[..i], h, r, q, c, z, d)
    && SawReady(b, w, actions, h, r) && SawAnswer(b, w, actions, h, log[q].msg, c)
  }

  /** A justified delivery has the whole attempt behind it, and the hart's chunks are in memory. */
  lemma JustifiedMeans(b: Board, mem: seq<byte>, img: seq<byte>, actions: seq<Action>, i: nat)
    requires Layout(b, |mem|) && ImageIntact(b, mem, img) && Possible(actions)
    requires i < |Run(b, Initial(b, mem), actions).log|
    ensures var log := Run(b, Initial(b, mem), actions).log;
      log[i].Delivered? && Justified(b, log, i) ==>
        && Earned(b, Initial(b, mem), actions, log[i].h, i)
        && InPlace(b, log[i].h, Exec(OpsOf(log[..i]), mem), img)
  {
    var w := Initial(b, mem);
    RunKeeps(b, mem, actions);
    hide Run, InPlace, Layout, Script, Placed, Separate, WellFormed, MachineOk;
    var log := Run(b, w, actions).log;
    if log[i].Delivered? && Justified(b, log, i) {
      FinishedIsEarned(b, mem, actions, log[i].h, i);
      InPlaceThen(b, mem, img, log, i);
    }
  }

  lemma InPlaceThen(b: Board, mem: seq<byte>, img: seq<byte>, log: seq<BootEvent>, i: nat)
    requires Layout(b, |mem|) && ImageIntact(b, mem, img) && LegalLog(b, log)
    requires i < |log| && log[i].Delivered? && Justified(b, log, i)
    ensures InPlace(b, log[i].h, Exec(OpsOf(log[..i]), mem), img)
  {
    ScriptInPlace(b, log[..i], log[i].h, mem, img);
  }

  lemma FinishedIsEarned(b: Board, mem: seq<byte>, actions: seq<Action>, h: nat, i: nat)
    requires WellFormed(b) && Possible(actions) && i < |Run(b, Initial(b, mem), actions).log|
    ensures var log := Run(b, Initial(b, mem), actions).log;
      ViewOf(log[..i], h).stage.Loaded? ==> Earned(b, Initial(b, mem), actions, h, i)
  {
    hide Run, SawReady, SawAnswer;
    var w := Initial(b, mem);
    var log := Run(b, w, actions).log;
    if ViewOf(log[..i], h).stage.Loaded? {
      var r, q, c, z, d := StageMeans(log[..i], h);
      ReadyIsSeen(b, mem, actions, h, r);
      CompletionIsAnswered(b, mem, actions, h, log[q].msg, c);
      assert EarnedAt(b, w, actions, h, i, r, q, c, z, d);
    }
  }

  lemma PrefixJustified(b: Board, log: seq<BootEvent>, more: seq<BootEvent>)
    requires WellFormed(b)
    ensures AllJustified(b, log + more) <==>
      AllJustified(b, log) && forall i :: |log| <= i < |log + more| ==> Justified(b, log + more, i)
  {
    forall i | 0 <= i < |log| ensures Justified(b, log + more, i) <==> Justified(b, log, i) {
      assert (log + more)[..i] == log[..i];
    }
  }

  lemma DeliversAtMostOnce(b: Board, h: nat, m: Machine, env: Env, complete: seq<bool>, v: View)
    requires MachineOk(b, h, m, v) && |complete| == HARTS && !LeftHanging(m)
    ensures var es := RunMachine(b, h, m, env, complete).events;
      if m.core.state == BOOT_OPENSBI_INIT || m.core.state == BOOT_WAIT then |es| <= 1
      else forall i :: 0 <= i < |es| ==> !es[i].Delivered?
  {
    hide CopyFrom, ZeroFrom;
  }

  /** A call of a machine that is not left hanging delivers with justification only. */
  lemma CallJustified(b: Board, h: nat, m: Machine, env: Env, complete: seq<bool>, log: seq<BootEvent>)
    requires MachineOk(b, h, m, ViewOf(log, h)) && |complete| == HARTS && !LeftHanging(m)
    ensures var es := RunMachine(b, h, m, env, complete).events;
      forall i :: |log| <= i < |log + es| ==> Justified(b, log + es, i)
  {
    hide RunMachine;
    var es := RunMachine(b, h, m, env, complete).events;
    DeliversAtMostOnce(b, h, m, env, complete, ViewOf(log, h));
    CallOwns(b, h, m, env, complete, ViewOf(log, h));
    forall i | |log| <= i < |log + es| ensures Justified(b, log + es, i) {
      assert (log + es)[i] == es[i - |log|];
      if es[i - |log|].Delivered? { assert i == |log| && (log + es)[..i] == log; }
    }
  }

  /** A call of a machine left hanging delivers straight after a restart. */
  lemma HangingUnjustified(b: Board, h: nat, m: Machine, env: Env, complete: seq<bool>, log: seq<BootEvent>)
    requires MachineOk(b, h, m, ViewOf(log, h)) && |complete| == HARTS && LeftHanging(m)
    ensures var es := RunMachine(b, h, m, env, complete).events;
      |es| > 0 && es[0].Delivered? && !Justified(b, log + es, |log|)
  {
    hide Handler, CopyFrom, ZeroFrom, Peers;
    var es := RunMachine(b, h, m, env, complete).events;
    assert BootSpec.Transition(b, h, m, env).events == [Delivered(h, h, KindFor(b, h), m.ancilliaryData)];
    assert (log + es)[..|log|] == log && es[0].Delivered?;
  }

  lemma RestartJustified(b: Board, machines: seq<Machine>, harts: set<nat>, log: seq<BootEvent>)
    requires WellFormed(b) && |machines| == HARTS
    ensures var es := RestartLog(machines, harts, HARTS);
      forall i :: |log| <= i < |log + es| ==> Justified(b, log + es, i)
  {
    RestartLogIs(machines, harts, HARTS);
    var es := RestartLog(machines, harts, HARTS);
    forall i | |log| <= i < |log + es| ensures Justified(b, log + es, i) {
      assert (log + es)[i] == es[i - |log|];
    }
  }

  // ---------------------------------------------------------------- the window that a restart must avoid

  /** The machine has decided to leave BOOT_OPENSBI_INIT and will send to itself when it next runs. */
  predicate Leaving(m: Machine) { m.core.state == BOOT_WAIT && m.core.prevState == BOOT_OPENSBI_INIT }

  /** Action `i` restarts hart `h` in that window. */
  ghost predicate LateRestart(b: Board, w: World, actions: seq<Action>, i: nat, h: nat)
    requires Sane(b, w) && Possible(actions) && i < |actions|
  {
    h < HARTS && actions[i].Restart? && h in actions[i].harts && Leaving(Run(b, w, actions[..i]).machines[h])
  }

  predicate CalledAfter(actions: seq<Action>, i: nat, h: nat) {
    exists j :: i < j < |actions| && actions[j].Call? && actions[j].h == h
  }

  ghost predicate Pending(b: Board, w: World, actions: seq<Action>, h: nat)
    requires Sane(b, w) && Possible(actions)
  {
    exists i: nat :: i < |actions| && LateRestart(b, w, actions, i, h) && !CalledAfter(actions, i, h)
  }

  /** Some machine was restarted in the window and has run since. */
  ghost predicate Caught(b: Board, w: World, actions: seq<Action>)
    requires Sane(b, w) && Possible(actions)
  {
    exists i: nat, h: nat :: i < |actions| && LateRestart(b, w, actions, i, h) && CalledAfter(actions, i, h)
  }

  lemma LateRestartBefore(b: Board, w: World, actions: seq<Action>, i: nat, h: nat)
    requires Sane(b, w) && Possible(actions) && i < |actions| - 1
    ensures LateRestart(b, w, actions, i, h) <==> LateRestart(b, w, actions[..|actions| - 1], i, h)
  {
    hide Step;
    assert actions[..|actions| - 1][..i] == actions[..i];
  }

  lemma CalledAfterBefore(actions: seq<Action>, i: nat, h: nat)
    requires i < |actions|
    ensures var last := actions[|actions| - 1];
      CalledAfter(actions, i, h) <==>
        CalledAfter(actions[..|actions| - 1], i, h) || (i < |actions| - 1 && last.Call? && last.h == h)
  {
    var n := |actions| - 1;
    if CalledAfter(actions[..n], i, h) {
      var j :| i < j < n && actions[..n][j].Call? && actions[..n][j].h == h;
      assert actions[j].Call?;
    }
    if CalledAfter(actions, i, h) {
      var j :| i < j < |actions| && actions[j].Call? && actions[j].h == h;
      if j < n { assert actions[..n][j].Call?; }
    }
  }

  lemma PendingNext(b: Board, w: World, actions: seq<Action>, h: nat)
    requires Sane(b, w) && Possible(actions) && |actions| > 0
    ensures var n := |actions| - 1;
      Pending(b, w, actions, h) <==>
        LateRestart(b, w, actions, n, h) || (Pending(b, w, actions[..n], h) && !(actions[n].Call? && actions[n].h == h))
  {
    hide Step;
    var n := |actions| - 1;
    if LateRestart(b, w, actions, n, h) {
      assert !CalledAfter(actions, n, h);
    }
    if Pending(b, w, actions, h) {
      var i: nat :| i < |actions| && LateRestart(b, w, actions, i, h) && !CalledAfter(actions, i, h);
      if i < n {
        LateRestartBefore(b, w, actions, i, h);
        CalledAfterBefore(actions, i, h);
      }
    }
    if Pending(b, w, actions[..n], h) && !(actions[n].Call? && actions[n].h == h) {
      var i: nat :| i < n && LateRestart(b, w, actions[..n], i, h) && !CalledAfter(actions[..n], i, h);
      LateRestartBefore(b, w, actions, i, h);
      CalledAfterBefore(actions, i, h);
    }
  }

  lemma CaughtSplits(b: Board, w: World, actions: seq<Action>)
    requires Sane(b, w) && Possible(actions) && |actions| > 0 && Caught(b, w, actions)
    ensures var n := |actions| - 1;
      Caught(b, w, actions[..n]) || (actions[n].Call? && Pending(b, w, actions[..n], actions[n].h))
  {
    hide Step;
    var n := |actions| - 1;
    var i: nat, h: nat :| i < |actions| && LateRestart(b, w, actions, i, h) && CalledAfter(actions, i, h);
    CalledNotLast(actions, i, h);
    LateRestartBefore(b, w, actions, i, h);
    if CalledAfter(actions[..n], i, h) {
      assert Caught(b, w, actions[..n]);
    } else {
      assert Pending(b, w, actions[..n], h);
    }
  }

  lemma CalledNotLast(actions: seq<Action>, i: nat, h: nat)
    requires i < |actions| && CalledAfter(actions, i, h)
    ensures var n := |actions| - 1;
      i < n && (!CalledAfter(actions[..n], i, h) ==> actions[n].Call? && actions[n].h == h)
  {
    CalledAfterBefore(actions, i, h);
  }

  lemma CaughtGrows(b: Board, w: World, actions: seq<Action>, i: nat, h: nat)
    requires Sane(b, w) && Possible(actions) && i < |actions| - 1
    requires LateRestart(b, w, actions[..|actions| - 1], i, h)
    requires var n := |actions| - 1; CalledAfter(actions[..n], i, h) || (actions[n].Call? && actions[n].h == h)
    ensures Caught(b, w, actions)
  {
    hide Step;
    LateRestartBefore(b, w, actions, i, h);
    CalledAfterBefore(actions, i, h);
  }

  lemma CaughtNext(b: Board, w: World, actions: seq<Action>)
    requires Sane(b, w) && Possible(actions) && |actions| > 0
    ensures var n := |actions| - 1;
      Caught(b, w, actions) <==>
        Caught(b, w, actions[..n]) || (actions[n].Call? && Pending(b, w, actions[..n], actions[n].h))
  {
    hide Step;
    var n := |actions| - 1;
    if Caught(b, w, actions) {
      CaughtSplits(b, w, actions);
    } else if Caught(b, w, actions[..n]) {
      var i: nat, h: nat :| i < n && LateRestart(b, w, actions[..n], i, h) && CalledAfter(actions[..n], i, h);
      CaughtGrows(b, w, actions, i, h);
    } else if actions[n].Call? && Pending(b, w, actions[..n], actions[n].h) {
      var h := actions[n].h;
      var i: nat :| i < n && LateRestart(b, w, actions[..n], i, h) && !CalledAfter(actions[..n], i, h);
      CaughtGrows(b, w, actions, i, h);
    }
  }

  lemma HangingStep(b: Board, w: World, a: Action, h: nat, mem: seq<byte>)
    requires WorldOk(b, w, mem) && (a.Call? ==> a.h < HARTS) && h < HARTS
    ensures LeftHanging(Step(b, w, a).machines[h]) <==>
      || (a.Restart? && h in a.harts && Leaving(w.machines[h]))
      || (LeftHanging(w.machines[h]) && !(a.Call? && a.h == h))
  {
    hide RunMachine;
    if a.Call? && a.h == h { RanOnce(b, h, w.machines[h], a.env, w.complete); }
  }

  /** A machine hangs exactly when it was restarted in the window and has not run since. */
  lemma {:induction false} HangingIffPending(b: Board, mem: seq<byte>, actions: seq<Action>, h: nat)
    requires WellFormed(b) && Possible(actions) && h < HARTS
    ensures LeftHanging(Run(b, Initial(b, mem), actions).machines[h]) <==> Pending(b, Initial(b, mem), actions, h)
    decreases |actions|
  {
    hide Step;
    if actions != [] {
      var n := |actions| - 1;
      HangingIffPending(b, mem, actions[..n], h);
      PendingNext(b, Initial(b, mem), actions, h);
      RunKeeps(b, mem, actions[..n]);
      HangingStep(b, Run(b, Initial(b, mem), actions[..n]), actions[n], h, mem);
    }
  }

  lemma RanOnce(b: Board, h: nat, m: Machine, env: Env, complete: seq<bool>)
    requires Shaped(b, h, m) && |complete| == HARTS
    ensures RunMachine(b, h, m, env, complete).m.core.prevState == m.core.state
    ensures !LeftHanging(RunMachine(b, h, m, env, complete).m)
  {
  }

  lemma JustifiedStep(b: Board, w: World, a: Action, mem: seq<byte>)
    requires WorldOk(b, w, mem) && (a.Call? ==> a.h < HARTS)
    ensures AllJustified(b, Step(b, w, a).log) <==> AllJustified(b, w.log) && !(a.Call? && LeftHanging(w.machines[a.h]))
  {
    hide RunMachine;
    match a
    case Restart(harts) =>
      RestartJustified(b, w.machines, harts, w.log);
      PrefixJustified(b, w.log, RestartLog(w.machines, harts, HARTS));
      assert Step(b, w, a).log == w.log + RestartLog(w.machines, harts, HARTS);
    case Call(h, env) =>
      var m := w.machines[h];
      PrefixJustified(b, w.log, RunMachine(b, h, m, env, w.complete).events);
      if LeftHanging(m) {
        HangingUnjustified(b, h, m, env, w.complete, w.log);
      } else {
        CallJustified(b, h, m, env, w.complete, w.log);
      }
  }

  lemma JustifiedNext(b: Board, mem: seq<byte>, actions: seq<Action>)
    requires WellFormed(b) && Possible(actions) && |actions| > 0
    ensures var n := |actions| - 1;
      AllJustified(b, Run(b, Initial(b, mem), actions).log) <==>
        AllJustified(b, Run(b, Initial(b, mem), actions[..n]).log)
        && !(actions[n].Call? && Pending(b, Initial(b, mem), actions[..n], actions[n].h))
  {
    hide Step;
    var n := |actions| - 1;
    RunKeeps(b, mem, actions[..n]);
    JustifiedStep(b, Run(b, Initial(b, mem), actions[..n]), actions[n], mem);
    if actions[n].Call? { HangingIffPending(b, mem, actions[..n], actions[n].h); }
  }

  /** Every start message in a run is justified exactly when no machine runs after a restart hit it in the
      window between its decision to leave BOOT_OPENSBI_INIT and its next call. */
  lemma {:induction false} JustifiedIffNotCaught(b: Board, mem: seq<byte>, actions: seq<Action>)
    requires WellFormed(b) && Possible(actions)
    ensures AllJustified(b, Run(b, Initial(b, mem), actions).log) <==> !Caught(b, Initial(b, mem), actions)
    decreases |actions|
  {
    hide Step;
    if actions != [] {
      var n := |actions| - 1;
      JustifiedIffNotCaught(b, mem, actions[..n]);
      CaughtNext(b, Initial(b, mem), actions);
      JustifiedNext(b, mem, actions);
    }
  }

  // ---------------------------------------------------------------- the same by the log alone

  /** An attempt that is not under way has not begun. */
  lemma {:induction false} UnreadyMeans(log: seq<BootEvent>, h: nat, r: nat)
    requires ViewOf(log, h).stage.Unready?
    ensures !Begun(log, h, r)
    decreases |log|
  {
    if Begun(log, h, r) {
      StaysUnready(log, h, r);
      UnreadyMeans(log[..|log| - 1], h, r);
    }
  }

  lemma StaysUnready(log: seq<BootEvent>, h: nat, r: nat)
    requires Begun(log, h, r) && ViewOf(log, h).stage.Unready?
    ensures |log| - 1 > r && ViewOf(log[..|log| - 1], h).stage.Unready? && Begun(log[..|log| - 1], h, r)
  {
  }

  /** The delivery at position `i` has a finished attempt behind it. */
  ghost predicate Evident(log: seq<BootEvent>, i: nat)
    requires i < |log|
  {
    log[i].Delivered? ==> exists r, q, c, z, d :: Finished(log[..i], log[i].h, r, q, c, z, d)
  }

  ghost predicate AllEvident(log: seq<BootEvent>) { forall i :: 0 <= i < |log| ==> Evident(log, i) }

  /** The delivery is justified, or its sender's attempt has not begun: nothing in between occurs. */
  ghost predicate Decided(b: Board, log: seq<BootEvent>, i: nat)
    requires WellFormed(b) && i < |log|
  {
    log[i].Delivered? ==> Justified(b, log, i) || ViewOf(log[..i], log[i].h).stage.Unready?
  }

  ghost predicate AllDecided(b: Board, log: seq<BootEvent>)
    requires WellFormed(b)
  {
    forall i :: 0 <= i < |log| ==> Decided(b, log, i)
  }

  lemma DecidedMeans(b: Board, log: seq<BootEvent>, i: nat)
    requires WellFormed(b) && i < |log| && Decided(b, log, i)
    ensures Evident(log, i) <==> Justified(b, log, i)
  {
    if log[i].Delivered? {
      var h := log[i].h;
      if Justified(b, log, i) {
        var r, q, c, z, d := StageMeans(log[..i], h);
      } else if r, q, c, z, d :| Finished(log[..i], h, r, q, c, z, d) {
        UnreadyMeans(log[..i], h, r);
      }
    }
  }

  lemma DecidedConcat(b: Board, log: seq<BootEvent>, more: seq<BootEvent>)
    requires WellFormed(b) && AllDecided(b, log)
    requires forall i :: |log| <= i < |log + more| ==> Decided(b, log + more, i)
    ensures AllDecided(b, log + more)
  {
    forall i | 0 <= i < |log + more| ensures Decided(b, log + more, i) {
      if i < |log| { assert (log + more)[..i] == log[..i] && Decided(b, log, i); }
    }
  }

  /** A machine left hanging delivers once, first thing, and as it was reset. */
  lemma HangingDecided(b: Board, h: nat, m: Machine, env: Env, complete: seq<bool>, log: seq<BootEvent>)
    requires MachineOk(b, h, m, ViewOf(log, h)) && |complete| == HARTS && LeftHanging(m)
    ensures var es := RunMachine(b, h, m, env, complete).events;
      forall i :: |log| <= i < |log + es| ==> Decided(b, log + es, i)
  {
    hide CopyFrom, ZeroFrom, Peers;
    var es := RunMachine(b, h, m, env, complete).events;
    assert Transition(b, h, m, env).events == [Delivered(h, h, KindFor(b, h), m.ancilliaryData)];
    assert forall i :: 0 < i < |es| ==> !es[i].Delivered?;
    assert (log + es)[..|log|] == log;
    forall i | |log| <= i < |log + es| ensures Decided(b, log + es, i) { assert (log + es)[i] == es[i - |log|]; }
  }

  lemma StepDecided(b: Board, w: World, a: Action, mem: seq<byte>)
    requires WorldOk(b, w, mem) && (a.Call? ==> a.h < HARTS) && AllDecided(b, w.log)
    ensures AllDecided(b, Step(b, w, a).log)
  {
    hide RunMachine, AllDecided;
    match a
    case Restart(harts) =>
      var es := RestartLog(w.machines, harts, HARTS);
      RestartLogIs(w.machines, harts, HARTS);
      forall i | |w.log| <= i < |w.log + es|
        ensures Decided(b, w.log + es, i) { assert (w.log + es)[i] == es[i - |w.log|]; }
      DecidedConcat(b, w.log, es);
    case Call(h, env) =>
      var m := w.machines[h];
      if LeftHanging(m) {
        HangingDecided(b, h, m, env, w.complete, w.log);
      } else {
        CallJustified(b, h, m, env, w.complete, w.log);
      }
      DecidedConcat(b, w.log, RunMachine(b, h, m, env, w.complete).events);
  }

  lemma {:induction false} RunDecided(b: Board, mem: seq<byte>, actions: seq<Action>)
    requires WellFormed(b) && Possible(actions)
    ensures AllDecided(b, Run(b, Initial(b, mem), actions).log)
    decreases |actions|
  {
    hide Step;
    if actions != [] {
      RunDecided(b, mem, actions[..|actions| - 1]);
      RunKeeps(b, mem, actions[..|actions| - 1]);
      StepDecided(b, Run(b, Initial(b, mem), actions[..|actions| - 1]), actions[|actions| - 1], mem);
    }
  }

  /** Every start message in a run has a finished attempt behind it exactly when no machine runs after
      such a restart. */
  lemma EvidentIffNotCaught(b: Board, mem: seq<byte>, actions: seq<Action>)
    requires WellFormed(b) && Possible(actions)
    ensures AllEvident(Run(b, Initial(b, mem), actions).log) <==> !Caught(b, Initial(b, mem), actions)
  {
    hide Run, Justified, Evident, Caught;
    var log := Run(b, Initial(b, mem), actions).log;
    JustifiedIffNotCaught(b, mem, actions);
    RunDecided(b, mem, actions);
    forall i | 0 <= i < |log| ensures Evident(log, i) <==> Justified(b, log, i) { DecidedMeans(b, log, i); }
  }

  ghost predicate AllEarned(b: Board, w: World, actions: seq<Action>)
    requires Sane(b, w) && Possible(actions)
  {
    var log := Run(b, w, actions).log;
    forall i :: 0 <= i < |log| && log[i].Delivered? ==> Earned(b, w, actions, log[i].h, i)
  }

  /** Nor is it otherwise with what the calls behind it met. */
  lemma EarnedIffNotCaught(b: Board, mem: seq<byte>, actions: seq<Action>)
    requires WellFormed(b) && Possible(actions)
    ensures AllEarned(b, Initial(b, mem), actions) <==> !Caught(b, Initial(b, mem), actions)
  {
    var w := Initial(b, mem);
    hide Run, Justified, Caught, Finished, SawReady, SawAnswer;
    var log := Run(b, w, actions).log;
    EvidentIffNotCaught(b, mem, actions);
    RunDecided(b, mem, actions);
    forall i: nat | i < |log| && log[i].Delivered? ensures Evident(log, i) <==> Earned(b, w, actions, log[i].h, i) {
      var h := log[i].h;
      DecidedMeans(b, log, i);
      FinishedIsEarned(b, mem, actions, h, i);
      if Justified(b, log, i) { JustifiedIsLoaded(b, log, i); }
      if r: nat, q: nat, c: nat, z: nat, d: nat :| EarnedAt(b, w, actions, h, i, r, q, c, z, d) {
        assert Finished(log[..i], h, r, q, c, z, d);
      }
    }
  }

  lemma JustifiedIsLoaded(b: Board, log: seq<BootEvent>, i: nat)
    requires WellFormed(b) && i < |log| && log[i].Delivered? && Justified(b, log, i)
    ensures ViewOf(log[..i], log[i].h).stage.Loaded?
  {
  }

  // ---------------------------------------------------------------- whom one visit sends to

  predicate SameEntry(b: Board, h: nat, to: nat)
    requires WellFormed(b) && h < HARTS
  {
    to < HARTS && b.image.harts[to].entryPoint == b.image.harts[h].entryPoint
  }

  predicate SentTo(sent: seq<(nat, Kind)>, to: nat) { exists i :: 0 <= i < |sent| && sent[i].0 == to }

  /** Exactly one message to each hart with the same entry point and none to any other, of the kind the
      receiver's own flag asks for, peers in table order and the sender itself last. */
  ghost predicate ExactlyTheSet(b: Board, h: nat, sent: seq<(nat, Kind)>)
    requires WellFormed(b) && h < HARTS
  {
    && |sent| > 0 && sent[|sent| - 1].0 == h
    && (forall to :: SentTo(sent, to) <==> SameEntry(b, h, to))
    && (forall i :: 0 <= i < |sent| ==>
          sent[i].0 < HARTS && (sent[i].1 == Goto <==> b.image.harts[sent[i].0].skipOpenSbi))
    && (forall i, j :: 0 <= i < j < |sent| ==> sent[i].0 != sent[j].0)
    && (forall i, j :: 0 <= i < j < |sent| - 1 ==> sent[i].0 < sent[j].0)
  }

  lemma StartMessagesExact(b: Board, h: nat)
    requires WellFormed(b) && h < HARTS
    ensures ExactlyTheSet(b, h, StartMessages(b, h))
  {
    PeersAre(b, h, HARTS);
    var peers, sent := Peers(b, h, HARTS), StartMessages(b, h);
    forall to ensures SentTo(sent, to) <==> SameEntry(b, h, to) {
      if SameEntry(b, h, to) {
        if to == h {
          assert sent[|peers|].0 == to;
        } else {
          var i :| 0 <= i < |peers| && peers[i].0 == to;
          assert sent[i].0 == to;
        }
      }
      if SentTo(sent, to) {
        var i :| 0 <= i < |sent| && sent[i].0 == to;
        if i < |peers| { assert peers[i].0 == to; }
      }
    }
  }

  /** In every run, a machine that has left BOOT_OPENSBI_INIT has, since its download ended, sent exactly
      the messages it should. */
  lemma VisitDelivers(b: Board, mem: seq<byte>, actions: seq<Action>, h: nat)
    requires WellFormed(b) && Possible(actions) && h < HARTS
    requires Run(b, Initial(b, mem), actions).machines[h].core.state == BOOT_WAIT
    requires Run(b, Initial(b, mem), actions).machines[h].core.prevState == BOOT_WAIT
    ensures Primary(b, h)
    ensures ExactlyTheSet(b, h, ViewOf(Run(b, Initial(b, mem), actions).log, h).sent)
  {
    RunKeeps(b, mem, actions);
    StartMessagesExact(b, h);
  }
}
