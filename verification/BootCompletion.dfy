/** When the boot service as a whole is done: the flags that BOOT_COMPLETE raises are never lowered
    (services/boot/hss_boot_service.c). */
module BootCompletion {
  import opened Words
  import opened BootImage
  import opened BootSpec
  import opened BootProtocol
  import opened BootRuns

  ghost predicate HasCompleted(log: seq<BootEvent>, h: nat) { exists i :: 0 <= i < |log| && log[i] == Completed(h) }

  /** Whoever goes idle at position `i` does so after every machine has completed some attempt. */
  ghost predicate DoneBefore(log: seq<BootEvent>, i: nat)
    requires i < |log|
  {
    log[i].Idled? ==> forall g: nat :: g < HARTS ==> HasCompleted(log[..i], g)
  }

  lemma HasCompletedConcat(log: seq<BootEvent>, more: seq<BootEvent>, h: nat)
    ensures HasCompleted(log + more, h) <==> HasCompleted(log, h) || HasCompleted(more, h)
  {
    if HasCompleted(log, h) {
      var i :| 0 <= i < |log| && log[i] == Completed(h);
      assert (log + more)[i] == Completed(h);
    }
    if HasCompleted(more, h) {
      var i :| 0 <= i < |more| && more[i] == Completed(h);
      assert (log + more)[|log| + i] == Completed(h);
    }
  }

  /** Outside BOOT_COMPLETE a call shows nothing of completion. */
  lemma ElsewhereSilent(b: Board, h: nat, m: Machine, env: Env, complete: seq<bool>)
    requires Shaped(b, h, m) && |complete| == HARTS && m.core.state != BOOT_COMPLETE
    ensures var es := RunMachine(b, h, m, env, complete).events;
      forall i :: 0 <= i < |es| ==> !es[i].Completed? && !es[i].Idled? && !es[i].Restarted?
  {
    hide CopyFrom, ZeroFrom;
  }

  /** In it, the first call raises the flag, and each call goes idle if all flags are up by then. */
  lemma CompleteShows(b: Board, h: nat, m: Machine, env: Env, complete: seq<bool>, v: View)
    requires MachineOk(b, h, m, v) && |complete| == HARTS && m.core.state == BOOT_COMPLETE
    ensures RunMachine(b, h, m, env, complete).events
      == (if m.core.prevState != BOOT_COMPLETE then [Completed(h)] else [])
       + (if false !in Completing(h, m, complete) then [Idled(h)] else [])
  {
    hide CopyFrom, ZeroFrom;
  }

  ghost predicate FlagsRight(w: World) {
    && |w.complete| == HARTS
    && (forall h: nat :: h < HARTS ==> (w.complete[h] <==> HasCompleted(w.log, h)))
    && (forall i :: 0 <= i < |w.log| ==> DoneBefore(w.log, i))
  }

  lemma MoreEvents(log: seq<BootEvent>, more: seq<BootEvent>)
    requires forall i :: 0 <= i < |log| ==> DoneBefore(log, i)
    requires forall i :: 0 <= i < |more| && more[i].Idled? ==> forall g: nat :: g < HARTS ==>
      HasCompleted(log + more[..i], g)
    ensures forall i :: 0 <= i < |log + more| ==> DoneBefore(log + more, i)
  {
    forall i | 0 <= i < |log + more| ensures DoneBefore(log + more, i) {
      if i < |log| {
        assert (log + more)[..i] == log[..i] && DoneBefore(log, i);
      } else {
        assert (log + more)[..i] == log + more[..i - |log|];
      }
    }
  }

  lemma SilentStep(log: seq<BootEvent>, more: seq<BootEvent>, h: nat)
    requires forall i :: 0 <= i < |more| ==> !more[i].Completed?
    ensures HasCompleted(log + more, h) <==> HasCompleted(log, h)
  {
    HasCompletedConcat(log, more, h);
  }

  lemma CompleteStep(b: Board, w: World, h: nat, env: Env, mem: seq<byte>)
    requires WorldOk(b, w, mem) && FlagsRight(w) && h < HARTS && w.machines[h].core.state == BOOT_COMPLETE
    ensures FlagsRight(Step(b, w, Call(h, env)))
  {
    hide RunMachine;
    var m, now := w.machines[h], Completing(h, w.machines[h], w.complete);
    var es := RunMachine(b, h, m, env, w.complete).events;
    CompleteShows(b, h, m, env, w.complete, ViewOf(w.log, h));
    var first: seq<BootEvent> := if m.core.prevState != BOOT_COMPLETE then [Completed(h)] else [];
    forall g: nat | g < HARTS ensures now[g] <==> HasCompleted(w.log + first, g) {
      HasCompletedConcat(w.log, first, g);
      if first != [] && g == h { assert first[0] == Completed(g); }
    }
    forall g: nat | g < HARTS ensures HasCompleted(w.log + es, g) <==> HasCompleted(w.log + first, g) {
      assert w.log + es == (w.log + first) + es[|first|..];
      SilentStep(w.log + first, es[|first|..], g);
    }
    forall i | 0 <= i < |es| && es[i].Idled? ensures forall g: nat :: g < HARTS ==> HasCompleted(w.log + es[..i], g) {
      assert i == |first| && es[..i] == first;
      assert forall g :: 0 <= g < HARTS ==> now[g] in now;
    }
    MoreEvents(w.log, es);
  }

  lemma SilentFlags(w: World, v: World, es: seq<BootEvent>)
    requires FlagsRight(w) && v.complete == w.complete && v.log == w.log + es
    requires forall i :: 0 <= i < |es| ==> !es[i].Completed? && !es[i].Idled?
    ensures FlagsRight(v)
  {
    forall h: nat | h < HARTS ensures HasCompleted(v.log, h) <==> HasCompleted(w.log, h) { SilentStep(w.log, es, h); }
    MoreEvents(w.log, es);
  }

  lemma FlagsStep(b: Board, w: World, a: Action, mem: seq<byte>)
    requires WorldOk(b, w, mem) && FlagsRight(w) && (a.Call? ==> a.h < HARTS)
    ensures FlagsRight(Step(b, w, a))
  {
    hide RunMachine, MachineOk, FlagsRight;
    match a
    case Call(h, env) =>
      if w.machines[h].core.state == BOOT_COMPLETE {
        CompleteStep(b, w, h, env, mem);
      } else {
        ElsewhereSilent(b, h, w.machines[h], env, w.complete);
        SilentFlags(w, Step(b, w, a), RunMachine(b, h, w.machines[h], env, w.complete).events);
      }
    case Restart(harts) =>
      RestartLogIs(w.machines, harts, HARTS);
      SilentFlags(w, Step(b, w, a), RestartLog(w.machines, harts, HARTS));
  }

  /** In every run a machine's flag is up exactly when it has ever completed, and the service is never
      reported done before each machine has completed some attempt: not necessarily its current one. */
  lemma {:induction false} DoneAfterAll(b: Board, mem: seq<byte>, actions: seq<Action>)
    requires WellFormed(b) && Possible(actions)
    ensures FlagsRight(Run(b, Initial(b, mem), actions))
    decreases |actions|
  {
    hide Step;
    if actions != [] {
      var before := actions[..|actions| - 1];
      DoneAfterAll(b, mem, before);
      RunKeeps(b, mem, before);
      FlagsStep(b, Run(b, Initial(b, mem), before), actions[|actions| - 1], mem);
    }
  }

  // ---------------------------------------------------------------- the report

  ghost predicate Reported(log: seq<BootEvent>) { exists i :: 0 <= i < |log| && log[i].Idled? }

  /** The end of booting has been reported exactly if all flags are up. */
  ghost predicate ReportRight(w: World) { Reported(w.log) <==> false !in w.complete }

  lemma ReportedConcat(log: seq<BootEvent>, more: seq<BootEvent>)
    ensures Reported(log + more) <==> Reported(log) || Reported(more)
  {
    if i :| 0 <= i < |log| && log[i].Idled? { assert (log + more)[i].Idled?; }
    if i :| 0 <= i < |more| && more[i].Idled? { assert (log + more)[|log| + i].Idled?; }
  }

  lemma ReportStep(b: Board, w: World, a: Action, mem: seq<byte>)
    requires WorldOk(b, w, mem) && ReportRight(w) && (a.Call? ==> a.h < HARTS)
    ensures ReportRight(Step(b, w, a))
  {
    hide RunMachine, MachineOk;
    match a
    case Call(h, env) =>
      var m := w.machines[h];
      var es := RunMachine(b, h, m, env, w.complete).events;
      ReportedConcat(w.log, es);
      if m.core.state == BOOT_COMPLETE {
        CompleteShows(b, h, m, env, w.complete, ViewOf(w.log, h));
        var now := Completing(h, m, w.complete);
        var first, rest := if m.core.prevState != BOOT_COMPLETE then [Completed(h)] else [],
          if false !in now then [Idled(h)] else [];
        ReportedConcat(first, rest);
        if false !in now { assert rest[0].Idled?; }
        FlagsGrow(h, m, w.complete);
      } else {
        ElsewhereSilent(b, h, m, env, w.complete);
      }
    case Restart(harts) =>
      RestartLogIs(w.machines, harts, HARTS);
      ReportedConcat(w.log, RestartLog(w.machines, harts, HARTS));
  }

  lemma FlagsGrow(h: nat, m: Machine, complete: seq<bool>)
    requires h < |complete|
    ensures false !in complete ==> false !in Completing(h, m, complete)
  {
  }

  /** In every run the end of booting has been reported as soon as all flags are up, and not before. */
  lemma {:induction false} ReportedWhenAllUp(b: Board, mem: seq<byte>, actions: seq<Action>)
    requires WellFormed(b) && Possible(actions)
    ensures ReportRight(Run(b, Initial(b, mem), actions))
    decreases |actions|
  {
    hide Step;
    if actions != [] {
      var before := actions[..|actions| - 1];
      ReportedWhenAllUp(b, mem, before);
      RunKeeps(b, mem, before);
      ReportStep(b, Run(b, Initial(b, mem), before), actions[|actions| - 1], mem);
    }
  }

  /** The last of hart `h`'s reports and resets in the log was a report. */
  function Away(log: seq<BootEvent>, h: nat): bool {
    if log == [] then false else
    var e := log[|log| - 1];
    if e == Idled(h) then true else if e == Restarted(h) then false else Away(log[..|log| - 1], h)
  }

  /** Each report of a hart is its first since it was last reset. */
  ghost predicate ReportsOnce(log: seq<BootEvent>, h: nat) {
    forall i :: 0 <= i < |log| && log[i] == Idled(h) ==> !Away(log[..i], h)
  }

  lemma {:induction false} AwayMeans(log: seq<BootEvent>, h: nat)
    ensures Away(log, h) <==> exists j :: LastReport(log, h, j)
    decreases |log|
  {
    if log != [] {
      var n := |log| - 1;
      AwayMeans(log[..n], h);
      if log[n] == Idled(h) {
        assert LastReport(log, h, n);
      } else if log[n] != Restarted(h) {
        if j :| LastReport(log[..n], h, j) { assert LastReport(log, h, j); }
        if j :| LastReport(log, h, j) { assert LastReport(log[..n], h, j); }
      }
    }
  }

  ghost predicate LastReport(log: seq<BootEvent>, h: nat, j: int) {
    0 <= j < |log| && log[j] == Idled(h) && forall k :: j < k < |log| ==> log[k] != Restarted(h)
  }

  lemma {:induction false} AwayConcat(a: seq<BootEvent>, c: seq<BootEvent>, h: nat)
    ensures Away(a + c, h) <==>
      if Idled(h) in c || Restarted(h) in c then Away(c, h) else Away(a, h)
    decreases |c|
  {
    if c == [] {
      assert a + c == a;
    } else {
      var n := |c| - 1;
      assert (a + c)[..|a + c| - 1] == a + c[..n];
      AwayConcat(a, c[..n], h);
      assert c == c[..n] + [c[n]];
    }
  }

  /** A hart that has reported is in BOOT_IDLE until it is reset, and has reported once since. */
  ghost predicate OnceRight(b: Board, w: World, h: nat)
    requires Sane(b, w) && h < HARTS
  {
    (Away(w.log, h) ==> w.machines[h].core.state == BOOT_IDLE) && ReportsOnce(w.log, h)
  }

  lemma OnceQuiet(log: seq<BootEvent>, more: seq<BootEvent>, h: nat)
    requires ReportsOnce(log, h) && forall i :: 0 <= i < |more| ==> more[i] != Idled(h)
    ensures ReportsOnce(log + more, h)
  {
    forall i | 0 <= i < |log + more| && (log + more)[i] == Idled(h) ensures !Away((log + more)[..i], h) {
      assert i < |log| && (log + more)[..i] == log[..i];
    }
  }

  lemma OnceMore(log: seq<BootEvent>, first: seq<BootEvent>, h: nat)
    requires ReportsOnce(log, h) && !Away(log, h) && first in {[], [Completed(h)]}
    ensures ReportsOnce(log + (first + [Idled(h)]), h)
  {
    var whole := log + (first + [Idled(h)]);
    AwayConcat(log, first, h);
    forall i | 0 <= i < |whole| && whole[i] == Idled(h) ensures !Away(whole[..i], h) {
      if i < |log| {
        assert whole[..i] == log[..i];
      } else {
        assert whole[..i] == log + first;
      }
    }
  }

  lemma OnceStep(b: Board, w: World, a: Action, h: nat, mem: seq<byte>)
    requires WorldOk(b, w, mem) && (a.Call? ==> a.h < HARTS) && h < HARTS && OnceRight(b, w, h)
    ensures OnceRight(b, Step(b, w, a), h)
  {
    hide RunMachine, MachineOk;
    match a
    case Call(g, env) =>
      var m := w.machines[g];
      var es := RunMachine(b, g, m, env, w.complete).events;
      CallOwns(b, g, m, env, w.complete, ViewOf(w.log, g));
      AwayConcat(w.log, es, h);
      if g != h {
        OnceQuiet(w.log, es, h);
      } else if m.core.state == BOOT_COMPLETE {
        OnceCall(b, w, h, env, mem);
      } else {
        ElsewhereSilent(b, h, m, env, w.complete);
        StaysIdle(b, h, m, env, w.complete);
        OnceQuiet(w.log, es, h);
      }
    case Restart(harts) =>
      var es := RestartLog(w.machines, harts, HARTS);
      RestartLogIs(w.machines, harts, HARTS);
      AwayConcat(w.log, es, h);
      OnceQuiet(w.log, es, h);
      RestartReturns(w.machines, harts, HARTS, h);
  }

  lemma {:induction false} RestartReturns(machines: seq<Machine>, harts: set<nat>, n: nat, h: nat)
    requires n <= |machines|
    ensures Restarted(h) in RestartLog(machines, harts, n) <==>
      h < n && h in harts && machines[h].core.state != BOOT_OPENSBI_INIT
    ensures !Away(RestartLog(machines, harts, n), h)
    decreases n
  {
    if n > 0 {
      RestartReturns(machines, harts, n - 1, h);
      var before := RestartLog(machines, harts, n - 1);
      AwayConcat(before, [Restarted(n - 1)], h);
    }
  }

  lemma StaysIdle(b: Board, h: nat, m: Machine, env: Env, complete: seq<bool>)
    requires Shaped(b, h, m) && |complete| == HARTS
    ensures m.core.state == BOOT_IDLE ==> RunMachine(b, h, m, env, complete).m.core.state == BOOT_IDLE
    ensures m.core.state == BOOT_COMPLETE && false !in Completing(h, m, complete) ==>
      RunMachine(b, h, m, env, complete).m.core.state == BOOT_IDLE
  {
    hide CopyFrom, ZeroFrom;
  }

  lemma OnceCall(b: Board, w: World, h: nat, env: Env, mem: seq<byte>)
    requires WorldOk(b, w, mem) && h < HARTS && OnceRight(b, w, h) && w.machines[h].core.state == BOOT_COMPLETE
    ensures OnceRight(b, Step(b, w, Call(h, env)), h)
  {
    hide RunMachine, MachineOk;
    var m := w.machines[h];
    var es := RunMachine(b, h, m, env, w.complete).events;
    var first: seq<BootEvent> := if m.core.prevState != BOOT_COMPLETE then [Completed(h)] else [];
    CompleteShows(b, h, m, env, w.complete, ViewOf(w.log, h));
    StaysIdle(b, h, m, env, w.complete);
    AwayConcat(w.log, es, h);
    if false !in Completing(h, m, w.complete) {
      OnceMore(w.log, first, h);
    } else {
      assert es == first;
      OnceQuiet(w.log, es, h);
    }
  }

  /** In every run a machine reports the end of booting at most once between resets, and is idle from then on. */
  lemma {:induction false} ReportsOnceOnly(b: Board, mem: seq<byte>, actions: seq<Action>, h: nat)
    requires WellFormed(b) && Possible(actions) && h < HARTS
    ensures OnceRight(b, Run(b, Initial(b, mem), actions), h)
    decreases |actions|
  {
    hide Step, OnceRight;
    if actions == [] {
      NothingReported(b, mem, h);
    } else {
      var before := actions[..|actions| - 1];
      ReportsOnceOnly(b, mem, before, h);
      RunKeeps(b, mem, before);
      OnceStep(b, Run(b, Initial(b, mem), before), actions[|actions| - 1], h, mem);
    }
  }

  lemma NothingReported(b: Board, mem: seq<byte>, h: nat)
    requires WellFormed(b) && h < HARTS
    ensures OnceRight(b, Initial(b, mem), h)
  {
  }
}
