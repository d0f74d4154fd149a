/** When the report that booting is done speaks of the attempts under way: a machine goes from
    BOOT_COMPLETE to BOOT_IDLE, and notifies the end of booting, on flags that restarts leave up
    (services/boot/hss_boot_service.c). */
module BootReports {
  import opened Words
  import opened BootImage
  import opened BootSpec
  import opened BootProtocol
  import opened BootRuns
  import opened BootCompletion
  import opened BootProgress

  // ---------------------------------------------------------------- current attempts, in the log

  /** The last of hart `g`'s completions and resets in the log was a completion, or `was` if there is none. */
  function Settled(was: bool, log: seq<BootEvent>, g: nat): bool {
    if log == [] then was else
    var e := log[|log| - 1];
    if e == Completed(g) then true else if e == Restarted(g) then false else Settled(was, log[..|log| - 1], g)
  }

  /** Hart `g` has completed, and no restart has reset it since. */
  ghost predicate Current(log: seq<BootEvent>, g: nat) {
    exists j :: 0 <= j < |log| && log[j] == Completed(g) && NoResetAfter(log, j, g)
  }

  ghost predicate NoResetAfter(log: seq<BootEvent>, j: nat, g: nat) {
    forall k :: j < k < |log| ==> log[k] != Restarted(g)
  }

  lemma {:induction false} SettledIsCurrent(log: seq<BootEvent>, g: nat)
    ensures Settled(false, log, g) <==> Current(log, g)
    decreases |log|
  {
    if log != [] {
      var n := |log| - 1;
      SettledIsCurrent(log[..n], g);
      if log[n] == Completed(g) {
        assert NoResetAfter(log, n, g);
      } else if log[n] != Restarted(g) {
        if j :| 0 <= j < n && log[..n][j] == Completed(g) && NoResetAfter(log[..n], j, g) {
          assert log[j] == Completed(g);
          forall k | j < k < |log| ensures log[k] != Restarted(g) { if k < n { assert log[..n][k] != Restarted(g); } }
          assert NoResetAfter(log, j, g);
        }
        if j :| 0 <= j < |log| && log[j] == Completed(g) && NoResetAfter(log, j, g) {
          assert log[..n][j] == Completed(g) && NoResetAfter(log[..n], j, g);
        }
      }
    }
  }

  /** If position `i` reports the end of booting, every hart's current attempt has completed by then. */
  ghost predicate CurrentAt(log: seq<BootEvent>, i: nat)
    requires i < |log|
  {
    log[i].Idled? ==> forall g: nat :: g < HARTS ==> Current(log[..i], g)
  }

  ghost predicate AllCurrent(log: seq<BootEvent>) { forall i :: 0 <= i < |log| ==> CurrentAt(log, i) }

  lemma {:induction false} SettledConcat(was: bool, a: seq<BootEvent>, c: seq<BootEvent>, g: nat)
    ensures Settled(was, a + c, g) == Settled(Settled(was, a, g), c, g)
    decreases |c|
  {
    if c == [] {
      assert a + c == a;
    } else {
      assert (a + c)[..|a + c| - 1] == a + c[..|c| - 1];
      SettledConcat(was, a, c[..|c| - 1], g);
    }
  }

  ghost predicate Quiet(events: seq<BootEvent>, g: nat) {
    forall i :: 0 <= i < |events| ==> events[i] != Completed(g) && events[i] != Restarted(g)
  }

  lemma {:induction false} SettledQuiet(was: bool, events: seq<BootEvent>, g: nat)
    requires Quiet(events, g)
    ensures Settled(was, events, g) == was
    decreases |events|
  {
    if events != [] { SettledQuiet(was, events[..|events| - 1], g); }
  }

  lemma {:induction false} RestartUnsettles(was: bool, machines: seq<Machine>, harts: set<nat>, n: nat, g: nat)
    requires n <= |machines|
    ensures Settled(was, RestartLog(machines, harts, n), g)
      == if g < n && g in harts && machines[g].core.state != BOOT_OPENSBI_INIT then false else was
    decreases n
  {
    if n > 0 { RestartUnsettles(was, machines, harts, n - 1, g); }
  }

  // ---------------------------------------------------------------- one action

  /** The call raises the machine's flag. */
  predicate Entering(m: Machine) { m.core.state == BOOT_COMPLETE && m.core.prevState != BOOT_COMPLETE }

  /** The call reports the end of booting. */
  predicate Reporting(h: nat, m: Machine, complete: seq<bool>)
    requires h < |complete|
  {
    m.core.state == BOOT_COMPLETE && false !in Completing(h, m, complete)
  }

  /** What a call shows is its flag, then its report, and nothing else of either kind. */
  lemma CallShows(b: Board, h: nat, m: Machine, env: Env, complete: seq<bool>, v: View)
    requires MachineOk(b, h, m, v) && |complete| == HARTS
    ensures var es := RunMachine(b, h, m, env, complete).events;
      && (m.core.state == BOOT_COMPLETE ==>
            es == (if Entering(m) then [Completed(h)] else []) + (if Reporting(h, m, complete) then [Idled(h)] else []))
      && (m.core.state != BOOT_COMPLETE ==> forall i :: 0 <= i < |es| ==>
        !es[i].Completed? && !es[i].Idled? && !es[i].Restarted?)
  {
    hide RunMachine;
    if m.core.state == BOOT_COMPLETE {
      CompleteShows(b, h, m, env, complete, v);
    } else {
      ElsewhereSilent(b, h, m, env, complete);
    }
  }

  lemma CallSettles(b: Board, h: nat, m: Machine, env: Env, complete: seq<bool>, v: View, was: bool, g: nat)
    requires MachineOk(b, h, m, v) && |complete| == HARTS
    ensures Settled(was, RunMachine(b, h, m, env, complete).events, g) == if g == h && Entering(m) then true else was
  {
    hide RunMachine;
    var es := RunMachine(b, h, m, env, complete).events;
    CallShows(b, h, m, env, complete, v);
    if g == h && Entering(m) {
      if |es| == 2 { assert es[..1] == [Completed(h)]; }
    } else {
      SettledQuiet(was, es, g);
    }
  }

  /** Does action `a` reset hart `g`? */
  predicate Resets(w: World, a: Action, g: nat) {
    a.Restart? && g in a.harts && g < |w.machines| && w.machines[g].core.state != BOOT_OPENSBI_INIT
  }

  predicate Enters(w: World, a: Action, g: nat) { a.Call? && a.h == g && g < |w.machines| && Entering(w.machines[g]) }

  lemma StepSettles(b: Board, w: World, a: Action, g: nat, mem: seq<byte>)
    requires WorldOk(b, w, mem) && (a.Call? ==> a.h < HARTS) && g < HARTS
    ensures Settled(false, Step(b, w, a).log, g)
      == if Resets(w, a, g) then false else if Enters(w, a, g) then true else Settled(false, w.log, g)
    ensures Step(b, w, a).complete[g] == (w.complete[g] || Enters(w, a, g))
  {
    hide RunMachine, MachineOk;
    match a
    case Call(h, env) =>
      CallSettles(b, h, w.machines[h], env, w.complete, ViewOf(w.log, h), Settled(false, w.log, g), g);
      SettledConcat(false, w.log, RunMachine(b, h, w.machines[h], env, w.complete).events, g);
    case Restart(harts) =>
      RestartUnsettles(Settled(false, w.log, g), w.machines, harts, HARTS, g);
      SettledConcat(false, w.log, RestartLog(w.machines, harts, HARTS), g);
  }

  // ---------------------------------------------------------------- in the course of a run

  /** Action `i` resets hart `g`, whose flag is up. */
  ghost predicate Unsettles(b: Board, w: World, actions: seq<Action>, i: nat, g: nat)
    requires Sane(b, w) && Possible(actions) && i < |actions|
  {
    var v := Before(b, w, actions, i);
    g < HARTS && Resets(v, actions[i], g) && v.complete[g]
  }

  /** Action `k` is a call in which hart `g` enters BOOT_COMPLETE. */
  ghost predicate EntersAt(b: Board, w: World, actions: seq<Action>, k: nat, g: nat)
    requires Sane(b, w) && Possible(actions) && k < |actions|
  {
    Enters(Before(b, w, actions, k), actions[k], g)
  }

  ghost predicate EntersIn(b: Board, w: World, actions: seq<Action>, lo: nat, hi: nat, g: nat)
    requires Sane(b, w) && Possible(actions) && hi <= |actions|
  {
    exists k: nat :: lo <= k < hi && EntersAt(b, w, actions, k, g)
  }

  /** Action `j` is a call of a machine in BOOT_COMPLETE that finds all flags up. */
  ghost predicate ReportsAt(b: Board, w: World, actions: seq<Action>, j: nat)
    requires Sane(b, w) && Possible(actions) && j < |actions|
  {
    var v, a := Before(b, w, actions, j), actions[j];
    a.Call? && Reporting(a.h, v.machines[a.h], v.complete)
  }

  /** Hart `g` was reset with its flag up and has not entered BOOT_COMPLETE in actions up to `n`. */
  ghost predicate Stale(b: Board, w: World, actions: seq<Action>, n: nat, g: nat)
    requires Sane(b, w) && Possible(actions) && n <= |actions|
  {
    exists i: nat :: i < n && StaleSince(b, w, actions, i, n, g)
  }

  ghost predicate StaleSince(b: Board, w: World, actions: seq<Action>, i: nat, n: nat, g: nat)
    requires Sane(b, w) && Possible(actions) && i < n <= |actions|
  {
    Unsettles(b, w, actions, i, g) && !EntersIn(b, w, actions, i + 1, n, g)
  }

  /** Among the first `n` actions one resets a hart whose flag is up, and a later one reports before that
      hart has entered BOOT_COMPLETE again. */
  ghost predicate Premature(b: Board, w: World, actions: seq<Action>, n: nat)
    requires Sane(b, w) && Possible(actions) && n <= |actions|
  {
    exists i: nat, j: nat, g: nat :: i < j < n && Early(b, w, actions, i, j, g)
  }

  ghost predicate Early(b: Board, w: World, actions: seq<Action>, i: nat, j: nat, g: nat)
    requires Sane(b, w) && Possible(actions) && i < j < |actions|
  {
    StaleSince(b, w, actions, i, j + 1, g) && ReportsAt(b, w, actions, j)
  }

  lemma EntersInNext(b: Board, w: World, actions: seq<Action>, lo: nat, n: nat, g: nat)
    requires Sane(b, w) && Possible(actions) && n < |actions|
    ensures EntersIn(b, w, actions, lo, n + 1, g) <==>
      EntersIn(b, w, actions, lo, n, g) || (lo <= n && EntersAt(b, w, actions, n, g))
  {
    hide Run, EntersAt;
  }

  lemma StaleNext(b: Board, w: World, actions: seq<Action>, n: nat, g: nat)
    requires Sane(b, w) && Possible(actions) && n < |actions|
    ensures Stale(b, w, actions, n + 1, g) <==>
      Unsettles(b, w, actions, n, g) || (Stale(b, w, actions, n, g) && !EntersAt(b, w, actions, n, g))
  {
    hide Run, EntersAt, Unsettles;
    var next := n + 1;
    if i: nat :| i < next && StaleSince(b, w, actions, i, next, g) {
      EntersInNext(b, w, actions, i + 1, n, g);
      if i < n { assert StaleSince(b, w, actions, i, n, g); }
    }
    if i: nat :| i < n && StaleSince(b, w, actions, i, n, g) {
      EntersInNext(b, w, actions, i + 1, n, g);
      assert !EntersAt(b, w, actions, n, g) ==> StaleSince(b, w, actions, i, n + 1, g);
    }
    if Unsettles(b, w, actions, n, g) { assert StaleSince(b, w, actions, n, n + 1, g); }
    UnsettlesIsNoCall(b, w, actions, n, g);
  }

  lemma UnsettlesIsNoCall(b: Board, w: World, actions: seq<Action>, n: nat, g: nat)
    requires Sane(b, w) && Possible(actions) && n < |actions|
    ensures !(Unsettles(b, w, actions, n, g) && EntersAt(b, w, actions, n, g))
  {
    hide Run;
  }

  /** A report finds hart `g` stale. */
  ghost predicate Surprised(b: Board, w: World, actions: seq<Action>, n: nat, g: nat)
    requires Sane(b, w) && Possible(actions) && n < |actions|
  {
    ReportsAt(b, w, actions, n) && Stale(b, w, actions, n, g) && !EntersAt(b, w, actions, n, g)
  }

  lemma PrematureNext(b: Board, w: World, actions: seq<Action>, n: nat)
    requires Sane(b, w) && Possible(actions) && n < |actions|
    ensures Premature(b, w, actions, n + 1) <==>
      Premature(b, w, actions, n) || exists g: nat :: Surprised(b, w, actions, n, g)
  {
    hide Run, EntersAt, Unsettles, ReportsAt, EntersIn;
    if i: nat, j: nat, g: nat :| i < j < n + 1 && Early(b, w, actions, i, j, g) {
      if j == n {
        EntersInNext(b, w, actions, i + 1, n, g);
        assert StaleSince(b, w, actions, i, n, g);
        assert Surprised(b, w, actions, n, g);
      }
    }
    if g: nat :| Surprised(b, w, actions, n, g) {
      var i: nat :| i < n && StaleSince(b, w, actions, i, n, g);
      EntersInNext(b, w, actions, i + 1, n, g);
      assert Early(b, w, actions, i, n, g);
    }
  }

  // ---------------------------------------------------------------- the condition is exact

  /** A hart's attempt has completed exactly when its flag is up and it is not stale. */
  lemma {:induction false} SettledIffNotStale(b: Board, mem: seq<byte>, actions: seq<Action>, n: nat, g: nat)
    requires WellFormed(b) && Possible(actions) && n <= |actions| && g < HARTS
    ensures var v := Before(b, Initial(b, mem), actions, n);
      Settled(false, v.log, g) <==> v.complete[g] && !Stale(b, Initial(b, mem), actions, n, g)
    decreases n
  {
    hide Step;
    if n > 0 {
      var w := Initial(b, mem);
      SettledIffNotStale(b, mem, actions, n - 1, g);
      RunKeeps(b, mem, actions[..n - 1]);
      BeforeNext(b, w, actions, n - 1);
      StepSettles(b, Before(b, w, actions, n - 1), actions[n - 1], g, mem);
      StaleNext(b, w, actions, n - 1, g);
    }
  }

  lemma AllCurrentConcat(log: seq<BootEvent>, more: seq<BootEvent>)
    ensures AllCurrent(log + more) <==>
      AllCurrent(log) && forall i :: |log| <= i < |log + more| ==> CurrentAt(log + more, i)
  {
    forall i | 0 <= i < |log| ensures CurrentAt(log + more, i) <==> CurrentAt(log, i) {
      assert (log + more)[..i] == log[..i];
    }
  }

  /** Without a report nothing new need be current. */
  lemma NoReport(log: seq<BootEvent>, more: seq<BootEvent>)
    requires forall i :: 0 <= i < |more| ==> !more[i].Idled?
    ensures AllCurrent(log + more) <==> AllCurrent(log)
  {
    AllCurrentConcat(log, more);
    forall i | |log| <= i < |log + more| ensures CurrentAt(log + more, i) { assert (log + more)[i] == more[i - |log|]; }
  }

  lemma ReportLast(log: seq<BootEvent>, h: nat)
    ensures AllCurrent(log + [Idled(h)]) <==> AllCurrent(log) && forall g: nat :: g < HARTS ==> Current(log, g)
  {
    var more := log + [Idled(h)];
    AllCurrentConcat(log, [Idled(h)]);
    assert more[..|log|] == log && more[|log|] == Idled(h);
    assert CurrentAt(more, |log|) <==> forall g: nat :: g < HARTS ==> Current(log, g);
  }

  /** Hart `g` is current, or machine `h` is `g` and raises its flag in this very call. */
  predicate SettledNow(log: seq<BootEvent>, entering: bool, h: nat, g: nat) {
    Settled(false, log, g) || (entering && g == h)
  }

  /** A report by machine `h`, which may raise its flag in the same call. */
  lemma OneReport(log: seq<BootEvent>, entering: bool, h: nat)
    requires h < HARTS
    ensures var first := if entering then [Completed(h)] else [];
      AllCurrent(log + (first + [Idled(h)])) <==>
        AllCurrent(log) && forall g: nat :: g < HARTS ==> SettledNow(log, entering, h, g)
  {
    hide AllCurrent, Current, SettledNow;
    var first: seq<BootEvent> := if entering then [Completed(h)] else [];
    var done := log + first;
    NoReport(log, first);
    assert log + (first + [Idled(h)]) == done + [Idled(h)];
    ReportLast(done, h);
    forall g: nat | g < HARTS ensures Current(done, g) <==> SettledNow(log, entering, h, g) {
      SettledIsCurrent(done, g);
      SettledFirst(log, entering, h, g);
    }
    assert AllCurrent(done + [Idled(h)]) <==> AllCurrent(log) && forall g: nat :: g < HARTS ==> Current(done, g);
    assert (forall g: nat :: g < HARTS ==> Current(done, g))
      <==> (forall g: nat :: g < HARTS ==> SettledNow(log, entering, h, g));
    assert AllCurrent(log + (first + [Idled(h)])) <==> AllCurrent(done + [Idled(h)]);
  }

  lemma SettledFirst(log: seq<BootEvent>, entering: bool, h: nat, g: nat)
    ensures Settled(false, log + (if entering then [Completed(h)] else []), g) == SettledNow(log, entering, h, g)
  {
    var first: seq<BootEvent> := if entering then [Completed(h)] else [];
    SettledConcat(false, log, first, g);
    if entering { assert first[..0] == []; }
  }

  lemma CallCurrent(b: Board, h: nat, m: Machine, env: Env, complete: seq<bool>, log: seq<BootEvent>)
    requires MachineOk(b, h, m, ViewOf(log, h)) && |complete| == HARTS
    ensures AllCurrent(log + RunMachine(b, h, m, env, complete).events) <==>
      AllCurrent(log) && (Reporting(h, m, complete) ==> forall g: nat :: g < HARTS ==>
        SettledNow(log, Entering(m), h, g))
  {
    hide RunMachine, AllCurrent, SettledNow;
    CallShows(b, h, m, env, complete, ViewOf(log, h));
    if Reporting(h, m, complete) {
      OneReport(log, Entering(m), h);
    } else {
      NoReport(log, RunMachine(b, h, m, env, complete).events);
    }
  }

  /** Hart `g` is current when the call that `a` is would report. */
  predicate SettledAt(w: World, a: Action, g: nat) { Settled(false, w.log, g) || Enters(w, a, g) }

  lemma CurrentStep(b: Board, w: World, a: Action, mem: seq<byte>)
    requires WorldOk(b, w, mem) && (a.Call? ==> a.h < HARTS)
    ensures AllCurrent(Step(b, w, a).log) <==>
      && AllCurrent(w.log)
      && (a.Call? && Reporting(a.h, w.machines[a.h], w.complete) ==> forall g: nat :: g < HARTS ==> SettledAt(w, a, g))
  {
    hide RunMachine, AllCurrent, Reporting;
    match a
    case Call(h, env) =>
      CallCurrent(b, h, w.machines[h], env, w.complete, w.log);
      forall g: nat | g < HARTS ensures SettledAt(w, a, g) <==> SettledNow(w.log, Entering(w.machines[h]), h, g) {}
    case Restart(harts) =>
      RestartLogIs(w.machines, harts, HARTS);
      NoReport(w.log, RestartLog(w.machines, harts, HARTS));
  }

  /** At a report all flags are up, so the harts that are not current are the stale ones. */
  lemma ReportSurprises(b: Board, mem: seq<byte>, actions: seq<Action>, n: nat)
    requires WellFormed(b) && Possible(actions) && n < |actions| && ReportsAt(b, Initial(b, mem), actions, n)
    ensures var w := Initial(b, mem);
      (exists g: nat :: Surprised(b, w, actions, n, g)) <==>
        !forall g: nat :: g < HARTS ==> SettledAt(Before(b, w, actions, n), actions[n], g)
  {
    hide Step, Settled;
    var w := Initial(b, mem);
    var v, a := Before(b, w, actions, n), actions[n];
    forall g: nat | g < HARTS
      ensures Surprised(b, w, actions, n, g) <==> !SettledAt(v, a, g)
    {
      SettledIffNotStale(b, mem, actions, n, g);
      var now := Completing(a.h, v.machines[a.h], v.complete);
      assert now[g] in now;
    }
    if g: nat :| Surprised(b, w, actions, n, g) { StaleHart(b, w, actions, n, g); }
  }

  lemma StaleHart(b: Board, w: World, actions: seq<Action>, n: nat, g: nat)
    requires Sane(b, w) && Possible(actions) && n <= |actions| && Stale(b, w, actions, n, g)
    ensures g < HARTS
  {
    hide Run;
    var i: nat :| i < n && StaleSince(b, w, actions, i, n, g);
  }

  lemma {:induction false} CurrentIffNotPrematureBefore(b: Board, mem: seq<byte>, actions: seq<Action>, n: nat)
    requires WellFormed(b) && Possible(actions) && n <= |actions|
    ensures AllCurrent(Before(b, Initial(b, mem), actions, n).log) <==> !Premature(b, Initial(b, mem), actions, n)
    decreases n
  {
    hide Step, Settled, AllCurrent, Surprised, Premature;
    var w := Initial(b, mem);
    if n == 0 {
      NothingYet(b, w, actions);
    } else {
      CurrentIffNotPrematureBefore(b, mem, actions, n - 1);
      RunKeeps(b, mem, actions[..n - 1]);
      BeforeNext(b, w, actions, n - 1);
      CurrentStep(b, Before(b, w, actions, n - 1), actions[n - 1], mem);
      PrematureNext(b, w, actions, n - 1);
      if ReportsAt(b, w, actions, n - 1) {
        ReportSurprises(b, mem, actions, n - 1);
      } else {
        NotSurprised(b, w, actions, n - 1);
      }
    }
  }

  lemma NothingYet(b: Board, w: World, actions: seq<Action>)
    requires Sane(b, w) && Possible(actions) && w.log == []
    ensures AllCurrent(Before(b, w, actions, 0).log) && !Premature(b, w, actions, 0)
  {
    assert actions[..0] == [];
  }

  lemma NotSurprised(b: Board, w: World, actions: seq<Action>, n: nat)
    requires Sane(b, w) && Possible(actions) && n < |actions| && !ReportsAt(b, w, actions, n)
    ensures !exists g: nat :: Surprised(b, w, actions, n, g)
  {
    hide ReportsAt;
  }

  /** In every run, each report that booting is done speaks of the current attempt of every hart, exactly
      when no reset of a hart whose flag is up is followed by a report before that hart has entered
      BOOT_COMPLETE again. */
  lemma CurrentIffNotPremature(b: Board, mem: seq<byte>, actions: seq<Action>)
    requires WellFormed(b) && Possible(actions)
    ensures AllCurrent(Run(b, Initial(b, mem), actions).log) <==> !Premature(b, Initial(b, mem), actions, |actions|)
  {
    hide Run, AllCurrent, Premature;
    CurrentIffNotPrematureBefore(b, mem, actions, |actions|);
    assert actions[..|actions|] == actions;
  }

  // ---------------------------------------------------------------- a premature report

  /** Memory is ready, but the PMP setup times out: an attempt fails, and completes, in five calls. */
  const HASTY := Env(true, true, true, true, 0, {})

  function Lap(h: nat): seq<Action> { Repeat(Call(h, HASTY), 4) + [Call(h, HASTY)] }

  lemma HastyCall(b: Board, w: World, h: nat)
    requires Sane(b, w) && h < HARTS && w.machines[h].core.state != BOOT_COMPLETE
    ensures var v, s := Step(b, w, Call(h, HASTY)), w.machines[h].core.state;
      && v.complete == w.complete && v.machines == w.machines[h := v.machines[h]]
      && v.machines[h].core.prevState == s
      && (s == BOOT_INITIALIZATION ==> v.machines[h].core.state == BOOT_SETUP_PMP)
      && (s == BOOT_SETUP_PMP ==> v.machines[h].core.state == BOOT_SETUP_PMP_COMPLETE)
      && (s == BOOT_SETUP_PMP_COMPLETE ==> v.machines[h].core.state == BOOT_ERROR)
      && (s == BOOT_ERROR ==> v.machines[h].core.state == BOOT_COMPLETE)
  {
    hide CopyFrom, ZeroFrom, CopyAt, ZeroAt, AtEnd, Advance;
  }

  lemma RunOneMore(b: Board, w: World, a: Action, n: nat)
    requires Sane(b, w) && n > 0 && (a.Call? ==> a.h < HARTS)
    ensures Run(b, w, Repeat(a, n)) == Step(b, Run(b, w, Repeat(a, n - 1)), a)
    ensures Run(b, w, Repeat(a, 0)) == w
  {
    hide Step;
    assert Repeat(a, n)[..n - 1] == Repeat(a, n - 1);
  }

  /** Four such calls bring a machine from BOOT_INITIALIZATION to the brink of BOOT_COMPLETE. */
  lemma FourCalls(b: Board, w: World, h: nat)
    requires Sane(b, w) && h < HARTS && w.machines[h].core.state == BOOT_INITIALIZATION
    ensures var v := Run(b, w, Repeat(Call(h, HASTY), 4));
      v.complete == w.complete && v.machines == w.machines[h := v.machines[h]] && Entering(v.machines[h])
  {
    hide Step, Run;
    var a := Call(h, HASTY);
    RunOneMore(b, w, a, 1); RunOneMore(b, w, a, 2); RunOneMore(b, w, a, 3); RunOneMore(b, w, a, 4);
    HastyCall(b, w, h);
    HastyCall(b, Run(b, w, Repeat(a, 1)), h);
    HastyCall(b, Run(b, w, Repeat(a, 2)), h);
    HastyCall(b, Run(b, w, Repeat(a, 3)), h);
  }

  lemma EnteringCall(b: Board, w: World, h: nat)
    requires Sane(b, w) && h < HARTS && Entering(w.machines[h])
    ensures var v := Step(b, w, Call(h, HASTY));
      && v.complete == w.complete[h := true] && v.machines == w.machines[h := v.machines[h]]
      && v.machines[h].core.state != BOOT_OPENSBI_INIT
  {
    hide CopyFrom, ZeroFrom, CopyAt, ZeroAt, AtEnd, Advance;
  }

  /** A fifth raises its flag. */
  lemma LapDone(b: Board, w: World, h: nat)
    requires Sane(b, w) && h < HARTS && w.machines[h].core.state == BOOT_INITIALIZATION
    ensures var v := Run(b, w, Lap(h));
      && v.complete == w.complete[h := true] && v.machines == w.machines[h := v.machines[h]]
      && v.machines[h].core.state != BOOT_OPENSBI_INIT
  {
    hide Step, Run;
    FourCalls(b, w, h);
    OneMoreAction(b, w, Repeat(Call(h, HASTY), 4), Call(h, HASTY));
    EnteringCall(b, Run(b, w, Repeat(Call(h, HASTY), 4)), h);
  }

  const EVERYONE := Restart({0, 1, 2, 3})

  lemma RestartsAll(b: Board, w: World)
    requires Sane(b, w) && forall h :: 0 <= h < HARTS ==> w.machines[h].core.state != BOOT_OPENSBI_INIT
    ensures var v := Step(b, w, EVERYONE);
      v.complete == w.complete && forall h :: 0 <= h < HARTS ==> v.machines[h].core.state == BOOT_INITIALIZATION
  {
    hide RunMachine, WellFormed, Shaped, RestartLog;
    forall h | 0 <= h < HARTS ensures Step(b, w, EVERYONE).machines[h].core.state == BOOT_INITIALIZATION {
      assert Step(b, w, EVERYONE).machines[h] == RestartMachine(w.machines[h]);
    }
  }

  /** Restart all harts and run each to completion, one after the other. */
  function Round(): seq<Action> { [EVERYONE] + Lap(0) + Lap(1) + Lap(2) + Lap(3) }

  lemma RoundDone(b: Board, mem: seq<byte>)
    requires WellFormed(b)
    ensures var v := Run(b, Initial(b, mem), Round());
      && v.complete == [true, true, true, true]
      && forall h :: 0 <= h < HARTS ==> v.machines[h].core.state != BOOT_OPENSBI_INIT
  {
    hide Step, Run;
    var w0, a := Initial(b, mem), [EVERYONE];
    OneMoreAction(b, w0, [], EVERYONE);
    NoActions(b, w0);
    assert [] + a == a;
    RestartsAll(b, w0);
    var w1 := Run(b, w0, a);
    RunConcat(b, w0, a, Lap(0));
    LapDone(b, w1, 0);
    var w2 := Run(b, w0, a + Lap(0));
    RunConcat(b, w0, a + Lap(0), Lap(1));
    LapDone(b, w2, 1);
    var w3 := Run(b, w0, a + Lap(0) + Lap(1));
    RunConcat(b, w0, a + Lap(0) + Lap(1), Lap(2));
    LapDone(b, w3, 2);
    var w4 := Run(b, w0, a + Lap(0) + Lap(1) + Lap(2));
    RunConcat(b, w0, a + Lap(0) + Lap(1) + Lap(2), Lap(3));
    LapDone(b, w4, 3);
  }

  lemma NoActions(b: Board, w: World)
    requires Sane(b, w)
    ensures Run(b, w, []) == w
  {
  }

  /** All harts boot, all are restarted, and the first to complete again reports that booting is done,
      while the others have not begun. */
  lemma PrematureRun(b: Board, mem: seq<byte>)
    requires WellFormed(b)
    ensures var actions := Round() + [EVERYONE] + Lap(0);
      && Possible(actions)
      && Early(b, Initial(b, mem), actions, |Round()|, |actions| - 1, 1)
      && !AllCurrent(Run(b, Initial(b, mem), actions).log)
  {
    hide Step, Run, AllCurrent;
    var w, first := Initial(b, mem), Round();
    var i, actions := |first|, first + [EVERYONE] + Lap(0);
    var j := |actions| - 1;
    RoundDone(b, mem);
    RestartsAll(b, Run(b, w, first));
    OneMoreAction(b, w, first, EVERYONE);
    FourCalls(b, Run(b, w, first + [EVERYONE]), 0);
    RunConcat(b, w, first + [EVERYONE], Repeat(Call(0, HASTY), 4));
    assert actions[..i] == first && actions[..j] == first + [EVERYONE] + Repeat(Call(0, HASTY), 4);
    assert forall k :: i < k <= j ==> actions[k] == Call(0, HASTY);
    assert Early(b, w, actions, i, j, 1);
    CurrentIffNotPremature(b, mem, actions);
  }
}
