/** Memory does not depend on how the machines' calls are interleaved. */
module BootInterleave {
  import opened Words
  import opened MemoryOps
  import opened BootImage
  import opened BootLayout
  import opened BootScript
  import opened BootSpec
  import opened BootProtocol
  import opened BootRuns
  import StateMachine

  /** Whatever a hart writes, padding included, no other hart writes. */
  ghost predicate Exclusive(b: Board)
    requires WellFormed(b)
  {
    && (forall h: nat, k :: h < HARTS && 0 <= k < |b.image.chunks| - 1 && Mine(b, h, k) ==>
          Private(b, h, b.image.chunks[k].execAddr, b.image.chunks[k].execAddr + Padded(b.image.chunks[k].size)))
    && (forall h: nat, k :: h < HARTS && 0 <= k < |b.image.ziChunks| - 1 && ZiMine(b, h, k) ==>
          Private(b, h, b.image.ziChunks[k].execAddr, b.image.ziChunks[k].execAddr + b.image.ziChunks[k].size))
  }

  lemma CoveredIsPrivate(b: Board, h: nat, op: Op, a: nat)
    requires WellFormed(b) && Exclusive(b) && Legal(b, h, op) && Covers(op, a)
    ensures Private(b, h, a, a + 1)
  {
    match op
    case Fill(dst, len) =>
      var k :| 0 <= k < |b.image.ziChunks| - 1 && b.image.ziChunks[k] == ZiChunk(h + 1, dst, len);
      assert ZiMine(b, h, k);
      PrivateByte(b, h, dst, dst + len, a);
    case Copy(dst, src, len) =>
      var k :| 0 <= k < |b.image.chunks| - 1 && Mine(b, h, k) && PieceOf(b, k, dst, src, len);
      var c := b.image.chunks[k];
      var s: nat :| s <= c.size && s % SUB_CHUNK == 0 && dst == c.execAddr + s && src == b.image.base + c.loadAddr + s;
      PieceInWindow(c.size, s);
      PrivateByte(b, h, c.execAddr, c.execAddr + Padded(c.size), a);
  }

  ghost predicate OwnedBy(b: Board, h: nat, a: nat)
    requires WellFormed(b)
  {
    h < HARTS && Private(b, h, a, a + 1)
  }

  /** No write in the log touches address `a`, or some hart alone may write there. */
  lemma {:induction false} TouchedByOne(b: Board, log: seq<BootEvent>, a: nat)
    requires WellFormed(b) && Exclusive(b) && LegalLog(b, log)
    ensures Untouched(OpsOf(log), a) || exists h: nat :: OwnedBy(b, h, a)
    decreases |log|
  {
    if log != [] {
      var before, e := log[..|log| - 1], log[|log| - 1];
      TouchedByOne(b, before, a);
      assert LegalEvent(b, e);
      if e.Wrote? && Covers(e.op, a) {
        CoveredIsPrivate(b, e.h, e.op, a);
        assert OwnedBy(b, e.h, a);
      }
    }
  }

  /** Two logs in which each hart wrote the same leave the same memory. */
  lemma SameWritesSameMemory(b: Board, one: seq<BootEvent>, two: seq<BootEvent>, mem: seq<byte>, img: seq<byte>)
    requires Layout(b, |mem|) && Exclusive(b) && TailsInside(b) && ImageIntact(b, mem, img) && LegalLog(b, one)
      && LegalLog(b, two)
    requires forall h: nat :: h < HARTS ==> OpsBy(one, h) == OpsBy(two, h)
    ensures Exec(OpsOf(one), mem) == Exec(OpsOf(two), mem)
  {
    forall a: nat | a < |mem| ensures Exec(OpsOf(one), mem)[a] == Exec(OpsOf(two), mem)[a] {
      TouchedByOne(b, one, a);
      TouchedByOne(b, two, a);
      if h: nat :| OwnedBy(b, h, a) {
        OpsLegal(b, one, h);
        TailsFromImage(b, h, OpsBy(one, h), a);
        Alone(b, one, h, mem, img, a);
        Alone(b, two, h, mem, img, a);
      } else {
        UntouchedKept(OpsOf(one), a, mem);
        UntouchedKept(OpsOf(two), a, mem);
      }
    }
  }

  // ---------------------------------------------------------------- one machine by itself

  /** What happens to one machine: it is run, or a restart reaches it. */
  datatype Own = Ran(env: Env) | Reset

  function OwnActions(actions: seq<Action>, h: nat): seq<Own> {
    if actions == [] then [] else
    var before, a := OwnActions(actions[..|actions| - 1], h), actions[|actions| - 1];
    match a
    case Call(g, env) => if g == h then before + [Ran(env)] else before
    case Restart(harts) => if h in harts then before + [Reset] else before
  }

  const NOBODY := [false, false, false, false]

  /** The machine of hart `h` and its events as if there were no other. */
  function Solo(b: Board, h: nat, own: seq<Own>): (e: Effect)
    requires WellFormed(b) && h < HARTS
    ensures Shaped(b, h, e.m)
  {
    if own == [] then Effect(Fresh(), []) else
    var before := Solo(b, h, own[..|own| - 1]);
    match own[|own| - 1]
    case Ran(env) => var e := RunMachine(b, h, before.m, env, NOBODY); Effect(e.m, before.events + e.events)
    case Reset => Effect(RestartMachine(before.m), before.events + Noted(h, before.m))
  }

  /** The log entry of a restart, which leaves alone a machine in BOOT_OPENSBI_INIT. */
  function Noted(h: nat, m: Machine): seq<BootEvent> {
    if m.core.state == BOOT_OPENSBI_INIT then [] else [Restarted(h)]
  }

  function Parked(s: int): int { if s == BOOT_IDLE then BOOT_COMPLETE else s }

  /** The machine with BOOT_IDLE and BOOT_COMPLETE taken as one: only there do machines watch each other. */
  function UpToIdle(m: Machine): Machine {
    m.(core := StateMachine.Core(Parked(m.core.state), Parked(m.core.prevState), 0))
  }

  /** What the log shows of a hart, except that it completes and goes idle. */
  predicate IsDeed(e: BootEvent) { !(e.Completed? || e.Idled?) }

  function DeedsBy(log: seq<BootEvent>, h: nat): seq<BootEvent> {
    if log == [] then [] else
    var before, e := DeedsBy(log[..|log| - 1], h), log[|log| - 1];
    if e.h == h && IsDeed(e) then before + [e] else before
  }

  lemma {:induction false} DeedsConcat(a: seq<BootEvent>, c: seq<BootEvent>, h: nat)
    ensures DeedsBy(a + c, h) == DeedsBy(a, h) + DeedsBy(c, h)
    decreases |c|
  {
    if c == [] {
      assert a + c == a;
    } else {
      assert (a + c)[..|a + c| - 1] == a + c[..|c| - 1];
      DeedsConcat(a, c[..|c| - 1], h);
    }
  }

  lemma {:induction false} NoDeeds(events: seq<BootEvent>, h: nat)
    requires forall i :: 0 <= i < |events| ==> !(events[i].h == h && IsDeed(events[i]))
    ensures DeedsBy(events, h) == []
    decreases |events|
  {
    if events != [] { NoDeeds(events[..|events| - 1], h); }
  }

  lemma OneDeed(e: BootEvent)
    requires IsDeed(e)
    ensures DeedsBy([e], e.h) == [e]
  {
    assert [e][..0] == [];
  }

  /** Among them are the writes. */
  lemma {:induction false} WritesAreDeeds(log: seq<BootEvent>, h: nat)
    ensures OpsBy(log, h) == OpsOf(DeedsBy(log, h))
    decreases |log|
  {
    if log != [] {
      var before, e := log[..|log| - 1], log[|log| - 1];
      WritesAreDeeds(before, h);
      assert (DeedsBy(before, h) + [e])[..|DeedsBy(before, h)|] == DeedsBy(before, h);
    }
  }

  lemma SameTransition(b: Board, h: nat, m: Machine, n: Machine, env: Env)
    requires Shaped(b, h, m) && Shaped(b, h, n) && UpToIdle(m) == UpToIdle(n)
    ensures UpToIdle(Transition(b, h, m, env).m) == UpToIdle(Transition(b, h, n, env).m)
  {
    hide WellFormed, KindFor;
  }

  /** What a transition does besides entering: the start message to itself on leaving BOOT_OPENSBI_INIT. */
  function LeavingEvents(b: Board, h: nat, m: Machine): seq<BootEvent>
    requires Shaped(b, h, m)
  {
    if m.core.prevState == BOOT_OPENSBI_INIT && m.core.state != BOOT_OPENSBI_INIT && b.image.harts[h].entryPoint != 0
    then [Delivered(h, h, KindFor(b, h), m.ancilliaryData)] else []
  }

  lemma TransitionDeeds(b: Board, h: nat, m: Machine, env: Env)
    requires Shaped(b, h, m)
    ensures DeedsBy(Transition(b, h, m, env).events, h) == LeavingEvents(b, h, m)
  {
    var left, entry := LeavingEvents(b, h, m), EntryEvents(h, m.core.state);
    NoDeeds([], h);
    NoDeeds(entry, h);
    if left != [] { OneDeed(left[0]); }
    DeedsConcat(left, entry, h);
    hide DeedsBy, KindFor;
    if m.core.prevState != m.core.state { assert Transition(b, h, m, env).events == left + entry; }
  }

  lemma SameHandler(b: Board, h: nat, m: Machine, n: Machine, env: Env, one: seq<bool>, two: seq<bool>)
    requires Shaped(b, h, m) && Shaped(b, h, n) && UpToIdle(m) == UpToIdle(n)
    ensures var e, f := Handler(b, h, m.core.state, m, env, one), Handler(b, h, n.core.state, n, env, two);
      UpToIdle(e.m) == UpToIdle(f.m) && DeedsBy(e.events, h) == DeedsBy(f.events, h)
  {
    if Parked(m.core.state) != BOOT_COMPLETE {
      SameActiveHandler(b, h, m, n, env, one, two);
    } else {
      NoDeeds([], h);
      NoDeeds([Idled(h)], h);
    }
  }

  lemma SameActiveHandler(b: Board, h: nat, m: Machine, n: Machine, env: Env, one: seq<bool>, two: seq<bool>)
    requires Shaped(b, h, m) && Shaped(b, h, n) && UpToIdle(m) == UpToIdle(n) && Parked(m.core.state) != BOOT_COMPLETE
    ensures var e, f := Handler(b, h, m.core.state, m, env, one), Handler(b, h, n.core.state, n, env, two);
      UpToIdle(e.m) == UpToIdle(f.m) && e.events == f.events
  {
    hide WellFormed, KindFor, CopyAt, ZeroAt, Advance, AtEnd;
    if m.core.state == BOOT_SETUP_PMP_COMPLETE {
      assert UpToIdle(SetupPmpCompleteHandler(b, h, m, env).m) == UpToIdle(SetupPmpCompleteHandler(b, h, n, env).m);
    } else if m.core.state == BOOT_WAIT {
      assert UpToIdle(WaitHandler(b, h, m, env)) == UpToIdle(WaitHandler(b, h, n, env));
    }
  }

  lemma SameCall(b: Board, h: nat, m: Machine, n: Machine, env: Env, complete: seq<bool>)
    requires Shaped(b, h, m) && Shaped(b, h, n) && UpToIdle(m) == UpToIdle(n) && |complete| == HARTS
    ensures UpToIdle(RunMachine(b, h, m, env, complete).m) == UpToIdle(RunMachine(b, h, n, env, NOBODY).m)
    ensures DeedsBy(RunMachine(b, h, m, env, complete).events, h) == DeedsBy(RunMachine(b, h, n, env, NOBODY).events, h)
  {
    hide Handler, Transition, DeedsBy;
    var t, u := Transition(b, h, m, env), Transition(b, h, n, env);
    var one, two := Completing(h, m, complete), Completing(h, n, NOBODY);
    SameTransition(b, h, m, n, env);
    SameHandler(b, h, t.m, u.m, env, one, two);
    TransitionDeeds(b, h, m, env);
    TransitionDeeds(b, h, n, env);
    DeedsConcat(t.events, Handler(b, h, m.core.state, t.m, env, one).events, h);
    DeedsConcat(u.events, Handler(b, h, n.core.state, u.m, env, two).events, h);
  }

  ghost predicate AsSolo(b: Board, w: World, h: nat, e: Effect)
    requires Sane(b, w) && h < HARTS
  {
    UpToIdle(w.machines[h]) == UpToIdle(e.m) && DeedsBy(w.log, h) == DeedsBy(e.events, h)
  }

  lemma CallAsSolo(b: Board, w: World, g: nat, env: Env, h: nat, e: Effect, mem: seq<byte>)
    requires WorldOk(b, w, mem) && g < HARTS && h < HARTS && Shaped(b, h, e.m) && AsSolo(b, w, h, e)
    ensures var v := Step(b, w, Call(g, env));
      var r := RunMachine(b, h, e.m, env, NOBODY);
      AsSolo(b, v, h, if g == h then Effect(r.m, e.events + r.events) else e)
  {
    hide RunMachine, DeedsBy, MachineOk;
    var made := RunMachine(b, g, w.machines[g], env, w.complete).events;
    CallOwns(b, g, w.machines[g], env, w.complete, ViewOf(w.log, g));
    DeedsConcat(w.log, made, h);
    if g == h {
      SameCall(b, h, w.machines[h], e.m, env, w.complete);
      DeedsConcat(e.events, RunMachine(b, h, e.m, env, NOBODY).events, h);
    } else {
      NoDeeds(made, h);
    }
  }

  lemma {:induction false} RestartDeeds(machines: seq<Machine>, harts: set<nat>, n: nat, h: nat)
    requires n <= |machines|
    ensures DeedsBy(RestartLog(machines, harts, n), h) == if h < n && h in harts then Noted(h, machines[h]) else []
    decreases n
  {
    if n > 0 {
      var before := RestartLog(machines, harts, n - 1);
      RestartDeeds(machines, harts, n - 1, h);
      DeedsConcat(before, [Restarted(n - 1)], h);
      if h == n - 1 { OneDeed(Restarted(h)); } else { NoDeeds([Restarted(n - 1)], h); }
    }
  }

  lemma RestartAsSolo(b: Board, w: World, harts: set<nat>, h: nat, e: Effect)
    requires Sane(b, w) && h < HARTS && AsSolo(b, w, h, e)
    ensures AsSolo(b, Step(b, w, Restart(harts)), h,
      if h in harts then Effect(RestartMachine(e.m), e.events + Noted(h, e.m)) else e)
  {
    hide DeedsBy;
    var log := RestartLog(w.machines, harts, HARTS);
    RestartDeeds(w.machines, harts, HARTS, h);
    DeedsConcat(w.log, log, h);
    DeedsConcat(e.events, Noted(h, e.m), h);
    RestartDeed(h, e.m);
  }

  lemma RestartDeed(h: nat, m: Machine)
    ensures DeedsBy(Noted(h, m), h) == Noted(h, m)
  {
    OneDeed(Restarted(h));
  }

  /** In every run each machine is as if alone with its own calls and restarts. */
  lemma {:induction false} EachAsSolo(b: Board, mem: seq<byte>, actions: seq<Action>, h: nat)
    requires WellFormed(b) && Possible(actions) && h < HARTS
    ensures AsSolo(b, Run(b, Initial(b, mem), actions), h, Solo(b, h, OwnActions(actions, h)))
    decreases |actions|
  {
    if actions != [] {
      var before, a := actions[..|actions| - 1], actions[|actions| - 1];
      EachAsSolo(b, mem, before, h);
      RunKeeps(b, mem, before);
      var own := OwnActions(before, h);
      assert forall o :: (own + [o])[..|own + [o]| - 1] == own;
      match a
      case Call(g, env) => CallAsSolo(b, Run(b, Initial(b, mem), before), g, env, h, Solo(b, h, own), mem);
      case Restart(harts) => RestartAsSolo(b, Run(b, Initial(b, mem), before), harts, h, Solo(b, h, own));
    }
  }

  /** Two runs in which each machine met the same calls and restarts in the same order, however those
      were interleaved: each hart has done the same, start messages included, every machine is alike, and
      so is memory. */
  lemma InterleavingDoesNotMatter(b: Board, mem: seq<byte>, img: seq<byte>, one: seq<Action>, two: seq<Action>)
    requires Layout(b, |mem|) && Exclusive(b) && TailsInside(b) && ImageIntact(b, mem, img) && Possible(one)
      && Possible(two)
    requires forall h: nat :: h < HARTS ==> OwnActions(one, h) == OwnActions(two, h)
    ensures Run(b, Initial(b, mem), one).mem == Run(b, Initial(b, mem), two).mem
    ensures forall h: nat :: h < HARTS ==>
      && UpToIdle(Run(b, Initial(b, mem), one).machines[h]) == UpToIdle(Run(b, Initial(b, mem), two).machines[h])
      && DeedsBy(Run(b, Initial(b, mem), one).log, h) == DeedsBy(Run(b, Initial(b, mem), two).log, h)
  {
    hide Run, DeedsBy, Solo, OwnActions;
    var v, w := Run(b, Initial(b, mem), one), Run(b, Initial(b, mem), two);
    RunKeeps(b, mem, one);
    RunKeeps(b, mem, two);
    forall h: nat | h < HARTS
      ensures OpsBy(v.log, h) == OpsBy(w.log, h) && UpToIdle(v.machines[h]) == UpToIdle(w.machines[h])
        && DeedsBy(v.log, h) == DeedsBy(w.log, h)
    {
      EachAsSolo(b, mem, one, h);
      EachAsSolo(b, mem, two, h);
      WritesAreDeeds(v.log, h);
      WritesAreDeeds(w.log, h);
    }
    SameWritesSameMemory(b, v.log, w.log, mem, img);
  }
}
