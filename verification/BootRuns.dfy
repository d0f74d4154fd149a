/** Every run: the invariant of all machines together, and what memory then holds, whatever the
    interleaving. */
module BootRuns {
  import opened Words
  import opened MemoryOps
  import opened BootImage
  import opened BootLayout
  import opened BootScript
  import opened BootSpec
  import opened BootProtocol

  // ---------------------------------------------------------------- the invariant of the world

  ghost predicate LegalEvent(b: Board, e: BootEvent)
    requires WellFormed(b)
  {
    e.h < HARTS && (e.Wrote? ==> Legal(b, e.h, e.op))
  }

  ghost predicate LegalLog(b: Board, log: seq<BootEvent>)
    requires WellFormed(b)
  {
    forall i :: 0 <= i < |log| ==> LegalEvent(b, log[i])
  }

  ghost predicate WorldOk(b: Board, w: World, mem: seq<byte>) {
    && WellFormed(b) && Sane(b, w)
    && (forall h: nat :: h < HARTS ==> MachineOk(b, h, w.machines[h], ViewOf(w.log, h)))
    && LegalLog(b, w.log)
    && w.mem == Exec(OpsOf(w.log), mem)
  }

  lemma {:induction false} OpsConcat(a: seq<BootEvent>, c: seq<BootEvent>)
    ensures OpsOf(a + c) == OpsOf(a) + OpsOf(c)
    decreases |c|
  {
    if c == [] {
      assert a + c == a;
    } else {
      assert (a + c)[..|a + c| - 1] == a + c[..|c| - 1];
      OpsConcat(a, c[..|c| - 1]);
    }
  }

  ghost predicate OwnEvents(b: Board, h: nat, events: seq<BootEvent>)
    requires WellFormed(b)
  {
    forall i :: 0 <= i < |events| ==> events[i].h == h && LegalEvent(b, events[i])
  }

  lemma HandlerOwns(b: Board, h: nat, m: Machine, env: Env, complete: seq<bool>, v: View)
    requires Entered(b, h, m, v)
    ensures OwnEvents(b, h, Handler(b, h, m.core.state, m, env, complete).events)
  {
    var s := m.core.state;
    if s == BOOT_ZERO_INIT_CHUNKS {
      var ops := ZeroAt(b, h, m.ziChunk);
      if b.image.ziChunks[m.ziChunk].size != 0 && ops != [] {
        assert Legal(b, h, ops[0]);
      }
    } else if s == BOOT_DOWNLOAD_CHUNKS {
      if b.image.harts[h].numChunks > 0 && !AtEnd(b, h, m.cursor) { PieceStep(b, h, m.cursor); }
    }
  }

  lemma TransitionOwns(b: Board, h: nat, m: Machine, env: Env)
    requires Shaped(b, h, m)
    ensures OwnEvents(b, h, Transition(b, h, m, env).events)
  {
  }

  lemma OwnConcat(b: Board, h: nat, first: seq<BootEvent>, rest: seq<BootEvent>)
    requires WellFormed(b) && OwnEvents(b, h, first) && OwnEvents(b, h, rest)
    ensures OwnEvents(b, h, first + rest)
  {
    hide LegalEvent;
  }

  /** A call's events are the machine's own, and its writes legal. */
  lemma CallOwns(b: Board, h: nat, m: Machine, env: Env, complete: seq<bool>, v: View)
    requires MachineOk(b, h, m, v) && |complete| == HARTS
    ensures OwnEvents(b, h, RunMachine(b, h, m, env, complete).events)
  {
    hide Handler, Transition, Entered, OwnEvents;
    var t := Transition(b, h, m, env);
    TransitionOk(b, h, m, env, v);
    TransitionOwns(b, h, m, env);
    HandlerOwns(b, h, t.m, env, Completing(h, m, complete), LookAll(v, t.events, h));
    OwnConcat(b, h, t.events, Handler(b, h, m.core.state, t.m, env, Completing(h, m, complete)).events);
  }

  lemma CallStepKeeps(b: Board, w: World, h: nat, env: Env, mem: seq<byte>)
    requires WorldOk(b, w, mem) && h < HARTS
    ensures WorldOk(b, Step(b, w, Call(h, env)), mem)
  {
    var m := w.machines[h];
    var e := RunMachine(b, h, m, env, w.complete);
    CallKeeps(b, h, m, env, w.complete, ViewOf(w.log, h));
    CallOwns(b, h, m, env, w.complete, ViewOf(w.log, h));
    forall g: nat | g < HARTS
      ensures ViewOf(w.log + e.events, g) == if g == h then After(b, h, m, env, w.complete, ViewOf(w.log, h))
        else ViewOf(w.log, g)
    {
      LookConcat(NOTHING, w.log, e.events, g);
      if g != h { LookOthers(ViewOf(w.log, g), e.events, g); }
    }
    OpsConcat(w.log, e.events);
    ExecConcat(OpsOf(w.log), OpsOf(e.events), mem);
  }

  ghost predicate OnlyRestarts(log: seq<BootEvent>, n: nat) {
    forall i :: 0 <= i < |log| ==> log[i].Restarted? && log[i].h < n
  }

  /** What a restart writes to the log: an entry for each machine it resets. */
  lemma RestartLogIs(machines: seq<Machine>, harts: set<nat>, n: nat)
    requires n <= |machines|
    ensures OnlyRestarts(RestartLog(machines, harts, n), n)
    ensures OpsOf(RestartLog(machines, harts, n)) == []
  {
    RestartEntries(machines, harts, n);
    NoWrites(RestartLog(machines, harts, n));
  }

  lemma {:induction false} RestartEntries(machines: seq<Machine>, harts: set<nat>, n: nat)
    requires n <= |machines|
    ensures OnlyRestarts(RestartLog(machines, harts, n), n)
    decreases n
  {
    if n > 0 {
      RestartEntries(machines, harts, n - 1);
      OneMoreEntry(RestartLog(machines, harts, n - 1), n - 1);
    }
  }

  lemma OneMoreEntry(log: seq<BootEvent>, n: nat)
    requires OnlyRestarts(log, n)
    ensures OnlyRestarts(log, n + 1) && OnlyRestarts(log + [Restarted(n)], n + 1)
  {
  }

  lemma {:induction false} NoWrites(events: seq<BootEvent>)
    requires forall i :: 0 <= i < |events| ==> !events[i].Wrote?
    ensures OpsOf(events) == []
    decreases |events|
  {
    if events != [] { NoWrites(events[..|events| - 1]); }
  }

  lemma {:induction false} RestartSeen(machines: seq<Machine>, harts: set<nat>, n: nat, g: nat, v: View)
    requires n <= |machines|
    ensures LookAll(v, RestartLog(machines, harts, n), g)
      == if g < n && g in harts && machines[g].core.state != BOOT_OPENSBI_INIT then Look(v, Restarted(g)) else v
  {
    if n > 0 {
      RestartSeen(machines, harts, n - 1, g, v);
      var before := RestartLog(machines, harts, n - 1);
      LookConcat(v, before, [Restarted(n - 1)], g);
      LookOne(LookAll(v, before, g), Restarted(n - 1), g);
    }
  }

  lemma RestartStepKeeps(b: Board, w: World, harts: set<nat>, mem: seq<byte>)
    requires WorldOk(b, w, mem)
    ensures WorldOk(b, Step(b, w, Restart(harts)), mem)
  {
    hide MachineOk, RunMachine;
    RestartLogIs(w.machines, harts, HARTS);
    var log := RestartLog(w.machines, harts, HARTS);
    OpsConcat(w.log, log);
    assert OpsOf(w.log) + [] == OpsOf(w.log);
    forall g: nat | g < HARTS ensures MachineOk(b, g, Step(b, w, Restart(harts)).machines[g], ViewOf(w.log + log, g)) {
      LookConcat(NOTHING, w.log, log, g);
      RestartSeen(w.machines, harts, HARTS, g, ViewOf(w.log, g));
      RestartKeeps(b, g, w.machines[g], ViewOf(w.log, g));
    }
  }

  lemma OneMoreAction(b: Board, w: World, actions: seq<Action>, a: Action)
    requires Sane(b, w) && Possible(actions) && (a.Call? ==> a.h < HARTS)
    ensures Possible(actions + [a]) && Run(b, w, actions + [a]) == Step(b, Run(b, w, actions), a)
  {
    hide Step;
    assert (actions + [a])[..|actions|] == actions;
  }

  /** Whatever is called and restarted in whatever order, the invariant holds. */
  lemma {:induction false} RunKeeps(b: Board, mem: seq<byte>, actions: seq<Action>)
    requires WellFormed(b) && Possible(actions)
    ensures WorldOk(b, Run(b, Initial(b, mem), actions), mem)
    decreases |actions|
  {
    hide Step;
    if actions != [] {
      RunKeeps(b, mem, actions[..|actions| - 1]);
      var w := Run(b, Initial(b, mem), actions[..|actions| - 1]);
      match actions[|actions| - 1]
      case Call(h, env) => CallStepKeeps(b, w, h, env, mem);
      case Restart(harts) => RestartStepKeeps(b, w, harts, mem);
    }
  }

  /** The world before action `n`. */
  function Before(b: Board, w: World, actions: seq<Action>, n: nat): World
    requires Sane(b, w) && Possible(actions) && n <= |actions|
  {
    Run(b, w, actions[..n])
  }

  lemma BeforeNext(b: Board, w: World, actions: seq<Action>, n: nat)
    requires Sane(b, w) && Possible(actions) && n < |actions|
    ensures Before(b, w, actions, n + 1) == Step(b, Before(b, w, actions, n), actions[n])
  {
    hide Step;
    var now := actions[..n + 1];
    assert now[..|now| - 1] == actions[..n];
  }

  // ---------------------------------------------------------------- one hart's writes among all

  /** What hart `h` wrote. */
  function OpsBy(log: seq<BootEvent>, h: nat): seq<Op> {
    if log == [] then [] else
    var before, e := OpsBy(log[..|log| - 1], h), log[|log| - 1];
    if e.Wrote? && e.h == h then before + [e.op] else before
  }

  lemma {:induction false} OpsLegal(b: Board, log: seq<BootEvent>, h: nat)
    requires WellFormed(b) && LegalLog(b, log)
    ensures AllLegal(b, h, OpsBy(log, h))
    decreases |log|
  {
    if log != [] {
      OpsLegal(b, log[..|log| - 1], h);
      assert LegalEvent(b, log[|log| - 1]);
    }
  }

  /** The current attempt's writes are the last ones the hart made. */
  lemma {:induction false} AttemptIsLast(log: seq<BootEvent>, h: nat)
    ensures exists earlier :: OpsBy(log, h) == earlier + ViewOf(log, h).ops
    decreases |log|
  {
    if log == [] {
      assert OpsBy(log, h) == [] + ViewOf(log, h).ops;
    } else {
      var before, e := log[..|log| - 1], log[|log| - 1];
      AttemptIsLast(before, h);
      var earlier :| OpsBy(before, h) == earlier + ViewOf(before, h).ops;
      if e.h == h && e.Wrote? {
        assert OpsBy(log, h) == earlier + ViewOf(log, h).ops;
      } else if e.h == h && e.Ready? {
        assert OpsBy(log, h) == OpsBy(log, h) + ViewOf(log, h).ops;
      } else {
        assert OpsBy(log, h) == earlier + ViewOf(log, h).ops;
      }
    }
  }

  /** The image keeps its content under legal writes of any harts. */
  lemma {:induction false} ImageKept(b: Board, log: seq<BootEvent>, mem: seq<byte>, img: seq<byte>)
    requires Layout(b, |mem|) && LegalLog(b, log) && ImageIntact(b, mem, img)
    ensures ImageIntact(b, Exec(OpsOf(log), mem), img)
    decreases |log|
  {
    if log != [] {
      var before, e := log[..|log| - 1], log[|log| - 1];
      ImageKept(b, before, mem, img);
      if e.Wrote? {
        assert LegalEvent(b, e);
        LegalKeepsImage(b, e.h, [e.op], Exec(OpsOf(before), mem), img);
        ExecConcat(OpsOf(before), [e.op], mem);
      }
    }
  }

  /** A write with the image in place puts the same at `a` in two memories, if they agree there or it
      writes there, and what it writes is from the image. */
  lemma SamePut(b: Board, h: nat, op: Op, one: seq<byte>, two: seq<byte>, img: seq<byte>, a: nat)
    requires |one| == |two| && a < |one| && Clean(b, op, a) && (one[a] == two[a] || Covers(op, a))
    requires ImageIntact(b, one, img) && ImageIntact(b, two, img)
    ensures Put(op, one, a) == Put(op, two, a)
  {
    if op.Copy? && Covers(op, a) {
      var x := op.src + (a - op.dst);
      assert one[b.image.base..ImageEnd(b)][x - b.image.base] == two[b.image.base..ImageEnd(b)][x - b.image.base];
    }
  }

  /** Where only hart `h` may write, memory is as if it had been alone, if what it last wrote there is
      from the image. */
  lemma {:induction false} Alone(b: Board, log: seq<BootEvent>, h: nat, mem: seq<byte>, img: seq<byte>, a: nat)
    requires Layout(b, |mem|) && LegalLog(b, log) && ImageIntact(b, mem, img)
    requires a < |mem| && Private(b, h, a, a + 1) && FromImage(b, OpsBy(log, h), a)
    ensures Exec(OpsOf(log), mem)[a] == Exec(OpsBy(log, h), mem)[a]
    decreases |log|
  {
    if log != [] {
      hide Exec, OpsOf;
      var before, e := log[..|log| - 1], log[|log| - 1];
      if e.Wrote? && e.h == h && Covers(e.op, a) {
        OwnWrite(b, log, h, mem, img, a);
      } else {
        Alone(b, before, h, mem, img, a);
        OtherWrite(b, log, h, mem, a);
      }
    }
  }

  /** Hart `h` has just written at `a`. */
  lemma OwnWrite(b: Board, log: seq<BootEvent>, h: nat, mem: seq<byte>, img: seq<byte>, a: nat)
    requires Layout(b, |mem|) && LegalLog(b, log) && ImageIntact(b, mem, img) && a < |mem| && |log| > 0
    requires var e := log[|log| - 1]; e.Wrote? && e.h == h && Covers(e.op, a)
    requires FromImage(b, OpsBy(log, h), a)
    ensures Exec(OpsOf(log), mem)[a] == Exec(OpsBy(log, h), mem)[a]
  {
    var before, e := log[..|log| - 1], log[|log| - 1];
    ImageKept(b, before, mem, img);
    OpsLegal(b, before, h);
    LegalKeepsImage(b, h, OpsBy(before, h), mem, img);
    SamePut(b, h, e.op, Exec(OpsOf(before), mem), Exec(OpsBy(before, h), mem), img, a);
    hide Layout, LegalLog, ImageIntact;
  }

  /** What has just happened did not touch `a`. */
  lemma OtherWrite(b: Board, log: seq<BootEvent>, h: nat, mem: seq<byte>, a: nat)
    requires WellFormed(b) && LegalLog(b, log) && a < |mem| && |log| > 0 && Private(b, h, a, a + 1)
    requires var e := log[|log| - 1]; !(e.Wrote? && e.h == h && Covers(e.op, a))
    ensures Exec(OpsOf(log), mem)[a] == Exec(OpsOf(log[..|log| - 1]), mem)[a]
    ensures Exec(OpsBy(log, h), mem)[a] == Exec(OpsBy(log[..|log| - 1], h), mem)[a]
  {
    var e := log[|log| - 1];
    assert LegalEvent(b, e);
    if e.Wrote? && e.h != h { PrivateMissed(b, h, e.h, e.op, a, a + 1); }
    hide Private, LegalLog;
  }

  /** The download's last write at a byte of a chunk that it reaches is that byte. */
  lemma {:induction false} DataFromImage(b: Board, h: nat, c: Cursor, before: seq<Op>, k: nat, i: nat, n: nat)
    requires Layout(b, n) && OnPiece(b, h, c) && k < EndCursor(b, h, c).chunk && Mine(b, h, k)
      && i < b.image.chunks[k].size
    requires k < c.chunk || (k == c.chunk && i < c.sub) ==> FromImage(b, before, b.image.chunks[k].execAddr + i)
    ensures FromImage(b, before + CopyFrom(b, h, c), b.image.chunks[k].execAddr + i)
    decreases |b.image.chunks| - c.chunk, Left(b, h, c)
  {
    if AtEnd(b, h, c) {
      assert before + [] == before;
    } else {
      var ops, next := CopyAt(b, h, c), Advance(b, h, c);
      PieceStep(b, h, c);
      PieceFromImage(b, h, c, before, k, i, n);
      DataFromImage(b, h, next, before + ops, k, i, n);
      Regrouped(before, ops, CopyFrom(b, h, next));
    }
  }

  lemma Regrouped(a: seq<Op>, c: seq<Op>, d: seq<Op>)
    ensures a + (c + d) == a + c + d
  {
  }

  lemma PieceFromImage(b: Board, h: nat, c: Cursor, before: seq<Op>, k: nat, i: nat, n: nat)
    requires Layout(b, n) && OnPiece(b, h, c) && !AtEnd(b, h, c) && k < |b.image.chunks| - 1
    requires Mine(b, h, k) && i < b.image.chunks[k].size
    requires k < c.chunk || (k == c.chunk && i < c.sub) ==> FromImage(b, before, b.image.chunks[k].execAddr + i)
    ensures var next := Advance(b, h, c);
      k < next.chunk || (k == next.chunk && i < next.sub) ==>
        FromImage(b, before + CopyAt(b, h, c), b.image.chunks[k].execAddr + i)
  {
    var ops, a := CopyAt(b, h, c), b.image.chunks[k].execAddr + i;
    FromImageConcat(b, before, ops, a);
    if ops != [] {
      assert ops[..0] == [];
      if k < c.chunk {
        assert b.image.chunks[k].execAddr + b.image.chunks[k].size <= b.image.chunks[c.chunk].execAddr;
      } else if k == c.chunk {
        assert ChunkPlaced(b, k, n);
      }
    }
  }

  /** A byte of a chunk that the attempt reached, whatever was written before the attempt. */
  lemma ChunkFromImage(b: Board, h: nat, earlier: seq<Op>, k: nat, i: nat, n: nat)
    requires Layout(b, n) && h < HARTS && b.image.harts[h].numChunks > 0 && k < |b.image.chunks|
    requires b.image.harts[h].firstChunk <= k < EndCursor(b, h, StartCursor(b, h)).chunk
    requires Mine(b, h, k) && i < b.image.chunks[k].size
    ensures FromImage(b, earlier + Script(b, h), b.image.chunks[k].execAddr + i)
  {
    var zeros, copies := ZeroFrom(b, h, 0), CopyFrom(b, h, StartCursor(b, h));
    DataFromImage(b, h, StartCursor(b, h), earlier + zeros, k, i, n);
    assert earlier + (zeros + copies) == earlier + zeros + copies;
  }

  lemma TailsFromImage(b: Board, h: nat, ops: seq<Op>, a: nat)
    requires WellFormed(b) && TailsInside(b) && AllLegal(b, h, ops)
    ensures FromImage(b, ops, a)
  {
    forall j | 0 <= j < |ops| ensures Clean(b, ops[j], a) { TailsClean(b, h, ops[j], a); }
    CleanFromImage(b, ops, a);
  }

  /** Outside the windows of its chunks a hart only writes zeros. */
  lemma ZeroFromImage(b: Board, h: nat, ops: seq<Op>, a: nat)
    requires WellFormed(b) && h < HARTS && AllLegal(b, h, ops) && !InWindow(b, h, a)
    ensures FromImage(b, ops, a)
  {
    forall j | 0 <= j < |ops| ensures Clean(b, ops[j], a) {
      if ops[j].Copy? && Covers(ops[j], a) { CopiesAreInWindow(b, h, ops[j], a); }
    }
    CleanFromImage(b, ops, a);
  }

  lemma CopiesAreInWindow(b: Board, h: nat, op: Op, a: nat)
    requires WellFormed(b) && h < HARTS && Legal(b, h, op) && op.Copy? && Covers(op, a)
    ensures InWindow(b, h, a)
  {
    var k :| 0 <= k < |b.image.chunks| - 1 && Mine(b, h, k) && PieceOf(b, k, op.dst, op.src, op.len);
    var c := b.image.chunks[k];
    var s: nat :| s <= c.size && s % SUB_CHUNK == 0 && op.dst == c.execAddr + s
      && op.src == b.image.base + c.loadAddr + s;
    PieceInWindow(c.size, s);
    assert !WindowMisses(b, k, a, a + 1);
  }

  // ---------------------------------------------------------------- what memory holds after the download

  /** Each chunk of hart `h` that its download reached holds its image bytes; its zero-initialised memory
      is zero where no other hart may write and none of its own chunks lies. */
  ghost predicate InPlace(b: Board, h: nat, mem: seq<byte>, img: seq<byte>)
    requires WellFormed(b) && h < HARTS && b.image.harts[h].numChunks > 0
  {
    && (forall k :: b.image.harts[h].firstChunk <= k < EndCursor(b, h, StartCursor(b, h)).chunk && Mine(b, h, k) ==>
          ChunkLoaded(b, k, mem, img))
    && (forall k, a: nat :: 0 <= k < |b.image.ziChunks| - 1 && OwnZero(b, h, k, a) ==> a < |mem| && mem[a] == 0)
  }

  ghost predicate OwnZero(b: Board, h: nat, k: nat, a: nat)
    requires WellFormed(b) && h < HARTS && k < |b.image.ziChunks|
  {
    ZiMine(b, h, k) && InZi(b, k, a) && !InWindow(b, h, a) && Private(b, h, a, a + 1)
  }

  lemma PrivateByte(b: Board, h: nat, lo: nat, hi: nat, a: nat)
    requires WellFormed(b) && Private(b, h, lo, hi) && lo <= a < hi
    ensures Private(b, h, a, a + 1)
  {
    forall g: nat, j | g < HARTS && g != h && 0 <= j < |b.image.chunks| - 1 && Mine(b, g, j)
      ensures WindowMisses(b, j, a, a + 1) {
      assert WindowMisses(b, j, lo, hi);
    }
    forall g: nat, j | g < HARTS && g != h && 0 <= j < |b.image.ziChunks| - 1 && ZiMine(b, g, j)
      ensures ZiMisses(b, j, a, a + 1) {
      assert ZiMisses(b, j, lo, hi);
    }
  }

  lemma ChunkInPlace(b: Board, log: seq<BootEvent>, h: nat, k: nat, mem: seq<byte>, img: seq<byte>)
    requires Layout(b, |mem|) && LegalLog(b, log) && ImageIntact(b, mem, img)
    requires h < HARTS && b.image.harts[h].numChunks > 0 && ViewOf(log, h).ops == Script(b, h)
    requires b.image.harts[h].firstChunk <= k < EndCursor(b, h, StartCursor(b, h)).chunk && Mine(b, h, k)
    requires ChunkLoaded(b, k, Exec(OpsBy(log, h), mem), img)
    ensures ChunkLoaded(b, k, Exec(OpsOf(log), mem), img)
  {
    var c := b.image.chunks[k];
    AttemptIsLast(log, h);
    var earlier :| OpsBy(log, h) == earlier + ViewOf(log, h).ops;
    forall i: nat | i < c.size ensures Same(Exec(OpsOf(log), mem), c.execAddr, img, c.loadAddr, i) {
      assert Same(Exec(OpsBy(log, h), mem), c.execAddr, img, c.loadAddr, i);
      ChunkFromImage(b, h, earlier, k, i, |mem|);
      PrivateByte(b, h, c.execAddr, c.execAddr + c.size, c.execAddr + i);
      Alone(b, log, h, mem, img, c.execAddr + i);
    }
  }

  /** Once an attempt has made all its writes, its chunks are in place, whatever the other harts wrote
      in between and whatever earlier attempts wrote. */
  lemma ScriptInPlace(b: Board, log: seq<BootEvent>, h: nat, mem: seq<byte>, img: seq<byte>)
    requires Layout(b, |mem|) && LegalLog(b, log) && ImageIntact(b, mem, img)
    requires h < HARTS && b.image.harts[h].numChunks > 0 && ViewOf(log, h).ops == Script(b, h)
    ensures InPlace(b, h, Exec(OpsOf(log), mem), img)
  {
    AttemptIsLast(log, h);
    var earlier :| OpsBy(log, h) == earlier + ViewOf(log, h).ops;
    OpsLegal(b, log, h);
    assert AllLegal(b, h, earlier) by {
      forall i | 0 <= i < |earlier| ensures Legal(b, h, earlier[i]) { assert earlier[i] == OpsBy(log, h)[i]; }
    }
    LegalKeepsImage(b, h, earlier, mem, img);
    ScriptBoots(b, h, Exec(earlier, mem), img);
    ExecConcat(earlier, Script(b, h), mem);
    forall k | b.image.harts[h].firstChunk <= k < EndCursor(b, h, StartCursor(b, h)).chunk && Mine(b, h, k)
      ensures ChunkLoaded(b, k, Exec(OpsOf(log), mem), img)
    {
      ChunkInPlace(b, log, h, k, mem, img);
    }
    forall k, a: nat | 0 <= k < |b.image.ziChunks| - 1 && OwnZero(b, h, k, a)
      ensures a < |mem| && Exec(OpsOf(log), mem)[a] == 0
    {
      ZeroFromImage(b, h, OpsBy(log, h), a);
      Alone(b, log, h, mem, img, a);
    }
  }

  /** In every interleaving, a machine past its download has its chunks in memory, and all of them from
      firstChunk to the sentinel when there are no more than its lastChunk + 1. */
  lemma ChunksInPlace(b: Board, mem: seq<byte>, img: seq<byte>, actions: seq<Action>, h: nat)
    requires Layout(b, |mem|) && ImageIntact(b, mem, img) && Possible(actions) && h < HARTS
    requires Run(b, Initial(b, mem), actions).machines[h].core.state in {BOOT_OPENSBI_INIT, BOOT_WAIT}
    ensures b.image.harts[h].numChunks > 0
    ensures InPlace(b, h, Run(b, Initial(b, mem), actions).mem, img)
    ensures OwnedFrom(b, h, b.image.harts[h].firstChunk) <= b.image.harts[h].lastChunk + 1 ==>
      forall k :: b.image.harts[h].firstChunk <= k < |b.image.chunks| - 1 && Mine(b, h, k) ==>
        ChunkLoaded(b, k, Run(b, Initial(b, mem), actions).mem, img)
  {
    RunKeeps(b, mem, actions);
    var w := Run(b, Initial(b, mem), actions);
    ScriptInPlace(b, w.log, h, mem, img);
    AllDownloaded(b, h, StartCursor(b, h));
  }
}
