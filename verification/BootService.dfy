/** The boot service as it is written: one object per machine, updated in place, run in turn by the
    superloop. Every method is proved to do what BootSpec says. */
module BootService {
  import opened Words
  import opened Wrappers
  import opened MemoryOps
  import opened BootImage
  import opened BootLayout
  import opened BootSpec
  import opened BootProtocol
  import opened BootRuns
  import StateMachine

  /** What the machines share. */
  class Platform {
    const mem: array<byte>
    const bootComplete: array<bool>
    ghost var log: seq<BootEvent>

    ghost predicate Apart() { bootComplete.Length == HARTS && (mem as object) != bootComplete }

    constructor (mem: array<byte>)
      ensures this.mem == mem && log == [] && fresh(bootComplete) && Apart()
      ensures forall i :: 0 <= i < HARTS ==> !bootComplete[i]
    {
      this.mem, bootComplete, log := mem, new bool[HARTS](_ => false), [];
    }
  }

  /** A struct StateMachine together with its HSS_Boot_LocalData. */
  class BootMachine {
    const b: Board
    const h: nat
    const p: Platform
    var state: int
    var prevState: int
    var executionCount: nat
    var chunk: nat
    var chunkCount: nat
    var subChunkOffset: nat
    var ziChunk: nat
    var msgIndex: Option<nat>
    const msgIndexAux: array<Option<nat>>
    var peerIndex: nat
    var ancilliaryData: nat

    ghost function Snapshot(): Machine
      reads this, msgIndexAux
    {
      Machine(StateMachine.Core(state, prevState, executionCount), Cursor(chunk, chunkCount, subChunkOffset), ziChunk,
              msgIndex, msgIndexAux[..], peerIndex, ancilliaryData)
    }

    /** What never changes. */
    ghost predicate Wired() {
      && WellFormed(b) && Placed(b, p.mem.Length) && h < HARTS && msgIndexAux.Length == HARTS && p.Apart()
      && (msgIndexAux as object) !in {p.mem as object, p.bootComplete as object}
    }

    /** Between calls. */
    ghost predicate Valid()
      reads this, msgIndexAux, p
    {
      Wired() && MachineOk(b, h, Snapshot(), ViewOf(p.log, h))
    }

    /** When a handler starts. */
    ghost predicate Running()
      reads this, msgIndexAux, p
    {
      Wired() && Entered(b, h, Snapshot(), ViewOf(p.log, h))
    }

    /** Hook or handler had effect `e`. */
    ghost predicate Had(e: Effect, log: seq<BootEvent>, mem: seq<byte>)
      reads this, msgIndexAux, p, p.mem
    {
      Snapshot() == e.m && p.log == log + e.events && p.mem[..] == Exec(OpsOf(e.events), mem)
    }

    constructor (b: Board, h: nat, p: Platform)
      requires WellFormed(b) && Placed(b, p.mem.Length) && h < HARTS && p.Apart() && p.log == []
      ensures this.b == b && this.h == h && this.p == p && fresh(msgIndexAux)
      ensures Wired() && Snapshot() == Fresh()
    {
      this.b, this.h, this.p := b, h, p;
      state, prevState, executionCount := BOOT_IDLE, StateMachine.INVALID_STATE, 0;
      chunk, chunkCount, subChunkOffset, ziChunk, peerIndex, ancilliaryData := 0, 0, 0, 0, 0, 0;
      msgIndex, msgIndexAux := None, new Option<nat>[HARTS](_ => Some(0));
      new;
      assert msgIndexAux[..] == Fresh().msgIndexAux;
    }

    // -------------------------------------------------------------- helpers

    /** `register_harts`, and the freeing loops of the two timeouts. */
    method RegisterHarts()
      requires Wired()
      modifies this`msgIndex, msgIndexAux
      ensures Snapshot() == BootSpec.RegisterHarts(old(Snapshot()))
    {
      msgIndex := None;
      var i := 0;
      while i < HARTS
        invariant i <= HARTS && msgIndex == None
        invariant forall k :: 0 <= k < i ==> msgIndexAux[k] == None
      {
        msgIndexAux[i] := None;
        i := i + 1;
      }
      assert msgIndexAux[..] == BootSpec.RegisterHarts(old(Snapshot())).msgIndexAux;
    }

    /** `check_for_ipi_acks`: each outstanding peer overwrites the verdict of the one before. */
    method CheckForIpiAcks(completed: set<nat>) returns (result: bool)
      requires Wired()
      modifies this`msgIndex, msgIndexAux
      ensures (Snapshot(), result) == BootSpec.CheckForIpiAcks(old(Snapshot()), completed)
    {
      result := true;
      var i := 0;
      while i < HARTS
        invariant i <= HARTS && msgIndex == old(msgIndex)
        invariant AckLoop(msgIndexAux[..], completed, i, result) == AckLoop(old(msgIndexAux[..]), completed, 0, true)
      {
        ghost var aux, was := msgIndexAux[..], result;
        if msgIndexAux[i].Some? {
          result := msgIndexAux[i].value in completed;
          if result {
            msgIndexAux[i] := None;
          }
        }
        assert msgIndexAux[..] == if aux[i].Some? && aux[i].value in completed then aux[i := None] else aux;
        i := i + 1;
      }
      if msgIndex.Some? {
        result := result && msgIndex.value in completed;
        if result {
          msgIndex := None;
        }
      }
    }

    /** `common_boot_message_delivery`. */
    method Deliver(to: nat, env: Env)
      requires Wired() && Shaped(b, h, Snapshot()) && to < HARTS
      modifies this, msgIndexAux, p`log
      ensures Had(BootSpec.Deliver(b, h, to, old(Snapshot()), env), old(p.log), old(p.mem[..]))
    {
      msgIndexAux[to] := Some(env.newMessage);
      p.log := p.log + [Delivered(h, to, KindFor(b, to), ancilliaryData)];
      assert OpsOf([Delivered(h, to, KindFor(b, to), ancilliaryData)]) == OpsOf([]);
    }

    // -------------------------------------------------------------- hooks

    method OnExit(s: int, env: Env)
      requires Wired() && Shaped(b, h, Snapshot())
      modifies this, msgIndexAux, p`log
      ensures Had(BootSpec.OnExit(b, h, s, old(Snapshot()), env), old(p.log), old(p.mem[..]))
    {
      assert p.log + [] == p.log;
      if s == BOOT_DOWNLOAD_CHUNKS {
        RegisterHarts();
      } else if s == BOOT_OPENSBI_INIT && b.image.harts[h].entryPoint != 0 {
        Deliver(h, env);
      }
    }

    method OnEntry()
      requires Wired() && Shaped(b, h, Snapshot())
      modifies this, msgIndexAux, p`log, p.bootComplete
      ensures Snapshot() == BootSpec.OnEntry(b, h, old(Snapshot())) && p.log == old(p.log) + EntryEvents(h, old(state))
      ensures p.bootComplete[..] == if old(state) == BOOT_COMPLETE then old(p.bootComplete[..])[h := true]
        else old(p.bootComplete[..])
    {
      assert p.log + [] == p.log;
      if state == BOOT_SETUP_PMP {
        RegisterHarts();
      } else if state == BOOT_ZERO_INIT_CHUNKS {
        ziChunk := 0;
      } else if state == BOOT_DOWNLOAD_CHUNKS {
        if b.image.harts[h].numChunks > 0 {
          chunkCount, subChunkOffset := 0, 0;
          chunk := b.image.harts[h].firstChunk;
        }
      } else if state == BOOT_OPENSBI_INIT {
        if b.image.harts[h].entryPoint != 0 {
          peerIndex := 0;
        }
      } else if state == BOOT_COMPLETE {
        p.bootComplete[h] := true;
        p.log := p.log + [Completed(h)];
      }
    }

    /** The part of `RunStateMachine` that a change of state causes. */
    method Transition(env: Env)
      requires Valid()
      modifies this, msgIndexAux, p`log, p.bootComplete
      ensures Running()
      ensures Had(BootSpec.Transition(b, h, old(Snapshot()), env), old(p.log), old(p.mem[..]))
      ensures p.bootComplete[..] == Completing(h, old(Snapshot()), old(p.bootComplete[..]))
    {
      TransitionOk(b, h, Snapshot(), env, ViewOf(p.log, h));
      LookConcat(NOTHING, p.log, BootSpec.Transition(b, h, Snapshot(), env).events, h);
      assert p.log + [] == p.log;
      if prevState != state {
        Hooks(env);
      }
    }

    method Hooks(env: Env)
      requires Wired() && Shaped(b, h, Snapshot()) && prevState != state
      modifies this, msgIndexAux, p`log, p.bootComplete
      ensures Had(BootSpec.Transition(b, h, old(Snapshot()), env), old(p.log), old(p.mem[..]))
      ensures p.bootComplete[..] == Completing(h, old(Snapshot()), old(p.bootComplete[..]))
    {
      ghost var log, mem := p.log, p.mem[..];
      ghost var left: seq<BootEvent> := [];
      if 0 <= prevState < BOOT_NUM_STATES {
        left := BootSpec.OnExit(b, h, prevState, Snapshot(), env).events;
        OnExit(prevState, env);
      }
      LogsInTurn(log, left, EntryEvents(h, state));
      EventsInTurn(left, EntryEvents(h, state), mem);
      assert OpsOf([Completed(h)]) == OpsOf([]);
      OnEntry();
      executionCount := 0;
      prevState := state;
    }

    // -------------------------------------------------------------- handlers

    method InitHandler(env: Env)
      requires Wired()
      modifies this`state, p`log
      ensures Had(BootSpec.InitHandler(h, old(Snapshot()), env), old(p.log), old(p.mem[..]))
    {
      assert p.log + [] == p.log && OpsOf([Ready(h)]) == OpsOf([]);
      if env.ddrTrained && env.startupComplete {
        if env.imageRegistered {
          p.log := p.log + [Ready(h)];
          state := BOOT_SETUP_PMP;
        } else {
          state := BOOT_ERROR;
        }
      }
    }

    method SetupPmpHandler(env: Env)
      requires Wired()
      modifies this`state, this`msgIndex, p`log
      ensures Had(BootSpec.SetupPmpHandler(h, old(Snapshot()), env), old(p.log), old(p.mem[..]))
    {
      assert p.log + [] == p.log && OpsOf([PmpRequested(h, env.newMessage)]) == OpsOf([]);
      if msgIndex.None? {
        msgIndex := Some(env.newMessage);
        p.log := p.log + [PmpRequested(h, env.newMessage)];
      }
      state := BOOT_SETUP_PMP_COMPLETE;
    }

    method SetupPmpCompleteHandler(env: Env)
      requires Wired() && Shaped(b, h, Snapshot())
      modifies this, msgIndexAux, p`log
      ensures Had(BootSpec.SetupPmpCompleteHandler(b, h, old(Snapshot()), env), old(p.log), old(p.mem[..]))
    {
      assert p.log + [] == p.log;
      if env.timedOut {
        RegisterHarts();
        state := BOOT_ERROR;
      } else {
        var asked := msgIndex;
        var result := CheckForIpiAcks(env.completed);
        if result {
          if asked.Some? {
            assert OpsOf([PmpCompleted(h, asked.value)]) == OpsOf([]);
            p.log := p.log + [PmpCompleted(h, asked.value)];
          }
          state := if b.image.harts[h].skipAutoboot then BOOT_COMPLETE else BOOT_ZERO_INIT_CHUNKS;
        }
      }
    }

    method Write(op: Op)
      requires Wired() && Legal(b, h, op)
      modifies p`log, p.mem
      ensures p.log == old(p.log) + Writes(h, [op])
      ensures p.mem[..] == Exec(OpsOf(Writes(h, [op])), old(p.mem[..]))
    {
      LegalStaysClear(b, h, op, p.mem.Length);
      ExecOne(op, p.mem[..]);
      assert Writes(h, [op]) == [Wrote(h, op)];
      assert Writes(h, [op])[..0] == [] && OpsOf(Writes(h, [op])) == [] + [op];
      p.log := p.log + Writes(h, [op]);
      match op
      case Fill(dst, len) => Memset(p.mem, dst, len);
      case Copy(dst, src, len) => Memcpy(p.mem, dst, src, len);
    }

    method ZeroInitHandler(env: Env)
      requires Running() && state == BOOT_ZERO_INIT_CHUNKS
      modifies this`state, this`ziChunk, p`log, p.mem
      ensures Had(BootSpec.ZeroInitHandler(b, h, old(Snapshot()), env), old(p.log), old(p.mem[..]))
    {
      var z := b.image.ziChunks[ziChunk];
      assert p.log + [] == p.log && OpsOf([Zeroed(h)]) == OpsOf([]);
      if z.size != 0 {
        if z.owner == h + 1 {
          if InDdr(b, z.execAddr) && !env.ddrTrained {
            // wait until the memory is there
          } else {
            assert Legal(b, h, Fill(z.execAddr, z.size));
            Write(Fill(z.execAddr, z.size));
            ziChunk := ziChunk + 1;
          }
        } else {
          ziChunk := ziChunk + 1;
        }
      } else {
        p.log := p.log + [Zeroed(h)];
        state := BOOT_DOWNLOAD_CHUNKS;
      }
    }

    method DownloadHandler()
      requires Running() && state == BOOT_DOWNLOAD_CHUNKS
      modifies this, p`log, p.mem
      ensures Had(BootSpec.DownloadHandler(b, h, old(Snapshot())), old(p.log), old(p.mem[..]))
    {
      assert p.log + [] == p.log && OpsOf([Downloaded(h)]) == OpsOf([]);
      if b.image.harts[h].numChunks == 0 {
        state := BOOT_COMPLETE;
      } else if chunkCount <= b.image.harts[h].lastChunk && b.image.chunks[chunk].size != 0 {
        DownloadSubChunk();
      } else {
        p.log := p.log + [Downloaded(h)];
        state := BOOT_OPENSBI_INIT;
      }
    }

    method DownloadSubChunk()
      requires Wired() && Shaped(b, h, Snapshot()) && OnPiece(b, h, Cursor(chunk, chunkCount, subChunkOffset))
      requires b.image.harts[h].numChunks > 0 && !AtEnd(b, h, Cursor(chunk, chunkCount, subChunkOffset))
      modifies this, p`log, p.mem
      ensures Had(BootSpec.DownloadHandler(b, h, old(Snapshot())), old(p.log), old(p.mem[..]))
    {
      hide CopyFrom, ZeroFrom;
      assert p.log + [] == p.log;
      if Mine(b, h, chunk) {
        CopyPiece();
        NextPiece();
      } else {
        chunk := chunk + 1;
      }
    }

    /** `boot_do_download_chunk`. */
    method CopyPiece()
      requires Wired() && OnPiece(b, h, Cursor(chunk, chunkCount, subChunkOffset))
      requires !AtEnd(b, h, Cursor(chunk, chunkCount, subChunkOffset)) && Mine(b, h, chunk)
      modifies p`log, p.mem
      ensures var ops := CopyAt(b, h, Cursor(chunk, chunkCount, subChunkOffset));
        p.log == old(p.log) + Writes(h, ops) && p.mem[..] == Exec(OpsOf(Writes(h, ops)), old(p.mem[..]))
    {
      PieceIsLegal(b, h, Cursor(chunk, chunkCount, subChunkOffset));
      hide Legal, CopyAt, Mine, AtEnd, Exec, OpsOf;
      var k := b.image.chunks[chunk];
      Write(Copy(k.execAddr + subChunkOffset, b.image.base + k.loadAddr + subChunkOffset, SUB_CHUNK));
    }

    method NextPiece()
      requires Wired() && chunk < |b.image.chunks| && Mine(b, h, chunk)
      requires !AtEnd(b, h, Cursor(chunk, chunkCount, subChunkOffset))
      modifies this`chunk, this`chunkCount, this`subChunkOffset, this`ancilliaryData
      ensures Cursor(chunk, chunkCount, subChunkOffset) == Advance(b, h, old(Cursor(chunk, chunkCount, subChunkOffset)))
      ensures ancilliaryData ==
        var k := old(b.image.chunks[chunk]); if k.ancillary && old(ancilliaryData) == 0 then k.execAddr
          else old(ancilliaryData)
    {
      var k := b.image.chunks[chunk];
      if k.ancillary && ancilliaryData == 0 {
        ancilliaryData := k.execAddr;
      }
      subChunkOffset := subChunkOffset + SUB_CHUNK;
      if subChunkOffset > k.size {
        subChunkOffset := 0;
        chunkCount := chunkCount + 1;
        chunk := chunk + 1;
      }
    }

    method OpenSbiInitHandler(env: Env)
      requires Running() && state == BOOT_OPENSBI_INIT
      modifies this, msgIndexAux, p`log
      ensures Had(BootSpec.OpenSbiInitHandler(b, h, old(Snapshot()), env), old(p.log), old(p.mem[..]))
    {
      assert p.log + [] == p.log;
      if b.image.harts[h].numChunks > 0 && b.image.harts[h].entryPoint != 0 {
        if peerIndex < HARTS {
          if peerIndex == h {
            // itself comes last, on exit
          } else if b.image.harts[peerIndex].entryPoint == b.image.harts[h].entryPoint {
            Deliver(peerIndex, env);
          }
          peerIndex := peerIndex + 1;
        } else {
          state := BOOT_WAIT;
        }
      }
    }

    method WaitHandler(env: Env)
      requires Wired() && Shaped(b, h, Snapshot())
      modifies this, msgIndexAux
      ensures Snapshot() == BootSpec.WaitHandler(b, h, old(Snapshot()), env)
    {
      if b.image.harts[h].entryPoint == 0 {
        state := BOOT_COMPLETE;
      } else if env.timedOut {
        RegisterHarts();
        state := BOOT_ERROR;
      } else {
        var result := CheckForIpiAcks(env.completed);
        if result {
          state := BOOT_COMPLETE;
        }
      }
    }

    method CompleteHandler()
      requires Wired()
      modifies this`state, p`log
      ensures state == if false !in p.bootComplete[..] then BOOT_IDLE else old(state)
      ensures p.log == if false !in p.bootComplete[..] then old(p.log) + [Idled(h)] else old(p.log)
    {
      var all := p.bootComplete[0];
      all := all && p.bootComplete[1];
      all := all && p.bootComplete[2];
      all := all && p.bootComplete[3];
      assert all <==> false !in p.bootComplete[..] by {
        assert p.bootComplete[..] == [p.bootComplete[0], p.bootComplete[1], p.bootComplete[2], p.bootComplete[3]];
      }
      if all {
        p.log := p.log + [Idled(h)];
        state := BOOT_IDLE;
      }
    }

    // -------------------------------------------------------------- the engine

    /** The handler of the current state. */
    method Handle(env: Env)
      requires Running()
      modifies this, msgIndexAux, p`log, p.mem
      ensures Had(BootSpec.Handler(b, h, old(state), old(Snapshot()), env, p.bootComplete[..]), old(p.log),
        old(p.mem[..]))
      ensures p.bootComplete[..] == old(p.bootComplete[..])
    {
      assert p.log + [] == p.log && OpsOf([Idled(h)]) == OpsOf([]);
      if state == BOOT_INITIALIZATION {
        InitHandler(env);
      } else if state == BOOT_SETUP_PMP {
        SetupPmpHandler(env);
      } else if state == BOOT_SETUP_PMP_COMPLETE {
        SetupPmpCompleteHandler(env);
      } else if state == BOOT_ZERO_INIT_CHUNKS {
        ZeroInitHandler(env);
      } else if state == BOOT_DOWNLOAD_CHUNKS {
        DownloadHandler();
      } else if state == BOOT_OPENSBI_INIT {
        OpenSbiInitHandler(env);
      } else if state == BOOT_WAIT {
        WaitHandler(env);
      } else if state == BOOT_COMPLETE {
        CompleteHandler();
      } else if state == BOOT_ERROR {
        state := BOOT_COMPLETE;
      }
    }

    method RunStateMachine(env: Env)
      requires Valid()
      modifies this, msgIndexAux, p`log, p.mem, p.bootComplete
      ensures Valid()
      ensures Had(RunMachine(b, h, old(Snapshot()), env, old(p.bootComplete[..])), old(p.log), old(p.mem[..]))
      ensures p.bootComplete[..] == Completing(h, old(Snapshot()), old(p.bootComplete[..]))
    {
      hide BootSpec.Handler, BootSpec.Transition, Entered, SetupOk, CopyingOk, StartingOk;
      ghost var m, log, mem, complete := Snapshot(), p.log, p.mem[..], p.bootComplete[..];
      ghost var t := BootSpec.Transition(b, h, m, env);
      Transition(env);
      ghost var e := BootSpec.Handler(b, h, m.core.state, t.m, env, Completing(h, m, complete));
      Handle(env);
      executionCount := executionCount + 1;
      LogsInTurn(log, t.events, e.events);
      EventsInTurn(t.events, e.events, mem);
      CallKeepsLog(b, h, m, env, complete, log);
    }
  }

  lemma PieceIsLegal(b: Board, h: nat, c: Cursor)
    requires OnPiece(b, h, c) && !AtEnd(b, h, c) && Mine(b, h, c.chunk)
    ensures var k := b.image.chunks[c.chunk];
      var op := Copy(k.execAddr + c.sub, b.image.base + k.loadAddr + c.sub, SUB_CHUNK);
      CopyAt(b, h, c) == [op] && Legal(b, h, op)
  {
    PieceStep(b, h, c);
    assert CopyAt(b, h, c)[0] == [CopyAt(b, h, c)[0]][0];
  }

  lemma LogsInTurn(log: seq<BootEvent>, first: seq<BootEvent>, rest: seq<BootEvent>)
    ensures log + (first + rest) == log + first + rest
  {
    assert log + (first + rest) == log + first + rest;
  }

  lemma EventsInTurn(first: seq<BootEvent>, rest: seq<BootEvent>, mem: seq<byte>)
    ensures Exec(OpsOf(first + rest), mem) == Exec(OpsOf(rest), Exec(OpsOf(first), mem))
  {
    OpsConcat(first, rest);
    ExecConcat(OpsOf(first), OpsOf(rest), mem);
  }

  lemma CallKeepsLog(b: Board, h: nat, m: Machine, env: Env, complete: seq<bool>, log: seq<BootEvent>)
    requires MachineOk(b, h, m, ViewOf(log, h)) && |complete| == HARTS
    ensures var r := RunMachine(b, h, m, env, complete); MachineOk(b, h, r.m, ViewOf(log + r.events, h))
  {
    CallKeeps(b, h, m, env, complete, ViewOf(log, h));
    LookConcat(NOTHING, log, RunMachine(b, h, m, env, complete).events, h);
  }

  // ---------------------------------------------------------------- the superloop

  ghost function WorldOf(machines: seq<BootMachine>, p: Platform): World
    requires |machines| == HARTS
    reads p, p.mem, p.bootComplete, machines, set i | 0 <= i < |machines| :: machines[i].msgIndexAux
  {
    World([machines[0].Snapshot(), machines[1].Snapshot(), machines[2].Snapshot(), machines[3].Snapshot()],
          p.bootComplete[..], p.mem[..], p.log)
  }

  /** The four machines of one platform, none of them sharing anything but that. */
  ghost predicate Fleet(b: Board, machines: seq<BootMachine>, p: Platform) {
    && |machines| == HARTS
    && (forall i :: 0 <= i < HARTS ==>
      machines[i].Wired() && machines[i].b == b && machines[i].h == i && machines[i].p == p)
    && (forall i, j :: 0 <= i < j < HARTS ==>
      machines[i] != machines[j] && machines[i].msgIndexAux != machines[j].msgIndexAux)
  }

  /** Only machine `i` has changed. */
  lemma OthersKept(machines: seq<BootMachine>, p: Platform, i: nat, before: World)
    requires |machines| == HARTS == |before.machines| && i < HARTS
    requires forall j :: 0 <= j < HARTS && j != i ==> before.machines[j] == machines[j].Snapshot()
    ensures WorldOf(machines, p).machines == before.machines[i := machines[i].Snapshot()]
  {
  }

  /** The calls of one turn of the superloop. */
  function Turn(envs: seq<Env>): seq<Action> { seq(|envs|, i requires 0 <= i < |envs| => Call(i, envs[i])) }

  method RunOne(b: Board, machines: seq<BootMachine>, p: Platform, i: nat, env: Env, ghost w: World)
    requires Fleet(b, machines, p) && i < HARTS && WorldOf(machines, p) == w && Sane(b, w)
    requires MachineOk(b, i, w.machines[i], ViewOf(w.log, i))
    modifies machines[i], machines[i].msgIndexAux, p`log, p.mem, p.bootComplete
    ensures WorldOf(machines, p) == Step(b, w, Call(i, env))
  {
    hide RunMachine, MachineOk, WellFormed, Placed;
    assert w.machines[i] == machines[i].Snapshot();
    machines[i].RunStateMachine(env);
    OthersKept(machines, p, i, w);
  }

  /** `RunStateMachines`: one turn is the run of one call of each machine, in order. `start` is memory
      as it was when the log began. */
  method RunStateMachines(b: Board, machines: seq<BootMachine>, p: Platform, envs: seq<Env>, ghost start: seq<byte>)
    requires Fleet(b, machines, p) && |envs| == HARTS && WorldOk(b, WorldOf(machines, p), start)
    modifies machines, set i | 0 <= i < |machines| :: machines[i].msgIndexAux
    modifies p`log, p.mem, p.bootComplete
    ensures WorldOk(b, WorldOf(machines, p), start)
    ensures WorldOf(machines, p) == Run(b, old(WorldOf(machines, p)), Turn(envs))
  {
    hide Step, MachineOk;
    ghost var w := WorldOf(machines, p);
    var i := 0;
    assert Turn(envs)[..0] == [];
    while i < |machines|
      invariant i <= HARTS && Possible(Turn(envs)) && WorldOk(b, WorldOf(machines, p), start)
      invariant WorldOf(machines, p) == Run(b, w, Turn(envs)[..i])
    {
      assert Turn(envs)[..i + 1][..i] == Turn(envs)[..i];
      ghost var before := WorldOf(machines, p);
      CallStepKeeps(b, before, i, envs[i], start);
      RunOne(b, machines, p, i, envs[i], before);
      i := i + 1;
    }
    assert Turn(envs)[..HARTS] == Turn(envs);
  }

  method NewMachines(b: Board, p: Platform) returns (machines: seq<BootMachine>)
    requires WellFormed(b) && Placed(b, p.mem.Length) && p.Apart() && p.log == []
    ensures Fleet(b, machines, p) && forall i :: 0 <= i < HARTS ==> machines[i].Snapshot() == Fresh()
  {
    hide Placed, WellFormed;
    var m0 := new BootMachine(b, 0, p);
    var m1 := new BootMachine(b, 1, p);
    var m2 := new BootMachine(b, 2, p);
    var m3 := new BootMachine(b, 3, p);
    machines := [m0, m1, m2, m3];
  }

  /** The machines as declared, around memory `mem`. */
  method SetUp(b: Board, mem: array<byte>) returns (machines: seq<BootMachine>, p: Platform)
    requires WellFormed(b) && Placed(b, mem.Length)
    ensures Fleet(b, machines, p) && p.mem == mem && mem[..] == old(mem[..]) && fresh(p)
    ensures WorldOf(machines, p) == Initial(b, mem[..])
  {
    hide Placed, WellFormed;
    p := new Platform(mem);
    machines := NewMachines(b, p);
    assert p.bootComplete[..] == Initial(b, mem[..]).complete;
    assert WorldOf(machines, p).machines == Initial(b, mem[..]).machines;
  }
}
