/** The boot state machines of services/boot/hss_boot_service.c as functions on values: what one call
    of the engine does to one machine, and the memory writes and messages it causes.

    Messages are delivered at once when sent; whether one has been completed, what the clock says and
    which triggers have fired are inputs. */
module BootSpec {
  import opened Words
  import opened Wrappers
  import opened MemoryOps
  import opened BootImage
  import StateMachine

  const BOOT_INITIALIZATION := 0
  const BOOT_SETUP_PMP := 1
  const BOOT_SETUP_PMP_COMPLETE := 2
  const BOOT_ZERO_INIT_CHUNKS := 3
  const BOOT_DOWNLOAD_CHUNKS := 4
  const BOOT_OPENSBI_INIT := 5
  const BOOT_WAIT := 6
  const BOOT_COMPLETE := 7
  const BOOT_IDLE := 8
  const BOOT_ERROR := 9
  const BOOT_NUM_STATES := 10

  /** The engine's fields of one machine and its HSS_Boot_LocalData. A message index is absent when it
      is IPI_MAX_NUM_OUTSTANDING_COMPLETES. */
  datatype Machine = Machine(core: StateMachine.Core, cursor: Cursor, ziChunk: nat, msgIndex: Option<nat>,
                             msgIndexAux: seq<Option<nat>>, peerIndex: nat, ancilliaryData: nat)

  /** What a call meets outside the machine. */
  datatype Env = Env(ddrTrained: bool, startupComplete: bool, imageRegistered: bool, timedOut: bool,
                     newMessage: nat, completed: set<nat>)

  datatype Kind = Goto | OpenSbiInit

  datatype BootEvent =
    | Restarted(h: nat)
    | Ready(h: nat)
    | PmpRequested(h: nat, msg: nat)
    | PmpCompleted(h: nat, msg: nat)
    | Wrote(h: nat, op: Op)
    | Zeroed(h: nat)
    | Downloaded(h: nat)
    | Delivered(h: nat, to: nat, kind: Kind, arg: nat)
    | Completed(h: nat)
    | Idled(h: nat)

  datatype Effect = Effect(m: Machine, events: seq<BootEvent>)

  ghost predicate Shaped(b: Board, h: nat, m: Machine) {
    && WellFormed(b) && h < HARTS
    && |m.msgIndexAux| == HARTS
    && m.ziChunk < |b.image.ziChunks|
    && m.cursor.chunk < |b.image.chunks|
    && StateMachine.IsValidState(m.core.state, BOOT_NUM_STATES)
  }

  function To(m: Machine, s: int): Machine { m.(core := m.core.(state := s)) }

  // ---------------------------------------------------------------- helpers

  /** `register_harts`, as far as this model goes: outstanding messages are forgotten. */
  function RegisterHarts(m: Machine): Machine {
    m.(msgIndex := None, msgIndexAux := seq(HARTS, _ => None))
  }

  /** The verdict of the loop in `check_for_ipi_acks` from peer `i` on, and what it leaves outstanding. */
  function AckLoop(aux: seq<Option<nat>>, completed: set<nat>, i: nat, result: bool): (r: (seq<Option<nat>>, bool))
    requires |aux| == HARTS && i <= HARTS
    ensures |r.0| == HARTS
    decreases HARTS - i
  {
    if i == HARTS then (aux, result)
    else if aux[i].None? then AckLoop(aux, completed, i + 1, result)
    else if aux[i].value in completed then AckLoop(aux[i := None], completed, i + 1, true)
    else AckLoop(aux, completed, i + 1, false)
  }

  /** `check_for_ipi_acks`. */
  function CheckForIpiAcks(m: Machine, completed: set<nat>): (r: (Machine, bool))
    requires |m.msgIndexAux| == HARTS
    ensures |r.0.msgIndexAux| == HARTS
  {
    var (aux, result) := AckLoop(m.msgIndexAux, completed, 0, true);
    var m1 := m.(msgIndexAux := aux);
    if m1.msgIndex.None? then (m1, result)
    else
      var all := result && m1.msgIndex.value in completed;
      (if all then m1.(msgIndex := None) else m1, all)
  }

  function KindFor(b: Board, to: nat): Kind
    requires WellFormed(b) && to < HARTS
  {
    if b.image.harts[to].skipOpenSbi then Goto else OpenSbiInit
  }

  /** `common_boot_message_delivery`. */
  function Deliver(b: Board, h: nat, to: nat, m: Machine, env: Env): Effect
    requires Shaped(b, h, m) && to < HARTS
  {
    Effect(m.(msgIndexAux := m.msgIndexAux[to := Some(env.newMessage)]),
      [Delivered(h, to, KindFor(b, to), m.ancilliaryData)])
  }

  predicate Primary(b: Board, h: nat)
    requires WellFormed(b) && h < HARTS
  {
    b.image.harts[h].numChunks > 0 && b.image.harts[h].entryPoint != 0
  }

  // ---------------------------------------------------------------- hooks

  function OnExit(b: Board, h: nat, s: int, m: Machine, env: Env): Effect
    requires Shaped(b, h, m)
  {
    if s == BOOT_DOWNLOAD_CHUNKS then Effect(RegisterHarts(m), [])
    else if s == BOOT_OPENSBI_INIT && b.image.harts[h].entryPoint != 0 then Deliver(b, h, h, m, env)
    else Effect(m, [])
  }

  function OnEntry(b: Board, h: nat, m: Machine): Machine
    requires Shaped(b, h, m)
  {
    var s, hart := m.core.state, b.image.harts[h];
    if s == BOOT_SETUP_PMP then RegisterHarts(m)
    else if s == BOOT_ZERO_INIT_CHUNKS then m.(ziChunk := 0)
    else if s == BOOT_DOWNLOAD_CHUNKS && hart.numChunks > 0 then m.(cursor := StartCursor(b, h))
    else if s == BOOT_OPENSBI_INIT && hart.entryPoint != 0 then m.(peerIndex := 0)
    else m
  }

  /** What onEntry shows outside the machine: BOOT_COMPLETE raises the machine's flag. */
  function EntryEvents(h: nat, s: int): seq<BootEvent> { if s == BOOT_COMPLETE then [Completed(h)] else [] }

  // ---------------------------------------------------------------- handlers

  function InitHandler(h: nat, m: Machine, env: Env): Effect {
    if !(env.ddrTrained && env.startupComplete) then Effect(m, [])
    else if env.imageRegistered then Effect(To(m, BOOT_SETUP_PMP), [Ready(h)])
    else Effect(To(m, BOOT_ERROR), [])
  }

  function SetupPmpHandler(h: nat, m: Machine, env: Env): Effect {
    var next := To(m, BOOT_SETUP_PMP_COMPLETE);
    if m.msgIndex.None? then Effect(next.(msgIndex := Some(env.newMessage)), [PmpRequested(h, env.newMessage)])
    else Effect(next, [])
  }

  function SetupPmpCompleteHandler(b: Board, h: nat, m: Machine, env: Env): Effect
    requires Shaped(b, h, m)
  {
    if env.timedOut then Effect(To(RegisterHarts(m), BOOT_ERROR), [])
    else
      var (acked, result) := CheckForIpiAcks(m, env.completed);
      if !result then Effect(acked, [])
      else Effect(To(acked, if b.image.harts[h].skipAutoboot then BOOT_COMPLETE else BOOT_ZERO_INIT_CHUNKS),
                  if m.msgIndex.Some? then [PmpCompleted(h, m.msgIndex.value)] else [])
  }

  function Writes(h: nat, ops: seq<Op>): seq<BootEvent> {
    seq(|ops|, i requires 0 <= i < |ops| => Wrote(h, ops[i]))
  }

  function ZeroInitHandler(b: Board, h: nat, m: Machine, env: Env): Effect
    requires Shaped(b, h, m)
  {
    var z := b.image.ziChunks[m.ziChunk];
    if z.size == 0 then Effect(To(m, BOOT_DOWNLOAD_CHUNKS), [Zeroed(h)])
    else if z.owner == h + 1 && InDdr(b, z.execAddr) && !env.ddrTrained then Effect(m, [])
    else Effect(m.(ziChunk := m.ziChunk + 1), Writes(h, ZeroAt(b, h, m.ziChunk)))
  }

  function DownloadHandler(b: Board, h: nat, m: Machine): Effect
    requires Shaped(b, h, m)
  {
    if b.image.harts[h].numChunks == 0 then Effect(To(m, BOOT_COMPLETE), [])
    else if AtEnd(b, h, m.cursor) then Effect(To(m, BOOT_OPENSBI_INIT), [Downloaded(h)])
    else
      var k := b.image.chunks[m.cursor.chunk];
      var found := Mine(b, h, m.cursor.chunk) && k.ancillary && m.ancilliaryData == 0;
      Effect(m.(cursor := Advance(b, h, m.cursor), ancilliaryData := if found then k.execAddr else m.ancilliaryData),
             Writes(h, CopyAt(b, h, m.cursor)))
  }

  function OpenSbiInitHandler(b: Board, h: nat, m: Machine, env: Env): Effect
    requires Shaped(b, h, m)
  {
    if !Primary(b, h) then Effect(m, [])
    else if m.peerIndex >= HARTS then Effect(To(m, BOOT_WAIT), [])
    else
      var peer := m.peerIndex;
      var e := if peer != h && b.image.harts[peer].entryPoint == b.image.harts[h].entryPoint
               then Deliver(b, h, peer, m, env) else Effect(m, []);
      Effect(e.m.(peerIndex := m.peerIndex + 1), e.events)
  }

  function WaitHandler(b: Board, h: nat, m: Machine, env: Env): Machine
    requires Shaped(b, h, m)
  {
    if b.image.harts[h].entryPoint == 0 then To(m, BOOT_COMPLETE)
    else if env.timedOut then To(RegisterHarts(m), BOOT_ERROR)
    else
      var (acked, result) := CheckForIpiAcks(m, env.completed);
      if result then To(acked, BOOT_COMPLETE) else acked
  }

  /** The handler of state `s`; `complete` tells which machines have reached BOOT_COMPLETE. */
  function Handler(b: Board, h: nat, s: int, m: Machine, env: Env, complete: seq<bool>): Effect
    requires Shaped(b, h, m)
  {
    if s == BOOT_INITIALIZATION then InitHandler(h, m, env)
    else if s == BOOT_SETUP_PMP then SetupPmpHandler(h, m, env)
    else if s == BOOT_SETUP_PMP_COMPLETE then SetupPmpCompleteHandler(b, h, m, env)
    else if s == BOOT_ZERO_INIT_CHUNKS then ZeroInitHandler(b, h, m, env)
    else if s == BOOT_DOWNLOAD_CHUNKS then DownloadHandler(b, h, m)
    else if s == BOOT_OPENSBI_INIT then OpenSbiInitHandler(b, h, m, env)
    else if s == BOOT_WAIT then Effect(WaitHandler(b, h, m, env), [])
    else if s == BOOT_COMPLETE then (if false !in complete then Effect(To(m, BOOT_IDLE), [Idled(h)]) else Effect(m, []))
    else if s == BOOT_ERROR then Effect(To(m, BOOT_COMPLETE), [])
    else Effect(m, [])
  }

  // ---------------------------------------------------------------- one call of the engine

  /** The part of `RunStateMachine` before the handler. */
  function Transition(b: Board, h: nat, m: Machine, env: Env): (e: Effect)
    requires Shaped(b, h, m)
    ensures Shaped(b, h, e.m) && e.m.core.state == m.core.state
  {
    if m.core.prevState == m.core.state then Effect(m, [])
    else
      var valid := StateMachine.IsValidState(m.core.prevState, BOOT_NUM_STATES);
      var left := if valid then OnExit(b, h, m.core.prevState, m, env) else Effect(m, []);
      var entered := OnEntry(b, h, left.m);
      Effect(entered.(core := StateMachine.Core(entered.core.state, entered.core.state, 0)),
        left.events + EntryEvents(h, m.core.state))
  }

  /** Which machines count as complete while `m` runs: BOOT_COMPLETE's onEntry comes first. */
  function Completing(h: nat, m: Machine, complete: seq<bool>): seq<bool>
    requires h < |complete|
  {
    if m.core.state == BOOT_COMPLETE && m.core.prevState != BOOT_COMPLETE then complete[h := true] else complete
  }

  /** `RunStateMachine` on the boot machine of hart `h`. */
  function RunMachine(b: Board, h: nat, m: Machine, env: Env, complete: seq<bool>): (e: Effect)
    requires Shaped(b, h, m) && |complete| == HARTS
    ensures Shaped(b, h, e.m)
  {
    var t := Transition(b, h, m, env);
    var e := Handler(b, h, m.core.state, t.m, env, Completing(h, m, complete));
    Effect(e.m.(core := e.m.core.(executionCount := e.m.core.executionCount + 1)), t.events + e.events)
  }

  // ---------------------------------------------------------------- all machines together

  datatype World = World(machines: seq<Machine>, complete: seq<bool>, mem: seq<byte>, log: seq<BootEvent>)

  /** One machine runs, or a restart request reaches some machines. */
  datatype Action = Call(h: nat, env: Env) | Restart(harts: set<nat>)

  ghost predicate Sane(b: Board, w: World) {
    && |w.machines| == HARTS && |w.complete| == HARTS
    && forall h: nat :: h < HARTS ==> Shaped(b, h, w.machines[h])
  }

  function OpsOf(events: seq<BootEvent>): seq<Op> {
    if events == [] then [] else
    var before, e := OpsOf(events[..|events| - 1]), events[|events| - 1];
    if e.Wrote? then before + [e.op] else before
  }

  /** `boot_using_hart_bitmask_` on one machine. */
  function RestartMachine(m: Machine): Machine {
    if m.core.state == BOOT_OPENSBI_INIT then m else To(m, BOOT_INITIALIZATION)
  }

  /** The requested machines whose attempt a restart begins anew. */
  function RestartLog(machines: seq<Machine>, harts: set<nat>, n: nat): seq<BootEvent>
    requires n <= |machines|
  {
    if n == 0 then [] else
    var before := RestartLog(machines, harts, n - 1);
    if n - 1 in harts && machines[n - 1].core.state != BOOT_OPENSBI_INIT then before + [Restarted(n - 1)] else before
  }

  function Step(b: Board, w: World, a: Action): (v: World)
    requires Sane(b, w) && (a.Call? ==> a.h < HARTS)
    ensures Sane(b, v) && |v.mem| == |w.mem|
  {
    match a
    case Call(h, env) =>
      var e := RunMachine(b, h, w.machines[h], env, w.complete);
      World(w.machines[h := e.m], Completing(h, w.machines[h], w.complete), Exec(OpsOf(e.events), w.mem),
        w.log + e.events)
    case Restart(harts) =>
      var restarted := seq(HARTS, h requires 0 <= h < HARTS =>
        if h in harts then RestartMachine(w.machines[h]) else w.machines[h]);
      w.(machines := restarted, log := w.log + RestartLog(w.machines, harts, HARTS))
  }

  ghost predicate Possible(actions: seq<Action>) {
    forall i :: 0 <= i < |actions| ==> (actions[i].Call? ==> actions[i].h < HARTS)
  }

  /** The world after any sequence of calls, in any order, and restarts. */
  function Run(b: Board, w: World, actions: seq<Action>): (v: World)
    requires Sane(b, w) && Possible(actions)
    ensures Sane(b, v) && |v.mem| == |w.mem|
  {
    if actions == [] then w else Step(b, Run(b, w, actions[..|actions| - 1]), actions[|actions| - 1])
  }

  /** The machines as they are declared: idle, nothing run yet. */
  function Fresh(): Machine {
    Machine(StateMachine.Core(BOOT_IDLE, StateMachine.INVALID_STATE, 0), Cursor(0, 0, 0), 0, None,
      [Some(0), Some(0), Some(0), Some(0)], 0, 0)
  }

  function Initial(b: Board, mem: seq<byte>): (w: World)
    requires WellFormed(b)
    ensures Sane(b, w)
  {
    World(seq(HARTS, _ => Fresh()), [false, false, false, false], mem, [])
  }
}
