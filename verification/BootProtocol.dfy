/** What every run of the boot machines keeps: how far each attempt has come, what it has written so
    far, and which start messages it has sent. */
module BootProtocol {
  import opened MemoryOps
  import opened BootImage
  import opened BootLayout
  import opened BootSpec
  import opened Wrappers

  // ---------------------------------------------------------------- reading the log for one hart

  /** How far the current attempt has come, by its own events in the prescribed order. */
  datatype Stage = Unready | Seen | Requested(msg: nat) | PmpDone | ZeroDone | Loaded | OutOfOrder

  /** Also the writes since the attempt's Ready, and the messages since its Downloaded. */
  datatype View = View(stage: Stage, ops: seq<Op>, sent: seq<(nat, Kind)>)

  function Look(v: View, e: BootEvent): View {
    match e
    case Restarted(_) => v.(stage := Unready)
    case Ready(_) => View(Seen, [], v.sent)
    case PmpRequested(_, msg) => v.(stage := if v.stage.Seen? then Requested(msg) else OutOfOrder)
    case PmpCompleted(_, msg) => v.(stage := if v.stage == Requested(msg) then PmpDone else OutOfOrder)
    case Wrote(_, op) => v.(ops := v.ops + [op])
    case Zeroed(_) => v.(stage := if v.stage.PmpDone? then ZeroDone else OutOfOrder)
    case Downloaded(_) => v.(stage := if v.stage.ZeroDone? then Loaded else OutOfOrder, sent := [])
    case Delivered(_, to, kind, _) => v.(sent := v.sent + [(to, kind)])
    case Completed(_) => v
    case Idled(_) => v
  }

  function LookAll(v: View, es: seq<BootEvent>, h: nat): View {
    if es == [] then v else
    var before, e := LookAll(v, es[..|es| - 1], h), es[|es| - 1];
    if e.h == h then Look(before, e) else before
  }

  const NOTHING := View(Unready, [], [])

  function ViewOf(log: seq<BootEvent>, h: nat): View { LookAll(NOTHING, log, h) }

  lemma {:induction false} LookConcat(v: View, a: seq<BootEvent>, c: seq<BootEvent>, h: nat)
    ensures LookAll(v, a + c, h) == LookAll(LookAll(v, a, h), c, h)
    decreases |c|
  {
    if c == [] {
      assert a + c == a;
    } else {
      assert (a + c)[..|a + c| - 1] == a + c[..|c| - 1];
      LookConcat(v, a, c[..|c| - 1], h);
    }
  }

  lemma LookOne(v: View, e: BootEvent, h: nat)
    ensures LookAll(v, [e], h) == if e.h == h then Look(v, e) else v
  {
    assert [e][..0] == [];
    assert LookAll(v, [e][..0], h) == v;
  }

  lemma {:induction false} LookOthers(v: View, es: seq<BootEvent>, h: nat)
    requires forall i :: 0 <= i < |es| ==> es[i].h != h
    ensures LookAll(v, es, h) == v
    decreases |es|
  {
    if es != [] { LookOthers(v, es[..|es| - 1], h); }
  }

  // ---------------------------------------------------------------- the messages of one visit

  /** To whom hart `h` sends before itself, among peers below `n`, each with its own kind. */
  function Peers(b: Board, h: nat, n: nat): seq<(nat, Kind)>
    requires WellFormed(b) && h < HARTS && n <= HARTS
  {
    if n == 0 then []
    else if n - 1 != h && b.image.harts[n - 1].entryPoint == b.image.harts[h].entryPoint
    then Peers(b, h, n - 1) + [(n - 1, KindFor(b, n - 1))]
    else Peers(b, h, n - 1)
  }

  /** All of them, itself last. */
  function StartMessages(b: Board, h: nat): seq<(nat, Kind)>
    requires WellFormed(b) && h < HARTS
  {
    Peers(b, h, HARTS) + [(h, KindFor(b, h))]
  }

  lemma {:induction false} PeersInOrder(b: Board, h: nat, n: nat)
    requires WellFormed(b) && h < HARTS && n <= HARTS
    ensures forall i :: 0 <= i < |Peers(b, h, n)| ==>
      && Peers(b, h, n)[i].0 < n && Peers(b, h, n)[i].0 != h
      && (Peers(b, h, n)[i].1 == Goto <==> b.image.harts[Peers(b, h, n)[i].0].skipOpenSbi)
      && b.image.harts[Peers(b, h, n)[i].0].entryPoint == b.image.harts[h].entryPoint
    ensures forall i, j :: 0 <= i < j < |Peers(b, h, n)| ==> Peers(b, h, n)[i].0 < Peers(b, h, n)[j].0
    decreases n
  {
    if n > 0 { PeersInOrder(b, h, n - 1); }
  }

  lemma {:induction false} PeerIsMet(b: Board, h: nat, n: nat, p: nat)
    requires WellFormed(b) && h < HARTS && p < n <= HARTS && p != h
    requires b.image.harts[p].entryPoint == b.image.harts[h].entryPoint
    ensures exists i :: 0 <= i < |Peers(b, h, n)| && Peers(b, h, n)[i].0 == p
    decreases n
  {
    var before := Peers(b, h, n - 1);
    if p == n - 1 {
      assert Peers(b, h, n)[|before|].0 == p;
    } else {
      PeerIsMet(b, h, n - 1, p);
      var i :| 0 <= i < |before| && before[i].0 == p;
      assert Peers(b, h, n)[i].0 == p;
    }
  }

  /** They are the harts with the same entry point, in table order, each with the kind its own flags ask for. */
  lemma PeersAre(b: Board, h: nat, n: nat)
    requires WellFormed(b) && h < HARTS && n <= HARTS
    ensures forall i :: 0 <= i < |Peers(b, h, n)| ==>
      && Peers(b, h, n)[i].0 < n && Peers(b, h, n)[i].0 != h
      && (Peers(b, h, n)[i].1 == Goto <==> b.image.harts[Peers(b, h, n)[i].0].skipOpenSbi)
      && b.image.harts[Peers(b, h, n)[i].0].entryPoint == b.image.harts[h].entryPoint
    ensures forall i, j :: 0 <= i < j < |Peers(b, h, n)| ==> Peers(b, h, n)[i].0 < Peers(b, h, n)[j].0
    ensures forall p: nat :: p < n && p != h && b.image.harts[p].entryPoint == b.image.harts[h].entryPoint ==>
      exists i :: 0 <= i < |Peers(b, h, n)| && Peers(b, h, n)[i].0 == p
  {
    PeersInOrder(b, h, n);
    forall p: nat | p < n && p != h && b.image.harts[p].entryPoint == b.image.harts[h].entryPoint
      ensures exists i :: 0 <= i < |Peers(b, h, n)| && Peers(b, h, n)[i].0 == p
    {
      PeerIsMet(b, h, n, p);
    }
  }

  // ---------------------------------------------------------------- the invariant of one machine

  predicate NoneOutstanding(m: Machine) { forall i :: 0 <= i < |m.msgIndexAux| ==> m.msgIndexAux[i].None? }

  /** A restart caught the machine between deciding to leave BOOT_OPENSBI_INIT and leaving it. */
  predicate LeftHanging(m: Machine) {
    m.core.state == BOOT_INITIALIZATION && m.core.prevState == BOOT_OPENSBI_INIT
  }

  ghost predicate SetupOk(b: Board, h: nat, m: Machine, v: View) {
    var s, p := m.core.state, m.core.prevState;
    && (s == BOOT_INITIALIZATION ==> v.stage == Unready)
    && (s == BOOT_SETUP_PMP ==> p == BOOT_INITIALIZATION && v.stage == Seen && v.ops == [])
    && (s == BOOT_SETUP_PMP_COMPLETE ==> (p == BOOT_SETUP_PMP || p == BOOT_SETUP_PMP_COMPLETE) && AwaitsPmp(m, v))
  }

  ghost predicate AwaitsPmp(m: Machine, v: View) {
    m.msgIndex.Some? && NoneOutstanding(m) && v.stage == Requested(m.msgIndex.value) && v.ops == []
  }

  ghost predicate CopyingOk(b: Board, h: nat, m: Machine, v: View)
    requires Shaped(b, h, m)
  {
    var s, p := m.core.state, m.core.prevState;
    && (s == BOOT_ZERO_INIT_CHUNKS ==>
          && v.stage == PmpDone
          && (p == BOOT_SETUP_PMP_COMPLETE || p == BOOT_ZERO_INIT_CHUNKS)
          && v.ops + ZeroFrom(b, h, if p == s then m.ziChunk else 0) == ZeroFrom(b, h, 0))
    && (s == BOOT_DOWNLOAD_CHUNKS ==>
          && v.stage == ZeroDone
          && (p == BOOT_ZERO_INIT_CHUNKS || p == BOOT_DOWNLOAD_CHUNKS)
          && (p != s ==> v.ops == ZeroFrom(b, h, 0))
          && (p == s ==> b.image.harts[h].numChunks > 0 && Copying(b, h, m.cursor, v)))
  }

  ghost predicate Copying(b: Board, h: nat, c: Cursor, v: View)
    requires WellFormed(b) && h < HARTS && b.image.harts[h].numChunks > 0
  {
    OnPiece(b, h, c) && v.ops + CopyFrom(b, h, c) == Script(b, h)
  }

  ghost predicate StartingOk(b: Board, h: nat, m: Machine, v: View)
    requires Shaped(b, h, m)
  {
    var s, p, hart := m.core.state, m.core.prevState, b.image.harts[h];
    && (s == BOOT_OPENSBI_INIT || s == BOOT_WAIT ==>
          hart.numChunks > 0 && v.stage == Loaded && v.ops == Script(b, h))
    && (s == BOOT_OPENSBI_INIT ==>
          && (p == BOOT_DOWNLOAD_CHUNKS || p == BOOT_OPENSBI_INIT)
          && (p != s || hart.entryPoint == 0 ==> v.sent == [])
          && (p == s && hart.entryPoint != 0 ==> m.peerIndex <= HARTS && v.sent == Peers(b, h, m.peerIndex)))
    && (s == BOOT_WAIT ==>
          && Primary(b, h)
          && (p == BOOT_OPENSBI_INIT || p == BOOT_WAIT)
          && v.sent == if p == s then StartMessages(b, h) else Peers(b, h, HARTS))
    && (p == BOOT_OPENSBI_INIT && s != BOOT_OPENSBI_INIT && s != BOOT_WAIT ==> LeftHanging(m) && Primary(b, h))
  }

  ghost predicate MachineOk(b: Board, h: nat, m: Machine, v: View) {
    Shaped(b, h, m) && SetupOk(b, h, m, v) && CopyingOk(b, h, m, v) && StartingOk(b, h, m, v)
  }

  // ---------------------------------------------------------------- one call keeps it

  lemma AcksWhenNone(aux: seq<Option<nat>>, completed: set<nat>, i: nat, result: bool)
    requires |aux| == HARTS && i <= HARTS && forall k :: 0 <= k < HARTS ==> aux[k].None?
    ensures AckLoop(aux, completed, i, result) == (aux, result)
    decreases HARTS - i
  {
    if i < HARTS { AcksWhenNone(aux, completed, i + 1, result); }
  }

  /** The view after one call of machine `h`. */
  function After(b: Board, h: nat, m: Machine, env: Env, complete: seq<bool>, v: View): View
    requires Shaped(b, h, m) && |complete| == HARTS
  {
    LookAll(v, RunMachine(b, h, m, env, complete).events, h)
  }

  lemma LookPair(v: View, a: seq<BootEvent>, c: seq<BootEvent>, h: nat)
    requires |a| <= 1 && |c| <= 1
    ensures LookAll(v, a + c, h) == LookAll(LookAll(v, a, h), c, h)
    ensures |a| == 1 && a[0].h == h ==> LookAll(v, a, h) == Look(v, a[0])
    ensures |a| == 0 ==> LookAll(v, a, h) == v
  {
    LookConcat(v, a, c, h);
    if |a| == 1 { LookOne(v, a[0], h); assert a == [a[0]]; }
  }

  /** The machine as its handler finds it, and the view at that point. */
  ghost predicate Entered(b: Board, h: nat, m: Machine, v: View) {
    && Shaped(b, h, m) && m.core.prevState == m.core.state
    && var s, hart := m.core.state, b.image.harts[h];
    && (s == BOOT_INITIALIZATION ==> v.stage == Unready)
    && (s == BOOT_SETUP_PMP ==> m.msgIndex.None? && NoneOutstanding(m) && v.stage == Seen && v.ops == [])
    && (s == BOOT_SETUP_PMP_COMPLETE ==> AwaitsPmp(m, v))
    && (s == BOOT_ZERO_INIT_CHUNKS ==> v.stage == PmpDone && v.ops + ZeroFrom(b, h, m.ziChunk) == ZeroFrom(b, h, 0))
    && (s == BOOT_DOWNLOAD_CHUNKS ==> v.stage == ZeroDone && (hart.numChunks > 0 ==> Copying(b, h, m.cursor, v)))
    && (s == BOOT_OPENSBI_INIT || s == BOOT_WAIT ==> hart.numChunks > 0 && v.stage == Loaded && v.ops == Script(b, h))
    && (s == BOOT_OPENSBI_INIT ==>
          if hart.entryPoint == 0 then v.sent == [] else m.peerIndex <= HARTS && v.sent == Peers(b, h, m.peerIndex))
    && (s == BOOT_WAIT ==> Primary(b, h) && v.sent == StartMessages(b, h))
  }

  lemma TransitionOk(b: Board, h: nat, m: Machine, env: Env, v: View)
    requires MachineOk(b, h, m, v)
    ensures Entered(b, h, Transition(b, h, m, env).m, LookAll(v, Transition(b, h, m, env).events, h))
  {
    var t := Transition(b, h, m, env);
    assert |t.events| <= 1;
    LookPair(v, t.events, [], h);
  }

  lemma LookWrites(v: View, ops: seq<Op>, h: nat)
    requires |ops| <= 1
    ensures LookAll(v, Writes(h, ops), h) == v.(ops := v.ops + ops)
  {
    if ops == [] {
      assert v.ops + ops == v.ops;
    } else {
      assert Writes(h, ops) == [Wrote(h, ops[0])] && ops == [ops[0]];
      LookOne(v, Wrote(h, ops[0]), h);
    }
  }

  /** What a handler does to the machine and the view it found. */
  ghost predicate Kept(b: Board, h: nat, e: Effect, v: View) { MachineOk(b, h, e.m, LookAll(v, e.events, h)) }

  lemma ZeroKeeps(b: Board, h: nat, m: Machine, env: Env, v: View)
    requires Entered(b, h, m, v) && m.core.state == BOOT_ZERO_INIT_CHUNKS
    ensures Kept(b, h, ZeroInitHandler(b, h, m, env), v)
  {
    LookOne(v, Zeroed(h), h);
    LookWrites(v, ZeroAt(b, h, m.ziChunk), h);
    if b.image.ziChunks[m.ziChunk].size == 0 {
      assert v.ops + [] == v.ops;
    } else {
      assert v.ops + (ZeroAt(b, h, m.ziChunk) + ZeroFrom(b, h, m.ziChunk + 1))
          == v.ops + ZeroAt(b, h, m.ziChunk) + ZeroFrom(b, h, m.ziChunk + 1);
    }
  }

  lemma DownloadKeeps(b: Board, h: nat, m: Machine, v: View)
    requires Entered(b, h, m, v) && m.core.state == BOOT_DOWNLOAD_CHUNKS
    ensures Kept(b, h, DownloadHandler(b, h, m), v)
  {
    if b.image.harts[h].numChunks > 0 {
      if AtEnd(b, h, m.cursor) {
        LookOne(v, Downloaded(h), h);
        assert v.ops + [] == v.ops;
      } else {
        var now, rest := CopyAt(b, h, m.cursor), CopyFrom(b, h, Advance(b, h, m.cursor));
        LookWrites(v, now, h);
        PieceStep(b, h, m.cursor);
        assert v.ops + (now + rest) == v.ops + now + rest;
        assert Copying(b, h, Advance(b, h, m.cursor), v.(ops := v.ops + now));
      }
    }
  }

  lemma StartKeeps(b: Board, h: nat, m: Machine, env: Env, v: View)
    requires Entered(b, h, m, v) && m.core.state == BOOT_OPENSBI_INIT
    ensures Kept(b, h, OpenSbiInitHandler(b, h, m, env), v)
  {
    if m.peerIndex < HARTS {
      LookOne(v, Delivered(h, m.peerIndex, KindFor(b, m.peerIndex), m.ancilliaryData), h);
    }
  }

  lemma PmpKeeps(b: Board, h: nat, m: Machine, env: Env, v: View)
    requires Entered(b, h, m, v) && m.core.state == BOOT_SETUP_PMP_COMPLETE
    ensures Kept(b, h, SetupPmpCompleteHandler(b, h, m, env), v)
  {
    AcksWhenNone(m.msgIndexAux, env.completed, 0, true);
    LookOne(v, PmpCompleted(h, m.msgIndex.value), h);
    assert v.ops + ZeroFrom(b, h, 0) == ZeroFrom(b, h, 0);
  }

  lemma HandlerKeeps(b: Board, h: nat, m: Machine, env: Env, complete: seq<bool>, v: View)
    requires Entered(b, h, m, v)
    ensures Kept(b, h, Handler(b, h, m.core.state, m, env, complete), v)
  {
    var s := m.core.state;
    if s == BOOT_ZERO_INIT_CHUNKS {
      ZeroKeeps(b, h, m, env, v);
    } else if s == BOOT_DOWNLOAD_CHUNKS {
      DownloadKeeps(b, h, m, v);
    } else if s == BOOT_OPENSBI_INIT {
      StartKeeps(b, h, m, env, v);
    } else if s == BOOT_SETUP_PMP_COMPLETE {
      PmpKeeps(b, h, m, env, v);
    } else {
      LookOne(v, Ready(h), h);
      LookOne(v, PmpRequested(h, env.newMessage), h);
      LookOne(v, Idled(h), h);
    }
  }

  lemma CountDoesNotMatter(b: Board, h: nat, m: Machine, v: View, n: nat)
    requires MachineOk(b, h, m, v)
    ensures MachineOk(b, h, m.(core := m.core.(executionCount := n)), v)
  {
  }

  /** Every call keeps the invariant, whatever the state of the messages and of the other machines. */
  lemma CallKeeps(b: Board, h: nat, m: Machine, env: Env, complete: seq<bool>, v: View)
    requires MachineOk(b, h, m, v) && |complete| == HARTS
    ensures MachineOk(b, h, RunMachine(b, h, m, env, complete).m, After(b, h, m, env, complete, v))
  {
    var t := Transition(b, h, m, env);
    var seen := LookAll(v, t.events, h);
    TransitionOk(b, h, m, env, v);
    var e := Handler(b, h, m.core.state, t.m, env, Completing(h, m, complete));
    HandlerKeeps(b, h, t.m, env, Completing(h, m, complete), seen);
    LookConcat(v, t.events, e.events, h);
    CountDoesNotMatter(b, h, e.m, LookAll(seen, e.events, h), e.m.core.executionCount + 1);
  }

  /** So does a restart. */
  lemma RestartKeeps(b: Board, h: nat, m: Machine, v: View)
    requires MachineOk(b, h, m, v)
    ensures MachineOk(b, h, RestartMachine(m), if m.core.state == BOOT_OPENSBI_INIT then v else Look(v, Restarted(h)))
  {
  }
}
