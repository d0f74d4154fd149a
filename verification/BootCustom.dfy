/** The blocking boot of HSS_Boot_Custom (services/boot/hss_boot_service.c), and its agreement with the
    state machines, which do the same work a piece at a time. */
module BootCustom {
  import opened Words
  import opened MemoryOps
  import opened BootImage
  import opened BootLayout
  import opened BootScript
  import opened BootSpec
  import opened BootProtocol
  import opened BootRuns
  import Pmp

  // ---------------------------------------------------------------- the blocking loops

  /** Its owner test takes the whole word, so chunks flagged as ancillary data are not for anyone. */
  predicate Plain(b: Board, h: nat, k: nat)
    requires WellFormed(b) && h < HARTS && k < |b.image.chunks|
  {
    Mine(b, h, k) && !b.image.chunks[k].ancillary
  }

  function CustomPiece(b: Board, k: nat, sub: nat): Op
    requires k < |b.image.chunks|
  {
    Copy(b.image.chunks[k].execAddr + sub, b.image.base + b.image.chunks[k].loadAddr + sub, SUB_CHUNK)
  }

  function CustomFrom(b: Board, h: nat, k: nat, sub: nat): seq<Op>
    requires WellFormed(b) && h < HARTS && k < |b.image.chunks|
    decreases |b.image.chunks| - k, if b.image.chunks[k].size > sub then b.image.chunks[k].size - sub else 0
  {
    var c := b.image.chunks[k];
    if c.size == 0 then []
    else if !Plain(b, h, k) then CustomFrom(b, h, k + 1, sub)
    else if sub + SUB_CHUNK > c.size then [CustomPiece(b, k, sub)] + CustomFrom(b, h, k + 1, 0)
    else [CustomPiece(b, k, sub)] + CustomFrom(b, h, k, sub + SUB_CHUNK)
  }

  function CustomScript(b: Board, h: nat): seq<Op>
    requires WellFormed(b) && h < HARTS && b.image.harts[h].numChunks > 0
  {
    ZeroFrom(b, h, 0) + CustomFrom(b, h, b.image.harts[h].firstChunk, 0)
  }

  /** The highest-numbered hart with chunks. */
  predicate IsTarget(b: Board, h: nat)
    requires WellFormed(b)
  {
    h < HARTS && b.image.harts[h].numChunks > 0 && forall g :: h < g < HARTS ==> b.image.harts[g].numChunks == 0
  }

  method FindTarget(b: Board) returns (found: bool, target: nat)
    requires WellFormed(b)
    ensures found ==> IsTarget(b, target)
    ensures !found ==> forall h :: 0 <= h < HARTS ==> b.image.harts[h].numChunks == 0
  {
    found, target := false, 0;
    var i := 0;
    while i < HARTS
      invariant i <= HARTS
      invariant found ==> target < i && b.image.harts[target].numChunks > 0
      invariant forall g :: (if found then target + 1 else 0) <= g < i ==> b.image.harts[g].numChunks == 0
    {
      if b.image.harts[i].numChunks > 0 {
        found, target := true, i;
      }
      i := i + 1;
    }
  }

  method ZeroChunks(b: Board, h: nat, mem: array<byte>)
    requires WellFormed(b) && Placed(b, mem.Length) && h < HARTS
    modifies mem
    ensures mem[..] == Exec(ZeroFrom(b, h, 0), old(mem[..]))
  {
    var k := 0;
    while b.image.ziChunks[k].size != 0
      invariant k < |b.image.ziChunks|
      invariant Exec(ZeroFrom(b, h, k), mem[..]) == Exec(ZeroFrom(b, h, 0), old(mem[..]))
      decreases |b.image.ziChunks| - k
    {
      var z := b.image.ziChunks[k];
      ExecConcat(ZeroAt(b, h, k), ZeroFrom(b, h, k + 1), mem[..]);
      if z.owner == h + 1 {
        assert ZiPlaced(b, k, mem.Length);
        ExecOne(Fill(z.execAddr, z.size), mem[..]);
        Memset(mem, z.execAddr, z.size);
      }
      k := k + 1;
    }
  }

  method CopyCustomPiece(b: Board, h: nat, k: nat, sub: nat, mem: array<byte>)
    requires WellFormed(b) && Placed(b, mem.Length) && h < HARTS && k < |b.image.chunks| - 1 && Mine(b, h, k)
    requires sub % SUB_CHUNK == 0 && sub <= b.image.chunks[k].size
    modifies mem
    ensures mem[..] == Exec([CustomPiece(b, k, sub)], old(mem[..]))
  {
    var op := CustomPiece(b, k, sub);
    assert PieceOf(b, k, op.dst, op.src, op.len);
    LegalStaysClear(b, h, op, mem.Length);
    ExecOne(op, mem[..]);
    Memcpy(mem, op.dst, op.src, op.len);
  }

  /** One turn of the download loop on a chunk that is for this hart. */
  lemma CustomNext(b: Board, h: nat, k: nat, sub: nat, mem: seq<byte>)
    requires WellFormed(b) && h < HARTS && k < |b.image.chunks| - 1 && Plain(b, h, k)
    ensures Exec(CustomFrom(b, h, k, sub), mem) == Exec(
      if sub + SUB_CHUNK > b.image.chunks[k].size then CustomFrom(b, h, k + 1, 0)
        else CustomFrom(b, h, k, sub + SUB_CHUNK),
      Exec([CustomPiece(b, k, sub)], mem))
  {
    ExecConcat([CustomPiece(b, k, sub)],
      if sub + SUB_CHUNK > b.image.chunks[k].size then CustomFrom(b, h, k + 1, 0)
        else CustomFrom(b, h, k, sub + SUB_CHUNK), mem);
  }

  lemma CustomSkip(b: Board, h: nat, k: nat, sub: nat)
    requires WellFormed(b) && h < HARTS && k < |b.image.chunks| - 1 && !Plain(b, h, k)
    ensures CustomFrom(b, h, k, sub) == CustomFrom(b, h, k + 1, sub)
  {
  }

  ghost predicate OnCustomPiece(b: Board, h: nat, k: nat, sub: nat)
    requires WellFormed(b) && h < HARTS
  {
    k < |b.image.chunks| && sub % SUB_CHUNK == 0 && sub <= b.image.chunks[k].size && (sub > 0 ==> Plain(b, h, k))
  }

  method CustomTurn(b: Board, h: nat, mem: array<byte>, k: nat, sub: nat) returns (nextK: nat, nextSub: nat)
    requires WellFormed(b) && Placed(b, mem.Length) && h < HARTS
    requires OnCustomPiece(b, h, k, sub) && b.image.chunks[k].size != 0
    modifies mem
    ensures OnCustomPiece(b, h, nextK, nextSub) && (nextK == k + 1 || (nextK == k && nextSub == sub + SUB_CHUNK))
    ensures Exec(CustomFrom(b, h, nextK, nextSub), mem[..]) == old(Exec(CustomFrom(b, h, k, sub), mem[..]))
  {
    hide CustomFrom, Placed, Exec, Padded;
    nextK, nextSub := k, sub;
    var c := b.image.chunks[k];
    if c.owner == h + 1 && !c.ancillary && Mine(b, h, k) {
      CustomNext(b, h, k, sub, mem[..]);
      CopyCustomPiece(b, h, k, sub, mem);
      nextSub := sub + SUB_CHUNK;
      if nextSub > c.size {
        nextK, nextSub := k + 1, 0;
      }
    } else {
      CustomSkip(b, h, k, sub);
      nextK := k + 1;
    }
  }

  method CopyChunks(b: Board, h: nat, mem: array<byte>)
    requires WellFormed(b) && Placed(b, mem.Length) && h < HARTS && b.image.harts[h].numChunks > 0
    modifies mem
    ensures mem[..] == Exec(CustomFrom(b, h, b.image.harts[h].firstChunk, 0), old(mem[..]))
  {
    var k: nat, sub: nat := b.image.harts[h].firstChunk, 0;
    ghost var goal := Exec(CustomFrom(b, h, k, sub), mem[..]);
    while b.image.chunks[k].size != 0
      invariant OnCustomPiece(b, h, k, sub) && Exec(CustomFrom(b, h, k, sub), mem[..]) == goal
      decreases |b.image.chunks| - k, b.image.chunks[k].size - sub
    {
      k, sub := CustomTurn(b, h, mem, k, sub);
    }
  }

  /** `HSS_Boot_Custom` up to its jump. */
  method BootCustom(b: Board, mem: array<byte>, imageRegistered: bool) returns (result: bool)
    requires WellFormed(b) && Placed(b, mem.Length)
    modifies mem
    ensures result <==> imageRegistered && exists h :: 0 <= h < HARTS && b.image.harts[h].numChunks > 0
    ensures !result ==> mem[..] == old(mem[..])
    ensures result ==> exists h :: IsTarget(b, h) && mem[..] == Exec(CustomScript(b, h), old(mem[..]))
  {
    if !imageRegistered { return false; }
    var found, h := FindTarget(b);
    if !found { return false; }
    ExecConcat(ZeroFrom(b, h, 0), CustomFrom(b, h, b.image.harts[h].firstChunk, 0), mem[..]);
    ZeroChunks(b, h, mem);
    CopyChunks(b, h, mem);
    result := true;
  }

  // ---------------------------------------------------------------- which writes those are

  /** `op` copies the piece at `s` of chunk `j`, which is for the hart and not flagged as ancillary data. */
  predicate CustomCopies(b: Board, h: nat, j: nat, s: nat, op: Op)
    requires WellFormed(b) && h < HARTS
  {
    && j < |b.image.chunks| - 1 && b.image.chunks[j].owner == h + 1 && !b.image.chunks[j].ancillary
    && Pmp.WriteAllowed(b.pmp[h], Pmp.Signed(b.image.chunks[j].execAddr), b.image.chunks[j].size)
    && s <= b.image.chunks[j].size && s % SUB_CHUNK == 0
    && op == Copy(b.image.chunks[j].execAddr + s, b.image.base + b.image.chunks[j].loadAddr + s, 256)
  }

  lemma {:induction false} CopiesAreCustom(b: Board, h: nat, k: nat, sub: nat, op: Op)
    requires WellFormed(b) && h < HARTS && OnCustomPiece(b, h, k, sub) && op in CustomFrom(b, h, k, sub)
    ensures exists j: nat, s: nat :: j >= k && CustomCopies(b, h, j, s, op)
    decreases |b.image.chunks| - k, if b.image.chunks[k].size > sub then b.image.chunks[k].size - sub else 0
  {
    hide Pmp.WriteAllowed;
    var c := b.image.chunks[k];
    if c.size != 0 {
      if !Plain(b, h, k) {
        CopiesAreCustom(b, h, k + 1, sub, op);
      } else if op == CustomPiece(b, k, sub) {
        assert CustomCopies(b, h, k, sub, op);
      } else if sub + SUB_CHUNK > c.size {
        CopiesAreCustom(b, h, k + 1, 0, op);
      } else {
        CopiesAreCustom(b, h, k, sub + SUB_CHUNK, op);
      }
    }
  }

  lemma {:induction false} CustomIsCopied(b: Board, h: nat, k: nat, sub: nat, j: nat, s: nat, op: Op)
    requires WellFormed(b) && h < HARTS && OnCustomPiece(b, h, k, sub) && CustomCopies(b, h, j, s, op)
    requires k < j || (k == j && sub <= s)
    ensures op in CustomFrom(b, h, k, sub)
    decreases |b.image.chunks| - k, if b.image.chunks[k].size > sub then b.image.chunks[k].size - sub else 0
  {
    hide Pmp.WriteAllowed;
    if k == j && sub == s {
      assert op == CustomPiece(b, k, sub);
    } else if !Plain(b, h, k) {
      CustomIsCopied(b, h, k + 1, sub, j, s, op);
    } else if sub + SUB_CHUNK > b.image.chunks[k].size {
      CustomIsCopied(b, h, k + 1, 0, j, s, op);
    } else {
      CustomIsCopied(b, h, k, sub + SUB_CHUNK, j, s, op);
    }
  }

  /** The copies of the blocking boot are exactly the pieces of the hart's unflagged chunks from its first
      one on. */
  lemma CustomCopiesExact(b: Board, h: nat, op: Op)
    requires WellFormed(b) && h < HARTS && b.image.harts[h].numChunks > 0
    ensures op in CustomFrom(b, h, b.image.harts[h].firstChunk, 0) <==>
      exists j: nat, s: nat :: j >= b.image.harts[h].firstChunk && CustomCopies(b, h, j, s, op)
  {
    var first := b.image.harts[h].firstChunk;
    if op in CustomFrom(b, h, first, 0) { CopiesAreCustom(b, h, first, 0, op); }
    if j: nat, s: nat :| j >= first && CustomCopies(b, h, j, s, op) { CustomIsCopied(b, h, first, 0, j, s, op); }
  }

  // ---------------------------------------------------------------- the same as the state machines

  /** The hart's chunks are not flagged, and there are no more of them than its lastChunk + 1. */
  ghost predicate Simple(b: Board, h: nat)
    requires WellFormed(b) && h < HARTS && b.image.harts[h].numChunks > 0
  {
    && (forall k :: b.image.harts[h].firstChunk <= k < |b.image.chunks| - 1 && Mine(b, h, k) ==>
      !b.image.chunks[k].ancillary)
    && OwnedFrom(b, h, b.image.harts[h].firstChunk) <= b.image.harts[h].lastChunk + 1
  }

  lemma {:induction false} NoneToCopy(b: Board, h: nat, k: nat)
    requires WellFormed(b) && h < HARTS && k < |b.image.chunks| && OwnedFrom(b, h, k) == 0
    ensures CustomFrom(b, h, k, 0) == []
    decreases |b.image.chunks| - k
  {
    if b.image.chunks[k].size != 0 { NoneToCopy(b, h, k + 1); }
  }

  lemma {:induction false} SameCopies(b: Board, h: nat, c: Cursor)
    requires OnPiece(b, h, c)
    requires forall k :: c.chunk <= k < |b.image.chunks| - 1 && Mine(b, h, k) ==> !b.image.chunks[k].ancillary
    requires c.count + OwnedFrom(b, h, c.chunk) <= b.image.harts[h].lastChunk + 1
    ensures CustomFrom(b, h, c.chunk, c.sub) == CopyFrom(b, h, c)
    decreases |b.image.chunks| - c.chunk, Left(b, h, c)
  {
    if AtEnd(b, h, c) {
      NoneToCopy(b, h, c.chunk);
    } else {
      PieceStep(b, h, c);
      OneFewer(b, h, c);
      SameTurn(b, h, c);
      SameCopies(b, h, Advance(b, h, c));
    }
  }

  lemma SameTurn(b: Board, h: nat, c: Cursor)
    requires OnPiece(b, h, c) && !AtEnd(b, h, c) && (Mine(b, h, c.chunk) ==> !b.image.chunks[c.chunk].ancillary)
    ensures var n := Advance(b, h, c);
      CustomFrom(b, h, c.chunk, c.sub) == CopyAt(b, h, c) + CustomFrom(b, h, n.chunk, n.sub)
  {
  }

  lemma OneFewer(b: Board, h: nat, c: Cursor)
    requires OnPiece(b, h, c) && !AtEnd(b, h, c)
    ensures var n := Advance(b, h, c);
      n.chunk >= c.chunk && n.count + OwnedFrom(b, h, n.chunk) == c.count + OwnedFrom(b, h, c.chunk)
  {
  }

  /** On such an image the blocking boot makes exactly the writes of the state machine. */
  lemma SameScript(b: Board, h: nat)
    requires WellFormed(b) && h < HARTS && b.image.harts[h].numChunks > 0 && Simple(b, h)
    ensures CustomScript(b, h) == Script(b, h)
  {
    SameCopies(b, h, StartCursor(b, h));
  }

  // ---------------------------------------------------------------- in any run

  predicate InScript(b: Board, h: nat, e: BootEvent)
    requires WellFormed(b) && h < HARTS && b.image.harts[h].numChunks > 0
  {
    e.Wrote? && e.h == h ==> e.op in Script(b, h)
  }

  ghost predicate AllInScript(b: Board, h: nat, log: seq<BootEvent>)
    requires WellFormed(b) && h < HARTS && b.image.harts[h].numChunks > 0
  {
    forall i :: 0 <= i < |log| ==> InScript(b, h, log[i])
  }

  lemma {:induction false} OpsInScript(b: Board, log: seq<BootEvent>, h: nat)
    requires WellFormed(b) && h < HARTS && b.image.harts[h].numChunks > 0
    requires AllInScript(b, h, log)
    ensures forall i :: 0 <= i < |OpsBy(log, h)| ==> OpsBy(log, h)[i] in Script(b, h)
    decreases |log|
  {
    if log != [] {
      OpsInScript(b, log[..|log| - 1], h);
      assert InScript(b, h, log[|log| - 1]);
    }
  }

  lemma ZeroInScript(b: Board, h: nat, m: Machine, env: Env, v: View)
    requires Entered(b, h, m, v) && m.core.state == BOOT_ZERO_INIT_CHUNKS && b.image.harts[h].numChunks > 0
    ensures AllInScript(b, h, ZeroInitHandler(b, h, m, env).events)
  {
    var now := ZeroAt(b, h, m.ziChunk);
    if b.image.ziChunks[m.ziChunk].size != 0 && now != [] {
      assert now[0] in ZeroFrom(b, h, m.ziChunk) && now[0] in v.ops + ZeroFrom(b, h, m.ziChunk);
      assert now[0] in ZeroFrom(b, h, 0);
    }
  }

  lemma CopyInScript(b: Board, h: nat, m: Machine, v: View)
    requires Entered(b, h, m, v) && m.core.state == BOOT_DOWNLOAD_CHUNKS && b.image.harts[h].numChunks > 0
    ensures AllInScript(b, h, DownloadHandler(b, h, m).events)
  {
    var now := CopyAt(b, h, m.cursor);
    if !AtEnd(b, h, m.cursor) && now != [] {
      assert now[0] in CopyFrom(b, h, m.cursor) && now[0] in v.ops + CopyFrom(b, h, m.cursor);
    }
  }

  lemma HandlerInScript(b: Board, h: nat, m: Machine, env: Env, complete: seq<bool>, v: View)
    requires Entered(b, h, m, v) && b.image.harts[h].numChunks > 0
    ensures AllInScript(b, h, Handler(b, h, m.core.state, m, env, complete).events)
  {
    hide CopyFrom, ZeroFrom, ZeroInitHandler, DownloadHandler;
    if m.core.state == BOOT_ZERO_INIT_CHUNKS { ZeroInScript(b, h, m, env, v); }
    if m.core.state == BOOT_DOWNLOAD_CHUNKS { CopyInScript(b, h, m, v); }
  }

  lemma CallInScript(b: Board, h: nat, m: Machine, env: Env, complete: seq<bool>, v: View)
    requires MachineOk(b, h, m, v) && |complete| == HARTS && b.image.harts[h].numChunks > 0
    ensures AllInScript(b, h, RunMachine(b, h, m, env, complete).events)
  {
    hide Handler, CopyFrom, ZeroFrom;
    var t := Transition(b, h, m, env);
    TransitionOk(b, h, m, env, v);
    HandlerInScript(b, h, t.m, env, Completing(h, m, complete), LookAll(v, t.events, h));
  }

  lemma StepInScript(b: Board, w: World, a: Action, h: nat, mem: seq<byte>)
    requires WorldOk(b, w, mem) && (a.Call? ==> a.h < HARTS) && h < HARTS && b.image.harts[h].numChunks > 0
    requires AllInScript(b, h, w.log)
    ensures AllInScript(b, h, Step(b, w, a).log)
  {
    match a
    case Call(g, env) =>
      CallOwns(b, g, w.machines[g], env, w.complete, ViewOf(w.log, g));
      if g == h { CallInScript(b, h, w.machines[h], env, w.complete, ViewOf(w.log, h)); }
    case Restart(harts) =>
      RestartLogIs(w.machines, harts, HARTS);
  }

  lemma {:induction false} RunInScript(b: Board, mem: seq<byte>, actions: seq<Action>, h: nat)
    requires WellFormed(b) && Possible(actions) && h < HARTS && b.image.harts[h].numChunks > 0
    ensures AllInScript(b, h, Run(b, Initial(b, mem), actions).log)
    decreases |actions|
  {
    if actions != [] {
      RunInScript(b, mem, actions[..|actions| - 1], h);
      RunKeeps(b, mem, actions[..|actions| - 1]);
      StepInScript(b, Run(b, Initial(b, mem), actions[..|actions| - 1]), actions[|actions| - 1], h, mem);
    }
  }

  /** Running the same writes on two memories with the image in place makes them alike wherever any of
      them writes, if the last one there is from the image. */
  lemma {:induction false} ExecForgets(b: Board, h: nat, ops: seq<Op>, one: seq<byte>, two: seq<byte>, img: seq<byte>,
      a: nat)
    requires Layout(b, |one|) && |one| == |two| && AllLegal(b, h, ops) && a < |one| && FromImage(b, ops, a)
    requires ImageIntact(b, one, img) && ImageIntact(b, two, img)
    requires one[a] == two[a] || !Untouched(ops, a)
    ensures Exec(ops, one)[a] == Exec(ops, two)[a]
    decreases |ops|
  {
    if ops != [] {
      var before, op := ops[..|ops| - 1], ops[|ops| - 1];
      if Covers(op, a) {
        LegalKeepsImage(b, h, before, one, img);
        LegalKeepsImage(b, h, before, two, img);
        SamePut(b, h, op, Exec(before, one), Exec(before, two), img, a);
      } else {
        ExecForgets(b, h, before, one, two, img, a);
      }
    }
  }

  /** In every interleaving, with any restarts and earlier attempts, wherever only this hart may write and
      its last write is from the image, memory after its download is what the blocking boot would have
      left. */
  lemma StepwiseIsBlocking(b: Board, mem: seq<byte>, img: seq<byte>, actions: seq<Action>, h: nat, a: nat)
    requires Layout(b, |mem|) && ImageIntact(b, mem, img) && Possible(actions)
    requires IsTarget(b, h) && Simple(b, h) && a < |mem| && Private(b, h, a, a + 1)
      && FromImage(b, CustomScript(b, h), a)
    ensures Run(b, Initial(b, mem), actions).machines[h].core.state in {BOOT_OPENSBI_INIT, BOOT_WAIT} ==>
      Run(b, Initial(b, mem), actions).mem[a] == Exec(CustomScript(b, h), mem)[a]
  {
    hide Run;
    if Run(b, Initial(b, mem), actions).machines[h].core.state in {BOOT_OPENSBI_INIT, BOOT_WAIT} {
      RunKeeps(b, mem, actions);
      RunInScript(b, mem, actions, h);
      SameScript(b, h);
      AttemptsForget(b, Run(b, Initial(b, mem), actions).log, h, mem, img, a);
      Alone(b, Run(b, Initial(b, mem), actions).log, h, mem, img, a);
    }
  }

  /** That is so at every byte of every chunk, and wherever no chunk is written; and everywhere, if even
      the last pieces are read from the image. */
  lemma BlockingFromImage(b: Board, h: nat, a: nat, n: nat)
    requires Layout(b, n) && IsTarget(b, h) && Simple(b, h)
    requires || TailsInside(b) || !InWindow(b, h, a)
             || exists k: nat :: b.image.harts[h].firstChunk <= k && ByteOf(b, h, k, a)
    ensures FromImage(b, CustomScript(b, h), a)
  {
    SameScript(b, h);
    ScriptLegal(b, h);
    if k: nat :| b.image.harts[h].firstChunk <= k && ByteOf(b, h, k, a) {
      AllDownloaded(b, h, StartCursor(b, h));
      ChunkFromImage(b, h, [], k, a - b.image.chunks[k].execAddr, n);
      assert [] + Script(b, h) == Script(b, h);
    } else if !InWindow(b, h, a) {
      ZeroFromImage(b, h, Script(b, h), a);
    } else {
      TailsFromImage(b, h, Script(b, h), a);
    }
  }

  /** Address `a` is where chunk `k` of hart `h` has a byte. */
  predicate ByteOf(b: Board, h: nat, k: nat, a: nat)
    requires WellFormed(b) && h < HARTS
  {
    k < |b.image.chunks| - 1 && Mine(b, h, k)
    && b.image.chunks[k].execAddr <= a < b.image.chunks[k].execAddr + b.image.chunks[k].size
  }

  lemma AttemptsForget(b: Board, log: seq<BootEvent>, h: nat, mem: seq<byte>, img: seq<byte>, a: nat)
    requires Layout(b, |mem|) && LegalLog(b, log) && ImageIntact(b, mem, img) && a < |mem|
    requires h < HARTS && b.image.harts[h].numChunks > 0 && ViewOf(log, h).ops == Script(b, h)
    requires AllInScript(b, h, log) && FromImage(b, Script(b, h), a)
    ensures FromImage(b, OpsBy(log, h), a)
    ensures Exec(OpsBy(log, h), mem)[a] == Exec(Script(b, h), mem)[a]
  {
    AttemptIsLast(log, h);
    var earlier :| OpsBy(log, h) == earlier + ViewOf(log, h).ops;
    OpsLegal(b, log, h);
    OpsInScript(b, log, h);
    ScriptLegal(b, h);
    forall i | 0 <= i < |earlier| ensures Legal(b, h, earlier[i]) && earlier[i] in Script(b, h) {
      assert earlier[i] == OpsBy(log, h)[i];
    }
    LegalKeepsImage(b, h, earlier, mem, img);
    ExecConcat(earlier, Script(b, h), mem);
    FromImageConcat(b, earlier, Script(b, h), a);
    if Untouched(Script(b, h), a) {
      assert Untouched(earlier, a);
      UntouchedKept(earlier, a, mem);
      CleanFromImage(b, earlier, a);
    }
    ExecForgets(b, h, Script(b, h), Exec(earlier, mem), mem, img, a);
  }
}
