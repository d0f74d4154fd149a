/** The ancillary-data address (a device tree) that a start message carries: that of the sender's first
    chunk flagged so, whatever restarts came before (services/boot/hss_boot_service.c). */
module BootAncillary {
  import opened Words
  import opened BootImage
  import opened BootSpec
  import opened BootRuns

  /** Chunk `k` is downloaded for the hart and sets the address. */
  predicate SetsAncillary(b: Board, h: nat, k: nat)
    requires WellFormed(b) && h < HARTS && k < |b.image.chunks|
  {
    Mine(b, h, k) && b.image.chunks[k].ancillary && b.image.chunks[k].execAddr != 0
  }

  /** The first such address from the cursor on, or zero. */
  function FirstAncillary(b: Board, h: nat, c: Cursor): nat
    requires InTable(b, h, c)
    decreases |b.image.chunks| - c.chunk, Left(b, h, c)
  {
    if AtEnd(b, h, c) then 0
    else if SetsAncillary(b, h, c.chunk) then b.image.chunks[c.chunk].execAddr
    else FirstAncillary(b, h, Advance(b, h, c))
  }

  function Ancillary(b: Board, h: nat): nat
    requires WellFormed(b) && h < HARTS
  {
    if b.image.harts[h].numChunks == 0 then 0 else FirstAncillary(b, h, StartCursor(b, h))
  }

  /** `a` is the address of the lowest chunk in [from, to) that sets one, or zero if none does. */
  ghost predicate IsLowest(b: Board, h: nat, from: nat, to: nat, a: nat)
    requires WellFormed(b) && h < HARTS && to <= |b.image.chunks|
  {
    if forall k :: from <= k < to ==> !SetsAncillary(b, h, k) then a == 0
    else exists k: nat :: from <= k < to && SetsTo(b, h, from, k, a)
  }

  /** Chunk `k` sets the address to `a`, and none from `from` on does before it. */
  ghost predicate SetsTo(b: Board, h: nat, from: nat, k: nat, a: nat)
    requires WellFormed(b) && h < HARTS && k < |b.image.chunks|
  {
    SetsAncillary(b, h, k) && a == b.image.chunks[k].execAddr && NoneSets(b, h, from, k)
  }

  ghost predicate NoneSets(b: Board, h: nat, from: nat, to: nat)
    requires WellFormed(b) && h < HARTS && to <= |b.image.chunks|
  {
    forall k :: from <= k < to ==> !SetsAncillary(b, h, k)
  }

  lemma LowestHere(b: Board, h: nat, from: nat, to: nat)
    requires WellFormed(b) && h < HARTS && from < to <= |b.image.chunks| && SetsAncillary(b, h, from)
    ensures IsLowest(b, h, from, to, b.image.chunks[from].execAddr)
  {
    assert SetsTo(b, h, from, from, b.image.chunks[from].execAddr);
  }

  lemma LowestLater(b: Board, h: nat, from: nat, to: nat, a: nat)
    requires WellFormed(b) && h < HARTS && from < to <= |b.image.chunks| && !SetsAncillary(b, h, from)
    requires IsLowest(b, h, from + 1, to, a)
    ensures IsLowest(b, h, from, to, a)
  {
    var next := from + 1;
    if k: nat :| next <= k < to && SetsTo(b, h, next, k, a) {
      assert NoneSets(b, h, from, k);
      assert SetsTo(b, h, from, k, a);
    }
  }

  /** It is the address of the lowest chunk, among those the download reaches, that sets it. */
  lemma {:induction false} FirstAncillaryIs(b: Board, h: nat, c: Cursor)
    requires InTable(b, h, c)
    ensures IsLowest(b, h, c.chunk, EndCursor(b, h, c).chunk, FirstAncillary(b, h, c))
    decreases |b.image.chunks| - c.chunk, Left(b, h, c)
  {
    hide IsLowest;
    if AtEnd(b, h, c) {
      LowestOfNone(b, h, c.chunk);
    } else {
      PassesOn(b, h, c);
      if SetsAncillary(b, h, c.chunk) {
        LowestHere(b, h, c.chunk, EndCursor(b, h, c).chunk);
      } else {
        FirstAncillaryIs(b, h, Advance(b, h, c));
        if Advance(b, h, c).chunk > c.chunk {
          LowestLater(b, h, c.chunk, EndCursor(b, h, c).chunk, FirstAncillary(b, h, c));
        }
      }
    }
  }

  lemma LowestOfNone(b: Board, h: nat, at: nat)
    requires WellFormed(b) && h < HARTS && at <= |b.image.chunks|
    ensures IsLowest(b, h, at, at, 0)
  {
  }

  /** A download that starts on a chunk gets past it. */
  lemma {:induction false} PassesOn(b: Board, h: nat, c: Cursor)
    requires InTable(b, h, c) && !AtEnd(b, h, c)
    ensures c.chunk < EndCursor(b, h, c).chunk
    decreases Left(b, h, c)
  {
    var n := Advance(b, h, c);
    if n.chunk == c.chunk { PassesOn(b, h, n); }
  }

  // ---------------------------------------------------------------- what every run keeps

  /** A machine past its download has the address; one in its download has it or has it still ahead. */
  ghost predicate Keeping(b: Board, h: nat, m: Machine) {
    && Shaped(b, h, m)
    && var s, p := m.core.state, m.core.prevState;
    && (m.ancilliaryData == 0 || m.ancilliaryData == Ancillary(b, h))
    && (s == BOOT_OPENSBI_INIT || s == BOOT_WAIT || p == BOOT_OPENSBI_INIT ==> m.ancilliaryData == Ancillary(b, h))
    && (s == BOOT_DOWNLOAD_CHUNKS && p == s && b.image.harts[h].numChunks > 0 && m.ancilliaryData == 0 ==>
          FirstAncillary(b, h, m.cursor) == Ancillary(b, h))
  }

  ghost predicate Carries(b: Board, h: nat, events: seq<BootEvent>)
    requires WellFormed(b) && h < HARTS
  {
    forall i :: 0 <= i < |events| && events[i].Delivered? ==> events[i].h == h && events[i].arg == Ancillary(b, h)
  }

  lemma TransitionKeeping(b: Board, h: nat, m: Machine, env: Env)
    requires Keeping(b, h, m)
    ensures var t := Transition(b, h, m, env);
      Keeping(b, h, t.m) && t.m.core.prevState == t.m.core.state == m.core.state && Carries(b, h, t.events)
    ensures m.core.state == BOOT_DOWNLOAD_CHUNKS && b.image.harts[h].numChunks > 0 && m.ancilliaryData == 0 ==>
      FirstAncillary(b, h, Transition(b, h, m, env).m.cursor) == Ancillary(b, h)
  {
  }

  lemma HandlerKeeping(b: Board, h: nat, m: Machine, env: Env, complete: seq<bool>)
    requires Keeping(b, h, m) && m.core.prevState == m.core.state
    ensures var e := Handler(b, h, m.core.state, m, env, complete); Keeping(b, h, e.m) && Carries(b, h, e.events)
  {
    hide DownloadHandler;
    if m.core.state == BOOT_DOWNLOAD_CHUNKS { DownloadKeeping(b, h, m); }
  }

  lemma DownloadKeeping(b: Board, h: nat, m: Machine)
    requires Keeping(b, h, m) && m.core.prevState == m.core.state == BOOT_DOWNLOAD_CHUNKS
    ensures var e := DownloadHandler(b, h, m); Keeping(b, h, e.m) && Carries(b, h, e.events)
  {
  }

  lemma CallKeeping(b: Board, h: nat, m: Machine, env: Env, complete: seq<bool>)
    requires Keeping(b, h, m) && |complete| == HARTS
    ensures var e := RunMachine(b, h, m, env, complete); Keeping(b, h, e.m) && Carries(b, h, e.events)
  {
    hide Handler, Transition;
    var t := Transition(b, h, m, env);
    TransitionKeeping(b, h, m, env);
    HandlerKeeping(b, h, t.m, env, Completing(h, m, complete));
  }

  ghost predicate AllKeeping(b: Board, w: World) {
    Sane(b, w) && forall h: nat :: h < HARTS ==> Keeping(b, h, w.machines[h])
  }

  ghost predicate CarriesAt(b: Board, log: seq<BootEvent>, i: nat)
    requires WellFormed(b) && i < |log|
  {
    log[i].Delivered? ==> log[i].h < HARTS && log[i].arg == Ancillary(b, log[i].h)
  }

  ghost predicate AllCarry(b: Board, log: seq<BootEvent>)
    requires WellFormed(b)
  {
    forall i :: 0 <= i < |log| ==> CarriesAt(b, log, i)
  }

  lemma CarryMore(b: Board, log: seq<BootEvent>, more: seq<BootEvent>, h: nat)
    requires WellFormed(b) && h < HARTS && AllCarry(b, log) && Carries(b, h, more)
    ensures AllCarry(b, log + more)
  {
    forall i | 0 <= i < |log + more| ensures CarriesAt(b, log + more, i) {
      if i < |log| { assert CarriesAt(b, log, i); } else { assert (log + more)[i] == more[i - |log|]; }
    }
  }

  lemma StepKeeping(b: Board, w: World, a: Action)
    requires WellFormed(b) && AllKeeping(b, w) && AllCarry(b, w.log) && (a.Call? ==> a.h < HARTS)
    ensures AllKeeping(b, Step(b, w, a)) && AllCarry(b, Step(b, w, a).log)
  {
    hide RunMachine;
    match a
    case Call(h, env) =>
      CallKeeping(b, h, w.machines[h], env, w.complete);
      CarryMore(b, w.log, RunMachine(b, h, w.machines[h], env, w.complete).events, h);
    case Restart(harts) =>
      RestartEntries(w.machines, harts, HARTS);
      CarryMore(b, w.log, RestartLog(w.machines, harts, HARTS), 0);
  }

  /** In every run with any restarts, every start message carries its sender's first ancillary-data
      address. */
  lemma {:induction false} MessagesCarryIt(b: Board, mem: seq<byte>, actions: seq<Action>)
    requires WellFormed(b) && Possible(actions)
    ensures AllKeeping(b, Run(b, Initial(b, mem), actions))
    ensures AllCarry(b, Run(b, Initial(b, mem), actions).log)
    decreases |actions|
  {
    hide Step;
    if actions != [] {
      MessagesCarryIt(b, mem, actions[..|actions| - 1]);
      StepKeeping(b, Run(b, Initial(b, mem), actions[..|actions| - 1]), actions[|actions| - 1]);
    }
  }
}
