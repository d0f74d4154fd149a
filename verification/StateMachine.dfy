/** The superloop engine, application/hart0/hss_state_machine.c.

    What a machine's hooks and handler do to its own `state` field is an input, and so are writes to
    that field from outside between calls. */
module StateMachine {

  const INVALID_STATE := -1

  /** The fields of `struct StateMachine` that steer the engine. */
  datatype Core = Core(state: int, prevState: int, executionCount: nat)

  datatype Event = Enter(s: int) | Handle(s: int) | Exit(s: int)

  /** What one call meets: the value of `state` after onExit, after onEntry, and after the handler. */
  datatype Call = Call(afterExit: int, afterEntry: int, afterHandler: int)

  /** `IsValidState`. */
  predicate IsValidState(s: int, numStates: nat) { 0 <= s < numStates }

  /** The value of `state` after those hooks that run in this call. */
  function AfterHooks(c: Core, call: Call): int {
    if c.prevState == c.state then c.state else call.afterEntry
  }

  /** `RunStateMachine` on the core fields. */
  function Next(c: Core, call: Call): Core {
    if c.prevState == c.state
    then Core(call.afterHandler, c.prevState, c.executionCount + 1)
    else Core(call.afterHandler, call.afterEntry, 1)
  }

  /** The calls it makes through the state descriptors. */
  function Calls(c: Core, numStates: nat): seq<Event> {
    if c.prevState == c.state then [Handle(c.state)]
    else if IsValidState(c.prevState, numStates) then [Exit(c.prevState), Enter(c.state), Handle(c.state)]
    else [Enter(c.state), Handle(c.state)]
  }

  class EngineMachine {
    const numStates: nat
    var state: int
    var prevState: int
    var executionCount: nat
    var startTime: nat
    var lastExecutionTime: nat
    var lastDeltaExecutionTime: nat
    var maxExecutionTime: nat
    var maxState: int
    ghost var trace: seq<Event>

    ghost function GetCore(): Core
      reads this
    {
      Core(state, prevState, executionCount)
    }

    constructor (numStates: nat, initial: int)
      requires IsValidState(initial, numStates)
      ensures GetCore() == Core(initial, INVALID_STATE, 0) && this.numStates == numStates && trace == []
    {
      this.numStates, state, prevState, executionCount := numStates, initial, INVALID_STATE, 0;
      startTime, lastExecutionTime, lastDeltaExecutionTime, maxExecutionTime, maxState := 0, 0, 0, 0, 0;
      trace := [];
    }

    /** `RunStateMachine`, between clock readings `lastEntry` and `lastExit`. */
    method RunStateMachine(call: Call, lastEntry: nat, lastExit: nat)
      requires IsValidState(state, numStates) && lastEntry <= lastExit
      modifies this
      ensures GetCore() == Next(old(GetCore()), call)
      ensures trace == old(trace) + Calls(old(GetCore()), numStates)
      ensures startTime == if old(startTime) == 0 then lastEntry else old(startTime)
      ensures lastExecutionTime == lastEntry && lastDeltaExecutionTime == lastExit - lastEntry
      ensures maxExecutionTime == if lastExit - lastEntry > old(maxExecutionTime) then lastExit - lastEntry
        else old(maxExecutionTime)
      ensures maxState == if lastExit - lastEntry > old(maxExecutionTime) then prevState else old(maxState)
    {
      var prev, current := prevState, state;
      if startTime == 0 {
        startTime := lastEntry;
      }
      lastExecutionTime := lastEntry;
      if prev != current {
        Transition(prev, current, call);
      }
      trace := trace + [Handle(current)];
      state := call.afterHandler;
      executionCount := executionCount + 1;
      lastDeltaExecutionTime := lastExit - lastEntry;
      if lastDeltaExecutionTime > maxExecutionTime {
        maxExecutionTime := lastDeltaExecutionTime;
        maxState := prevState;
      }
    }

    /** The hooks that a change of state runs. */
    method Transition(prev: int, current: int, call: Call)
      modifies this`state, this`prevState, this`executionCount, this`trace
      ensures state == prevState == call.afterEntry && executionCount == 0
      ensures trace == old(trace) + (if IsValidState(prev, numStates) then [Exit(prev), Enter(current)]
        else [Enter(current)])
    {
      if IsValidState(prev, numStates) {
        trace := trace + [Exit(prev)];
        state := call.afterExit;
      }
      trace := trace + [Enter(current)];
      state := call.afterEntry;
      executionCount := 0;
      prevState := state;
    }
  }

  // ---------------------------------------------------------------- runs

  datatype Step = Write(s: int) | Run(call: Call)

  function StepCore(c: Core, step: Step): Core {
    match step
    case Write(s) => c.(state := s)
    case Run(call) => Next(c, call)
  }

  function StepTrace(c: Core, step: Step, numStates: nat): seq<Event> {
    match step
    case Write(_) => []
    case Run(_) => Calls(c, numStates)
  }

  function RunCore(c: Core, steps: seq<Step>): Core {
    if steps == [] then c else StepCore(RunCore(c, steps[..|steps| - 1]), steps[|steps| - 1])
  }

  function Trace(c: Core, steps: seq<Step>, numStates: nat): seq<Event> {
    if steps == [] then [] else
    var before := steps[..|steps| - 1];
    Trace(c, before, numStates) + StepTrace(RunCore(c, before), steps[|steps| - 1], numStates)
  }

  /** Every write to `state`, by whomever, is in range. */
  ghost predicate InRange(steps: seq<Step>, numStates: nat) {
    forall i :: 0 <= i < |steps| ==> match steps[i]
      case Write(s) => IsValidState(s, numStates)
      case Run(call) => IsValidState(call.afterHandler, numStates)
  }

  /** In step `i`, hooks run and leave `state` changed. */
  predicate HooksMove(c: Core, steps: seq<Step>, i: nat)
    requires i < |steps|
  {
    steps[i].Run? && AfterHooks(RunCore(c, steps[..i]), steps[i].call) != RunCore(c, steps[..i]).state
  }

  // ---------------------------------------------------------------- the shape of a trace

  datatype Visit = Visit(s: int, handles: nat)

  function Handles(s: int, n: nat): seq<Event> { seq(n, _ => Handle(s)) }

  function Opened(v: Visit): seq<Event> { [Enter(v.s)] + Handles(v.s, v.handles) }

  /** Complete visits, one after the other. */
  function Closed(vs: seq<Visit>): seq<Event> {
    if vs == [] then [] else Closed(vs[..|vs| - 1]) + Opened(vs[|vs| - 1]) + [Exit(vs[|vs| - 1].s)]
  }

  /** Visits of which the last is still open. */
  function Render(vs: seq<Visit>): seq<Event> {
    if vs == [] then [] else Closed(vs[..|vs| - 1]) + Opened(vs[|vs| - 1])
  }

  ghost predicate Proper(vs: seq<Visit>) { forall i :: 0 <= i < |vs| ==> vs[i].handles >= 1 }

  /** (Enter s, Handle s one or more times, Exit s) repeated, the last visit possibly open. */
  ghost predicate WellFormed(trace: seq<Event>) {
    exists vs :: Proper(vs) && trace == Render(vs)
  }

  /** Where a reader of the trace is: outside any visit, in one, or lost. */
  datatype Reader = Outside(first: bool) | Inside(s: int, handles: nat) | Lost

  function Read(r: Reader, e: Event): Reader {
    match (r, e)
    case (Outside(_), Enter(s)) => Inside(s, 0)
    case (Inside(t, n), Handle(s)) => if s == t then Inside(t, n + 1) else Lost
    case (Inside(t, n), Exit(s)) => if s == t && n >= 1 then Outside(false) else Lost
    case _ => Lost
  }

  function ReadAll(trace: seq<Event>): Reader {
    if trace == [] then Outside(true) else Read(ReadAll(trace[..|trace| - 1]), trace[|trace| - 1])
  }

  lemma {:induction false} ReadConcat(a: seq<Event>, b: seq<Event>)
    ensures b != [] ==> ReadAll(a + b) == Read(ReadAll(a + b[..|b| - 1]), b[|b| - 1])
  {
    if b != [] { assert (a + b)[..|a + b| - 1] == a + b[..|b| - 1]; }
  }

  lemma {:induction false} ReadOpened(a: seq<Event>, s: int, n: nat)
    requires ReadAll(a).Outside?
    ensures ReadAll(a + Opened(Visit(s, n))) == Inside(s, n)
    decreases n
  {
    var b := Opened(Visit(s, n));
    ReadConcat(a, b);
    if n == 0 {
      assert b[..|b| - 1] == [] && a + [] == a;
    } else {
      assert b[..|b| - 1] == Opened(Visit(s, n - 1));
      ReadOpened(a, s, n - 1);
    }
  }

  lemma {:induction false} ReadClosed(vs: seq<Visit>)
    requires Proper(vs)
    ensures ReadAll(Closed(vs)) == Outside(vs == [])
    decreases |vs|
  {
    if vs != [] {
      var rest, v := vs[..|vs| - 1], vs[|vs| - 1];
      ReadClosed(rest);
      ReadOpened(Closed(rest), v.s, v.handles);
      var a := Closed(rest) + Opened(v);
      ReadConcat(a, [Exit(v.s)]);
      assert a + [Exit(v.s)][..0] == a;
    }
  }

  lemma ReadRender(vs: seq<Visit>)
    requires Proper(vs)
    ensures ReadAll(Render(vs)) == if vs == [] then Outside(true) else Inside(vs[|vs| - 1].s, vs[|vs| - 1].handles)
  {
    if vs != [] {
      ReadClosed(vs[..|vs| - 1]);
      ReadOpened(Closed(vs[..|vs| - 1]), vs[|vs| - 1].s, vs[|vs| - 1].handles);
    }
  }

  lemma HandledOnce(done: seq<Visit>, s: int, n: nat)
    ensures Render(done + [Visit(s, n + 1)]) == Render(done + [Visit(s, n)]) + [Handle(s)]
    ensures (done + [Visit(s, n + 1)])[..|done|] == done
  {
    assert (done + [Visit(s, n + 1)])[..|done|] == done == (done + [Visit(s, n)])[..|done|];
    assert Opened(Visit(s, n + 1)) == Opened(Visit(s, n)) + [Handle(s)];
  }

  /** `vs` are the visits of `trace`, at whose end the reader is at `r`. */
  ghost predicate Parsed(r: Reader, trace: seq<Event>, vs: seq<Visit>) {
    match r
    case Outside(_) => Proper(vs) && trace == Closed(vs)
    case Inside(s, n) => |vs| > 0 && Proper(vs[..|vs| - 1]) && vs[|vs| - 1] == Visit(s, n) && trace == Render(vs)
    case Lost => false
  }

  lemma ParsedEnter(first: bool, trace: seq<Event>, vs: seq<Visit>, s: int)
    requires Parsed(Outside(first), trace, vs)
    ensures Parsed(Inside(s, 0), trace + [Enter(s)], vs + [Visit(s, 0)])
  {
    assert (vs + [Visit(s, 0)])[..|vs|] == vs;
    assert Opened(Visit(s, 0)) == [Enter(s)];
  }

  lemma ParsedHandle(trace: seq<Event>, vs: seq<Visit>, s: int, n: nat)
    requires Parsed(Inside(s, n), trace, vs)
    ensures Parsed(Inside(s, n + 1), trace + [Handle(s)], vs[..|vs| - 1] + [Visit(s, n + 1)])
  {
    HandledOnce(vs[..|vs| - 1], s, n);
    assert vs == vs[..|vs| - 1] + [Visit(s, n)];
  }

  lemma ParsedExit(trace: seq<Event>, vs: seq<Visit>, s: int, n: nat)
    requires Parsed(Inside(s, n), trace, vs) && n >= 1
    ensures Parsed(Outside(false), trace + [Exit(s)], vs)
  {
    AppendProper(vs);
  }

  /** The visits that a trace the reader can follow consists of. */
  lemma {:induction false} Visits(trace: seq<Event>) returns (vs: seq<Visit>)
    requires !ReadAll(trace).Lost?
    ensures Parsed(ReadAll(trace), trace, vs)
    decreases |trace|
  {
    if trace == [] { return []; }
    var before, e := trace[..|trace| - 1], trace[|trace| - 1];
    assert trace == before + [e];
    var us := Visits(before);
    match ReadAll(before) {
      case Outside(first) =>
        ParsedEnter(first, before, us, e.s);
        vs := us + [Visit(e.s, 0)];
      case Inside(s, n) =>
        if e.Handle? {
          ParsedHandle(before, us, s, n);
          vs := us[..|us| - 1] + [Visit(s, n + 1)];
        } else {
          ParsedExit(before, us, s, n);
          vs := us;
        }
    }
  }

  lemma AppendProper(vs: seq<Visit>)
    requires vs != [] && Proper(vs[..|vs| - 1]) && vs[|vs| - 1].handles >= 1
    ensures Proper(vs)
  {
    assert forall i :: 0 <= i < |vs| - 1 ==> vs[i] == vs[..|vs| - 1][i];
  }

  /** The reader is where a trace may stop. */
  predicate Stoppable(r: Reader) { r == Outside(true) || (r.Inside? && r.handles >= 1) }

  lemma GrammarIsRead(trace: seq<Event>)
    requires WellFormed(trace)
    ensures Stoppable(ReadAll(trace))
  {
    var vs :| Proper(vs) && trace == Render(vs);
    ReadRender(vs);
  }

  lemma ReadIsGrammar(trace: seq<Event>)
    requires Stoppable(ReadAll(trace))
    ensures WellFormed(trace)
  {
    var vs := Visits(trace);
    if ReadAll(trace).Outside? {
      ReadClosed(vs);
      assert trace == Render([]) && Proper([]);
    } else {
      AppendProper(vs);
      assert trace == Render(vs) && Proper(vs);
    }
  }

  /** The grammar and the reader accept the same traces. */
  lemma ReaderDecides(trace: seq<Event>)
    ensures WellFormed(trace) <==> Stoppable(ReadAll(trace))
  {
    if WellFormed(trace) { GrammarIsRead(trace); }
    if Stoppable(ReadAll(trace)) { ReadIsGrammar(trace); }
  }

  // ---------------------------------------------------------------- what runs look like

  function ReadFrom(r: Reader, es: seq<Event>): Reader
    decreases es
  {
    if es == [] then r else ReadFrom(Read(r, es[0]), es[1..])
  }

  lemma {:induction false} ReadMore(a: seq<Event>, es: seq<Event>)
    ensures ReadAll(a + es) == ReadFrom(ReadAll(a), es)
    decreases es
  {
    if es == [] {
      assert a + es == a;
    } else {
      assert a + es == (a + [es[0]]) + es[1..];
      assert (a + [es[0]])[..|a|] == a;
      ReadMore(a + [es[0]], es[1..]);
    }
  }

  function ReaderAt(c: Core, steps: seq<Step>, numStates: nat): Reader { ReadAll(Trace(c, steps, numStates)) }

  /** The reader is where the engine's own bookkeeping says it is. */
  predicate Agree(r: Reader, c: Core, numStates: nat) {
    if IsValidState(c.prevState, numStates)
    then c.executionCount >= 1 && r == Inside(c.prevState, c.executionCount)
    else c.executionCount == 0 && r == Outside(true) && c.prevState == INVALID_STATE
  }

  lemma ReaderStep(c: Core, steps: seq<Step>, i: nat, numStates: nat)
    requires i < |steps|
    ensures RunCore(c, steps[..i + 1]) == StepCore(RunCore(c, steps[..i]), steps[i])
    ensures ReaderAt(c, steps[..i + 1], numStates)
      == ReadFrom(ReaderAt(c, steps[..i], numStates), StepTrace(RunCore(c, steps[..i]), steps[i], numStates))
  {
    var now := steps[..i + 1];
    assert now[..|now| - 1] == steps[..i];
    ReadMore(Trace(c, steps[..i], numStates), StepTrace(RunCore(c, steps[..i]), steps[i], numStates));
  }

  lemma ReadOne(r: Reader, e: Event)
    ensures ReadFrom(r, [e]) == Read(r, e)
  {
    assert ReadFrom(Read(r, e), [e][1..]) == Read(r, e);
  }

  lemma ReadCalls(r: Reader, c: Core, numStates: nat)
    requires Agree(r, c, numStates)
    ensures ReadFrom(r, Calls(c, numStates))
      == if c.prevState == c.state && IsValidState(c.state, numStates) then Inside(c.state, c.executionCount + 1)
         else if c.prevState == c.state then Lost
         else Inside(c.state, 1)
  {
    var es := Calls(c, numStates);
    if |es| == 1 {
      ReadOne(r, es[0]);
    } else if |es| == 2 {
      assert es[1..] == [es[1]];
      ReadOne(Read(r, es[0]), es[1]);
    } else {
      assert es[1..][1..] == [es[2]];
      ReadOne(Read(Read(r, es[0]), es[1]), es[2]);
    }
  }

  /** Writes in range, and hooks that leave `state` alone. */
  predicate QuietStep(c: Core, step: Step, numStates: nat) {
    match step
    case Write(s) => IsValidState(s, numStates)
    case Run(call) => IsValidState(call.afterHandler, numStates) && AfterHooks(c, call) == c.state
  }

  lemma AgreeStep(r: Reader, c: Core, step: Step, numStates: nat)
    requires Agree(r, c, numStates) && IsValidState(c.state, numStates) && QuietStep(c, step, numStates)
    ensures Agree(ReadFrom(r, StepTrace(c, step, numStates)), StepCore(c, step), numStates)
    ensures IsValidState(StepCore(c, step).state, numStates)
  {
    if step.Run? { ReadCalls(r, c, numStates); }
  }

  ghost predicate Quiet(c: Core, steps: seq<Step>, n: nat)
    requires n <= |steps|
  {
    forall i: nat :: i < n ==> !HooksMove(c, steps, i)
  }

  function Start(initial: nat): Core { Core(initial, INVALID_STATE, 0) }

  /** As long as hooks leave `state` alone, the reader follows the engine, whatever is written to
      `state` between calls. */
  lemma {:induction false} QuietAgrees(initial: nat, steps: seq<Step>, n: nat, numStates: nat)
    requires initial < numStates && InRange(steps, numStates) && n <= |steps| && Quiet(Start(initial), steps, n)
    ensures Agree(ReaderAt(Start(initial), steps[..n], numStates), RunCore(Start(initial), steps[..n]), numStates)
    ensures IsValidState(RunCore(Start(initial), steps[..n]).state, numStates)
    decreases n
  {
    if n > 0 {
      var c := Start(initial);
      QuietAgrees(initial, steps, n - 1, numStates);
      ReaderStep(c, steps, n - 1, numStates);
      assert !HooksMove(c, steps, n - 1);
      AgreeStep(ReaderAt(c, steps[..n - 1], numStates), RunCore(c, steps[..n - 1]), steps[n - 1], numStates);
    }
  }

  /** Machines whose hooks leave `state` alone: every trace is a sequence of visits, and the engine's
      counter is the number of handler calls in the open one. */
  lemma TraceShape(initial: nat, steps: seq<Step>, numStates: nat) returns (vs: seq<Visit>)
    requires initial < numStates && InRange(steps, numStates) && Quiet(Start(initial), steps, |steps|)
    ensures Proper(vs) && Trace(Start(initial), steps, numStates) == Render(vs)
    ensures vs != [] ==>
      vs[|vs| - 1] == Visit(RunCore(Start(initial), steps).prevState, RunCore(Start(initial), steps).executionCount)
    ensures vs == [] ==> RunCore(Start(initial), steps).executionCount == 0
  {
    QuietAgrees(initial, steps, |steps|, numStates);
    assert steps[..|steps|] == steps;
    var trace := Trace(Start(initial), steps, numStates);
    ReaderDecides(trace);
    vs :| Proper(vs) && trace == Render(vs);
    ReadRender(vs);
  }

  // ---------------------------------------------------------------- hooks that do write `state`

  ghost predicate NoRun(steps: seq<Step>, lo: nat, hi: nat)
    requires lo <= hi <= |steps|
  {
    forall k: nat :: lo <= k < hi ==> steps[k].Write?
  }

  /** Writes from outside change neither the trace nor the remembered state. */
  lemma {:induction false} WritesOnly(c: Core, steps: seq<Step>, lo: nat, hi: nat, numStates: nat)
    requires lo <= hi <= |steps| && NoRun(steps, lo, hi)
    ensures ReaderAt(c, steps[..hi], numStates) == ReaderAt(c, steps[..lo], numStates)
    ensures RunCore(c, steps[..hi]).prevState == RunCore(c, steps[..lo]).prevState
    decreases hi
  {
    if lo < hi {
      WritesOnly(c, steps, lo, hi - 1, numStates);
      ReaderStep(c, steps, hi - 1, numStates);
    }
  }

  /** The first call in which hooks move `state` still looks like a visit. */
  lemma FirstMove(initial: nat, steps: seq<Step>, i: nat, numStates: nat)
    requires initial < numStates && InRange(steps, numStates) && i < |steps|
    requires Quiet(Start(initial), steps, i) && HooksMove(Start(initial), steps, i)
    ensures ReaderAt(Start(initial), steps[..i + 1], numStates) == Inside(RunCore(Start(initial), steps[..i]).state, 1)
    ensures RunCore(Start(initial), steps[..i + 1]).prevState != RunCore(Start(initial), steps[..i]).state
  {
    var c := Start(initial);
    QuietAgrees(initial, steps, i, numStates);
    ReaderStep(c, steps, i, numStates);
    ReadCalls(ReaderAt(c, steps[..i], numStates), RunCore(c, steps[..i]), numStates);
  }

  lemma LostStays(es: seq<Event>)
    ensures ReadFrom(Lost, es) == Lost
    decreases es
  {
    if es != [] { LostStays(es[1..]); }
  }

  /** The next call after it does not: the engine exits, or keeps handling, a state that was never entered. */
  lemma NextCallLost(initial: nat, steps: seq<Step>, i: nat, j: nat, numStates: nat)
    requires initial < numStates && InRange(steps, numStates) && i < j < |steps|
    requires Quiet(Start(initial), steps, i) && HooksMove(Start(initial), steps, i)
    requires NoRun(steps, i + 1, j) && steps[j].Run?
    ensures !WellFormed(Trace(Start(initial), steps[..j + 1], numStates))
  {
    var c := Start(initial);
    FirstMove(initial, steps, i, numStates);
    WritesOnly(c, steps, i + 1, j, numStates);
    ReaderStep(c, steps, j, numStates);
    var es := Calls(RunCore(c, steps[..j]), numStates);
    assert Read(ReaderAt(c, steps[..j], numStates), es[0]) == Lost;
    LostStays(es[1..]);
    ReaderDecides(Trace(c, steps[..j + 1], numStates));
  }

  /** All traces of a run have the visit shape exactly when no call whose hooks move `state` is
      followed by another call. */
  lemma ShapeIffQuiet(initial: nat, steps: seq<Step>, numStates: nat)
    requires initial < numStates && InRange(steps, numStates)
    ensures (forall k: nat :: k <= |steps| ==> WellFormed(Trace(Start(initial), steps[..k], numStates)))
      <==> (forall i: nat, j: nat :: i < j < |steps| && steps[j].Run? ==> !HooksMove(Start(initial), steps, i))
  {
    var c := Start(initial);
    if Quiet(c, steps, |steps|) {
      forall k: nat | k <= |steps| ensures WellFormed(Trace(c, steps[..k], numStates)) {
        QuietAgrees(initial, steps, k, numStates);
        ReaderDecides(Trace(c, steps[..k], numStates));
      }
    } else {
      var i := FirstMoving(c, steps);
      if j: nat :| i < j < |steps| && steps[j].Run? {
        var next := FirstRun(steps, i + 1, j);
        NextCallLost(initial, steps, i, next, numStates);
        assert next + 1 <= |steps|;
      } else {
        forall k: nat | k <= |steps| ensures WellFormed(Trace(c, steps[..k], numStates)) {
          if k <= i { QuietAgrees(initial, steps, k, numStates); }
          else { FirstMove(initial, steps, i, numStates); WritesOnly(c, steps, i + 1, k, numStates); }
          ReaderDecides(Trace(c, steps[..k], numStates));
        }
      }
    }
  }

  lemma FirstMoving(c: Core, steps: seq<Step>) returns (i: nat)
    requires !Quiet(c, steps, |steps|)
    ensures i < |steps| && HooksMove(c, steps, i) && Quiet(c, steps, i)
  {
    i := 0;
    while !HooksMove(c, steps, i)
      invariant i < |steps| && Quiet(c, steps, i)
      decreases |steps| - i
    {
      assert Quiet(c, steps, i + 1);
      i := i + 1;
    }
  }

  lemma FirstRun(steps: seq<Step>, lo: nat, j: nat) returns (next: nat)
    requires lo <= j < |steps| && steps[j].Run?
    ensures lo <= next <= j && steps[next].Run? && NoRun(steps, lo, next)
  {
    next := lo;
    while steps[next].Write?
      invariant lo <= next <= j && NoRun(steps, lo, next)
      decreases j - next
    {
      next := next + 1;
    }
  }
}
