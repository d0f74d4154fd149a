/** Restart requests (services/boot/hss_boot_service.c): which machines a request reaches. */
module BootRestart {
  import opened Wrappers
  import opened BootImage
  import opened BootLayout
  import opened BootSpec
  import opened BootRuns
  import opened BootService

  // ---------------------------------------------------------------- what a request should reach

  predicate SameSet(b: Board, g: nat, h: nat)
    requires WellFormed(b)
  {
    g < HARTS && h < HARTS && b.image.harts[g].entryPoint == b.image.harts[h].entryPoint
  }

  /** `h` is the lowest-numbered requested hart among those with the entry point of `g`. */
  ghost predicate LowestRequested(b: Board, requested: set<nat>, g: nat, h: nat)
    requires WellFormed(b)
  {
    && h in requested && SameSet(b, g, h)
    && forall k: nat :: k < h && SameSet(b, g, k) ==> k !in requested
  }

  /** Hart `g` has the entry point of some requested hart, and the lowest such one has chunks. */
  ghost predicate Reached(b: Board, requested: set<nat>, g: nat)
    requires WellFormed(b)
  {
    exists h: nat :: LowestRequested(b, requested, g, h) && b.image.harts[h].numChunks > 0
  }

  // ---------------------------------------------------------------- the loop over masks

  /** The bit mask of hart `h` and its peers. */
  function ClassOf(b: Board, h: nat): set<nat>
    requires WellFormed(b) && h < HARTS
  {
    set g: nat | g < HARTS && b.image.harts[g].entryPoint == b.image.harts[h].entryPoint
  }

  /** The masks handed to `boot_using_hart_bitmask_` by the first `n` turns, and what is still requested. */
  function Masks(b: Board, requested: set<nat>, n: nat): (r: (seq<set<nat>>, set<nat>))
    requires WellFormed(b) && n <= HARTS
  {
    if n == 0 then ([], requested) else
    var (masks, left) := Masks(b, requested, n - 1);
    if n - 1 !in left then (masks, left)
    else (if b.image.harts[n - 1].numChunks > 0 then masks + [ClassOf(b, n - 1)] else masks, left - ClassOf(b, n - 1))
  }

  predicate InSome(masks: seq<set<nat>>, g: nat) { exists i :: 0 <= i < |masks| && g in masks[i] }

  ghost predicate Disjoint(masks: seq<set<nat>>) { forall i, j :: 0 <= i < j < |masks| ==> masks[i] !! masks[j] }

  lemma InOneMore(masks: seq<set<nat>>, more: set<nat>, g: nat)
    ensures InSome(masks + [more], g) <==> InSome(masks, g) || g in more
  {
    if g in more { assert (masks + [more])[|masks|] == more; }
    if InSome(masks, g) {
      var i :| 0 <= i < |masks| && g in masks[i];
      assert g in (masks + [more])[i];
    }
  }

  lemma {:induction false} HasLowest(b: Board, requested: set<nat>, g: nat, k: nat)
    requires WellFormed(b) && k in requested && SameSet(b, g, k)
    ensures exists h: nat :: h <= k && LowestRequested(b, requested, g, h)
    decreases k
  {
    if j: nat :| j < k && j in requested && SameSet(b, g, j) {
      HasLowest(b, requested, g, j);
    } else {
      assert LowestRequested(b, requested, g, k);
    }
  }

  /** After `n` turns a hart is still requested unless the lowest requested one of its class came up. */
  lemma {:induction false} Left(b: Board, requested: set<nat>, n: nat, g: nat)
    requires WellFormed(b) && n <= HARTS && g < HARTS
    ensures g in Masks(b, requested, n).1 <==>
      g in requested && forall h: nat :: h < n ==> !LowestRequested(b, requested, g, h)
    decreases n, 0
  {
    if n > 0 {
      Left(b, requested, n - 1, g);
      TurnIsLowest(b, requested, n - 1);
      if SameSet(b, g, n - 1) { SameLowest(b, requested, g, n - 1, n - 1); }
    }
  }

  /** A turn finds its hart still requested exactly when that is the lowest requested of its class. */
  lemma {:induction false} TurnIsLowest(b: Board, requested: set<nat>, n: nat)
    requires WellFormed(b) && n < HARTS
    ensures n in Masks(b, requested, n).1 <==> LowestRequested(b, requested, n, n)
    decreases n, 1
  {
    Left(b, requested, n, n);
    if n in requested { HasLowest(b, requested, n, n); }
  }

  lemma SameLowest(b: Board, requested: set<nat>, g: nat, k: nat, h: nat)
    requires WellFormed(b) && SameSet(b, g, k)
    ensures LowestRequested(b, requested, g, h) <==> LowestRequested(b, requested, k, h)
  {
  }

  /** Before the lowest requested hart of a class comes up, none of the class is in a mask. */
  lemma NotYet(b: Board, requested: set<nat>, n: nat, g: nat)
    requires WellFormed(b) && n < HARTS && LowestRequested(b, requested, n, n) && SameSet(b, g, n)
    ensures !exists h: nat :: h < n && LowestRequested(b, requested, g, h) && b.image.harts[h].numChunks > 0
  {
    SameLowest(b, requested, g, n, n);
  }

  /** The masks of the first `n` turns hold exactly the classes whose lowest requested hart, with chunks,
      came up; no hart is in two of them. */
  lemma {:induction false} MasksAre(b: Board, requested: set<nat>, n: nat)
    requires WellFormed(b) && n <= HARTS
    ensures forall g: nat :: InSome(Masks(b, requested, n).0, g) <==>
      exists h: nat :: h < n && LowestRequested(b, requested, g, h) && b.image.harts[h].numChunks > 0
    ensures Disjoint(Masks(b, requested, n).0)
    decreases n
  {
    if n > 0 {
      MasksAre(b, requested, n - 1);
      TurnIsLowest(b, requested, n - 1);
      var masks, more := Masks(b, requested, n - 1).0, ClassOf(b, n - 1);
      if n - 1 in Masks(b, requested, n - 1).1 && b.image.harts[n - 1].numChunks > 0 {
        forall g: nat ensures InSome(masks + [more], g) <==>
          exists h: nat :: h < n && LowestRequested(b, requested, g, h) && b.image.harts[h].numChunks > 0
        {
          InOneMore(masks, more, g);
          if g in more { SameLowest(b, requested, g, n - 1, n - 1); }
        }
        forall i | 0 <= i < |masks| ensures masks[i] !! more {
          forall g | g in more ensures g !in masks[i] {
            NotYet(b, requested, n - 1, g);
            assert !InSome(masks, g);
          }
        }
      }
    }
  }

  /** Every hart is in at most one mask, it is in one exactly if it should be reached, and there is a mask
      exactly if some hart should be. */
  lemma MasksReach(b: Board, requested: set<nat>)
    requires WellFormed(b)
    ensures var masks := Masks(b, requested, HARTS).0;
      && (forall g: nat :: InSome(masks, g) <==> Reached(b, requested, g))
      && Disjoint(masks)
      && (masks != [] <==> exists g: nat :: Reached(b, requested, g))
  {
    var masks := Masks(b, requested, HARTS).0;
    MasksAre(b, requested, HARTS);
    forall g: nat ensures InSome(masks, g) <==> Reached(b, requested, g) {
      if h: nat :| LowestRequested(b, requested, g, h) && b.image.harts[h].numChunks > 0 { assert h < HARTS; }
    }
    NoEmptyMask(b, requested, HARTS);
    if masks != [] {
      var g: nat :| g in masks[0];
      assert InSome(masks, g);
    }
  }

  lemma {:induction false} NoEmptyMask(b: Board, requested: set<nat>, n: nat)
    requires WellFormed(b) && n <= HARTS
    ensures forall i :: 0 <= i < |Masks(b, requested, n).0| ==> Masks(b, requested, n).0[i] != {}
    decreases n
  {
    if n > 0 {
      NoEmptyMask(b, requested, n - 1);
      assert n - 1 in ClassOf(b, n - 1);
    }
  }

  // ---------------------------------------------------------------- the requests

  /** The world when the first `n` machines have been looked at. */
  ghost function RestartedUpTo(b: Board, w: World, mask: set<nat>, n: nat): World
    requires Sane(b, w) && n <= HARTS
  {
    w.(machines := seq(HARTS, h requires 0 <= h < HARTS =>
                      if h < n && h in mask then RestartMachine(w.machines[h]) else w.machines[h]),
       log := w.log + RestartLog(w.machines, mask, n))
  }

  lemma AllLookedAt(b: Board, w: World, mask: set<nat>)
    requires Sane(b, w)
    ensures RestartedUpTo(b, w, mask, HARTS) == Step(b, w, Restart(mask))
    ensures RestartedUpTo(b, w, mask, 0) == w
  {
    assert RestartedUpTo(b, w, mask, HARTS).machines == Step(b, w, Restart(mask)).machines;
    assert RestartedUpTo(b, w, mask, 0).machines == w.machines;
    assert RestartedUpTo(b, w, mask, 0).log == w.log;
  }

  /** One turn of `boot_using_hart_bitmask_`, for a machine in the mask. */
  method ResetMachine(m: BootMachine)
    modifies m`state, m.p`log
    ensures m.Snapshot() == RestartMachine(old(m.Snapshot()))
    ensures m.p.log == if old(m.state) == BOOT_OPENSBI_INIT then old(m.p.log) else old(m.p.log) + [Restarted(m.h)]
  {
    if m.state == BOOT_OPENSBI_INIT {
      m.state := BOOT_OPENSBI_INIT;
    } else {
      m.p.log := m.p.log + [Restarted(m.h)];
      m.state := BOOT_INITIALIZATION;
    }
  }

  lemma NextLookedAt(b: Board, w: World, mask: set<nat>, i: nat)
    requires Sane(b, w) && i < HARTS
    ensures var before, after, m := RestartedUpTo(b, w, mask, i), RestartedUpTo(b, w, mask, i + 1), w.machines[i];
      && before.machines[i] == m
      && after.machines == (if i in mask then before.machines[i := RestartMachine(m)] else before.machines)
  {
    hide Shaped, RestartMachine;
  }

  lemma NextLogged(b: Board, w: World, mask: set<nat>, i: nat)
    requires Sane(b, w) && i < HARTS
    ensures var before, after, m := RestartedUpTo(b, w, mask, i), RestartedUpTo(b, w, mask, i + 1), w.machines[i];
      && after.complete == before.complete && after.mem == before.mem
      && after.log == if i in mask && m.core.state != BOOT_OPENSBI_INIT then before.log + [Restarted(i)] else before.log
  {
    hide Shaped, RestartMachine;
  }

  method LookAt(b: Board, machines: seq<BootMachine>, p: Platform, mask: set<nat>, i: nat, ghost w: World)
    requires Fleet(b, machines, p) && Sane(b, w) && i < HARTS && WorldOf(machines, p) == RestartedUpTo(b, w, mask, i)
    modifies machines[i], p`log
    ensures WorldOf(machines, p) == RestartedUpTo(b, w, mask, i + 1)
  {
    hide Shaped, WellFormed, Placed, RunMachine, RestartedUpTo, RestartLog;
    ghost var before := WorldOf(machines, p);
    NextLookedAt(b, w, mask, i);
    NextLogged(b, w, mask, i);
    assert before.machines[i] == machines[i].Snapshot();
    if i in mask {
      ResetMachine(machines[i]);
      OthersKept(machines, p, i, before);
    }
  }

  method BootUsingHartBitmask(b: Board, machines: seq<BootMachine>, p: Platform, mask: set<nat>) returns (result: bool)
    requires Fleet(b, machines, p) && Sane(b, WorldOf(machines, p))
    modifies machines, p`log
    ensures WorldOf(machines, p) == Step(b, old(WorldOf(machines, p)), Restart(mask))
    ensures result <==> exists h: nat :: h < HARTS && h in mask
  {
    hide Step, Shaped, Placed, RestartedUpTo, RestartLog;
    ghost var w := WorldOf(machines, p);
    result := false;
    AllLookedAt(b, w, mask);
    var i := 0;
    while i < HARTS
      invariant i <= HARTS && WorldOf(machines, p) == RestartedUpTo(b, w, mask, i)
      invariant result <==> exists h: nat :: h < i && h in mask
    {
      LookAt(b, machines, p, mask, i, w);
      result := result || i in mask;
      i := i + 1;
    }
  }

  function Restarts(masks: seq<set<nat>>): seq<Action> {
    seq(|masks|, i requires 0 <= i < |masks| => Restart(masks[i]))
  }

  lemma OneMoreRestart(b: Board, w: World, masks: seq<set<nat>>, mask: set<nat>)
    requires Sane(b, w)
    ensures Run(b, w, Restarts(masks + [mask])) == Step(b, Run(b, w, Restarts(masks)), Restart(mask))
  {
    hide Step;
    assert Restarts(masks + [mask]) == Restarts(masks) + [Restart(mask)];
    OneMoreAction(b, w, Restarts(masks), Restart(mask));
  }

  /** One turn of the loop over requested harts. */
  method RestartClass(b: Board, machines: seq<BootMachine>, p: Platform, source: nat, ghost masks: seq<set<nat>>,
      ghost w: World)
    returns (mask: set<nat>, restarted: bool)
    requires Fleet(b, machines, p) && source < HARTS && Sane(b, w) && WorldOf(machines, p) == Run(b, w, Restarts(masks))
    modifies machines, p`log
    ensures mask == ClassOf(b, source) && restarted == (b.image.harts[source].numChunks > 0)
    ensures WorldOf(machines, p) == Run(b, w, Restarts(if restarted then masks + [mask] else masks))
  {
    hide Step;
    mask := PeerMask(b, source);
    restarted := false;
    if b.image.harts[source].numChunks > 0 {
      restarted := BootUsingHartBitmask(b, machines, p, mask);
      assert source in mask;
      OneMoreRestart(b, w, masks, mask);
    }
  }

  /** `HSS_Boot_RestartCores_Using_Bitmask`, for an image that is there and valid or not. */
  method RestartCoresUsingBitmask(b: Board, machines: seq<BootMachine>, p: Platform, requested: set<nat>,
      imageValid: bool)
    returns (success: bool)
    requires Fleet(b, machines, p) && Sane(b, WorldOf(machines, p))
    modifies machines, p`log
    ensures !imageValid ==> !success && WorldOf(machines, p) == old(WorldOf(machines, p))
    ensures imageValid ==>
      && WorldOf(machines, p) == Run(b, old(WorldOf(machines, p)), Restarts(Masks(b, requested, HARTS).0))
      && (success <==> exists g: nat :: Reached(b, requested, g))
  {
    hide Step;
    success := false;
    if !imageValid { return; }
    ghost var w := WorldOf(machines, p);
    var left := requested;
    var source := 0;
    while source < HARTS
      invariant source <= HARTS && left == Masks(b, requested, source).1
      invariant WorldOf(machines, p) == Run(b, w, Restarts(Masks(b, requested, source).0))
      invariant success <==> Masks(b, requested, source).0 != []
    {
      if source in left {
        var mask, restarted := RestartClass(b, machines, p, source, Masks(b, requested, source).0, w);
        success := success || restarted;
        left := left - mask;
      }
      source := source + 1;
    }
    MasksReach(b, requested);
  }

  /** The inner loop: the peers first, then the hart itself. */
  method PeerMask(b: Board, source: nat) returns (mask: set<nat>)
    requires WellFormed(b) && source < HARTS
    ensures mask == ClassOf(b, source)
  {
    mask := {};
    var i := 0;
    while i < HARTS
      invariant i <= HARTS
      invariant forall g: nat :: g in mask <==> g < i && g != source && SameSet(b, g, source)
    {
      if i != source && b.image.harts[i].entryPoint == b.image.harts[source].entryPoint {
        mask := mask + {i};
      }
      i := i + 1;
    }
    mask := mask + {source};
  }

  const ALL := {0, 1, 2, 3}

  lemma AllRestarted(b: Board, w: World)
    requires Sane(b, w)
    ensures forall h :: 0 <= h < HARTS ==> Step(b, w, Restart(ALL)).machines[h] == RestartMachine(w.machines[h])
  {
    hide RunMachine, RestartLog, RestartMachine;
  }

  /** `HSS_Boot_RestartCore`, for one hart or (`None`, HSS_HART_ALL) for every hart with or without chunks. */
  method RestartCore(b: Board, machines: seq<BootMachine>, p: Platform, source: Option<nat>, imageValid: bool)
    returns (success: bool)
    requires Fleet(b, machines, p) && Sane(b, WorldOf(machines, p)) && (source.Some? ==> source.value < HARTS)
    modifies machines, p`log
    ensures !imageValid ==> !success && WorldOf(machines, p) == old(WorldOf(machines, p))
    ensures imageValid && source.None? ==>
      && success && WorldOf(machines, p) == Step(b, old(WorldOf(machines, p)), Restart(ALL))
      && forall h :: 0 <= h < HARTS ==>
        WorldOf(machines, p).machines[h] == RestartMachine(old(WorldOf(machines, p)).machines[h])
    ensures imageValid && source.Some? ==>
      && (success <==> b.image.harts[source.value].numChunks > 0)
      && var restarts := if success then [Restart(ClassOf(b, source.value))] else [];
         WorldOf(machines, p) == Run(b, old(WorldOf(machines, p)), restarts)
  {
    hide Step;
    success := false;
    if source.Some? {
      success := RestartCoresUsingBitmask(b, machines, p, {source.value}, imageValid);
      OneRequested(b, source.value);
    } else if imageValid {
      ghost var w := WorldOf(machines, p);
      success := BootUsingHartBitmask(b, machines, p, ALL);
      AllRestarted(b, w);
      assert 0 in ALL;
    }
  }

  /** A request for one hart is one mask, its class, or none if it has no chunks. */
  lemma OneRequested(b: Board, h: nat)
    requires WellFormed(b) && h < HARTS
    ensures Restarts(Masks(b, {h}, HARTS).0) == if b.image.harts[h].numChunks > 0 then [Restart(ClassOf(b, h))] else []
    ensures (exists g: nat :: Reached(b, {h}, g)) <==> b.image.harts[h].numChunks > 0
  {
    MasksOfOne(b, h, HARTS);
    MasksReach(b, {h});
  }

  lemma {:induction false} MasksOfOne(b: Board, h: nat, n: nat)
    requires WellFormed(b) && h < HARTS && n <= HARTS
    ensures Masks(b, {h}, n) ==
      if n <= h then ([], {h}) else (if b.image.harts[h].numChunks > 0 then [ClassOf(b, h)] else [], {})
    decreases n
  {
    if n > 0 {
      MasksOfOne(b, h, n - 1);
      var none: seq<set<nat>>, mask := [], ClassOf(b, h);
      assert {h} - mask == {} && none + [mask] == [mask];
    }
  }
}
