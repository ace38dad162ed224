/** The hybrid logical clock: timestamps, the saturating clock, and when its stamps dominate. */
module HybridClock {
  import opened Integers
  import opened Strings

  datatype Hlc = Hlc(physicalMs: U64, logical: U32, actorId: string)

  /** The derived order of `(physical_ms, logical, actor_id)`. */
  predicate Before(a: Hlc, b: Hlc) {
    || a.physicalMs < b.physicalMs
    || (a.physicalMs == b.physicalMs && a.logical < b.logical)
    || (a.physicalMs == b.physicalMs && a.logical == b.logical && Less(a.actorId, b.actorId))
  }

  predicate AtMost(a: Hlc, b: Hlc) {
    a == b || Before(a, b)
  }

  lemma BeforeIsStrictTotalOrder(a: Hlc, b: Hlc, c: Hlc)
    ensures !Before(a, a)
    ensures Before(a, b) && Before(b, c) ==> Before(a, c)
    ensures Before(a, b) || Before(b, a) || a == b
  {
    LessIrreflexive(a.actorId);
    LessTotal(a.actorId, b.actorId);
    if Less(a.actorId, b.actorId) && Less(b.actorId, c.actorId) {
      LessTransitive(a.actorId, b.actorId, c.actorId);
    }
  }

  /** A clock is its latest timestamp; `new` starts it at zero. */
  function NewClock(actorId: string): Hlc {
    Hlc(0, 0, actorId)
  }

  function SaturatingSuccessor(logical: U32): U32 {
    if logical == U32_MAX then U32_MAX else logical + 1
  }

  function Max(a: int, b: int): int {
    if a < b then b else a
  }

  function Advanced(clock: Hlc, wallClockMs: U64): Hlc {
    if wallClockMs > clock.physicalMs
    then clock.(physicalMs := wallClockMs, logical := 0)
    else clock.(logical := SaturatingSuccessor(clock.logical))
  }

  function Observed(clock: Hlc, remote: Hlc, wallClockMs: U64): Hlc {
    var nextPhysical: U64 := Max(Max(wallClockMs, clock.physicalMs), remote.physicalMs);
    var nextLogical: U32 :=
      if nextPhysical == clock.physicalMs && nextPhysical == remote.physicalMs then
        SaturatingSuccessor(Max(clock.logical, remote.logical))
      else if nextPhysical == clock.physicalMs then SaturatingSuccessor(clock.logical)
      else if nextPhysical == remote.physicalMs then SaturatingSuccessor(remote.logical)
      else 0;
    clock.(physicalMs := nextPhysical, logical := nextLogical)
  }

  class HlcClock {
    var physicalMs: U64
    var logical: U32
    const actorId: string

    constructor (actorId: string)
      ensures this.actorId == actorId && Timestamp() == NewClock(actorId)
    {
      this.actorId := actorId;
      physicalMs, logical := 0, 0;
    }

    function Timestamp(): Hlc
      reads this
    {
      Hlc(physicalMs, logical, actorId)
    }

    method Next(wallClockMs: U64) returns (stamp: Hlc)
      modifies this
      ensures stamp == Timestamp() == Advanced(old(Timestamp()), wallClockMs)
    {
      if wallClockMs > physicalMs {
        physicalMs := wallClockMs;
        logical := 0;
      } else {
        logical := SaturatingSuccessor(logical);
      }
      stamp := Timestamp();
    }

    method Observe(remote: Hlc, wallClockMs: U64) returns (stamp: Hlc)
      modifies this
      ensures stamp == Timestamp() == Observed(old(Timestamp()), remote, wallClockMs)
    {
      var localPhysical := physicalMs;
      var nextPhysical := Max(Max(wallClockMs, localPhysical), remote.physicalMs);
      if nextPhysical == localPhysical && nextPhysical == remote.physicalMs {
        logical := SaturatingSuccessor(Max(logical, remote.logical));
      } else if nextPhysical == localPhysical {
        logical := SaturatingSuccessor(logical);
      } else if nextPhysical == remote.physicalMs {
        logical := SaturatingSuccessor(remote.logical);
      } else {
        logical := 0;
      }
      physicalMs := nextPhysical;
      stamp := Timestamp();
    }
  }

  // ----- One step -------------------------------------------------------------------------

  /** A stamp that is not above `t` in `(physical_ms, logical)` can only be stuck at the ceiling. */
  predicate Stuck(t: Hlc, stamp: Hlc) {
    t.physicalMs == stamp.physicalMs && t.logical == stamp.logical == U32_MAX
  }

  predicate Above(stamp: Hlc, t: Hlc) {
    || t.physicalMs < stamp.physicalMs
    || (t.physicalMs == stamp.physicalMs && t.logical < stamp.logical)
  }

  lemma ObserveClimbs(clock: Hlc, remote: Hlc, wall: U64)
    ensures var c := Observed(clock, remote, wall);
            && (Above(c, clock) || Stuck(clock, c))
            && (Above(c, remote) || Stuck(remote, c))
            && c.physicalMs == Max(Max(wall, clock.physicalMs), remote.physicalMs)
            && c.actorId == clock.actorId
  {
  }

  lemma NextClimbs(clock: Hlc, wall: U64)
    ensures var c := Advanced(clock, wall);
            && (Above(c, clock) || Stuck(clock, c))
            && c.physicalMs == Max(wall, clock.physicalMs)
            && c.actorId == clock.actorId
  {
  }

  /** Observing gives the least stamp of the latest millisecond above the clock and the remote
      timestamp, whenever that millisecond has room for one. */
  lemma ObserveIsLeast(clock: Hlc, remote: Hlc, wall: U64, logical: U32)
    requires var stamp := Observed(clock, remote, wall).(logical := logical);
             Above(stamp, clock) && Above(stamp, remote)
    ensures var c := Observed(clock, remote, wall); Above(c, clock) && Above(c, remote) && c.logical <= logical
  {
    ObserveClimbs(clock, remote, wall);
  }

  /** The same for the next stamp of a clock on its own. */
  lemma NextIsLeast(clock: Hlc, wall: U64, logical: U32)
    requires Above(Advanced(clock, wall).(logical := logical), clock)
    ensures Above(Advanced(clock, wall), clock) && Advanced(clock, wall).logical <= logical
  {
    NextClimbs(clock, wall);
  }

  // ----- The browser's stamp ----------------------------------------------------------------

  /** `prepare_mutation_json` observes every stored timestamp before it stamps a commit. */
  function ObservedAll(clock: Hlc, stamps: seq<Hlc>, wall: U64): Hlc
    decreases |stamps|
  {
    if stamps == [] then clock else ObservedAll(Observed(clock, stamps[0], wall), stamps[1..], wall)
  }

  function BrowserStamp(actorId: string, stamps: seq<Hlc>, wall: U64): Hlc {
    Advanced(ObservedAll(NewClock(actorId), stamps, wall), wall)
  }

  method StampMutation(actorId: string, stamps: seq<Hlc>, wall: U64) returns (stamp: Hlc)
    ensures stamp == BrowserStamp(actorId, stamps, wall)
  {
    var clock := new HlcClock(actorId);
    for i := 0 to |stamps|
      invariant clock.actorId == actorId
      invariant ObservedAll(NewClock(actorId), stamps, wall) == ObservedAll(clock.Timestamp(), stamps[i..], wall)
    {
      var _ := clock.Observe(stamps[i], wall);
      assert stamps[i..][1..] == stamps[i + 1..];
    }
    assert stamps[|stamps|..] == [];
    stamp := clock.Next(wall);
  }

  lemma {:induction false} ObservedAllClimbs(clock: Hlc, stamps: seq<Hlc>, wall: U64)
    ensures var c := ObservedAll(clock, stamps, wall);
            && (c == clock || Above(c, clock) || Stuck(clock, c))
            && c.actorId == clock.actorId
            && (forall i :: 0 <= i < |stamps| ==> Above(c, stamps[i]) || Stuck(stamps[i], c))
    decreases |stamps|
  {
    if stamps != [] {
      ObserveClimbs(clock, stamps[0], wall);
      ObservedAllClimbs(Observed(clock, stamps[0], wall), stamps[1..], wall);
      forall i | 0 < i < |stamps|
        ensures var c := ObservedAll(clock, stamps, wall); Above(c, stamps[i]) || Stuck(stamps[i], c)
      {
        assert stamps[i] == stamps[1..][i - 1];
      }
    }
  }

  /** The millisecond the fold ends in: the latest of the wall clock, the clock and the stamps. */
  lemma {:induction false} BrowserStampMillisecond(clock: Hlc, stamps: seq<Hlc>, wall: U64)
    requires stamps != []
    ensures var p := ObservedAll(clock, stamps, wall).physicalMs;
            && wall <= p && clock.physicalMs <= p
            && (forall i :: 0 <= i < |stamps| ==> stamps[i].physicalMs <= p)
            && (p == wall || p == clock.physicalMs || exists i :: 0 <= i < |stamps| && stamps[i].physicalMs == p)
    decreases |stamps|
  {
    var c := Observed(clock, stamps[0], wall);
    var p := ObservedAll(clock, stamps, wall).physicalMs;
    if |stamps| > 1 {
      BrowserStampMillisecond(c, stamps[1..], wall);
      forall i | 0 < i < |stamps| ensures stamps[i].physicalMs <= p {
        assert stamps[i] == stamps[1..][i - 1];
      }
      if p != wall && p != c.physicalMs {
        var i :| 0 <= i < |stamps[1..]| && stamps[1..][i].physicalMs == p;
        assert stamps[i + 1].physicalMs == p;
      }
    } else {
      assert stamps[1..] == [];
    }
    assert p == c.physicalMs ==> p == wall || p == clock.physicalMs || stamps[0].physicalMs == p;
  }

  /** The exact condition for a browser stamp to come after a stored timestamp. No bound on the
      number of stored timestamps is needed: only a latest timestamp that already sits at the
      ceiling of the logical counter, and that the wall clock has not passed, cannot be passed. */
  lemma BrowserStampDominates(actorId: string, stamps: seq<Hlc>, wall: U64, i: nat)
    requires i < |stamps|
    ensures Before(stamps[i], BrowserStamp(actorId, stamps, wall)) <==>
            !(&& stamps[i].logical == U32_MAX
              && wall <= stamps[i].physicalMs
              && (forall j :: 0 <= j < |stamps| ==> stamps[j].physicalMs <= stamps[i].physicalMs)
              && !Less(stamps[i].actorId, actorId))
  {
    var c := ObservedAll(NewClock(actorId), stamps, wall);
    ObservedAllClimbs(NewClock(actorId), stamps, wall);
    BrowserStampMillisecond(NewClock(actorId), stamps, wall);
    NextClimbs(c, wall);
  }

  lemma BrowserStampAboveAll(actorId: string, stamps: seq<Hlc>, wall: U64)
    requires forall i :: 0 <= i < |stamps| ==> stamps[i].logical < U32_MAX
    ensures forall i :: 0 <= i < |stamps| ==> Before(stamps[i], BrowserStamp(actorId, stamps, wall))
  {
    forall i | 0 <= i < |stamps| ensures Before(stamps[i], BrowserStamp(actorId, stamps, wall)) {
      BrowserStampDominates(actorId, stamps, wall, i);
    }
  }

  /** One stored timestamp at the ceiling is enough: the stamp stays behind it, and with it the
      mutation behind the revision it joins. */
  lemma CeilingIsNotPassed()
    ensures var stored := Hlc(5, U32_MAX, "b");
            BrowserStamp("a", [stored], 5) == Hlc(5, U32_MAX, "a") && Before(BrowserStamp("a", [stored], 5), stored)
  {
    var stored := Hlc(5, U32_MAX, "b");
    assert [stored][1..] == [];
    assert Observed(NewClock("a"), stored, 5) == Hlc(5, U32_MAX, "a");
    assert ObservedAll(NewClock("a"), [stored], 5) == ObservedAll(Hlc(5, U32_MAX, "a"), [], 5);
  }

  // ----- Whole runs of one clock --------------------------------------------------------------

  datatype ClockEvent = Local(wallClockMs: U64) | Remote(stamp: Hlc, wallClockMs: U64)

  function Tick(clock: Hlc, event: ClockEvent): Hlc {
    match event
    case Local(wall) => Advanced(clock, wall)
    case Remote(stamp, wall) => Observed(clock, stamp, wall)
  }

  function Run(clock: Hlc, events: seq<ClockEvent>): Hlc
    decreases |events|
  {
    if events == [] then clock else Run(Tick(clock, events[0]), events[1..])
  }

  /** Over any run a clock never goes back, and it stands still only at the ceiling of its
      counter within one millisecond. */
  lemma {:induction false} RunNeverGoesBack(clock: Hlc, events: seq<ClockEvent>)
    ensures AtMost(clock, Run(clock, events))
    ensures events != [] ==> (Run(clock, events) == clock <==> Stuck(clock, Run(clock, events)))
    decreases |events|
  {
    if events != [] {
      var c := Tick(clock, events[0]);
      match events[0] {
        case Local(wall) => NextClimbs(clock, wall);
        case Remote(stamp, wall) => ObserveClimbs(clock, stamp, wall);
      }
      RunNeverGoesBack(c, events[1..]);
      var end := Run(c, events[1..]);
      assert c.actorId == clock.actorId;
      RunKeepsActor(c, events[1..]);
    }
  }

  lemma {:induction false} RunKeepsActor(clock: Hlc, events: seq<ClockEvent>)
    ensures Run(clock, events).actorId == clock.actorId
    decreases |events|
  {
    if events != [] {
      RunKeepsActor(Tick(clock, events[0]), events[1..]);
    }
  }
}
