/** The progress throttle: callers race to be the one that writes, on one shared atomic. */
module Throttle {

  /** 64-bit milliseconds; the largest value marks that nothing was written yet. */
  const MAX: nat := 0xFFFF_FFFF_FFFF_FFFF

  const INTERVAL: nat := 1000

  /** Subtraction that stops at zero. */
  function SaturatingSub(a: nat, b: nat): nat {
    if a >= b then a - b else 0
  }

  /** Where one call of the callback stands. */
  datatype Call = Called | Timed(now: nat) | Loaded(now: nat, prev: nat) | Gone

  /** The calls under way, and the values written so far, oldest first. */
  datatype State = State(calls: seq<Call>, writes: seq<nat>)

  /** All values the cell has held, in modification order. */
  function Values(s: State): (v: seq<nat>)
    ensures |v| == 1 + |s.writes|
  {
    [MAX] + s.writes
  }

  function Cell(s: State): nat {
    Values(s)[|s.writes|]
  }

  /** The steps of concurrent calls. A relaxed load may see any value the cell has held; a
      compare-exchange always acts on the latest. */
  datatype Event =
    | Begin
    | Clock(i: nat, millis: nat)
    | Load(i: nat, version: nat)
    | CompareExchange(i: nat)

  function Step(s: State, e: Event): State {
    match e
    case Begin => State(s.calls + [Called], s.writes)
    case Clock(i, millis) =>
      if i < |s.calls| && s.calls[i].Called? then State(s.calls[i := Timed(millis)], s.writes) else s
    case Load(i, version) =>
      if i < |s.calls| && s.calls[i].Timed? && version <= |s.writes| then
        var now, prev := s.calls[i].now, Values(s)[version];
        State(s.calls[i := if prev != MAX && SaturatingSub(now, prev) < INTERVAL then Gone else Loaded(now, prev)], s.writes)
      else s
    case CompareExchange(i) =>
      if i < |s.calls| && s.calls[i].Loaded? then
        State(s.calls[i := Gone], if Cell(s) == s.calls[i].prev then s.writes + [s.calls[i].now] else s.writes)
      else s
  }

  function Run(events: seq<Event>): State {
    if events == [] then State([], []) else Step(Run(events[..|events| - 1]), events[|events| - 1])
  }

  ghost predicate ClockInRange(events: seq<Event>) {
    forall i :: 0 <= i < |events| && events[i].Clock? ==> events[i].millis < MAX
  }

  ghost predicate Spaced(writes: seq<nat>) {
    forall i :: 0 <= i < |writes| - 1 ==> writes[i] + INTERVAL <= writes[i + 1]
  }

  ghost predicate CallOk(c: Call) {
    match c
    case Timed(now) => now < MAX
    case Loaded(now, prev) => now < MAX && (prev != MAX ==> prev + INTERVAL <= now)
    case _ => true
  }

  ghost predicate Inv(s: State) {
    && (forall i :: 0 <= i < |s.calls| ==> CallOk(s.calls[i]))
    && (forall i :: 0 <= i < |s.writes| ==> s.writes[i] < MAX)
    && Spaced(s.writes)
  }

  lemma {:induction false} AlwaysSpaced(events: seq<Event>)
    requires ClockInRange(events)
    ensures Inv(Run(events))
  {
    if events != [] {
      var n := |events| - 1;
      assert ClockInRange(events[..n]);
      AlwaysSpaced(events[..n]);
    }
  }

  lemma {:induction false} SpacedFar(writes: seq<nat>, i: nat, j: nat)
    requires Spaced(writes) && i <= j < |writes|
    ensures writes[i] + INTERVAL * (j - i) <= writes[j]
    decreases j - i
  {
    if i < j { SpacedFar(writes, i, j - 1); }
  }

  /** In every interleaving the accepted writes are at least a second apart, so those within any
      `t` milliseconds number at most t / 1000 + 1. */
  lemma WritesAreThrottled(events: seq<Event>, i: nat, j: nat, t: nat)
    requires forall k :: 0 <= k < |events| && events[k].Clock? ==> events[k].millis < 0xFFFF_FFFF_FFFF_FFFF
    requires i <= j < |Run(events).writes| && Run(events).writes[j] <= Run(events).writes[i] + t
    ensures i < j ==> Run(events).writes[i] + 1000 <= Run(events).writes[i + 1]
    ensures j - i + 1 <= t / 1000 + 1
  {
    AlwaysSpaced(events);
    SpacedFar(Run(events).writes, i, j);
  }

  /** A call that nobody races with writes exactly when nothing was written yet or the last write
      is at least a second old. */
  lemma LoneCallWrites(events: seq<Event>, millis: nat)
    requires forall k :: 0 <= k < |events| && events[k].Clock? ==> events[k].millis < 0xFFFF_FFFF_FFFF_FFFF
    requires millis < 0xFFFF_FFFF_FFFF_FFFF
    ensures var s := Run(events);
            var i := |s.calls|;
            var after := Step(Step(Step(Step(s, Begin), Clock(i, millis)), Load(i, |s.writes|)), CompareExchange(i));
            after.writes == if s.writes == [] || s.writes[|s.writes| - 1] + 1000 <= millis
                            then s.writes + [millis] else s.writes
  {
    AlwaysSpaced(events);
  }
}
