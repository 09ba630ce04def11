/** The refresh lock: one database row taken over by compare-and-swap on its
    timestamp, considered abandoned when that is too old, released by its owner only.
    The GeoIP and the threat-list refresh run the same protocol on rows of their own,
    the one with a limit of 1800 seconds, the other of 900. */
module Lease {

  import opened Results

  /** Nanoseconds of one clock that every node reads. */
  type Instant = nat

  const SECOND: nat := 1_000_000_000

  /** A limit in seconds; the two refreshes use 1800 and 900. */
  type Limit = n: nat | n > 0 witness 1

  datatype Status = Idle | Running(owner: Instant)

  /** Lock owners are named after the instant their attempt began. */
  datatype LockRow = LockRow(status: Status, lastChecked: Instant, updated: Instant)

  /** Whole seconds of a difference, cut towards zero. */
  function WholeSeconds(nanos: int): int
  {
    if nanos >= 0 then nanos / SECOND else -((-nanos) / SECOND)
  }

  function Later(a: Instant, b: Instant): Instant
  {
    if a >= b then a else b
  }

  predicate LeaseIsFresh(lastChecked: Instant, updated: Instant, now: Instant, staleSeconds: Limit)
  {
    WholeSeconds(now - Later(lastChecked, updated)) < staleSeconds
  }

  /** Cutting to seconds loses nothing: a lease is fresh for exactly the limit. */
  lemma FreshForTheLimit(lastChecked: Instant, updated: Instant, now: Instant, staleSeconds: Limit)
    ensures LeaseIsFresh(lastChecked, updated, now, staleSeconds) <==>
            now < Later(lastChecked, updated) + staleSeconds * SECOND
  {
  }

  predicate LockIsBusy(row: LockRow, now: Instant, staleSeconds: Limit)
  {
    row.status.Running? && LeaseIsFresh(row.lastChecked, row.updated, now, staleSeconds)
  }

  function Ensured(row: Option<LockRow>, now: Instant): LockRow
  {
    match row
    case None => LockRow(Idle, now, now)
    case Some(r) => r
  }

  /** Nobody has the lock, or both of its instants are at least the limit in the past. */
  predicate Free(row: Option<LockRow>, now: Instant, staleSeconds: Limit)
  {
    match row
    case None => true
    case Some(r) =>
      r.status == Idle || (r.lastChecked + staleSeconds * SECOND <= now && r.updated + staleSeconds * SECOND <= now)
  }

  lemma BusyIffNotFree(row: Option<LockRow>, now: Instant, staleSeconds: Limit)
    ensures LockIsBusy(Ensured(row, now), now, staleSeconds) <==> !Free(row, now, staleSeconds)
  {
    var r := Ensured(row, now);
    FreshForTheLimit(r.lastChecked, r.updated, now, staleSeconds);
  }

  function Released(row: LockRow, owner: Instant, now: Instant): LockRow
  {
    if row.status == Running(owner) then row.(status := Idle, lastChecked := now) else row
  }

  class RefreshLockTable {
    var row: Option<LockRow>
    const staleSeconds: Limit

    constructor (staleSeconds: Limit, row: Option<LockRow>)
      ensures this.staleSeconds == staleSeconds && this.row == row
    {
      this.staleSeconds, this.row := staleSeconds, row;
    }

    method EnsureLockRow(now: Instant)
      modifies this
      ensures row == Some(Ensured(old(row), now))
    {
      if row.None? {
        row := Some(LockRow(Idle, now, now));
      }
    }

    /** Takes the row if its timestamp is still the one seen. */
    method MarkLockRunning(existing: LockRow, owner: Instant, now: Instant) returns (taken: bool)
      modifies this
      ensures taken <==> old(row).Some? && old(row).value.lastChecked == existing.lastChecked
      ensures row == if taken then Some(old(row).value.(status := Running(owner), lastChecked := now)) else old(row)
    {
      match row {
        case None =>
          return false;
        case Some(r) =>
          if r.lastChecked != existing.lastChecked {
            return false;
          }
          row := Some(r.(status := Running(owner), lastChecked := now));
          return true;
      }
    }

    method ReleaseLock(owner: Instant, now: Instant)
      modifies this
      ensures row == match old(row) case None => None case Some(r) => Some(Released(r, owner, now))
    {
      match row {
        case None =>
        case Some(r) =>
          if r.status == Running(owner) {
            row := Some(r.(status := Idle, lastChecked := now));
          }
      }
    }

    /** An attempt nobody interferes with takes the lock exactly when it is not busy. */
    method TryAcquire(now: Instant) returns (taken: bool)
      modifies this
      ensures taken <==> Free(old(row), now, staleSeconds)
      ensures row == Some(if taken then Ensured(old(row), now).(status := Running(now), lastChecked := now)
                          else Ensured(old(row), now))
    {
      EnsureLockRow(now);
      var existing := row.value;
      BusyIffNotFree(old(row), now, staleSeconds);
      if LockIsBusy(existing, now, staleSeconds) {
        return false;
      }
      taken := MarkLockRunning(existing, now, now);
    }
  }

  // ------------------------------------------------- interleaved attempts

  datatype Phase =
    | Begun
    | RowEnsured
    | Loaded(lastChecked: Instant)
    | Holding
    | Releasing(now: Instant)
    | Over

  /** Attempts are named by the instant they began; no two clock readings are equal. */
  datatype World = World(clock: Instant, row: Option<LockRow>, attempts: map<Instant, Phase>)

  datatype Step =
    | Begin(now: Instant)
    | TimePasses(now: Instant)
    | EnsureRow(a: Instant)
    | Load(a: Instant)
    | Mark(a: Instant)
    | StartRelease(a: Instant, now: Instant)
    | Release(a: Instant)

  predicate Is(w: World, a: Instant, p: Phase)
  {
    a in w.attempts && w.attempts[a] == p
  }

  function With(w: World, a: Instant, p: Phase): World
  {
    w.(attempts := w.attempts[a := p])
  }

  function Do(w: World, step: Step, staleSeconds: Limit): Option<World>
  {
    match step
    case Begin(now) => if now > w.clock then Some(With(w.(clock := now), now, Begun)) else None
    case TimePasses(now) => if now > w.clock then Some(w.(clock := now)) else None
    case EnsureRow(a) =>
      if Is(w, a, Begun) then Some(With(w.(row := Some(Ensured(w.row, a))), a, RowEnsured)) else None
    case Load(a) =>
      if Is(w, a, RowEnsured) && w.row.Some?
      then Some(With(w, a, if LockIsBusy(w.row.value, a, staleSeconds) then Over else Loaded(w.row.value.lastChecked)))
      else None
    case Mark(a) =>
      if a in w.attempts && w.attempts[a].Loaded? && w.row.Some? then
        if w.row.value.lastChecked == w.attempts[a].lastChecked
        then Some(With(w.(row := Some(w.row.value.(status := Running(a), lastChecked := a))), a, Holding))
        else Some(With(w, a, Over))
      else None
    case StartRelease(a, now) =>
      if Is(w, a, Holding) && now > w.clock then Some(With(w.(clock := now), a, Releasing(now))) else None
    case Release(a) =>
      if a in w.attempts && w.attempts[a].Releasing? && w.row.Some?
      then Some(With(w.(row := Some(Released(w.row.value, a, w.attempts[a].now))), a, Over))
      else None
  }

  function Run(w: World, steps: seq<Step>, staleSeconds: Limit): Option<World>
  {
    if steps == [] then Some(w)
    else
      match Run(w, steps[..|steps| - 1], staleSeconds)
      case None => None
      case Some(w') => Do(w', steps[|steps| - 1], staleSeconds)
  }

  /** A holder whose lease is still within the limit. */
  predicate YoungHolder(w: World, a: Instant, staleSeconds: Limit)
  {
    Is(w, a, Holding) && w.clock < a + staleSeconds * SECOND
  }

  ghost predicate Exclusive(w: World, staleSeconds: Limit)
  {
    forall a, b :: YoungHolder(w, a, staleSeconds) && YoungHolder(w, b, staleSeconds) ==> a == b
  }

  // --------------------------------------------------- one young holder at most

  ghost predicate AttemptOk(w: World, row: LockRow, a: Instant, staleSeconds: Limit)
    requires a in w.attempts
  {
    a <= w.clock &&
    match w.attempts[a]
    case Loaded(seen) => seen <= w.clock && (seen in w.attempts ==> a >= seen + staleSeconds * SECOND)
    case Holding => (row.status == Running(a) && row.lastChecked == a) || w.clock >= a + staleSeconds * SECOND
    case Releasing(now) => now <= w.clock && now !in w.attempts
    case _ => true
  }

  /** The row's timestamp was written by one attempt at most, the one it names. */
  ghost predicate Inv(w: World, staleSeconds: Limit)
  {
    && w.row.Some? && w.row.value.lastChecked <= w.clock
    && (w.row.value.lastChecked in w.attempts ==> w.row.value.status == Running(w.row.value.lastChecked))
    && forall a :: a in w.attempts ==> AttemptOk(w, w.row.value, a, staleSeconds)
  }

  /** An attempt that nobody names in this step. */
  lemma OtherAttemptOk(w: World, step: Step, w': World, a: Instant, staleSeconds: Limit)
    requires Inv(w, staleSeconds) && Do(w, step, staleSeconds) == Some(w')
    requires a in w.attempts && a in w'.attempts && w'.attempts[a] == w.attempts[a]
    ensures AttemptOk(w', w'.row.value, a, staleSeconds)
  {
    assert AttemptOk(w, w.row.value, a, staleSeconds);
    if step.Mark? {
      assert AttemptOk(w, w.row.value, step.a, staleSeconds);
    }
  }

  /** The attempt whose step it is. */
  lemma OwnAttemptOk(w: World, step: Step, w': World, a: Instant, staleSeconds: Limit)
    requires Inv(w, staleSeconds) && Do(w, step, staleSeconds) == Some(w')
    requires a in w'.attempts && (a !in w.attempts || w'.attempts[a] != w.attempts[a])
    ensures AttemptOk(w', w'.row.value, a, staleSeconds)
  {
    if a in w.attempts {
      assert AttemptOk(w, w.row.value, a, staleSeconds);
    }
    if step.Load? {
      FreshForTheLimit(w.row.value.lastChecked, w.row.value.updated, step.a, staleSeconds);
    }
  }

  lemma InvStep(w: World, step: Step, staleSeconds: Limit)
    requires Inv(w, staleSeconds) && Do(w, step, staleSeconds).Some?
    ensures Inv(Do(w, step, staleSeconds).value, staleSeconds)
  {
    var w' := Do(w, step, staleSeconds).value;
    forall a | a in w'.attempts
      ensures AttemptOk(w', w'.row.value, a, staleSeconds)
    {
      if a in w.attempts && w'.attempts[a] == w.attempts[a] {
        OtherAttemptOk(w, step, w', a, staleSeconds);
      } else {
        OwnAttemptOk(w, step, w', a, staleSeconds);
      }
    }
    if step.Mark? || step.Release? {
      assert AttemptOk(w, w.row.value, step.a, staleSeconds);
    }
  }

  lemma {:induction false} RunKeepsInv(w: World, steps: seq<Step>, staleSeconds: Limit)
    requires Inv(w, staleSeconds) && Run(w, steps, staleSeconds).Some?
    ensures Inv(Run(w, steps, staleSeconds).value, staleSeconds)
  {
    if steps == [] {
    } else {
      RunKeepsInv(w, steps[..|steps| - 1], staleSeconds);
      InvStep(Run(w, steps[..|steps| - 1], staleSeconds).value, steps[|steps| - 1], staleSeconds);
    }
  }

  lemma InvIsExclusive(w: World, staleSeconds: Limit)
    requires Inv(w, staleSeconds)
    ensures Exclusive(w, staleSeconds)
  {
  }

  // ------------------------------------------------------------- the theorem

  ghost predicate AlwaysExclusive(clock: Instant, row: Option<LockRow>, staleSeconds: Limit)
  {
    forall steps, w :: Run(World(clock, row, map[]), steps, staleSeconds) == Some(w) ==> Exclusive(w, staleSeconds)
  }

  lemma Extended(w0: World, steps: seq<Step>, w: World, step: Step, w': World, staleSeconds: Limit)
    returns (longer: seq<Step>)
    requires Run(w0, steps, staleSeconds) == Some(w) && Do(w, step, staleSeconds) == Some(w')
    ensures Run(w0, longer, staleSeconds) == Some(w')
  {
    longer := steps + [step];
    assert longer[..|steps|] == steps;
  }

  lemma TwoAttempts(a: Instant, p: Phase, b: Instant, q: Phase, r: Phase)
    requires a != b
    ensures map[a := p, b := q][a := r] == map[a := r, b := q]
    ensures map[a := p, b := q][b := r] == map[a := p, b := r]
  {
  }

  /** Two attempts reach the point where both have seen the row one of them created. */
  lemma BothLoad(clock: Instant, a: Instant, b: Instant, staleSeconds: Limit) returns (steps: seq<Step>)
    requires a == clock + 1 && b == clock + 2
    ensures Run(World(clock, None, map[]), steps, staleSeconds) ==
            Some(World(b, Some(LockRow(Idle, a, a)), map[a := Loaded(a), b := Loaded(a)]))
  {
    var w0, row := World(clock, None, map[]), Some(LockRow(Idle, a, a));
    steps := Extended(w0, [], w0, Begin(a), World(a, None, map[a := Begun]), staleSeconds);
    steps := Extended(w0, steps, World(a, None, map[a := Begun]), Begin(b),
                      World(b, None, map[a := Begun, b := Begun]), staleSeconds);
    TwoAttempts(a, Begun, b, Begun, RowEnsured);
    steps := Extended(w0, steps, World(b, None, map[a := Begun, b := Begun]), EnsureRow(a),
                      World(b, row, map[a := RowEnsured, b := Begun]), staleSeconds);
    TwoAttempts(a, RowEnsured, b, Begun, RowEnsured);
    steps := Extended(w0, steps, World(b, row, map[a := RowEnsured, b := Begun]), EnsureRow(b),
                      World(b, row, map[a := RowEnsured, b := RowEnsured]), staleSeconds);
    TwoAttempts(a, RowEnsured, b, RowEnsured, Loaded(a));
    steps := Extended(w0, steps, World(b, row, map[a := RowEnsured, b := RowEnsured]), Load(a),
                      World(b, row, map[a := Loaded(a), b := RowEnsured]), staleSeconds);
    TwoAttempts(a, Loaded(a), b, RowEnsured, Loaded(a));
    steps := Extended(w0, steps, World(b, row, map[a := Loaded(a), b := RowEnsured]), Load(b),
                      World(b, row, map[a := Loaded(a), b := Loaded(a)]), staleSeconds);
  }

  /** Two first attempts: one creates the row and the other reads it before it is
      taken. Creating and taking write the same instant, so the other takes it too. */
  lemma CreationRace(clock: Instant, staleSeconds: Limit) returns (steps: seq<Step>, w: World)
    ensures Run(World(clock, None, map[]), steps, staleSeconds) == Some(w) && !Exclusive(w, staleSeconds)
  {
    var w0, a, b := World(clock, None, map[]), clock + 1, clock + 2;
    steps := BothLoad(clock, a, b, staleSeconds);
    TwoAttempts(a, Loaded(a), b, Loaded(a), Holding);
    TwoAttempts(a, Holding, b, Loaded(a), Holding);
    var taken := World(b, Some(LockRow(Running(a), a, a)), map[a := Holding, b := Loaded(a)]);
    steps := Extended(w0, steps, World(b, Some(LockRow(Idle, a, a)), map[a := Loaded(a), b := Loaded(a)]),
                      Mark(a), taken, staleSeconds);
    w := World(b, Some(LockRow(Running(b), b, a)), map[a := Holding, b := Holding]);
    steps := Extended(w0, steps, taken, Mark(b), w, staleSeconds);
    assert YoungHolder(w, a, staleSeconds) && YoungHolder(w, b, staleSeconds);
  }

  /** In every interleaving at most one holder has a lease younger than the limit,
      exactly when the lock row was there before the first attempt. */
  lemma ExclusiveIffRowExists(clock: Instant, row: Option<LockRow>, staleSeconds: Limit)
    requires (row.Some? ==> row.value.lastChecked <= clock)
    ensures AlwaysExclusive(clock, row, staleSeconds) <==> row.Some?
  {
    if row.Some? {
      forall steps, w | Run(World(clock, row, map[]), steps, staleSeconds) == Some(w)
        ensures Exclusive(w, staleSeconds)
      {
        RunKeepsInv(World(clock, row, map[]), steps, staleSeconds);
        InvIsExclusive(w, staleSeconds);
      }
    } else {
      var steps, w := CreationRace(clock, staleSeconds);
    }
  }

  /** While a holder is young nobody else moves the row: no attempt takes it over, and
      the late release of an earlier holder does not free it. */
  lemma YoungHolderKeepsTheRow(w: World, step: Step, b: Instant, staleSeconds: Limit)
    requires Inv(w, staleSeconds) && Do(w, step, staleSeconds).Some?
    requires YoungHolder(w, b, staleSeconds)
    ensures Do(w, step, staleSeconds).value.row == w.row == Some(LockRow(Running(b), b, w.row.value.updated))
  {
  }

  // ---------------------------------------------------------------- it is never stuck

  lemma TakeStep(w: World, step: Step, staleSeconds: Limit, w1: World, steps: seq<Step>)
    requires Run(w, steps, staleSeconds) == Some(w1)
    ensures Run(w, steps + [step], staleSeconds) == Do(w1, step, staleSeconds)
  {
    assert (steps + [step])[..|steps|] == steps;
  }

  /** An attempt nobody interferes with ends holding the lock exactly when it is free: from
      every state in which the row is missing or idle, or a crashed holder left it and the
      limit has passed, and from no other. */
  lemma FreshAttemptTakesIffFree(w: World, now: Instant, staleSeconds: Limit)
    requires now > w.clock
    ensures Free(w.row, now, staleSeconds) ==>
              var end := Run(w, [Begin(now), EnsureRow(now), Load(now), Mark(now)], staleSeconds);
              && end.Some? && Is(end.value, now, Holding)
              && end.value.row == Some(Ensured(w.row, now).(status := Running(now), lastChecked := now))
    ensures !Free(w.row, now, staleSeconds) ==>
              var end := Run(w, [Begin(now), EnsureRow(now), Load(now)], staleSeconds);
              end.Some? && Is(end.value, now, Over) && end.value.row == w.row
  {
    var w1 := Do(w, Begin(now), staleSeconds).value;
    TakeStep(w, Begin(now), staleSeconds, w, []);
    assert [] + [Begin(now)] == [Begin(now)];
    var w2 := Do(w1, EnsureRow(now), staleSeconds).value;
    TakeStep(w, EnsureRow(now), staleSeconds, w1, [Begin(now)]);
    assert [Begin(now)] + [EnsureRow(now)] == [Begin(now), EnsureRow(now)];
    BusyIffNotFree(w.row, now, staleSeconds);
    var w3 := Do(w2, Load(now), staleSeconds).value;
    TakeStep(w, Load(now), staleSeconds, w2, [Begin(now), EnsureRow(now)]);
    assert [Begin(now), EnsureRow(now)] + [Load(now)] == [Begin(now), EnsureRow(now), Load(now)];
    if Free(w.row, now, staleSeconds) {
      TakeStep(w, Mark(now), staleSeconds, w3, [Begin(now), EnsureRow(now), Load(now)]);
      assert [Begin(now), EnsureRow(now), Load(now)] + [Mark(now)] ==
             [Begin(now), EnsureRow(now), Load(now), Mark(now)];
    }
  }

  /** A holder in good time leaves the row idle, for the next attempt to take at once. */
  lemma ReleaseFreesTheRow(w: World, a: Instant, now: Instant, staleSeconds: Limit)
    requires Inv(w, staleSeconds) && YoungHolder(w, a, staleSeconds) && now > w.clock
    ensures var end := Run(w, [StartRelease(a, now), Release(a)], staleSeconds);
            && end.Some? && Is(end.value, a, Over)
            && end.value.row == Some(w.row.value.(status := Idle, lastChecked := now))
            && forall later: Instant :: Free(end.value.row, later, staleSeconds)
  {
    assert AttemptOk(w, w.row.value, a, staleSeconds);
    var w1 := Do(w, StartRelease(a, now), staleSeconds).value;
    TakeStep(w, StartRelease(a, now), staleSeconds, w, []);
    assert [] + [StartRelease(a, now)] == [StartRelease(a, now)];
    TakeStep(w, Release(a), staleSeconds, w1, [StartRelease(a, now)]);
    assert [StartRelease(a, now)] + [Release(a)] == [StartRelease(a, now), Release(a)];
  }
}
