/** The second factor's record: lockout accounting, single use of time steps and of recovery codes.
    A record stands for one confirmed enrollment; which step or stored entry a code matches is an
    input. */
module TotpStore {
  import opened Prelude

  datatype Record = Record(failed: nat, lockedUntil: Option<int>, lastStep: Option<int>, entries: seq<string>)

  datatype Policy = Policy(threshold: int, cooldown: nat)

  /** One presentation of a code: the clock at the lock check and at the recording of a failure, the
      time step it matches, and the stored recovery entry it matches. */
  datatype Attempt = Verify(check: int, at: int, step: Option<int>, entry: Option<string>)
                   | Unenroll(check: int, at: int, step: Option<int>, entry: Option<string>)

  datatype Outcome = NotEnrolled | LockedOut(until: int) | Accepted | Wrong(lockedUntil: Option<int>)

  function Failed(r: Record, p: Policy, now: int): Record {
    var failed := r.failed + 1;
    r.(failed := failed, lockedUntil := if failed >= p.threshold then Some(now + p.cooldown) else r.lockedUntil)
  }

  predicate StepIsNew(r: Record, step: int) {
    r.lastStep.None? || r.lastStep.value < step
  }

  function Without(entries: seq<string>, entry: string): seq<string> {
    if entries == [] then []
    else if entries[0] == entry then Without(entries[1..], entry)
    else [entries[0]] + Without(entries[1..], entry)
  }

  lemma {:induction false} WithoutHas(entries: seq<string>, entry: string)
    ensures forall e :: e in Without(entries, entry) <==> e in entries && e != entry
  {
    if entries != [] {
      WithoutHas(entries[1..], entry);
      assert entries == [entries[0]] + entries[1..];
    }
  }

  predicate Locked(r: Record, now: int) {
    r.lockedUntil.Some? && r.lockedUntil.value > now
  }

  predicate StepAccepts(r: Record, a: Attempt) {
    a.step.Some? && StepIsNew(r, a.step.value)
  }

  predicate EntryAccepts(r: Record, a: Attempt) {
    a.entry.Some? && a.entry.value in r.entries
  }

  /** `verify` falls back to the recovery code when the step is spent; `unenroll` does not. */
  predicate Accepts(r: Record, a: Attempt) {
    StepAccepts(r, a) || ((a.Verify? || a.step.None?) && EntryAccepts(r, a))
  }

  /** The record and the answer after one attempt run to its end. */
  function On(record: Option<Record>, p: Policy, a: Attempt): (Option<Record>, Outcome) {
    if record.None? then (None, NotEnrolled)
    else
      var r := record.value;
      if Locked(r, a.check) then (record, LockedOut(r.lockedUntil.value))
      else if !Accepts(r, a) then
        var failed := Failed(r, p, a.at);
        (Some(failed), Wrong(if failed.failed >= p.threshold then failed.lockedUntil else None))
      else if a.Unenroll? then (None, Accepted)
      else
        var used := if StepAccepts(r, a) then r.(lastStep := a.step)
                    else r.(entries := Without(r.entries, a.entry.value));
        (Some(used.(failed := 0, lockedUntil := None)), Accepted)
  }

  /** The stored record; every method is one store operation, and `Attempted` the service on top. */
  class Enrollment {
    var record: Option<Record>

    constructor (r: Record)
      ensures record == Some(r)
    {
      record := Some(r);
    }

    method RecordFailure(p: Policy, now: int) returns (lockedUntil: Option<int>)
      modifies this
      ensures record == if old(record).None? then None else Some(Failed(old(record).value, p, now))
      ensures lockedUntil ==
              if old(record).Some? && old(record).value.failed + 1 >= p.threshold then Some(now + p.cooldown) else None
    {
      if record.None? {
        return None;
      }
      var current := record.value;
      var failed := current.failed + 1;
      var locked := failed >= p.threshold;
      var until := if locked then Some(now + p.cooldown) else current.lockedUntil;
      record := Some(current.(failed := failed, lockedUntil := until));
      return if locked then until else None;
    }

    method ResetFailures()
      modifies this
      ensures record == if old(record).None? then None else Some(old(record).value.(failed := 0, lockedUntil := None))
    {
      if record.Some? {
        record := Some(record.value.(failed := 0, lockedUntil := None));
      }
    }

    method MarkStepUsed(step: int) returns (claimed: bool)
      modifies this
      ensures claimed <==> old(record).Some? && StepIsNew(old(record).value, step)
      ensures record == if claimed then Some(old(record).value.(lastStep := Some(step))) else old(record)
    {
      if record.None? || (record.value.lastStep.Some? && record.value.lastStep.value >= step) {
        return false;
      }
      record := Some(record.value.(lastStep := Some(step)));
      return true;
    }

    method ConsumeRecoveryCode(entry: string) returns (consumed: bool)
      modifies this
      ensures consumed <==> old(record).Some? && entry in old(record).value.entries
      ensures record == if consumed
                        then Some(old(record).value.(entries := Without(old(record).value.entries, entry)))
                        else old(record)
    {
      if record.None? || entry !in record.value.entries {
        return false;
      }
      record := Some(record.value.(entries := Without(record.value.entries, entry)));
      return true;
    }

    method Attempted(p: Policy, a: Attempt) returns (outcome: Outcome)
      modifies this
      ensures (record, outcome) == On(old(record), p, a)
    {
      if record.None? {
        return NotEnrolled;
      }
      if Locked(record.value, a.check) {
        return LockedOut(record.value.lockedUntil.value);
      }
      var accepted := false;
      if a.step.Some? {
        accepted := MarkStepUsed(a.step.value);
      }
      if !accepted && a.entry.Some? && (a.Verify? || a.step.None?) {
        accepted := ConsumeRecoveryCode(a.entry.value);
      }
      if !accepted {
        var until := RecordFailure(p, a.at);
        return Wrong(until);
      }
      if a.Verify? {
        ResetFailures();
      } else {
        record := None;
      }
      return Accepted;
    }
  }
}

/** How many wrong codes a lockout lets through. */
module TotpLockout {
  import opened Prelude
  import opened TotpStore

  /** The record after the attempts, and when each wrong code was recorded. */
  function Run(r: Record, p: Policy, attempts: seq<Attempt>): (Option<Record>, seq<int>) {
    if attempts == [] then (Some(r), [])
    else
      var (record, wrong) := Run(r, p, attempts[..|attempts| - 1]);
      var a := attempts[|attempts| - 1];
      var (next, outcome) := On(record, p, a);
      (next, if outcome.Wrong? then wrong + [a.at] else wrong)
  }

  ghost predicate NoSuccess(r: Record, p: Policy, attempts: seq<Attempt>) {
    attempts == [] ||
    (var before := attempts[..|attempts| - 1];
     NoSuccess(r, p, before) && !On(Run(r, p, before).0, p, attempts[|attempts| - 1]).1.Accepted?)
  }

  /** One at a time on a clock that never goes back. */
  ghost predicate Sequential(attempts: seq<Attempt>) {
    && (forall i | 0 <= i < |attempts| :: attempts[i].check <= attempts[i].at)
    && (forall i, j | 0 <= i < j < |attempts| :: attempts[i].at <= attempts[j].check)
  }

  /** The failure that starts the lockout: the threshold-th, or the first one for a threshold below one. */
  function Tripping(p: Policy): nat {
    if p.threshold < 1 then 1 else p.threshold
  }

  /** From the tripping failure on, failures lie at least a cooldown apart. */
  ghost predicate Spaced(wrong: seq<int>, p: Policy) {
    forall i | Tripping(p) <= i < |wrong| :: wrong[i] >= wrong[i - 1] + p.cooldown
  }

  ghost predicate Fresh(r: Record) {
    r.failed == 0 && r.lockedUntil.None?
  }

  lemma {:induction false} Accounting(r: Record, p: Policy, attempts: seq<Attempt>)
    requires Fresh(r) && NoSuccess(r, p, attempts) && Sequential(attempts)
    ensures var (record, wrong) := Run(r, p, attempts);
      && record.Some? && record.value.failed == |wrong|
      && (|wrong| < Tripping(p) ==> record.value.lockedUntil.None?)
      && (|wrong| >= Tripping(p) ==> record.value.lockedUntil == Some(wrong[|wrong| - 1] + p.cooldown))
      && Spaced(wrong, p)
      && (|wrong| > 0 ==> |attempts| > 0 && wrong[|wrong| - 1] <= attempts[|attempts| - 1].at)
  {
    if attempts != [] {
      var n := |attempts| - 1;
      Accounting(r, p, attempts[..n]);
      if n > 0 {
        assert attempts[..n][n - 1] == attempts[n - 1];
      }
    }
  }

  lemma {:induction false} SpacedAdds(wrong: seq<int>, p: Policy, m: nat)
    requires Spaced(wrong, p) && Tripping(p) + m <= |wrong|
    ensures wrong[Tripping(p) - 1 + m] >= wrong[Tripping(p) - 1] + m * p.cooldown
  {
    if m > 0 {
      SpacedAdds(wrong, p, m - 1);
      assert m * p.cooldown == (m - 1) * p.cooldown + p.cooldown;
    }
  }

  lemma AtMost(m: nat, span: nat, c: nat)
    requires c > 0 && m * c <= span
    ensures m <= span / c
  {
    var q := span / c;
    assert span < (q + 1) * c;
    assert m <= q by {
      NoLarger(m, q + 1, c, span);
    }
  }

  lemma NoLarger(m: nat, k: nat, c: nat, span: nat)
    requires c > 0 && m * c <= span < k * c
    ensures m < k
  {
    assert (k - m) * c > 0;
  }

  /** Once the lockout has tripped at `T`, at most one further wrong code per cooldown is evaluated:
      by time `t` no more than the threshold plus floor((t - T) / cooldown). */
  lemma RateBound(r: Record, p: Policy, attempts: seq<Attempt>, t: int)
    requires Fresh(r) && NoSuccess(r, p, attempts) && Sequential(attempts) && p.cooldown > 0
    requires forall i | 0 <= i < |attempts| :: attempts[i].at <= t
    requires |Run(r, p, attempts).1| >= Tripping(p)
    ensures var wrong := Run(r, p, attempts).1;
      |wrong| <= Tripping(p) + (t - wrong[Tripping(p) - 1]) / p.cooldown
  {
    Accounting(r, p, attempts);
    SpacedBound(Run(r, p, attempts).1, p, t);
  }

  lemma SpacedBound(wrong: seq<int>, p: Policy, t: int)
    requires Spaced(wrong, p) && |wrong| >= Tripping(p) && wrong[|wrong| - 1] <= t && p.cooldown > 0
    ensures |wrong| <= Tripping(p) + (t - wrong[Tripping(p) - 1]) / p.cooldown
  {
    var m := |wrong| - Tripping(p);
    SpacedAdds(wrong, p, m);
    AtMost(m, t - wrong[Tripping(p) - 1], p.cooldown);
  }

  function WrongAt(p: Policy, i: nat): int {
    if i < Tripping(p) then 0 else (i - Tripping(p) + 1) * p.cooldown
  }

  lemma WrongAtGrows(p: Policy, i: nat)
    ensures WrongAt(p, i) <= WrongAt(p, i + 1)
    ensures i + 1 >= Tripping(p) ==> WrongAt(p, i + 1) == WrongAt(p, i) + p.cooldown
  {
    var m := i + 1 - Tripping(p);
    if m >= 0 {
      assert (m + 1) * p.cooldown == m * p.cooldown + p.cooldown;
    }
  }

  /** One more attempt with a code that matches nothing, while the record is not locked. */
  lemma OneMoreWrong(r: Record, p: Policy, before: seq<Attempt>, at: int)
    requires NoSuccess(r, p, before) && Sequential(before) && (before != [] ==> before[|before| - 1].at <= at)
    requires Run(r, p, before).0.Some? && !Locked(Run(r, p, before).0.value, at)
    ensures var attempts := before + [Verify(at, at, None, None)];
      && NoSuccess(r, p, attempts) && Sequential(attempts)
      && Run(r, p, attempts).1 == Run(r, p, before).1 + [at]
  {
    var attempts := before + [Verify(at, at, None, None)];
    assert attempts[..|before|] == before;
    forall i | 0 <= i < |before| ensures before[i].at <= at {
      if i < |before| - 1 {
        assert before[i].at <= before[|before| - 1].check;
      }
    }
  }

  /** The bound is reached: a wrong code every cooldown is evaluated each time. */
  lemma {:induction false} BoundIsReached(r: Record, p: Policy, n: nat) returns (attempts: seq<Attempt>)
    requires Fresh(r)
    ensures NoSuccess(r, p, attempts) && Sequential(attempts) && |attempts| == n
    ensures n > 0 ==> attempts[n - 1].at == WrongAt(p, n - 1)
    ensures |Run(r, p, attempts).1| == n && forall i | 0 <= i < n :: Run(r, p, attempts).1[i] == WrongAt(p, i)
  {
    attempts := [];
    if n > 0 {
      var before := BoundIsReached(r, p, n - 1);
      Accounting(r, p, before);
      var at := WrongAt(p, n - 1);
      if n > 1 {
        WrongAtGrows(p, n - 2);
      }
      OneMoreWrong(r, p, before, at);
      attempts := before + [Verify(at, at, None, None)];
    }
  }
}

/** Any interleaving of the store's atomic operations on one enrollment. */
module TotpSteps {
  import opened Prelude
  import opened TotpStore

  datatype Operation =
    | Mark(step: int)
    | Fail(p: Policy, now: int)
    | Reset
    | Consume(entry: string)
    | Overwrite(entries: seq<string>)

  /** The record after the operation and whether a step was claimed. */
  function Apply(r: Record, op: Operation): (Record, bool) {
    match op
    case Mark(step) => if StepIsNew(r, step) then (r.(lastStep := Some(step)), true) else (r, false)
    case Fail(p, now) => (Failed(r, p, now), false)
    case Reset => (r.(failed := 0, lockedUntil := None), false)
    case Consume(entry) => (r.(entries := Without(r.entries, entry)), false)
    case Overwrite(entries) => (r.(entries := entries), false)
  }

  /** The record after all operations and the steps claimed, in order. */
  function Claims(r: Record, ops: seq<Operation>): (Record, seq<int>) {
    if ops == [] then (r, [])
    else
      var (before, claimed) := Claims(r, ops[..|ops| - 1]);
      var op := ops[|ops| - 1];
      var (after, won) := Apply(before, op);
      (after, if won && op.Mark? then claimed + [op.step] else claimed)
  }

  /** The claimed steps strictly increase, so no step is ever accepted twice, and all lie above the
      step the run started from. */
  lemma {:induction false} StepsIncrease(r: Record, ops: seq<Operation>)
    ensures var (after, claimed) := Claims(r, ops);
      && (forall i, j | 0 <= i < j < |claimed| :: claimed[i] < claimed[j])
      && (r.lastStep.Some? ==> forall i | 0 <= i < |claimed| :: r.lastStep.value < claimed[i])
      && after.lastStep == if claimed == [] then r.lastStep else Some(claimed[|claimed| - 1])
  {
    if ops != [] {
      StepsIncrease(r, ops[..|ops| - 1]);
    }
  }
}

