/**
 Dialing the candidates of one target under one deadline: each candidate gets an
 equal share of what is left. The clock runs while a candidate is dialed and,
 for a given pause, before it. Durations are whole nanoseconds.
 */
module ConnectDeadline {

  const U32_MAX := 0xffff_ffff

  datatype Authorization = Allowed | Denied | External | PolicyError

  /** How a dial would end if it were left alone. */
  datatype Dial = Connects(after: nat) | Refuses(after: nat) | Hangs

  /** One candidate: what the policy says, the time that passes before its turn, and its dial. */
  datatype Candidate = Candidate(authorization: Authorization, pause: nat, dial: Dial)

  datatype Outcome =
    | ConnectedTo(index: nat) | PolicyDenied | ExternallyEnforced | PolicyFailed | ConnectTimedOut | ConnectFailed

  // ----- one dial -----

  /** The share of one candidate; the number of candidates saturates at 32 bits. */
  function Slice(remaining: nat, left: nat): (r: nat)
    requires left >= 1
    ensures r <= remaining
  {
    remaining / (if left <= U32_MAX then left else U32_MAX)
  }

  /** A dial that would take longer than its slice is cut off. */
  predicate CutOff(d: Dial, slice: nat) {
    d.Hangs? || d.after > slice
  }

  /** What a dial uses of the clock: its own time, or the whole slice when it is cut off. */
  function Spent(d: Dial, slice: nat): (r: nat)
    ensures r <= slice
  {
    if CutOff(d, slice) then slice else d.after
  }

  function Minus(a: nat, b: nat): (r: nat) { if a <= b then 0 else a - b }

  // ----- the clock of a run in which no dial connects -----

  /** The time left when candidate `i` has its turn, nothing once the deadline has passed. */
  function Remaining(timeout: nat, candidates: seq<Candidate>, i: nat): (r: nat)
    requires i < |candidates|
    ensures r <= timeout
    decreases i, 0
  {
    Minus(if i == 0 then timeout else AfterDial(timeout, candidates, i - 1), candidates[i].pause)
  }

  function SliceOf(timeout: nat, candidates: seq<Candidate>, i: nat): (r: nat)
    requires i < |candidates|
    decreases i, 1
  {
    Slice(Remaining(timeout, candidates, i), |candidates| - i)
  }

  function AfterDial(timeout: nat, candidates: seq<Candidate>, i: nat): (r: nat)
    requires i < |candidates|
    ensures r <= timeout
    decreases i, 2
  {
    Remaining(timeout, candidates, i) - Spent(candidates[i].dial, SliceOf(timeout, candidates, i))
  }

  /** All the time that passed outside dials up to the turn of candidate `i`. */
  function Paused(candidates: seq<Candidate>, i: nat): (r: nat)
    requires i < |candidates|
  {
    candidates[i].pause + if i == 0 then 0 else Paused(candidates, i - 1)
  }

  // ----- shares -----

  lemma DivideAtLeast(n: nat, d: nat, q: nat)
    requires d >= 1 && n >= d * q
    ensures n / d >= q
  {
    if n / d < q {
      var rest := n % d;
      assert n == d * (n / d) + rest;
      assert d * (n / d + 1) <= d * q by {
        MultiplyMonotone(d, n / d + 1, q);
      }
    }
  }

  lemma MultiplyMonotone(d: nat, a: nat, b: nat)
    requires a <= b
    ensures d * a <= d * b
  {
  }

  lemma Distribute(n: nat, a: nat, b: nat)
    requires b <= a
    ensures n * (a - b) == n * a - n * b
  {
  }

  /** `n` shares, less a pause, still hold `n` shares that are smaller by the pause. */
  lemma ShareLessPause(rest: nat, share: nat, pause: nat, n: nat)
    requires n >= 1 && rest + pause >= n * share
    ensures rest / n + pause >= share
  {
    if pause < share {
      Distribute(n, share, pause);
      MultiplyMonotone(pause, 1, n);
      DivideAtLeast(rest, n, share - pause);
    }
  }

  /** What is left after one share and a pause still holds that share for each of the others, less the pause. */
  lemma ShareOfRest(remaining: nat, spent: nat, pause: nat, left: nat)
    requires left >= 2 && spent <= remaining / left
    ensures Minus(remaining - spent, pause) / (left - 1) + pause >= remaining / left
  {
    var slice := remaining / left;
    assert remaining >= left * slice;
    assert left * slice - slice == (left - 1) * slice;
    ShareLessPause(Minus(remaining - spent, pause), slice, pause, left - 1);
  }

  lemma ClockStep(timeout: nat, candidates: seq<Candidate>, i: nat)
    requires i < |candidates|
    ensures SliceOf(timeout, candidates, i) == Slice(Remaining(timeout, candidates, i), |candidates| - i)
    ensures Remaining(timeout, candidates, i)
         == Minus(if i == 0 then timeout else AfterDial(timeout, candidates, i - 1), candidates[i].pause)
    ensures AfterDial(timeout, candidates, i)
         == Remaining(timeout, candidates, i) - Spent(candidates[i].dial, SliceOf(timeout, candidates, i))
  {
  }

  lemma SliceStep(timeout: nat, candidates: seq<Candidate>, i: nat)
    requires i + 1 < |candidates| <= U32_MAX
    ensures SliceOf(timeout, candidates, i) <= SliceOf(timeout, candidates, i + 1) + candidates[i + 1].pause
  {
    hide Remaining, SliceOf, AfterDial, Minus;
    ClockStep(timeout, candidates, i);
    ClockStep(timeout, candidates, i + 1);
    ShareOfRest(Remaining(timeout, candidates, i), Spent(candidates[i].dial, SliceOf(timeout, candidates, i)),
                candidates[i + 1].pause, |candidates| - i);
  }

  /** A later candidate gets no less than an earlier one, but for the pauses between their turns. */
  lemma {:induction false} SlicesShrinkByPauses(timeout: nat, candidates: seq<Candidate>, i: nat, j: nat)
    requires i <= j < |candidates| <= U32_MAX
    ensures SliceOf(timeout, candidates, i) + Paused(candidates, i)
         <= SliceOf(timeout, candidates, j) + Paused(candidates, j)
    decreases j - i
  {
    hide SliceOf;
    if i < j {
      SlicesShrinkByPauses(timeout, candidates, i, j - 1);
      SliceStep(timeout, candidates, j - 1);
    }
  }

  lemma {:induction false} NoPauses(candidates: seq<Candidate>, i: nat)
    requires i < |candidates| && forall k :: 0 <= k < |candidates| ==> candidates[k].pause == 0
    ensures Paused(candidates, i) == 0
  {
    if i > 0 {
      NoPauses(candidates, i - 1);
    }
  }

  /** Where only dials take time, later candidates never get less than earlier ones. */
  lemma SlicesNeverShrink(timeout: nat, candidates: seq<Candidate>, i: nat, j: nat)
    requires i <= j < |candidates| <= U32_MAX
    requires forall k :: 0 <= k < |candidates| ==> candidates[k].pause == 0
    ensures SliceOf(timeout, candidates, i) <= SliceOf(timeout, candidates, j)
  {
    hide SliceOf, Paused;
    NoPauses(candidates, i);
    NoPauses(candidates, j);
    SlicesShrinkByPauses(timeout, candidates, i, j);
  }

  lemma FirstShare(timeout: nat, pause: nat, n: nat)
    requires n >= 1
    ensures Minus(timeout, pause) / n + pause >= timeout / n
  {
    assert timeout >= n * (timeout / n);
    ShareLessPause(Minus(timeout, pause), timeout / n, pause, n);
  }

  /** Every candidate gets at least an equal share of the whole timeout, but for the pauses before its turn. */
  lemma SlicesAreFair(timeout: nat, candidates: seq<Candidate>, i: nat)
    requires i < |candidates| <= U32_MAX
    ensures SliceOf(timeout, candidates, i) + Paused(candidates, i) >= timeout / |candidates|
  {
    assert Paused(candidates, 0) == candidates[0].pause;
    hide Remaining, SliceOf, AfterDial, Paused;
    SlicesShrinkByPauses(timeout, candidates, 0, i);
    ClockStep(timeout, candidates, 0);
    FirstShare(timeout, candidates[0].pause, |candidates|);
  }

  // ----- the clock -----

  /** All the time that passed in dials before candidate `i`. */
  function Dialed(timeout: nat, candidates: seq<Candidate>, i: nat): (r: nat)
    requires i <= |candidates|
  {
    if i == 0 then 0
    else Dialed(timeout, candidates, i - 1) + Spent(candidates[i - 1].dial, SliceOf(timeout, candidates, i - 1))
  }

  /** Until the deadline, the clock and what remains add up to the timeout; and dialing alone never
      exceeds the timeout, for any number of candidates and any pauses. */
  lemma {:induction false} TimeIsConserved(timeout: nat, candidates: seq<Candidate>, i: nat)
    requires i < |candidates|
    ensures Remaining(timeout, candidates, i)
         == Minus(timeout, Dialed(timeout, candidates, i) + Paused(candidates, i))
    ensures Dialed(timeout, candidates, i + 1) <= timeout
  {
    if i > 0 {
      TimeIsConserved(timeout, candidates, i - 1);
    }
  }

  lemma {:induction false} DialingLeaves(timeout: nat, candidates: seq<Candidate>, i: nat)
    requires i < |candidates| && timeout > 0 && Paused(candidates, i) == 0
    ensures Remaining(timeout, candidates, i) > 0
  {
    if i > 0 {
      hide Remaining, SliceOf, AfterDial;
      DialingLeaves(timeout, candidates, i - 1);
      ClockStep(timeout, candidates, i - 1);
      ClockStep(timeout, candidates, i);
      var before, left := Remaining(timeout, candidates, i - 1), |candidates| - (i - 1);
      HalfRemains(before, if left <= U32_MAX then left else U32_MAX);
    }
  }

  lemma HalfRemains(n: nat, d: nat)
    requires n > 0 && d >= 2
    ensures n / d < n
  {
  }

  /** Only pauses can starve a candidate: some time passed outside dials, and at least an equal share of the timeout. */
  lemma OnlyPausesStarve(timeout: nat, candidates: seq<Candidate>, i: nat)
    requires i < |candidates| && timeout > 0 && Remaining(timeout, candidates, i) == 0
    ensures Paused(candidates, i) > 0
    ensures |candidates| <= U32_MAX ==> Paused(candidates, i) >= timeout / |candidates|
  {
    if Paused(candidates, i) == 0 {
      DialingLeaves(timeout, candidates, i);
    } else if |candidates| <= U32_MAX {
      SlicesAreFair(timeout, candidates, i);
    }
  }

  /** And they can: here the second candidate, who would connect at once, is never dialed. */
  lemma PausesCanStarve()
    ensures var candidates := [Candidate(Allowed, 0, Refuses(0)), Candidate(Allowed, 1, Connects(0))];
      StarvesAt(1, candidates, 1)
  {
    var candidates := [Candidate(Allowed, 0, Refuses(0)), Candidate(Allowed, 1, Connects(0))];
    assert Remaining(1, candidates, 0) == 1;
    assert AfterDial(1, candidates, 0) == 1;
    assert Remaining(1, candidates, 1) == 0;
  }

  // ----- what decides the outcome -----

  /** Candidate `i` is dialed: it is allowed and has its turn before the deadline. */
  predicate DialedAt(timeout: nat, candidates: seq<Candidate>, i: nat) {
    i < |candidates| && candidates[i].authorization.Allowed? && Remaining(timeout, candidates, i) > 0
  }

  predicate CutOffAt(timeout: nat, candidates: seq<Candidate>, i: nat) {
    DialedAt(timeout, candidates, i) && CutOff(candidates[i].dial, SliceOf(timeout, candidates, i))
  }

  predicate RefusedAt(timeout: nat, candidates: seq<Candidate>, i: nat) {
    && DialedAt(timeout, candidates, i) && candidates[i].dial.Refuses?
    && candidates[i].dial.after <= SliceOf(timeout, candidates, i)
  }

  /** Candidate `i` has its turn: every earlier one was dialed and refused or was cut off. */
  predicate Reached(timeout: nat, candidates: seq<Candidate>, i: nat) {
    && i <= |candidates|
    && forall j: nat :: j < i ==> RefusedAt(timeout, candidates, j) || CutOffAt(timeout, candidates, j)
  }

  /** Candidate `i` connects within its slice, and is the first to do so. */
  predicate ConnectsAt(timeout: nat, candidates: seq<Candidate>, i: nat) {
    && Reached(timeout, candidates, i) && DialedAt(timeout, candidates, i) && candidates[i].dial.Connects?
    && candidates[i].dial.after <= SliceOf(timeout, candidates, i)
  }

  /** Candidate `i` has its turn and the policy does not let it be dialed. */
  predicate StopsAt(timeout: nat, candidates: seq<Candidate>, i: nat, authorization: Authorization) {
    i < |candidates| && Reached(timeout, candidates, i) && candidates[i].authorization == authorization
  }

  /** Candidate `i` is allowed, and the deadline has passed when it has its turn. */
  predicate StarvesAt(timeout: nat, candidates: seq<Candidate>, i: nat) {
    StopsAt(timeout, candidates, i, Allowed) && Remaining(timeout, candidates, i) == 0
  }

  predicate Exhausted(timeout: nat, candidates: seq<Candidate>) {
    Reached(timeout, candidates, |candidates|)
  }

  predicate SomeCutOff(timeout: nat, candidates: seq<Candidate>, n: nat) {
    exists i: nat :: i < n && CutOffAt(timeout, candidates, i)
  }

  /** What each outcome says about the candidates. */
  ghost predicate Explains(timeout: nat, candidates: seq<Candidate>, r: Outcome) {
    match r
    case ConnectedTo(i) => ConnectsAt(timeout, candidates, i)
    case PolicyDenied => exists i: nat :: StopsAt(timeout, candidates, i, Denied)
    case ExternallyEnforced => exists i: nat :: StopsAt(timeout, candidates, i, External)
    case PolicyFailed => exists i: nat :: StopsAt(timeout, candidates, i, PolicyError)
    case ConnectTimedOut =>
      || (exists i: nat :: StarvesAt(timeout, candidates, i))
      || (Exhausted(timeout, candidates) && SomeCutOff(timeout, candidates, |candidates|))
    case ConnectFailed => Exhausted(timeout, candidates) && !SomeCutOff(timeout, candidates, |candidates|)
  }

  /** A candidate that is reached and does not fail ends the run: nobody later is reached. */
  lemma EndsRun(timeout: nat, candidates: seq<Candidate>, i: nat, j: nat)
    requires Reached(timeout, candidates, i) && Reached(timeout, candidates, j) && i < j
    ensures RefusedAt(timeout, candidates, i) || CutOffAt(timeout, candidates, i)
  {
  }

  /** Where a run ends: at the first candidate that connects, is stopped or starves, or after the last. */
  ghost predicate EndsAt(timeout: nat, candidates: seq<Candidate>, i: nat) {
    && Reached(timeout, candidates, i)
    && (i < |candidates| ==> !RefusedAt(timeout, candidates, i) && !CutOffAt(timeout, candidates, i))
  }

  lemma EndIsUnique(timeout: nat, candidates: seq<Candidate>, i: nat, j: nat)
    requires EndsAt(timeout, candidates, i) && EndsAt(timeout, candidates, j)
    ensures i == j
  {
    if i < j {
      EndsRun(timeout, candidates, i, j);
    } else if j < i {
      EndsRun(timeout, candidates, j, i);
    }
  }

  /** What an outcome says, said of the place where the run ends. */
  lemma ExplainedAt(timeout: nat, candidates: seq<Candidate>, r: Outcome) returns (i: nat)
    requires Explains(timeout, candidates, r)
    ensures EndsAt(timeout, candidates, i)
    ensures r == OutcomeAt(timeout, candidates, i)
  {
    hide Reached, Remaining, SliceOf;
    match r
    case ConnectedTo(k) => i := k;
    case PolicyDenied => i :| StopsAt(timeout, candidates, i, Denied);
    case ExternallyEnforced => i :| StopsAt(timeout, candidates, i, External);
    case PolicyFailed => i :| StopsAt(timeout, candidates, i, PolicyError);
    case ConnectTimedOut =>
      if k: nat :| StarvesAt(timeout, candidates, k) {
        i := k;
      } else {
        i := |candidates|;
      }
    case ConnectFailed => i := |candidates|;
  }

  ghost function OutcomeAt(timeout: nat, candidates: seq<Candidate>, i: nat): (r: Outcome)
    requires EndsAt(timeout, candidates, i)
  {
    if i == |candidates| then
      if SomeCutOff(timeout, candidates, |candidates|) then ConnectTimedOut else ConnectFailed
    else
      match candidates[i].authorization
      case Denied => PolicyDenied
      case External => ExternallyEnforced
      case PolicyError => PolicyFailed
      case Allowed => if Remaining(timeout, candidates, i) == 0 then ConnectTimedOut else ConnectedTo(i)
  }

  /** No two outcomes are explained by the same candidates. */
  lemma ExplanationIsUnique(timeout: nat, candidates: seq<Candidate>, r: Outcome, s: Outcome)
    requires Explains(timeout, candidates, r) && Explains(timeout, candidates, s)
    ensures r == s
  {
    hide Explains, EndsAt, OutcomeAt;
    var i := ExplainedAt(timeout, candidates, r);
    var j := ExplainedAt(timeout, candidates, s);
    EndIsUnique(timeout, candidates, i, j);
  }

  // ----- the loop -----

  lemma ReachedStep(timeout: nat, candidates: seq<Candidate>, i: nat)
    requires i < |candidates| && Reached(timeout, candidates, i)
    requires RefusedAt(timeout, candidates, i) || CutOffAt(timeout, candidates, i)
    ensures Reached(timeout, candidates, i + 1)
    ensures SomeCutOff(timeout, candidates, i + 1)
        <==> SomeCutOff(timeout, candidates, i) || CutOffAt(timeout, candidates, i)
  {
    hide RefusedAt, CutOffAt;
  }

  /** Dials the candidates in order, each within its share of what is left. The outcome is the one, and by
      uniqueness the only one, that the candidates explain; the slices are those of the specification. */
  method ConnectAuthorized(timeout: nat, candidates: seq<Candidate>) returns (r: Outcome, slices: seq<nat>)
    ensures forall o :: r == o <==> Explains(timeout, candidates, o)
    ensures |slices| <= |candidates| && forall i :: 0 <= i < |slices| ==> slices[i] == SliceOf(timeout, candidates, i)
    ensures forall i: nat :: DialedAt(timeout, candidates, i) && Reached(timeout, candidates, i) <==> i < |slices|
  {
    hide Remaining, SliceOf, Slice, AfterDial, Reached, SomeCutOff;
    slices := [];
    var timedOut := false;
    var clock := timeout;
    StartIsReached(timeout, candidates);
    for index := 0 to |candidates|
      invariant |slices| == index
      invariant clock == if index == 0 then timeout else AfterDial(timeout, candidates, index - 1)
      invariant forall i :: 0 <= i < index ==> slices[i] == SliceOf(timeout, candidates, i)
      invariant Reached(timeout, candidates, index)
      invariant timedOut <==> SomeCutOff(timeout, candidates, index)
    {
      var c := candidates[index];
      ClockStep(timeout, candidates, index);
      var remaining := Minus(clock, c.pause);
      match c.authorization {
        case Allowed =>
        case Denied =>
          assert StopsAt(timeout, candidates, index, Denied);
          Concludes(timeout, candidates, PolicyDenied, index);
          return PolicyDenied, slices;
        case External =>
          assert StopsAt(timeout, candidates, index, External);
          Concludes(timeout, candidates, ExternallyEnforced, index);
          return ExternallyEnforced, slices;
        case PolicyError =>
          assert StopsAt(timeout, candidates, index, PolicyError);
          Concludes(timeout, candidates, PolicyFailed, index);
          return PolicyFailed, slices;
      }
      if remaining == 0 {
        assert StarvesAt(timeout, candidates, index);
        Concludes(timeout, candidates, ConnectTimedOut, index);
        return ConnectTimedOut, slices;
      }
      var slice := Slice(remaining, |candidates| - index);
      slices := slices + [slice];
      if CutOff(c.dial, slice) {
        timedOut := true;
      } else if c.dial.Connects? {
        assert ConnectsAt(timeout, candidates, index);
        Concludes(timeout, candidates, ConnectedTo(index), index + 1);
        return ConnectedTo(index), slices;
      }
      ReachedStep(timeout, candidates, index);
      clock := remaining - Spent(c.dial, slice);
    }
    r := if timedOut then ConnectTimedOut else ConnectFailed;
    Concludes(timeout, candidates, r, |candidates|);
  }

  lemma StartIsReached(timeout: nat, candidates: seq<Candidate>)
    ensures Reached(timeout, candidates, 0) && !SomeCutOff(timeout, candidates, 0)
  {
  }

  /** The run ends before the turn of candidate `i`: those before it were dialed in their turn, and nobody else is. */
  lemma Concludes(timeout: nat, candidates: seq<Candidate>, r: Outcome, i: nat)
    requires Explains(timeout, candidates, r)
    requires r.ConnectedTo? ==> i == r.index + 1
    requires !r.ConnectedTo? ==> Reached(timeout, candidates, i) && !DialedAt(timeout, candidates, i)
    ensures forall o :: r == o <==> Explains(timeout, candidates, o)
    ensures forall j: nat :: DialedAt(timeout, candidates, j) && Reached(timeout, candidates, j) <==> j < i
  {
    forall o | Explains(timeout, candidates, o) ensures r == o {
      ExplanationIsUnique(timeout, candidates, r, o);
    }
    var end := if r.ConnectedTo? then r.index else i;
    hide Explains;
    forall j: nat ensures DialedAt(timeout, candidates, j) && Reached(timeout, candidates, j) <==> j < i {
      if j < end {
        assert RefusedAt(timeout, candidates, j) || CutOffAt(timeout, candidates, j);
      } else if end < j && Reached(timeout, candidates, j) {
        EndsRun(timeout, candidates, end, j);
      }
    }
  }
}
