/**
 One byte budget shared by any number of users. Each user loads the counter,
 checks its amount, and tries to install the sum; an attempt fails when another
 user was faster, or for no reason at all. What was granted may then be written
 in pieces, while the others go on.
 */
module TransferBudget {
  import opened Wrappers

  const U64_MAX := 0xffff_ffff_ffff_ffff
  const TWO_TO_THE_64 := 0x1_0000_0000_0000_0000

  /** A byte limit is a non-zero 64-bit number. */
  type Limit = n: nat | 1 <= n <= U64_MAX witness 1

  type Amount = n: nat | n <= U64_MAX

  // ----- users and steps -----

  datatype User =
    | Idle
    | Trying(amount: Amount, current: nat, conflicts: nat)     // has loaded `current`
    | Writing(left: nat)                                       // was granted; `left` bytes are still unwritten
    | Refused

  datatype State = State(counter: nat, users: seq<User>, granted: seq<nat>, written: nat)

  datatype Step =
    | Begin(user: nat, amount: Amount)
    | Attempt(user: nat, spurious: bool)
    | Write(user: nat, n: nat)

  function Start(users: nat): (r: State) {
    State(0, seq(users, _ => Idle), [], 0)
  }

  function CheckedAdd(current: nat, amount: Amount): (r: Option<nat>) {
    if current + amount > U64_MAX then None else Some(current + amount)
  }

  /** Addition of two 64-bit numbers, modulo 2^64. */
  function WrappingAdd(current: nat, amount: Amount): (r: nat) {
    if current + amount > U64_MAX then current + amount - (U64_MAX + 1) else current + amount
  }

  function Grant(s: State, i: nat, counter: nat, amount: Amount): (r: State)
    requires i < |s.users|
  {
    s.(counter := counter, granted := s.granted + [amount],
       users := s.users[i := if amount == 0 then Idle else Writing(amount)])
  }

  /** One trip around the loop: refuse, install, or reload and try again. */
  function Try(limit: Option<Limit>, s: State, i: nat, spurious: bool): (r: State)
    requires i < |s.users| && s.users[i].Trying?
  {
    var u := s.users[i];
    if limit.None? then Grant(s, i, WrappingAdd(s.counter, u.amount), u.amount)
    else
      var updated := CheckedAdd(u.current, u.amount);
      if updated.None? || updated.value > limit.value then s.(users := s.users[i := Refused])
      else if s.counter == u.current && !spurious then Grant(s, i, updated.value, u.amount)
      else
        s.(users := s.users[i := u.(current := s.counter,
                                    conflicts := if s.counter == u.current then u.conflicts else u.conflicts + 1)])
  }

  function Apply(limit: Option<Limit>, s: State, step: Step): (r: State) {
    if step.user >= |s.users| then s
    else
      var u := s.users[step.user];
      match step
      case Begin(i, amount) => if u.Idle? then s.(users := s.users[i := Trying(amount, s.counter, 0)]) else s
      case Attempt(i, spurious) => if u.Trying? then Try(limit, s, i, spurious) else s
      case Write(i, n) =>
        if u.Writing? && n <= u.left then
          s.(written := s.written + n, users := s.users[i := if n == u.left then Idle else Writing(u.left - n)])
        else s
  }

  function Run(limit: Option<Limit>, users: nat, steps: seq<Step>): (r: State) {
    if steps == [] then Start(users)
    else Apply(limit, Run(limit, users, steps[..|steps| - 1]), steps[|steps| - 1])
  }

  // ----- what every step keeps -----

  function Sum(amounts: seq<nat>): (r: nat) {
    if amounts == [] then 0 else Sum(amounts[..|amounts| - 1]) + amounts[|amounts| - 1]
  }

  function Left(u: User): (r: nat) { if u.Writing? then u.left else 0 }

  function Outstanding(users: seq<User>): (r: nat) {
    if users == [] then 0 else Outstanding(users[..|users| - 1]) + Left(users[|users| - 1])
  }

  lemma {:induction false} OutstandingUpdates(users: seq<User>, i: nat, u: User)
    requires i < |users|
    ensures Outstanding(users[i := u]) == Outstanding(users) - Left(users[i]) + Left(u)
  {
    var last, updated := |users| - 1, users[i := u];
    if i == last {
      assert updated[..last] == users[..last];
    } else {
      assert updated[..last] == users[..last][i := u];
      OutstandingUpdates(users[..last], i, u);
    }
  }

  lemma {:induction false} NothingOutstanding(users: seq<User>)
    requires forall i :: 0 <= i < |users| ==> users[i].Idle?
    ensures Outstanding(users) == 0
  {
    if users != [] {
      NothingOutstanding(users[..|users| - 1]);
    }
  }

  lemma SumGrows(amounts: seq<nat>, amount: nat)
    ensures Sum(amounts + [amount]) == Sum(amounts) + amount
  {
    assert (amounts + [amount])[..|amounts|] == amounts;
  }

  /** Nobody has seen more than the counter, and each retry was paid for by somebody's progress. */
  predicate Loaded(s: State) {
    forall i :: 0 <= i < |s.users| && s.users[i].Trying? ==> s.users[i].conflicts <= s.users[i].current <= s.counter
  }

  /** Every granted byte is either written or still owed to a writer. */
  predicate Conserved(s: State) {
    s.written + Outstanding(s.users) == Sum(s.granted)
  }

  predicate Inv(limit: Option<Limit>, s: State) {
    && Conserved(s)
    && (limit.Some? ==> s.counter == Sum(s.granted) <= limit.value && Loaded(s))
    && (limit.None? ==> s.counter == Sum(s.granted) % TWO_TO_THE_64)
  }

  lemma GrantConserves(s: State, i: nat, counter: nat, amount: Amount)
    requires i < |s.users| && Left(s.users[i]) == 0 && Conserved(s)
    ensures Conserved(Grant(s, i, counter, amount))
    ensures Sum(Grant(s, i, counter, amount).granted) == Sum(s.granted) + amount
  {
    OutstandingUpdates(s.users, i, if amount == 0 then Idle else Writing(amount));
    SumGrows(s.granted, amount);
  }

  lemma MultiplesApart(a: nat, b: nat, m: nat)
    ensures a < b ==> a * m + m <= b * m
  {
    if a < b {
      assert b * m == (a + 1) * m + (b - a - 1) * m;
    }
  }

  lemma RemainderIs(n: nat, m: nat, quotient: nat, remainder: nat)
    requires remainder < m && n == quotient * m + remainder
    ensures n % m == remainder
  {
    MultiplesApart(n / m, quotient, m);
    MultiplesApart(quotient, n / m, m);
    assert n == (n / m) * m + n % m;
  }

  /** Adding after wrapping is wrapping after adding. */
  lemma WrapsAgain(sum: nat, amount: Amount)
    ensures WrappingAdd(sum % TWO_TO_THE_64, amount) == (sum + amount) % TWO_TO_THE_64
  {
    var rest := sum % TWO_TO_THE_64 + amount;
    var turns := sum / TWO_TO_THE_64;
    if rest < TWO_TO_THE_64 {
      RemainderIs(sum + amount, TWO_TO_THE_64, turns, rest);
    } else {
      RemainderIs(sum + amount, TWO_TO_THE_64, turns + 1, rest - TWO_TO_THE_64);
    }
  }

  lemma UnlimitedTryKeeps(s: State, i: nat, spurious: bool)
    requires Inv(None, s) && i < |s.users| && s.users[i].Trying?
    ensures Inv(None, Try(None, s, i, spurious))
  {
    hide Outstanding, Sum, Loaded;
    var amount := s.users[i].amount;
    WrapsAgain(Sum(s.granted), amount);
    GrantConserves(s, i, WrappingAdd(s.counter, amount), amount);
  }

  /** Changing one user who owes nothing, to a state that owes nothing and has seen no more than the counter. */
  lemma UserChangeKeeps(limit: Limit, s: State, i: nat, u: User)
    requires Inv(Some(limit), s) && i < |s.users| && Left(s.users[i]) == 0 && Left(u) == 0
    requires u.Trying? ==> u.conflicts <= u.current <= s.counter
    ensures Inv(Some(limit), s.(users := s.users[i := u]))
  {
    hide Outstanding, Sum;
    OutstandingUpdates(s.users, i, u);
  }

  lemma GrantKeeps(limit: Limit, s: State, i: nat, amount: Amount)
    requires Inv(Some(limit), s) && i < |s.users| && Left(s.users[i]) == 0 && s.counter + amount <= limit
    ensures Inv(Some(limit), Grant(s, i, s.counter + amount, amount))
  {
    hide Outstanding, Sum;
    GrantConserves(s, i, s.counter + amount, amount);
  }

  lemma TryKeeps(limit: Option<Limit>, s: State, i: nat, spurious: bool)
    requires Inv(limit, s) && i < |s.users| && s.users[i].Trying?
    ensures Inv(limit, Try(limit, s, i, spurious))
  {
    if limit.None? {
      hide Inv;
      UnlimitedTryKeeps(s, i, spurious);
    } else {
      var r := Try(limit, s, i, spurious);
      assert s.users[i].conflicts <= s.users[i].current <= s.counter;
      hide Inv;
      if s.counter + s.users[i].amount <= limit.value && s.counter == s.users[i].current && !spurious {
        GrantKeeps(limit.value, s, i, s.users[i].amount);
      } else {
        UserChangeKeeps(limit.value, s, i, r.users[i]);
      }
    }
  }

  lemma StepKeeps(limit: Option<Limit>, s: State, step: Step)
    requires Inv(limit, s)
    ensures Inv(limit, Apply(limit, s, step))
  {
    hide Outstanding, Sum, Try;
    if step.user < |s.users| {
      var r := Apply(limit, s, step);
      var u := s.users[step.user];
      if step.Attempt? && u.Trying? {
        TryKeeps(limit, s, step.user, step.spurious);
      } else {
        OutstandingUpdates(s.users, step.user, r.users[step.user]);
      }
    }
  }

  lemma StartKeeps(limit: Option<Limit>, users: nat)
    ensures Inv(limit, Start(users))
  {
    NothingOutstanding(Start(users).users);
  }

  lemma {:induction false} RunKeeps(limit: Option<Limit>, users: nat, steps: seq<Step>)
    ensures Inv(limit, Run(limit, users, steps))
  {
    hide Apply, Inv, Start;
    if steps == [] {
      StartKeeps(limit, users);
    } else {
      RunKeeps(limit, users, steps[..|steps| - 1]);
      StepKeeps(limit, Run(limit, users, steps[..|steps| - 1]), steps[|steps| - 1]);
    }
  }

  // ----- the main results -----

  /** Under every interleaving the counter is the sum of the grants, no more than the limit is ever
      granted, and no more than was granted is ever written. */
  lemma RunStaysWithinBudget(limit: Limit, users: nat, steps: seq<Step>)
    ensures var s := Run(Some(limit), users, steps);
      s.counter == Sum(s.granted) && s.written <= s.counter <= limit
  {
    hide Run;
    RunKeeps(Some(limit), users, steps);
  }

  /** Within one call, the retries that were not spurious never outnumber the limit. */
  lemma RetriesAreBounded(limit: Limit, users: nat, steps: seq<Step>, i: nat)
    ensures var s := Run(Some(limit), users, steps);
      i < |s.users| && s.users[i].Trying? ==> s.users[i].conflicts <= limit
  {
    hide Run;
    RunKeeps(Some(limit), users, steps);
  }

  /** A refusal is justified: at that moment the amount does not fit under the limit any more. */
  lemma RefusalIsJustified(limit: Limit, users: nat, steps: seq<Step>, i: nat, spurious: bool)
    ensures var s := Run(Some(limit), users, steps);
      i < |s.users| && s.users[i].Trying? && Apply(Some(limit), s, Attempt(i, spurious)).users[i].Refused? ==>
        Sum(s.granted) + s.users[i].amount > limit
  {
    hide Run;
    RunKeeps(Some(limit), users, steps);
  }

  /** Somebody always gets through: a real conflict means the counter has grown since it was loaded. */
  lemma ConflictIsProgress(limit: Limit, users: nat, steps: seq<Step>, i: nat)
    ensures var s := Run(Some(limit), users, steps);
      var r := Apply(Some(limit), s, Attempt(i, false));
      i < |s.users| && s.users[i].Trying? && r.users[i].Trying? ==>
        r.users[i].conflicts == s.users[i].conflicts + 1 && s.users[i].current < s.counter == r.users[i].current
  {
    hide Run;
    RunKeeps(Some(limit), users, steps);
  }

  /** Without a limit every attempt is granted and the counter wraps around. */
  lemma UnlimitedWraps(users: nat, steps: seq<Step>)
    ensures var s := Run(None, users, steps);
      && s.counter == Sum(s.granted) % TWO_TO_THE_64 && s.written <= Sum(s.granted)
      && forall i, spurious :: 0 <= i < |s.users| && s.users[i].Trying? ==>
           Grants(s, Apply(None, s, Attempt(i, spurious)), i, s.users[i].amount)
  {
    hide Run;
    RunKeeps(None, users, steps);
  }

  /** User `i` may now write all of `amount`, and nobody else was touched. */
  predicate Grants(s: State, r: State, i: nat, amount: Amount) {
    && i < |s.users| == |r.users| && r.granted == s.granted + [amount] && Left(r.users[i]) == amount
    && !r.users[i].Trying? && r.written == s.written && r.users == s.users[i := r.users[i]]
  }

  /** An attempt with what the counter says now is granted if it fits, unless it fails for no reason. */
  lemma FittingIsGranted(limit: Limit, users: nat, steps: seq<Step>, i: nat)
    ensures var s := Run(Some(limit), users, steps);
      i < |s.users| && s.users[i].Trying? && s.users[i].current == s.counter ==>
        (Sum(s.granted) + s.users[i].amount <= limit <==>
         Grants(s, Apply(Some(limit), s, Attempt(i, false)), i, s.users[i].amount))
  {
    hide Run;
    RunKeeps(Some(limit), users, steps);
  }

  /** The first `n` users write what they still owe. */
  function Finish(limit: Option<Limit>, s: State, n: nat): (r: State)
    requires n <= |s.users|
  {
    if n == 0 then s else Apply(limit, Finish(limit, s, n - 1), Write(n - 1, Left(s.users[n - 1])))
  }

  lemma {:induction false} FinishKeeps(limit: Option<Limit>, s: State, n: nat)
    requires n <= |s.users| && Inv(limit, s)
    ensures var r := Finish(limit, s, n);
      && Inv(limit, r) && r.granted == s.granted && |r.users| == |s.users|
      && (forall i :: 0 <= i < n ==> !r.users[i].Writing?)
      && (forall i :: n <= i < |s.users| ==> r.users[i] == s.users[i])
  {
    hide Inv, Try;
    if n > 0 {
      FinishKeeps(limit, s, n - 1);
      StepKeeps(limit, Finish(limit, s, n - 1), Write(n - 1, Left(s.users[n - 1])));
    }
  }

  lemma {:induction false} NobodyOwes(users: seq<User>)
    requires forall i :: 0 <= i < |users| ==> !users[i].Writing?
    ensures Outstanding(users) == 0
  {
    if users != [] {
      NobodyOwes(users[..|users| - 1]);
    }
  }

  /** Whatever the interleaving was, the writers can finish: then every granted byte is written. */
  lemma EveryGrantIsWritten(limit: Option<Limit>, users: nat, steps: seq<Step>)
    ensures var s := Run(limit, users, steps);
      Finish(limit, s, |s.users|).written == Sum(s.granted)
  {
    hide Run, Finish;
    RunKeeps(limit, users, steps);
    var s := Run(limit, users, steps);
    FinishKeeps(limit, s, |s.users|);
    NobodyOwes(Finish(limit, s, |s.users|).users);
  }

  // ----- the loop of one call -----

  /** Between two attempts the others may add something, and the next attempt may fail for no reason. */
  datatype Round = Round(others: nat, spurious: bool)

  function Others(rounds: seq<Round>): (r: nat) {
    if rounds == [] then 0 else Others(rounds[..|rounds| - 1]) + rounds[|rounds| - 1].others
  }

  lemma {:induction false} OthersMonotone(rounds: seq<Round>, k: nat)
    requires k <= |rounds|
    ensures Others(rounds[..k]) <= Others(rounds)
    decreases |rounds| - k
  {
    if k < |rounds| {
      OthersMonotone(rounds, k + 1);
      assert rounds[..k + 1][..k] == rounds[..k];
    } else {
      assert rounds[..k] == rounds;
    }
  }

  datatype Added = Granted | Exceeded | Undecided

  class Counter {
    var transferred: nat
    const limit: Option<Limit>

    constructor (limit: Option<Limit>)
      ensures transferred == 0 && this.limit == limit
    {
      this.limit := limit;
      transferred := 0;
    }

    /** Adds atomically among others that stay within the limit: all of the amount or nothing, and
        nothing only when it does not fit. Undecided means the given rounds were used up. */
    method Add(amount: Amount, rounds: seq<Round>) returns (r: Added, used: nat)
      requires limit.Some? ==> transferred + Others(rounds) <= limit.value
      modifies this
      ensures used <= |rounds|
      ensures limit.None? ==> r.Granted? && transferred == old(transferred)
      ensures limit.Some? ==>
        && transferred == old(transferred) + Others(rounds[..used]) + (if r.Granted? then amount else 0)
        && transferred <= limit.value
        && (r.Exceeded? ==> transferred + amount > limit.value)
        && (r.Undecided? ==> used == |rounds|)
    {
      if limit.None? {
        return Granted, 0;
      }
      ghost var start := transferred;
      var current: nat := transferred;
      used := 0;
      while used < |rounds|
        invariant used <= |rounds| && current <= transferred
        invariant transferred == start + Others(rounds[..used]) <= limit.value
      {
        var updated := CheckedAdd(current, amount);
        if updated.None? || updated.value > limit.value {
          return Exceeded, used;
        }
        assert rounds[..used + 1][..used] == rounds[..used];
        OthersMonotone(rounds, used + 1);
        transferred := transferred + rounds[used].others;
        if transferred == current && !rounds[used].spurious {
          transferred := updated.value;
          return Granted, used + 1;
        }
        current := transferred;
        used := used + 1;
      }
      return Undecided, used;
    }
  }
}
