/** Monthly quota accounting: the two Redis scripts, the settlement of a request, and the step
    system that every interleaving of concurrent requests of one owner in one period follows. */
module QuotaAccounting {
  import opened Prelude

  // ----- The billing rules of one request -----

  /** What the handler chain leaves in the request context when it returns. */
  datatype Outcome = Outcome(status: int, chargeOnFailure: bool, billable: bool, requestCost: int)

  predicate Successful(o: Outcome) {
    200 <= o.status < 400
  }

  predicate Charged(o: Outcome) {
    o.billable && (Successful(o) || o.chargeOnFailure)
  }

  /** The cost the usage log records: the handler's request cost, unclamped. */
  function LoggedCost(o: Outcome): int {
    if (Successful(o) || o.chargeOnFailure) && o.billable then o.requestCost else 0
  }

  /** The cost the rate limiter settles on: clamped to what was reserved. */
  function FinalCost(reserved: int, o: Outcome): int {
    if o.billable && (Successful(o) || o.chargeOnFailure)
    then Max(0, Min(reserved, o.requestCost))
    else 0
  }

  /** The log and the settlement agree exactly when a charged handler leaves a request cost between
      zero and the reserved cost. */
  lemma SettlementMatchesLog(reserved: nat, o: Outcome)
    ensures FinalCost(reserved, o) == LoggedCost(o) <==> (Charged(o) ==> 0 <= o.requestCost <= reserved)
    ensures 0 <= FinalCost(reserved, o) <= reserved
  {
  }

  /** Billing by the numbers. A request that is not billable, or that ends with a status outside 200 to 399
      and is not charged on failure, costs nothing on either side. Any other is settled on its request cost,
      cut off at zero and at the reserved cost, and logged at its request cost. */
  lemma BillingByStatus(reserved: nat, o: Outcome)
    ensures !o.billable ==> FinalCost(reserved, o) == 0 && LoggedCost(o) == 0
    ensures (o.status < 200 || 400 <= o.status) && !o.chargeOnFailure ==>
              FinalCost(reserved, o) == 0 && LoggedCost(o) == 0
    ensures o.billable && (200 <= o.status < 400 || o.chargeOnFailure) ==>
              && LoggedCost(o) == o.requestCost
              && (o.requestCost < 0 ==> FinalCost(reserved, o) == 0)
              && (0 <= o.requestCost <= reserved ==> FinalCost(reserved, o) == o.requestCost)
              && (reserved < o.requestCost ==> FinalCost(reserved, o) == reserved)
  {
  }

  // ----- The Redis scripts -----

  datatype ScriptReply = ScriptReply(allowed: bool, used: int, projected: int)

  /** An absent key reads as zero. */
  function Reading(counter: Option<int>): int {
    if counter.Some? then counter.value else 0
  }

  function Rebased(counter: Option<int>, baseline: int): Option<int> {
    if Reading(counter) < baseline then Some(baseline) else counter
  }

  function AfterReserve(counter: Option<int>, baseline: int, cost: int, limit: int): Option<int> {
    var current := Reading(Rebased(counter, baseline));
    if current + cost > limit then Rebased(counter, baseline) else Some(current + cost)
  }

  function Admits(counter: Option<int>, baseline: int, cost: int, limit: int): bool {
    Max(Reading(counter), baseline) + cost <= limit
  }

  /** The verdict and the counter by the numbers: an absent key counts as zero, the larger of the counter and
      the baseline is what has been used, a request is admitted if and only if what has been used and its
      cost together are at most the limit, and only then is its cost added. */
  lemma ReservationByNumbers(counter: Option<int>, baseline: nat, cost: nat, limit: int)
    ensures var stored := match counter case None => 0 case Some(n) => n;
            var used := if stored < baseline then baseline else stored;
            && (Admits(counter, baseline, cost, limit) <==> used + cost <= limit)
            && (used + cost <= limit ==> AfterReserve(counter, baseline, cost, limit) == Some(used + cost))
            && (limit < used + cost ==>
                  AfterReserve(counter, baseline, cost, limit) == if stored < baseline then Some(baseline) else counter)
  {
  }

  function AfterRelease(counter: Option<int>, cost: int): Option<int> {
    Some(Max(0, Reading(counter) - cost))
  }

  datatype Quota = Quota(allowed: bool, used: int, projected: int, remaining: int)

  function EvaluateMonthlyQuota(used: int, cost: int, limit: int): Quota {
    var projected := Max(0, used) + Max(0, cost);
    Quota(projected <= limit, Max(0, used), projected, Max(0, limit - projected))
  }

  datatype Limit = Unlimited | Units(units: int)

  /** The Redis key that counts one owner's reserved units in one period. */
  class QuotaCounter {
    var value: Option<int>

    constructor ()
      ensures value == None
    {
      value := None;
    }

    method Reserve(baseline: int, cost: int, limit: int) returns (reply: ScriptReply)
      modifies this
      ensures value == AfterReserve(old(value), baseline, cost, limit)
      ensures reply.allowed == Admits(old(value), baseline, cost, limit)
      ensures reply.used == Max(Reading(old(value)), baseline)
      ensures reply.projected == reply.used + cost
    {
      var current := if value.Some? then value.value else 0;
      if current < baseline {
        current := baseline;
        value := Some(current);
      }
      var projected := current + cost;
      if projected > limit {
        return ScriptReply(false, current, projected);
      }
      value := Some((if value.Some? then value.value else 0) + cost);
      return ScriptReply(true, current, projected);
    }

    method Release(cost: int) returns (next: int)
      modifies this
      ensures value == AfterRelease(old(value), cost) && value == Some(next)
    {
      var current := if value.Some? then value.value else 0;
      next := if 0 < current - cost then current - cost else 0;
      value := Some(next);
    }

    /** A reservation as the middleware makes it. The script's verdict and the evaluation of its
        reply never differ, so a refused request holds no reservation and an admitted one holds
        exactly its cost; an unlimited plan leaves the counter alone. */
    method ReserveMonthlyQuota(durableUsed: nat, cost: nat, limit: Limit)
      returns (allowed: bool, reserved: bool, quota: Quota)
      modifies this
      ensures limit.Unlimited? ==> allowed && !reserved && value == old(value)
      ensures limit.Units? ==>
                && allowed == reserved == Admits(old(value), durableUsed, cost, limit.units)
                && value == AfterReserve(old(value), durableUsed, cost, limit.units)
                && quota.projected == Max(Max(Reading(old(value)), durableUsed), 0) + cost
      ensures allowed && limit.Units? ==>
                Reading(value) == quota.projected <= limit.units && quota.remaining == limit.units - Reading(value)
    {
      if limit.Unlimited? {
        return true, false, Quota(true, 0, cost, 0);
      }
      var reply := Reserve(durableUsed, cost, limit.units);
      quota := EvaluateMonthlyQuota(reply.used, cost, limit.units);
      allowed := reply.allowed && quota.allowed;
      reserved := reply.allowed;
    }

    /** The finally block: the unbilled part of a held reservation goes back. */
    method Settle(reserved: bool, cost: nat, o: Outcome) returns (finalCost: int)
      modifies this
      ensures finalCost == FinalCost(cost, o)
      ensures value == if reserved && finalCost < cost then AfterRelease(old(value), cost - finalCost)
                       else old(value)
      ensures !o.billable || ((o.status < 200 || 400 <= o.status) && !o.chargeOnFailure) ==>
                finalCost == 0 && (reserved && 0 < cost && old(value).Some? && cost <= old(value).value ==>
                                     value == Some(old(value).value - cost))
    {
      finalCost := FinalCost(cost, o);
      if reserved && cost - finalCost > 0 {
        var _ := Release(cost - finalCost);
      }
    }
  }

  // ----- The step system -----

  /** A request of the owner, by how far it has come. */
  datatype Request =
    | BaselineRead(cost: nat, baseline: int)
    | Refused(cost: nat)
    | Reserved(cost: nat)
    | Logged(cost: nat, outcome: Outcome, flushed: bool)
    | Settled(cost: nat, outcome: Outcome, flushed: bool)

  /** One owner in one period: the plan limit, the durable usage the run starts from, the Redis
      counter and every request so far. */
  datatype State = State(limit: int, opening: nat, counter: Option<int>, requests: seq<Request>)

  datatype Step =
    | ReadBaseline(cost: nat)
    | Reserve(id: nat)
    | WriteLog(id: nat, outcome: Outcome)
    | FlushLog(id: nat)
    | Release(id: nat)
    | LoseRelease(id: nat)   // the release script could not reach Redis, and the error is swallowed
    | LoseCounter            // the key expired or was evicted

  /** What a flushed log adds to durable usage: only rows with a 2xx or 3xx status are summed. */
  function DurableUnits(r: Request): int {
    if (r.Logged? || r.Settled?) && r.flushed && Successful(r.outcome) then LoggedCost(r.outcome) else 0
  }

  /** A flushed row with a cost adds to durable usage if and only if its status is from 200 to 399. */
  lemma DurableByStatus(cost: nat, o: Outcome)
    ensures DurableUnits(Settled(cost, o, true)) == DurableUnits(Logged(cost, o, true))
         == (if 200 <= o.status < 400 && o.billable then o.requestCost else 0)
    ensures DurableUnits(Settled(cost, o, false)) == DurableUnits(Logged(cost, o, false)) == 0
  {
  }

  function BilledUnits(r: Request): int {
    if r.Logged? || r.Settled? then LoggedCost(r.outcome) else 0
  }

  /** The full cost of a request that has not settled, and the final cost of one that has. */
  function CommittedUnits(r: Request): int {
    match r
    case BaselineRead(_, _) => 0
    case Refused(_) => 0
    case Reserved(cost) => cost
    case Logged(cost, _, _) => cost
    case Settled(cost, o, _) => FinalCost(cost, o)
  }

  /** What a request still in flight holds beyond what durable usage already shows of it. */
  function InFlightUnits(r: Request): int {
    match r
    case Reserved(cost) => cost
    case Logged(cost, o, flushed) => if flushed && Successful(o) then cost - LoggedCost(o) else cost
    case _ => 0
  }

  /** The final cost of a success whose log is still in the queue. */
  function UnflushedUnits(r: Request): int {
    if r.Settled? && Successful(r.outcome) && !r.flushed then FinalCost(r.cost, r.outcome) else 0
  }

  /** The final cost of a failed request that was charged nevertheless. */
  function ChargedFailureUnits(r: Request): int {
    if r.Settled? && !Successful(r.outcome) then FinalCost(r.cost, r.outcome) else 0
  }

  /** What durable usage does not show: not yet, for work in flight and queued logs, and never, for charged
      failures. */
  function HiddenUnits(r: Request): int {
    InFlightUnits(r) + UnflushedUnits(r) + ChargedFailureUnits(r)
  }

  function Durable(s: State): int {
    s.opening + Sum(s.requests, DurableUnits)
  }

  function Billed(s: State): int {
    Sum(s.requests, BilledUnits)
  }

  function Committed(s: State): int {
    s.opening + Sum(s.requests, CommittedUnits)
  }

  function Gap(s: State): int {
    Committed(s) - Reading(s.counter)
  }

  predicate Enabled(s: State, step: Step) {
    match step
    case ReadBaseline(_) => true
    case Reserve(id) => id < |s.requests| && s.requests[id].BaselineRead?
    case WriteLog(id, o) =>
      // handlers only ever lower the request cost
      id < |s.requests| && s.requests[id].Reserved? && 0 <= o.requestCost <= s.requests[id].cost
    case FlushLog(id) =>
      id < |s.requests| && (s.requests[id].Logged? || s.requests[id].Settled?) && !s.requests[id].flushed
    case Release(id) => id < |s.requests| && s.requests[id].Logged?
    case LoseRelease(id) => id < |s.requests| && s.requests[id].Logged?
    case LoseCounter => true
  }

  function Apply(s: State, step: Step): State
    requires Enabled(s, step)
  {
    match step
    case ReadBaseline(cost) => s.(requests := s.requests + [BaselineRead(cost, Durable(s))])
    case Reserve(id) =>
      var r := s.requests[id];
      s.(counter := AfterReserve(s.counter, r.baseline, r.cost, s.limit),
         requests := s.requests[id := if Admits(s.counter, r.baseline, r.cost, s.limit)
                                      then Reserved(r.cost) else Refused(r.cost)])
    case WriteLog(id, o) =>
      s.(requests := s.requests[id := Logged(s.requests[id].cost, o, false)])
    case FlushLog(id) => s.(requests := s.requests[id := s.requests[id].(flushed := true)])
    case Release(id) =>
      var r := s.requests[id];
      var unbilled := r.cost - FinalCost(r.cost, r.outcome);
      s.(counter := if unbilled > 0 then AfterRelease(s.counter, unbilled) else s.counter,
         requests := s.requests[id := Settled(r.cost, r.outcome, r.flushed)])
    case LoseRelease(id) =>
      var r := s.requests[id];
      s.(requests := s.requests[id := Settled(r.cost, r.outcome, r.flushed)])
    case LoseCounter => s.(counter := None)
  }

  predicate Admissible(s: State, run: seq<Step>)
    decreases |run|
  {
    run == [] || (Enabled(s, run[0]) && Admissible(Apply(s, run[0]), run[1..]))
  }

  function Execute(s: State, run: seq<Step>): State
    requires Admissible(s, run)
    decreases |run|
  {
    if run == [] then s else Execute(Apply(s, run[0]), run[1..])
  }

  predicate Start(s: State) {
    s.requests == [] && 0 <= Reading(s.counter)
  }

  // ----- What every step keeps -----

  /** Every log in the run obeys the handlers' promise, and every baseline was once durable. */
  ghost predicate Coherent(s: State) {
    && 0 <= Reading(s.counter)
    && (forall r :: r in s.requests ==>
          && (r.BaselineRead? ==> s.opening <= r.baseline <= Durable(s))
          && (r.Logged? || r.Settled? ==> 0 <= r.outcome.requestCost <= r.cost))
  }

  /** No reserve script has run for any request. */
  predicate Untouched(s: State) {
    forall r :: r in s.requests ==> r.BaselineRead?
  }

  function StepId(step: Step): Option<nat> {
    match step
    case ReadBaseline(_) => None
    case LoseCounter => None
    case Reserve(id) => Some(id)
    case WriteLog(id, _) => Some(id)
    case FlushLog(id) => Some(id)
    case Release(id) => Some(id)
    case LoseRelease(id) => Some(id)
  }

  /** How a step moves a sum over the requests: by the change at the one request it touches. */
  lemma StepMovesSum(s: State, step: Step, weight: Request -> int)
    requires Enabled(s, step)
    ensures var t := Apply(s, step);
            Sum(t.requests, weight) == Sum(s.requests, weight)
              + (match StepId(step)
                 case Some(id) => weight(t.requests[id]) - weight(s.requests[id])
                 case None => if step.ReadBaseline? then weight(BaselineRead(step.cost, Durable(s))) else 0)
  {
    match StepId(step) {
      case Some(id) => SumUpdate(s.requests, id, Apply(s, step).requests[id], weight);
      case None =>
        if step.ReadBaseline? {
          SumAppend(s.requests, BaselineRead(step.cost, Durable(s)), weight);
        }
    }
  }

  lemma StepKeepsCoherent(s: State, step: Step)
    requires Coherent(s) && Enabled(s, step)
    ensures Coherent(Apply(s, step)) && Durable(s) <= Durable(Apply(s, step))
  {
    StepMovesSum(s, step, DurableUnits);
    SumIsNonNegative(s.requests, DurableUnits);
    if step.Reserve? {
      assert s.requests[step.id] in s.requests;
    }
  }

  // ----- Safety: the limit holds in every interleaving -----

  /** Once a reserve script has run, the counter covers everything committed; nothing committed ever
      passes the limit or, where the owner started beyond it, the opening usage. */
  ghost predicate Covered(s: State) {
    && (Untouched(s) || Committed(s) <= Reading(s.counter))
    && Committed(s) <= Max(s.limit, s.opening)
  }

  lemma UntouchedSumsToZero(s: State, weight: Request -> int)
    requires Untouched(s)
    requires forall r: Request :: r.BaselineRead? ==> weight(r) == 0
    ensures Sum(s.requests, weight) == 0
  {
    SumCompare(s.requests, weight, r => 0);
    SumCompare(s.requests, r => 0, weight);
    SumOfZeros(s.requests);
  }

  lemma {:induction false} SumOfZeros(s: seq<Request>)
    ensures Sum(s, r => 0) == 0
  {
    if s != [] {
      SumOfZeros(s[..|s| - 1]);
    }
  }

  lemma DurableIsCommitted(s: State)
    requires Coherent(s)
    ensures Durable(s) <= s.opening + Billed(s) <= Committed(s)
  {
    SumCompare(s.requests, DurableUnits, BilledUnits);
    SumCompare(s.requests, BilledUnits, CommittedUnits);
  }

  lemma StepKeepsCovered(s: State, step: Step)
    requires Coherent(s) && Covered(s) && Enabled(s, step) && !step.LoseCounter?
    ensures Covered(Apply(s, step))
  {
    StepMovesSum(s, step, CommittedUnits);
    if step.ReadBaseline? {
      assert Untouched(s) ==> Untouched(Apply(s, step));
    }
    if step.Reserve? {
      var r := s.requests[step.id];
      assert r in s.requests;
      if Untouched(s) {
        UntouchedSumsToZero(s, CommittedUnits);
        UntouchedSumsToZero(s, DurableUnits);
      }
    } else if StepId(step).Some? {
      assert s.requests[StepId(step).value] in s.requests;
    }
  }

  predicate KeepsCounter(run: seq<Step>) {
    forall step :: step in run ==> !step.LoseCounter?
  }

  lemma {:induction false} RunKeepsCovered(s: State, run: seq<Step>)
    requires Coherent(s) && Covered(s) && Admissible(s, run) && KeepsCounter(run)
    ensures Coherent(Execute(s, run)) && Covered(Execute(s, run))
    ensures Execute(s, run).limit == s.limit && Execute(s, run).opening == s.opening
    decreases |run|
  {
    if run != [] {
      assert run[0] in run;
      StepKeepsCoherent(s, run[0]);
      StepKeepsCovered(s, run[0]);
      assert forall step :: step in run[1..] ==> step in run;
      RunKeepsCovered(Apply(s, run[0]), run[1..]);
    }
  }

  /** In every run without counter loss, opening usage plus everything billed stays within the limit;
      an owner that starts beyond the limit is billed nothing at all. */
  lemma NeverOverLimit(s: State, run: seq<Step>)
    requires Start(s) && Admissible(s, run) && KeepsCounter(run)
    ensures s.opening + Billed(Execute(s, run)) <= Max(s.limit, s.opening)
    ensures Durable(Execute(s, run)) <= Max(s.limit, s.opening)
  {
    RunKeepsCovered(s, run);
    DurableIsCommitted(Execute(s, run));
  }

  // ----- Conservation: the counter is exact -----

  predicate Settles(run: seq<Step>) {
    forall step :: step in run ==> !step.LoseCounter? && !step.LoseRelease?
  }

  /** Before the first reserve script the counter is as it was found; from then on it is the larger of
      what was found and the opening usage, plus everything committed since. */
  ghost predicate Exact(s: State, found: Option<int>) {
    if Untouched(s) then s.counter == found
    else Reading(s.counter) == Max(Reading(found), s.opening) + Sum(s.requests, CommittedUnits)
  }

  lemma StepKeepsExact(s: State, step: Step, found: Option<int>)
    requires Coherent(s) && Exact(s, found) && Enabled(s, step) && !step.LoseCounter? && !step.LoseRelease?
    requires 0 <= Reading(found)
    ensures Exact(Apply(s, step), found)
  {
    StepMovesSum(s, step, CommittedUnits);
    match step {
      case ReadBaseline(_) =>
        assert Untouched(s) ==> Untouched(Apply(s, step));
        if !Untouched(s) {
          var r :| r in s.requests && !r.BaselineRead?;
          assert r in Apply(s, step).requests;
        }
      case Reserve(id) =>
        assert s.requests[id] in s.requests && Apply(s, step).requests[id] in Apply(s, step).requests;
        DurableIsCommitted(s);
        if Untouched(s) {
          UntouchedSumsToZero(s, CommittedUnits);
        }
      case WriteLog(id, _) =>
        assert s.requests[id] in s.requests && Apply(s, step).requests[id] in Apply(s, step).requests;
      case FlushLog(id) =>
        assert s.requests[id] in s.requests && Apply(s, step).requests[id] in Apply(s, step).requests;
      case Release(id) =>
        assert s.requests[id] in s.requests && Apply(s, step).requests[id] in Apply(s, step).requests;
        SumIsAtLeast(s.requests, id, CommittedUnits);
    }
  }

  lemma {:induction false} RunKeepsExact(s: State, run: seq<Step>, found: Option<int>)
    requires Coherent(s) && Exact(s, found) && Admissible(s, run) && Settles(run) && 0 <= Reading(found)
    ensures Coherent(Execute(s, run)) && Exact(Execute(s, run), found)
    ensures Execute(s, run).opening == s.opening
    decreases |run|
  {
    if run != [] {
      assert run[0] in run;
      StepKeepsCoherent(s, run[0]);
      StepKeepsExact(s, run[0], found);
      assert forall step :: step in run[1..] ==> step in run;
      RunKeepsExact(Apply(s, run[0]), run[1..], found);
    }
  }

  /** Conservation: with no counter and no release lost, from the first reserve script on the counter
      is the starting value plus the full cost of every unsettled request and the final cost of every
      settled one. From a fresh key that starting value is the opening usage. */
  lemma CounterIsConserved(s: State, run: seq<Step>)
    requires Start(s) && Admissible(s, run) && Settles(run)
    ensures var t := Execute(s, run);
            !Untouched(t) ==> Reading(t.counter) == Max(Reading(s.counter), s.opening) + Sum(t.requests, CommittedUnits)
    ensures var t := Execute(s, run);
            !Untouched(t) && Reading(s.counter) <= s.opening ==> Reading(t.counter) == Committed(t)
  {
    RunKeepsExact(s, run, s.counter);
  }

  predicate Quiescent(s: State) {
    forall r :: r in s.requests ==> r.Refused? || (r.Settled? && r.flushed)
  }

  lemma QuiescentDrift(s: State)
    requires Coherent(s) && Quiescent(s)
    ensures Committed(s) == Durable(s) + Sum(s.requests, ChargedFailureUnits)
  {
    SumSplits(s.requests, CommittedUnits, DurableUnits, ChargedFailureUnits);
  }

  /** A failed request that settled on a positive charge. */
  predicate CostlyFailure(r: Request) {
    r.Settled? && !Successful(r.outcome) && Charged(r.outcome) && 0 < Min(r.cost, r.outcome.requestCost)
  }

  lemma ChargesComeFromFailures(r: Request)
    ensures 0 <= ChargedFailureUnits(r)
    ensures 0 < ChargedFailureUnits(r) <==> CostlyFailure(r)
  {
  }

  /** Failed requests were charged nothing in all exactly when none was charged. */
  lemma {:induction false} NoChargesWithoutFailures(requests: seq<Request>)
    ensures 0 <= Sum(requests, ChargedFailureUnits)
    ensures Sum(requests, ChargedFailureUnits) == 0 <==> forall r :: r in requests ==> !CostlyFailure(r)
  {
    if requests != [] {
      var n := |requests| - 1;
      NoChargesWithoutFailures(requests[..n]);
      ChargesComeFromFailures(requests[n]);
      assert requests == requests[..n] + [requests[n]];
    }
  }

  /** When every request has settled and every log is flushed, the counter exceeds durable usage by
      exactly what failed requests were charged: durable usage sums successful rows only. The two
      meet if and only if no failed request was charged a positive cost. */
  lemma SettledCounterMeetsDurableUsage(s: State, run: seq<Step>)
    requires Start(s) && Reading(s.counter) <= s.opening && Admissible(s, run) && Settles(run)
    requires Quiescent(Execute(s, run)) && Execute(s, run).requests != []
    ensures var t := Execute(s, run);
            Reading(t.counter) == Durable(t) + Sum(t.requests, ChargedFailureUnits)
    ensures var t := Execute(s, run);
            Reading(t.counter) == Durable(t) <==> forall r :: r in t.requests ==> !CostlyFailure(r)
  {
    RunKeepsExact(s, run, s.counter);
    var t := Execute(s, run);
    assert t.requests[0] in t.requests;
    QuiescentDrift(t);
    NoChargesWithoutFailures(t.requests);
  }

  /** The drift is real: one failed batch that charges a unit leaves the counter a unit above durable
      usage with nothing left in flight. */
  lemma ChargedFailureDrifts() returns (s: State, run: seq<Step>)
    ensures Start(s) && s.opening == 0 && s.counter == None && Admissible(s, run) && Settles(run)
    ensures Quiescent(Execute(s, run)) && Reading(Execute(s, run).counter) == 1 && Durable(Execute(s, run)) == 0
  {
    var o := Outcome(502, true, true, 1);
    s := State(10, 0, None, []);
    var s1 := State(10, 0, None, [BaselineRead(5, 0)]);
    var s2 := State(10, 0, Some(5), [Reserved(5)]);
    var s3 := State(10, 0, Some(5), [Logged(5, o, false)]);
    var s4 := State(10, 0, Some(1), [Settled(5, o, false)]);
    var s5 := State(10, 0, Some(1), [Settled(5, o, true)]);
    run := RunCons(s4, FlushLog(0), [], s5, s5);
    run := RunCons(s3, Release(0), run, s4, s5);
    run := RunCons(s2, WriteLog(0, o), run, s3, s5);
    run := RunCons(s1, Reserve(0), run, s2, s5);
    run := RunCons(s, ReadBaseline(5), run, s1, s5);
  }

  lemma RunCons(s: State, step: Step, rest: seq<Step>, next: State, end: State) returns (run: seq<Step>)
    requires Enabled(s, step) && Apply(s, step) == next && Admissible(next, rest) && Execute(next, rest) == end
    ensures run == [step] + rest && Admissible(s, run) && Execute(s, run) == end
  {
    run := [step] + rest;
    assert run[1..] == rest;
  }

  // ----- Losing the counter -----

  /** The gap between committed units and the counter never grows on a step that keeps the key, from
      any state at all: a clamped release only narrows it. */
  lemma StepNeverWidensGap(s: State, step: Step)
    requires Enabled(s, step) && !step.LoseCounter?
    ensures Gap(Apply(s, step)) <= Gap(s)
    ensures Committed(Apply(s, step)) <= Max(Committed(s), s.limit + Gap(s))
  {
    StepMovesSum(s, step, CommittedUnits);
  }

  lemma {:induction false} RunNeverWidensGap(s: State, run: seq<Step>)
    requires Admissible(s, run) && KeepsCounter(run)
    ensures Gap(Execute(s, run)) <= Gap(s)
    ensures Committed(Execute(s, run)) <= Max(Committed(s), s.limit + Gap(s))
    decreases |run|
  {
    if run != [] {
      assert run[0] in run;
      StepNeverWidensGap(s, run[0]);
      assert forall step :: step in run[1..] ==> step in run;
      RunNeverWidensGap(Apply(s, run[0]), run[1..]);
    }
  }

  lemma {:induction false} RunKeepsCoherent(s: State, run: seq<Step>)
    requires Coherent(s) && Admissible(s, run)
    ensures Coherent(Execute(s, run))
    decreases |run|
  {
    if run != [] {
      StepKeepsCoherent(s, run[0]);
      RunKeepsCoherent(Apply(s, run[0]), run[1..]);
    }
  }

  /** In every run, counters and releases lost included, what a baseline read now would miss of committed
      usage is what requests in flight hold, plus successes whose logs are queued, plus charged failures. */
  lemma HiddenIsCommittedNotDurable(s: State, run: seq<Step>)
    requires Start(s) && Admissible(s, run)
    ensures var t := Execute(s, run);
            Committed(t) - Durable(t) == Sum(t.requests, HiddenUnits)
            == Sum(t.requests, InFlightUnits) + Sum(t.requests, UnflushedUnits) + Sum(t.requests, ChargedFailureUnits)
  {
    RunKeepsCoherent(s, run);
    var t := Execute(s, run);
    SumSplits(t.requests, CommittedUnits, DurableUnits, HiddenUnits);
    HiddenInThreeParts(t.requests);
  }

  /** The three parts of what durable usage does not show. */
  function HiddenTotal(s: State): int {
    Sum(s.requests, InFlightUnits) + Sum(s.requests, UnflushedUnits) + Sum(s.requests, ChargedFailureUnits)
  }

  lemma HiddenTotalIsMissed(s: State)
    requires Committed(s) - Durable(s) == Sum(s.requests, HiddenUnits)
    ensures Committed(s) - Durable(s) == HiddenTotal(s)
  {
    HiddenInThreeParts(s.requests);
  }

  lemma HiddenInThreeParts(requests: seq<Request>)
    ensures Sum(requests, HiddenUnits)
         == Sum(requests, InFlightUnits) + Sum(requests, UnflushedUnits) + Sum(requests, ChargedFailureUnits)
  {
    var later := (r: Request) => UnflushedUnits(r) + ChargedFailureUnits(r);
    SumSplits(requests, HiddenUnits, InFlightUnits, later);
    SumSplits(requests, later, UnflushedUnits, ChargedFailureUnits);
  }

  /** After the counter is lost at any state s, whatever happened before: the next reserve script
      re-baselines it, the gap is then at most committed usage minus that baseline and never grows
      again, and committed usage never exceeds the larger of what it was and the limit plus that gap. */
  lemma OvershootAfterLoss(s: State, id: nat, run: seq<Step>)
    requires Enabled(s, Reserve(id)) && Admissible(Apply(s, Reserve(id)), run) && KeepsCounter(run)
    ensures var missed := Committed(s) - s.requests[id].baseline;
            var t := Execute(Apply(s, Reserve(id)), run);
            Gap(t) <= missed && Committed(t) <= Max(Committed(s), s.limit + missed)
  {
    var t := Apply(s, Reserve(id));
    StepMovesSum(s, Reserve(id), CommittedUnits);
    RunNeverWidensGap(t, run);
  }

  lemma ReadingChangesNoSum(s: State, cost: nat)
    ensures var read := Apply(s, ReadBaseline(cost));
            && Committed(read) == Committed(s) && read.limit == s.limit
            && |read.requests| == |s.requests| + 1 && read.requests[|s.requests|] == BaselineRead(cost, Durable(s))
  {
    StepMovesSum(s, ReadBaseline(cost), CommittedUnits);
  }

  lemma OvershootFromReading(s: State, cost: nat, run: seq<Step>)
    requires Admissible(Apply(Apply(s, ReadBaseline(cost)), Reserve(|s.requests|)), run) && KeepsCounter(run)
    ensures Committed(Execute(Apply(Apply(s, ReadBaseline(cost)), Reserve(|s.requests|)), run)) <=
              Max(Committed(s), s.limit + Committed(s) - Durable(s))
  {
    ReadingChangesNoSum(s, cost);
    OvershootAfterLoss(Apply(s, ReadBaseline(cost)), |s.requests|, run);
  }

  /** After any run, however often the counter was lost in it: once a request reads its baseline and
      reserves, committed usage never exceeds the larger of what it was at the reading and the limit plus
      what requests in flight then held, plus queued successes, plus charged failures. */
  lemma OvershootAfterFreshBaseline(start: State, before: seq<Step>, s: State, cost: nat, run: seq<Step>)
    requires Start(start) && Admissible(start, before) && s == Execute(start, before)
    requires Admissible(Apply(Apply(s, ReadBaseline(cost)), Reserve(|s.requests|)), run) && KeepsCounter(run)
    ensures var t := Execute(Apply(Apply(s, ReadBaseline(cost)), Reserve(|s.requests|)), run);
            Committed(t) <= Max(Committed(s), s.limit + HiddenTotal(s))
  {
    HiddenIsCommittedNotDurable(start, before);
    HiddenTotalIsMissed(s);
    OvershootFromReading(s, cost, run);
  }
}
