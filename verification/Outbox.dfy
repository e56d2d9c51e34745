/** Admin retry and archive of an outbox event, racing with each other and with the consumers of the
    event: the geodata dispatchers, which claim it, and the quota notifiers, which do not. Times are
    milliseconds on one clock. */
module Outbox {
  import opened Prelude

  const OUTBOX_STALE_MS: int := 15 * 60 * 1000
  const MAX_ATTEMPTS: nat := 5

  datatype Status = Pending | Processing | Completed | Failed | Archived

  datatype Event = Event(status: Status, updatedAt: int, attempts: nat)

  datatype Action = Retry(now: int) | Archive(now: int)

  /** Who consumes the event: a dispatcher, a quota notifier, or nobody any more. */
  datatype Kind = Dispatched | QuotaWarning | Schedule

  /** A consumer that has the event in hand and has not reported back: a dispatcher with the attempts it
      saw, or a notifier with the time its round began. */
  datatype Holder = Dispatcher(attempts: nat) | Notifier(now: int)

  /** The event, the clock, the admin actions between their read and their update, and the holders. */
  datatype State = State(kind: Kind, event: Event, clock: int, open: seq<Action>, holders: seq<Holder>)

  function StaleCutoff(now: int): int {
    now - OUTBOX_STALE_MS
  }

  predicate IsStaleProcessing(e: Event, cutoff: int) {
    e.status.Processing? && e.updatedAt <= cutoff
  }

  /** The check on the row that was read: at or before the cutoff counts as stale. */
  predicate PreCheck(e: Event, a: Action) {
    match a
    case Retry(now) => e.status.Failed? || IsStaleProcessing(e, StaleCutoff(now))
    case Archive(now) => !(e.status.Processing? && !IsStaleProcessing(e, StaleCutoff(now)))
  }

  /** The condition of the update: strictly before the cutoff. */
  predicate Guard(e: Event, a: Action) {
    match a
    case Retry(now) => e.status.Failed? || (e.status.Processing? && e.updatedAt < StaleCutoff(now))
    case Archive(now) => !e.status.Processing? || e.updatedAt < StaleCutoff(now)
  }

  function Updated(e: Event, a: Action): Event {
    if !Guard(e, a) then e
    else match a
      case Retry(now) => e.(status := Pending, updatedAt := now)
      case Archive(now) => e.(status := Archived, updatedAt := now)
  }

  /** The row behind the admin actions. */
  class OutboxRow {
    var event: Event

    method Commit(a: Action) returns (updated: bool)
      modifies this
      ensures updated == Guard(old(event), a) && event == Updated(old(event), a)
    {
      match a {
        case Retry(now) =>
          if event.status == Failed || (event.status == Processing && event.updatedAt < now - OUTBOX_STALE_MS) {
            event := event.(status := Pending, updatedAt := now);
            return true;
          }
        case Archive(now) =>
          if event.status != Processing || event.updatedAt < now - OUTBOX_STALE_MS {
            event := event.(status := Archived, updatedAt := now);
            return true;
          }
      }
      return false;
    }
  }

  datatype Step =
    | Tick(to: int)
    | Begin(action: Action)
    | Commit(id: nat)
    | Claim               // a dispatcher takes the event: it becomes PROCESSING
    | Take(now: int)      // a notifier reads the pending event, and leaves it as it is
    | Touch(id: nat)      // the notifier counts an attempt on an event still pending
    | Complete(id: nat)
    | CompleteUnanswered(id: nat)   // the update commits, but a dispatcher takes it to have failed
    | Fail(id: nat)
    | Defer(id: nat)      // the notifier tries again later
    | Abandon(id: nat)    // the holder dies or throws before it reports
    | Retire(now: int)    // schedule events are archived wherever they wait

  predicate Enabled(s: State, step: Step) {
    match step
    case Tick(to) => s.clock <= to
    case Begin(a) => a.now <= s.clock && PreCheck(s.event, a)   // the clock is read before the row
    case Commit(id) => id < |s.open|
    case Claim => s.kind.Dispatched? && s.event.status.Pending?
    case Take(now) => s.kind.QuotaWarning? && s.event.status.Pending? && now <= s.clock
    case Touch(id) => id < |s.holders| && s.holders[id].Notifier?
    case Complete(id) => id < |s.holders|
    case CompleteUnanswered(id) => id < |s.holders| && s.holders[id].Dispatcher?
    case Fail(id) => id < |s.holders|
    case Defer(id) => id < |s.holders| && s.holders[id].Notifier?
    case Abandon(id) => id < |s.holders|
    case Retire(now) => s.kind.Schedule? && now <= s.clock
  }

  function Without<T>(s: seq<T>, id: nat): seq<T>
    requires id < |s|
  {
    s[..id] + s[id + 1..]
  }

  function ReportTime(s: State, h: Holder): int {
    if h.Dispatcher? then s.clock else h.now
  }

  function FailedStatus(h: Holder): Status {
    if h.Dispatcher? && h.attempts < MAX_ATTEMPTS then Pending else Failed
  }

  function Touched(e: Event, now: int): Event {
    if e.status.Pending? then e.(attempts := e.attempts + 1, updatedAt := now) else e
  }

  function Retired(e: Event, now: int): Event {
    if e.status.Pending? || e.status.Failed? then e.(status := Archived, updatedAt := now) else e
  }

  /** A holder's report is addressed by the event's id alone: it overwrites whatever status it finds. */
  function Apply(s: State, step: Step): State
    requires Enabled(s, step)
  {
    match step
    case Tick(to) => s.(clock := to)
    case Begin(a) => s.(open := s.open + [a])
    case Commit(id) => s.(event := Updated(s.event, s.open[id]), open := Without(s.open, id))
    case Claim =>
      var e := s.event.(status := Processing, attempts := s.event.attempts + 1, updatedAt := s.clock);
      s.(event := e, holders := s.holders + [Dispatcher(e.attempts)])
    case Take(now) => s.(holders := s.holders + [Notifier(now)])
    case Touch(id) => s.(event := Touched(s.event, s.holders[id].now))
    case Complete(id) =>
      s.(event := s.event.(status := Completed, updatedAt := ReportTime(s, s.holders[id])),
         holders := Without(s.holders, id))
    case CompleteUnanswered(_) => s.(event := s.event.(status := Completed, updatedAt := s.clock))
    case Fail(id) =>
      s.(event := s.event.(status := FailedStatus(s.holders[id]), updatedAt := ReportTime(s, s.holders[id])),
         holders := Without(s.holders, id))
    case Defer(id) => s.(event := s.event.(updatedAt := s.holders[id].now), holders := Without(s.holders, id))
    case Abandon(id) => s.(holders := Without(s.holders, id))
    case Retire(now) => s.(event := Retired(s.event, now))
  }

  predicate Admissible(s: State, run: seq<Step>)
    decreases |run|
  {
    run == [] || (Enabled(s, run[0]) && Admissible(Apply(s, run[0]), run[1..]))
  }

  function Execute(s: State, run: seq<Step>): State
    requires Admissible(s, run)
    decreases |run|
  {
    if run == [] then s else Execute(Apply(s, run[0]), run[1..])
  }

  // ----- The update against the check -----

  /** Every row an update changes would also have passed the check on the same row; the two conditions
      differ exactly on an event still processing that was touched right at the cutoff. */
  lemma GuardAgainstPreCheck(e: Event, a: Action)
    ensures Guard(e, a) ==> PreCheck(e, a)
    ensures PreCheck(e, a) && !Guard(e, a) <==> e.status.Processing? && e.updatedAt == StaleCutoff(a.now)
  {
  }

  /** The two updates by the numbers: a retry takes up failed events, and processing ones untouched for more
      than 900,000 milliseconds, and makes them pending; an archive takes any event but a processing one
      touched since. */
  lemma UpdatesByNumbers(e: Event, now: int)
    ensures Updated(e, Retry(now)) ==
              if e.status == Failed || (e.status == Processing && 900_000 < now - e.updatedAt)
              then Event(Pending, now, e.attempts) else e
    ensures Updated(e, Archive(now)) ==
              if e.status == Processing && now - e.updatedAt <= 900_000 then e
              else Event(Archived, now, e.attempts)
  {
  }

  /** A dispatcher's failure leaves the event pending up to its fourth attempt and failed from its fifth; a
      notifier's leaves it failed. */
  lemma FailuresByAttempt(attempts: nat, now: int)
    ensures FailedStatus(Dispatcher(attempts)) == if attempts <= 4 then Pending else Failed
    ensures FailedStatus(Notifier(now)) == Failed
  {
  }

  // ----- Safety over every run -----

  /** Open actions and rounds began no later than now, and the event was last touched no later than now. */
  ghost predicate Timely(s: State) {
    && s.event.updatedAt <= s.clock
    && (forall i :: 0 <= i < |s.open| ==> s.open[i].now <= s.clock)
    && (forall i :: 0 <= i < |s.holders| && s.holders[i].Notifier? ==> s.holders[i].now <= s.clock)
  }

  predicate Fresh(e: Event, a: Action) {
    e.status.Processing? && e.updatedAt >= a.now - 900_000
  }

  /** One admin update: the event it found, the action, and the event it left. */
  datatype Move = Move(before: Event, action: Action, after: Event)

  /** The admin updates of a run, the ones that change nothing included. */
  function Moves(s: State, run: seq<Step>): seq<Move>
    requires Admissible(s, run)
    decreases |run|
  {
    if run == [] then []
    else
      var t := Apply(s, run[0]);
      (if run[0].Commit? then [Move(s.event, s.open[run[0].id], t.event)] else []) + Moves(t, run[1..])
  }

  /** In every run: an admin update leaves an event alone that is processing and was touched within the
      window before the action began, or later; one that changes the event would have passed its check on
      the row it found; and none takes an event out of ARCHIVED. */
  lemma {:induction false} FreshEventsAreLeftAlone(s: State, run: seq<Step>)
    requires Admissible(s, run)
    ensures forall m :: m in Moves(s, run) ==>
              && (Fresh(m.before, m.action) ==> m.after == m.before)
              && (m.after != m.before ==> PreCheck(m.before, m.action))
              && (m.before.status.Archived? ==> m.after.status.Archived?)
    decreases |run|
  {
    if run != [] {
      FreshEventsAreLeftAlone(Apply(s, run[0]), run[1..]);
      if run[0].Commit? {
        GuardAgainstPreCheck(s.event, s.open[run[0].id]);
      }
    }
  }

  lemma {:induction false} RunsAreTimely(s: State, run: seq<Step>)
    requires Timely(s) && Admissible(s, run)
    ensures Timely(Execute(s, run))
    decreases |run|
  {
    if run != [] {
      RunsAreTimely(Apply(s, run[0]), run[1..]);
    }
  }

  // ----- How many dispatchers hold one event -----

  /** An admin retry that takes the event from under a dispatcher: the event it found, and when. */
  datatype Takeover = Takeover(event: Event, at: int)

  function Takeovers(s: State, run: seq<Step>): seq<Takeover>
    requires Admissible(s, run)
    decreases |run|
  {
    if run == [] then []
    else
      (if run[0].Commit? && s.open[run[0].id].Retry? && s.event.status.Processing? && Guard(s.event, s.open[run[0].id])
       then [Takeover(s.event, s.clock)] else [])
      + Takeovers(Apply(s, run[0]), run[1..])
  }

  /** After k takeovers at most k dispatchers hold the event, and one more while it is processing, was
      archived from there, or is completed with the answer lost. */
  predicate HoldersWithin(s: State, k: nat) {
    |s.holders| <= k + if s.event.status.Pending? || s.event.status.Failed? then 0 else 1
  }

  lemma {:induction false} RunKeepsHoldersWithin(s: State, run: seq<Step>, k: nat)
    requires s.kind.Dispatched? && HoldersWithin(s, k) && Admissible(s, run)
    ensures HoldersWithin(Execute(s, run), k + |Takeovers(s, run)|)
    decreases |run|
  {
    if run != [] {
      var here := |Takeovers(s, run)| - |Takeovers(Apply(s, run[0]), run[1..])|;
      assert HoldersWithin(Apply(s, run[0]), k + here);
      RunKeepsHoldersWithin(Apply(s, run[0]), run[1..], k + here);
    }
  }

  lemma {:induction false} TakeoversAreStale(s: State, run: seq<Step>)
    requires Timely(s) && Admissible(s, run)
    ensures forall x :: x in Takeovers(s, run) ==> x.at - x.event.updatedAt > 900_000
    decreases |run|
  {
    if run != [] {
      RunsAreTimely(s, [run[0]]);
      assert Execute(s, [run[0]]) == Apply(s, run[0]);
      TakeoversAreStale(Apply(s, run[0]), run[1..]);
    }
  }

  /** What the window protects: of a fresh event at most one dispatcher at a time holds it, but for one
      more for every retry that committed while it was processing, and each of those found it untouched
      for more than the window. */
  lemma HoldersAreBounded(s: State, run: seq<Step>)
    requires s.kind.Dispatched? && s.event.status.Pending? && s.holders == [] && Timely(s) && Admissible(s, run)
    ensures |Execute(s, run).holders| <= 1 + |Takeovers(s, run)|
    ensures var t := Execute(s, run);
            Takeovers(s, run) == [] && (t.event.status.Pending? || t.event.status.Failed?) ==> t.holders == []
    ensures forall x :: x in Takeovers(s, run) ==> x.at - x.event.updatedAt > 900_000
  {
    RunKeepsHoldersWithin(s, run, 0);
    TakeoversAreStale(s, run);
  }

  /** A new event of a kind. */
  function NewEvent(kind: Kind): State {
    State(kind, Event(Pending, 0, 0), 0, [], [])
  }

  lemma RunCons(s: State, step: Step, rest: seq<Step>, next: State) returns (run: seq<Step>)
    requires Enabled(s, step) && Apply(s, step) == next && Admissible(next, rest)
    ensures run == [step] + rest && Admissible(s, run) && Execute(s, run) == Execute(next, rest)
  {
    run := [step] + rest;
    assert run[1..] == rest;
  }

  /** The second dispatcher is real: after the window one retry lets the event be claimed again while its
      first dispatcher is still at work. */
  lemma TwoDispatchersCanHold() returns (run: seq<Step>)
    ensures Admissible(NewEvent(Dispatched), run)
    ensures Execute(NewEvent(Dispatched), run).event.status.Processing?
    ensures Execute(NewEvent(Dispatched), run).holders == [Dispatcher(1), Dispatcher(2)]
  {
    var late := OUTBOX_STALE_MS + 1;
    var s1 := State(Dispatched, Event(Processing, 0, 1), 0, [], [Dispatcher(1)]);
    var s2 := s1.(clock := late);
    var s3 := s2.(open := [Retry(late)]);
    var s4 := State(Dispatched, Event(Pending, late, 1), late, [], [Dispatcher(1)]);
    var s5 := State(Dispatched, Event(Processing, late, 2), late, [], [Dispatcher(1), Dispatcher(2)]);
    run := RunCons(s4, Claim, [], s5);
    run := RunCons(s3, Commit(0), run, s4);
    run := RunCons(s2, Begin(Retry(late)), run, s3);
    run := RunCons(s1, Tick(late), run, s2);
    run := RunCons(NewEvent(Dispatched), Claim, run, s1);
  }

  // ----- Whose claim a report finds -----

  /** Whoever holds a processing event holds the present claim. */
  predicate HeldByClaimant(s: State) {
    s.event.status.Processing? ==>
      forall i :: 0 <= i < |s.holders| ==> s.holders[i] == Dispatcher(s.event.attempts)
  }

  lemma {:induction false} RunKeepsClaimant(s: State, run: seq<Step>)
    requires s.kind.Dispatched? && HoldersWithin(s, 0) && HeldByClaimant(s) && Admissible(s, run)
    requires Takeovers(s, run) == []
    ensures HeldByClaimant(Execute(s, run))
    decreases |run|
  {
    if run != [] {
      RunKeepsHoldersWithin(s, [run[0]], 0);
      assert Execute(s, [run[0]]) == Apply(s, run[0]) && Takeovers(s, [run[0]]) == [];
      RunKeepsClaimant(Apply(s, run[0]), run[1..]);
    }
  }

  /** In every run from a fresh event a holder that is not the present claimant of a processing event, and
      whose report would end another's claim, is there only after a takeover. */
  lemma ReportsEndTheirOwnClaim(s: State, run: seq<Step>, id: nat)
    requires s.kind.Dispatched? && s.event.status.Pending? && s.holders == [] && Admissible(s, run)
    requires id < |Execute(s, run).holders| && Execute(s, run).event.status.Processing?
    ensures Execute(s, run).holders[id] == Dispatcher(Execute(s, run).event.attempts) || Takeovers(s, run) != []
  {
    if Takeovers(s, run) == [] {
      RunKeepsClaimant(s, run);
    }
  }

  /** After one, the first dispatcher's late report does end the second's claim: the event is completed
      while its claimant is still at work. */
  lemma LateReportEndsAnotherClaim() returns (run: seq<Step>)
    ensures Admissible(NewEvent(Dispatched), run) && run != [] && run[|run| - 1] == Complete(0)
    ensures var t := Execute(NewEvent(Dispatched), run);
            t.event.status.Completed? && t.event.attempts == 2 && t.holders == [Dispatcher(2)]
  {
    var late := OUTBOX_STALE_MS + 1;
    var s1 := State(Dispatched, Event(Processing, 0, 1), 0, [], [Dispatcher(1)]);
    var s2 := s1.(clock := late);
    var s3 := s2.(open := [Retry(late)]);
    var s4 := State(Dispatched, Event(Pending, late, 1), late, [], [Dispatcher(1)]);
    var s5 := State(Dispatched, Event(Processing, late, 2), late, [], [Dispatcher(1), Dispatcher(2)]);
    run := RunCons(s5, Complete(0), [], State(Dispatched, Event(Completed, late, 2), late, [], [Dispatcher(2)]));
    run := RunCons(s4, Claim, run, s5);
    run := RunCons(s3, Commit(0), run, s4);
    run := RunCons(s2, Begin(Retry(late)), run, s3);
    run := RunCons(s1, Tick(late), run, s2);
    run := RunCons(NewEvent(Dispatched), Claim, run, s1);
  }

  // ----- ARCHIVED -----

  /** Only the report of a holder takes an event out of ARCHIVED: no admin action does, whatever it had
      read, and no claim can. */
  lemma {:induction false} OnlyReportsLeaveArchived(s: State, run: seq<Step>)
    requires s.event.status.Archived? && Admissible(s, run)
    requires forall step :: step in run ==> !step.Complete? && !step.CompleteUnanswered? && !step.Fail?
    ensures Execute(s, run).event.status.Archived?
    decreases |run|
  {
    if run != [] {
      assert run[0] in run;
      assert forall step :: step in run[1..] ==> step in run;
      OnlyReportsLeaveArchived(Apply(s, run[0]), run[1..]);
    }
  }

  /** An event archived while nothing holds it stays archived through every run: nothing can take it, and
      no retry can commit. */
  lemma {:induction false} ArchivedForGood(s: State, run: seq<Step>)
    requires s.event.status.Archived? && s.holders == [] && Admissible(s, run)
    ensures Execute(s, run).event.status.Archived? && Execute(s, run).holders == []
    decreases |run|
  {
    if run != [] {
      ArchivedForGood(Apply(s, run[0]), run[1..]);
    }
  }

  predicate LeavesArchived(s: State, run: seq<Step>) {
    Admissible(s, run) && !Execute(s, run).event.status.Archived?
  }

  /** An archived event can leave ARCHIVED exactly when a dispatcher or a notifier still holds it: its
      report, being unguarded, overwrites the status. */
  lemma ArchivedCanBeLeft(s: State)
    requires s.event.status.Archived?
    ensures (exists run :: LeavesArchived(s, run)) <==> s.holders != []
  {
    if s.holders != [] {
      var run := [Complete(0)];
      assert run[1..] == [];
      assert Admissible(Apply(s, run[0]), run[1..]);
      assert Execute(s, run) == Apply(s, run[0]);
      assert LeavesArchived(s, run);
    } else {
      forall run ensures !LeavesArchived(s, run) {
        if Admissible(s, run) {
          ArchivedForGood(s, run);
        }
      }
    }
  }

  /** Such a state is reached from a new event: a dispatched one can be archived under its dispatcher once
      it is stale. */
  lemma ArchivedUnderDispatcher() returns (run: seq<Step>)
    ensures Admissible(NewEvent(Dispatched), run)
    ensures var t := Execute(NewEvent(Dispatched), run); t.event.status.Archived? && t.holders == [Dispatcher(1)]
  {
    var late := OUTBOX_STALE_MS + 1;
    var s1 := State(Dispatched, Event(Processing, 0, 1), 0, [], [Dispatcher(1)]);
    var s2 := s1.(clock := late);
    var s3 := s2.(open := [Archive(late)]);
    run := RunCons(s3, Commit(0), [], State(Dispatched, Event(Archived, late, 1), late, [], [Dispatcher(1)]));
    run := RunCons(s2, Begin(Archive(late)), run, s3);
    run := RunCons(s1, Tick(late), run, s2);
    run := RunCons(NewEvent(Dispatched), Claim, run, s1);
  }

  /** A completed event can be archived under its dispatcher at once, if the answer to the completion was
      lost; the dispatcher then reports a failure, and the event is pending again. */
  lemma ArchivedAfterLostAnswer() returns (archived: seq<Step>, reported: seq<Step>)
    ensures Admissible(NewEvent(Dispatched), archived) && Admissible(NewEvent(Dispatched), archived + reported)
    ensures var t := Execute(NewEvent(Dispatched), archived);
            t.event.status.Archived? && t.clock == 0 && t.holders == [Dispatcher(1)]
    ensures Execute(NewEvent(Dispatched), archived + reported).event.status.Pending?
  {
    var s0 := NewEvent(Dispatched);
    var s1 := State(Dispatched, Event(Processing, 0, 1), 0, [], [Dispatcher(1)]);
    var s2 := State(Dispatched, Event(Completed, 0, 1), 0, [], [Dispatcher(1)]);
    var s3 := s2.(open := [Archive(0)]);
    var s4 := State(Dispatched, Event(Archived, 0, 1), 0, [], [Dispatcher(1)]);
    archived := RunCons(s3, Commit(0), [], s4);
    archived := RunCons(s2, Begin(Archive(0)), archived, s3);
    archived := RunCons(s1, CompleteUnanswered(0), archived, s2);
    archived := RunCons(s0, Claim, archived, s1);
    reported := [Fail(0)];
    var whole := RunCons(s4, Fail(0), [], State(Dispatched, Event(Pending, 0, 1), 0, [], []));
    whole := RunCons(s3, Commit(0), whole, s4);
    whole := RunCons(s2, Begin(Archive(0)), whole, s3);
    whole := RunCons(s1, CompleteUnanswered(0), whole, s2);
    whole := RunCons(s0, Claim, whole, s1);
    assert whole == archived + reported;
  }

  /** A quota warning can be archived under its notifier at once, because a notifier leaves the event
      pending while it works; the notifier's report then takes it out of ARCHIVED. */
  lemma ArchivedUnderNotifier() returns (archived: seq<Step>, reported: seq<Step>)
    ensures Admissible(NewEvent(QuotaWarning), archived) && Admissible(NewEvent(QuotaWarning), archived + reported)
    ensures var t := Execute(NewEvent(QuotaWarning), archived); t.event.status.Archived? && t.holders == [Notifier(0)]
    ensures Execute(NewEvent(QuotaWarning), archived + reported).event.status.Completed?
  {
    var s0, s1 := NewEvent(QuotaWarning), State(QuotaWarning, Event(Pending, 0, 0), 0, [], [Notifier(0)]);
    var s2 := s1.(open := [Archive(0)]);
    var s3 := State(QuotaWarning, Event(Archived, 0, 0), 0, [], [Notifier(0)]);
    archived := RunCons(s2, Commit(0), [], s3);
    archived := RunCons(s1, Begin(Archive(0)), archived, s2);
    archived := RunCons(s0, Take(0), archived, s1);
    reported := [Complete(0)];
    var whole := RunCons(s3, Complete(0), [], State(QuotaWarning, Event(Completed, 0, 0), 0, [], []));
    whole := RunCons(s2, Commit(0), whole, s3);
    whole := RunCons(s1, Begin(Archive(0)), whole, s2);
    whole := RunCons(s0, Take(0), whole, s1);
    assert whole == archived + reported;
  }

  /** In every run, an admin action that still can change a processing event finds it untouched for more
      than the whole window at the moment of its update, not only at the moment of its check. */
  lemma TakenOverEventsAreStale(s: State, run: seq<Step>, id: nat)
    requires Timely(s) && Admissible(s, run) && id < |Execute(s, run).open|
    ensures var t := Execute(s, run);
            t.event.status.Processing? && Guard(t.event, t.open[id]) ==> t.clock - t.event.updatedAt > 900_000
  {
    RunsAreTimely(s, run);
  }
}
