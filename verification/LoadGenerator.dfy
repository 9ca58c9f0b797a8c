/**
 The closed-loop load generator (bench/loadgen.py): workers share a locked ticket counter and a
 locked record list. Lock, read, write and append are separate steps, interleaved arbitrarily.
 */
module LoadGenerator {
  import opened Results
  import opened Arithmetic

  /** The shared request counter; `Take` runs entirely under its lock. */
  class Counters {
    var started: nat

    constructor ()
      ensures started == 0
    {
      started := 0;
    }

    method Take(limit: nat) returns (ok: bool)
      modifies this
      ensures ok <==> old(started) < limit
      ensures started == if ok then old(started) + 1 else old(started)
    {
      if started >= limit { return false; }
      started := started + 1;
      return true;
    }
  }

  /** Where a worker stands. From `Requesting` to `Appending` its ticket's request is in flight. */
  datatype Pc =
    | Idle                       // top of the loop, before the deadline check
    | WantTicket                 // about to take the counter lock
    | HoldTicket                 // holds the counter lock, before the limit check
    | Bumping(seen: nat)         // holds the counter lock, has read the counter, has yet to write it
    | Requesting(ticket: nat)    // the request is out
    | WantRecord(ticket: nat)    // about to take the record lock
    | Appending(ticket: nat)     // holds the record lock, before the append
    | Notifying                  // holds the record lock, before the progress callback
    | Exited

  /** `records` lists, in order of arrival, the ticket each stored record was issued for. */
  datatype State = State(
    pcs: seq<Pc>,
    started: nat,
    ticketLock: Option<nat>,
    records: seq<nat>,
    recordLock: Option<nat>,
    progress: seq<nat>)

  /** A run's fixed parameters; `timed` when a deadline, rather than a request count, ends it. */
  datatype Params = Params(concurrency: nat, limit: nat, timed: bool)

  const UNLIMITED := 1_000_000

  /** The argument checks of `run_at_concurrency`. */
  function Prepare(concurrency: int, nRequests: Option<int>, duration: Option<real>): Result<Params> {
    if concurrency < 1 then Err(ValueError)
    else if nRequests.None? == duration.None? then Err(ValueError)
    else if nRequests.Some? && nRequests.value < 1 then Err(ValueError)
    else Ok(Params(concurrency, if nRequests.Some? then nRequests.value else UNLIMITED, duration.Some?))
  }

  /** Which calls are accepted: a worker at least, and either a positive count or a duration, not both. */
  lemma PrepareExactly(concurrency: int, nRequests: Option<int>, duration: Option<real>)
    ensures var p := Prepare(concurrency, nRequests, duration);
            && (p.Ok? <==> concurrency >= 1
                           && ((nRequests.Some? && nRequests.value >= 1 && duration == None)
                               || (nRequests == None && duration.Some?)))
            && (p.Err? ==> p.error == ValueError)
            && (p.Ok? ==> p.value.concurrency == concurrency
                          && (p.value.timed <==> duration.Some?)
                          && p.value.limit == if nRequests.Some? then nRequests.value else 1_000_000)
  {}

  function Init(p: Params): State {
    State(seq(p.concurrency, i => Idle), 0, None, [], None, [])
  }

  /** The states worker `w` can move to next. */
  ghost predicate Step(p: Params, s: State, s': State, w: nat) {
    && w < |s.pcs|
    && match s.pcs[w]
       case Idle =>
         || s' == s.(pcs := s.pcs[w := WantTicket])
         || (p.timed && s' == s.(pcs := s.pcs[w := Exited]))
       case WantTicket =>
         s.ticketLock == None && s' == s.(pcs := s.pcs[w := HoldTicket], ticketLock := Some(w))
       case HoldTicket =>
         if s.started >= p.limit then s' == s.(pcs := s.pcs[w := Exited], ticketLock := None)
         else s' == s.(pcs := s.pcs[w := Bumping(s.started)])
       case Bumping(seen) =>
         s' == s.(pcs := s.pcs[w := Requesting(seen)], started := seen + 1, ticketLock := None)
       case Requesting(ticket) =>
         s' == s.(pcs := s.pcs[w := WantRecord(ticket)])
       case WantRecord(ticket) =>
         s.recordLock == None && s' == s.(pcs := s.pcs[w := Appending(ticket)], recordLock := Some(w))
       case Appending(ticket) =>
         s' == s.(pcs := s.pcs[w := Notifying], records := s.records + [ticket])
       case Notifying =>
         s' == s.(pcs := s.pcs[w := Idle], progress := s.progress + [|s.records|], recordLock := None)
       case Exited => false
  }

  ghost predicate Next(p: Params, s: State, s': State) {
    exists w: nat :: Step(p, s, s', w)
  }

  /** A run from the initial state, one step at a time. */
  ghost predicate Run(p: Params, trace: seq<State>) {
    && trace != [] && trace[0] == Init(p)
    && forall i: nat :: i + 1 < |trace| ==> Next(p, trace[i], trace[i + 1])
  }

  /** Nobody can move. */
  ghost predicate Stuck(p: Params, s: State) {
    forall s' :: !Next(p, s, s')
  }

  ghost predicate Finished(s: State) {
    forall w :: 0 <= w < |s.pcs| ==> s.pcs[w].Exited?
  }

  // ---------------------------------------------------------------- tickets in flight

  function TicketOf(pc: Pc): multiset<nat> {
    match pc
    case Requesting(t) => multiset{t}
    case WantRecord(t) => multiset{t}
    case Appending(t) => multiset{t}
    case _ => multiset{}
  }

  ghost function InFlight(pcs: seq<Pc>): (m: multiset<nat>)
    ensures |m| <= |pcs|
  {
    if pcs == [] then multiset{} else TicketOf(pcs[0]) + InFlight(pcs[1..])
  }

  lemma {:induction false} InFlightUpdate(pcs: seq<Pc>, w: nat, pc: Pc)
    requires w < |pcs|
    ensures InFlight(pcs[w := pc]) + TicketOf(pcs[w]) == InFlight(pcs) + TicketOf(pc)
    decreases w
  {
    hide TicketOf;
    if w == 0 {
      assert pcs[w := pc][1..] == pcs[1..];
    } else {
      var tail := pcs[1..];
      assert pcs[w := pc][1..] == tail[w - 1 := pc];
      InFlightUpdate(tail, w - 1, pc);
      var head, was, now := TicketOf(pcs[0]), InFlight(tail), InFlight(tail[w - 1 := pc]);
      assert InFlight(pcs[w := pc]) == head + now && InFlight(pcs) == head + was;
      assert head + now + TicketOf(pcs[w]) == head + (now + TicketOf(pcs[w]));
      assert head + was + TicketOf(pc) == head + (was + TicketOf(pc));
    }
  }

  lemma {:induction false} NoneInFlight(pcs: seq<Pc>)
    requires forall w :: 0 <= w < |pcs| ==> TicketOf(pcs[w]) == multiset{}
    ensures InFlight(pcs) == multiset{}
    decreases |pcs|
  {
    if pcs != [] { NoneInFlight(pcs[1..]); }
  }

  /** The first `n` tickets, once each. */
  ghost function Tickets(n: nat): (m: multiset<nat>)
    ensures |m| == n
  {
    if n == 0 then multiset{} else Tickets(n - 1) + multiset{n - 1}
  }

  function UpTo(n: nat): (s: seq<nat>)
    ensures |s| == n
  {
    if n == 0 then [] else UpTo(n - 1) + [n]
  }

  // ---------------------------------------------------------------- the invariant

  predicate HoldsTicketLock(pc: Pc) { pc.HoldTicket? || pc.Bumping? }

  predicate HoldsRecordLock(pc: Pc) { pc.Appending? || pc.Notifying? }

  ghost predicate Exclusive(pcs: seq<Pc>, lock: Option<nat>, holds: Pc -> bool) {
    && (lock.Some? ==> lock.value < |pcs| && holds(pcs[lock.value]))
    && forall w: nat :: w < |pcs| && holds(pcs[w]) ==> lock == Some(w)
  }

  ghost predicate LocksHeld(s: State) {
    && Exclusive(s.pcs, s.ticketLock, HoldsTicketLock)
    && Exclusive(s.pcs, s.recordLock, HoldsRecordLock)
  }

  /** Every ticket issued is either recorded or in flight, and only once. */
  ghost predicate TicketsConserved(s: State) {
    multiset(s.records) + InFlight(s.pcs) == Tickets(s.started)
  }

  /** Callbacks have counted every record but the one whose callback is pending. */
  ghost predicate ProgressInOrder(s: State) {
    var pending := s.recordLock.Some? && s.recordLock.value < |s.pcs| && s.pcs[s.recordLock.value].Notifying?;
    (pending ==> s.records != []) && s.progress == UpTo(if pending then |s.records| - 1 else |s.records|)
  }

  ghost predicate Inv(p: Params, s: State) {
    && |s.pcs| == p.concurrency
    && s.started <= p.limit
    && LocksHeld(s)
    && ReadsAreFresh(p, s)
    && TicketsConserved(s)
    && ProgressInOrder(s)
    && (!p.timed && (exists w: nat :: w < |s.pcs| && s.pcs[w].Exited?) ==> s.started == p.limit)
  }

  lemma InitInv(p: Params)
    ensures Inv(p, Init(p))
  {
    NoneInFlight(Init(p).pcs);
  }

  lemma ExclusiveKept(pcs: seq<Pc>, lock: Option<nat>, holds: Pc -> bool, w: nat, pc: Pc)
    requires w < |pcs| && Exclusive(pcs, lock, holds) && holds(pc) == holds(pcs[w])
    ensures Exclusive(pcs[w := pc], lock, holds)
  {}

  lemma ExclusiveAcquired(pcs: seq<Pc>, holds: Pc -> bool, w: nat, pc: Pc)
    requires w < |pcs| && Exclusive(pcs, None, holds) && holds(pc)
    ensures Exclusive(pcs[w := pc], Some(w), holds)
  {}

  lemma ExclusiveReleased(pcs: seq<Pc>, lock: Option<nat>, holds: Pc -> bool, w: nat, pc: Pc)
    requires w < |pcs| && Exclusive(pcs, lock, holds) && holds(pcs[w]) && !holds(pc)
    ensures Exclusive(pcs[w := pc], None, holds)
  {}

  lemma StepKeepsTicketLock(p: Params, s: State, s': State, w: nat)
    requires Step(p, s, s', w) && Exclusive(s.pcs, s.ticketLock, HoldsTicketLock)
    ensures Exclusive(s'.pcs, s'.ticketLock, HoldsTicketLock)
  {
    hide Exclusive;
    var pc := s'.pcs[w];
    assert s'.pcs == s.pcs[w := pc];
    if s.pcs[w].WantTicket? {
      ExclusiveAcquired(s.pcs, HoldsTicketLock, w, pc);
    } else if HoldsTicketLock(s.pcs[w]) && !HoldsTicketLock(pc) {
      ExclusiveReleased(s.pcs, s.ticketLock, HoldsTicketLock, w, pc);
    } else {
      ExclusiveKept(s.pcs, s.ticketLock, HoldsTicketLock, w, pc);
    }
  }

  lemma StepKeepsRecordLock(p: Params, s: State, s': State, w: nat)
    requires Step(p, s, s', w) && Exclusive(s.pcs, s.recordLock, HoldsRecordLock)
    ensures Exclusive(s'.pcs, s'.recordLock, HoldsRecordLock)
  {
    hide Exclusive;
    var pc := s'.pcs[w];
    assert s'.pcs == s.pcs[w := pc];
    if s.pcs[w].WantRecord? {
      ExclusiveAcquired(s.pcs, HoldsRecordLock, w, pc);
    } else if s.pcs[w].Notifying? {
      ExclusiveReleased(s.pcs, s.recordLock, HoldsRecordLock, w, pc);
    } else {
      ExclusiveKept(s.pcs, s.recordLock, HoldsRecordLock, w, pc);
    }
  }

  /** The counter a worker has read under the lock is still the counter when it writes. */
  ghost predicate ReadsAreFresh(p: Params, s: State) {
    forall w: nat :: w < |s.pcs| && s.pcs[w].Bumping? ==> s.pcs[w].seen == s.started < p.limit
  }

  lemma StepKeepsReadsFresh(p: Params, s: State, s': State, w: nat)
    requires Step(p, s, s', w) && Exclusive(s.pcs, s.ticketLock, HoldsTicketLock)
    requires ReadsAreFresh(p, s) && s.started <= p.limit
    ensures ReadsAreFresh(p, s') && s'.started <= p.limit
  {
    forall v: nat | v < |s'.pcs| && s'.pcs[v].Bumping? ensures s'.pcs[v].seen == s'.started < p.limit {
      if v != w {
        assert s'.pcs[v] == s.pcs[v] && HoldsTicketLock(s.pcs[v]);
        assert !HoldsTicketLock(s.pcs[w]);
      }
    }
  }

  /** Issuing ticket `started` moves the counter and the in-flight set together. */
  lemma IssueConserves(pcs: seq<Pc>, w: nat, started: nat, records: multiset<nat>)
    requires w < |pcs| && TicketOf(pcs[w]) == multiset{}
    requires records + InFlight(pcs) == Tickets(started)
    ensures records + InFlight(pcs[w := Requesting(started)]) == Tickets(started + 1)
  {
    InFlightUpdate(pcs, w, Requesting(started));
    assert InFlight(pcs[w := Requesting(started)]) == InFlight(pcs) + multiset{started};
  }

  /** Appending a record moves its ticket from in flight to recorded. */
  lemma AppendConserves(pcs: seq<Pc>, w: nat, ticket: nat, records: seq<nat>, all: multiset<nat>)
    requires w < |pcs| && pcs[w] == Appending(ticket)
    requires multiset(records) + InFlight(pcs) == all
    ensures multiset(records + [ticket]) + InFlight(pcs[w := Notifying]) == all
  {
    InFlightUpdate(pcs, w, Notifying);
    assert TicketOf(pcs[w]) == multiset{ticket} && TicketOf(Notifying) == multiset{};
    MoveAcross(multiset(records), InFlight(pcs), InFlight(pcs[w := Notifying]), multiset{ticket});
  }

  lemma MoveAcross(recorded: multiset<nat>, before: multiset<nat>, after: multiset<nat>, ticket: multiset<nat>)
    requires after + ticket == before + multiset{}
    ensures recorded + ticket + after == recorded + before
  {
    forall x ensures (recorded + ticket + after)[x] == (recorded + before)[x] {
      assert (after + ticket)[x] == (before + multiset{})[x];
    }
  }

  /** Any other step leaves the in-flight set alone. */
  lemma MoveConserves(pcs: seq<Pc>, w: nat, pc: Pc)
    requires w < |pcs| && TicketOf(pc) == TicketOf(pcs[w])
    ensures InFlight(pcs[w := pc]) == InFlight(pcs)
  {
    InFlightUpdate(pcs, w, pc);
    hide TicketOf;
    Cancel(InFlight(pcs), InFlight(pcs[w := pc]), TicketOf(pc));
  }

  lemma QuietStep(p: Params, s: State, s': State, w: nat)
    requires Step(p, s, s', w) && !s.pcs[w].Bumping? && !s.pcs[w].Appending?
    ensures s'.records == s.records && s'.started == s.started
    ensures s'.pcs == s.pcs[w := s'.pcs[w]] && TicketOf(s'.pcs[w]) == TicketOf(s.pcs[w])
  {}

  lemma StepConservesTickets(p: Params, s: State, s': State, w: nat)
    requires Step(p, s, s', w) && ReadsAreFresh(p, s) && TicketsConserved(s)
    ensures TicketsConserved(s')
  {
    if s.pcs[w].Bumping? {
      IssueConserves(s.pcs, w, s.started, multiset(s.records));
    } else if s.pcs[w].Appending? {
      AppendConserves(s.pcs, w, s.pcs[w].ticket, s.records, Tickets(s.started));
    } else {
      QuietStep(p, s, s', w);
      hide Step, TicketOf;
      MoveConserves(s.pcs, w, s'.pcs[w]);
    }
  }

  lemma Cancel(a: multiset<nat>, b: multiset<nat>, c: multiset<nat>)
    requires b + c == a + c
    ensures a == b
  {
    forall x ensures a[x] == b[x] { assert (a + c)[x] == (b + c)[x]; }
  }

  lemma StepKeepsProgress(p: Params, s: State, s': State, w: nat)
    requires Step(p, s, s', w) && ProgressInOrder(s)
    requires Exclusive(s.pcs, s.recordLock, HoldsRecordLock)
    ensures ProgressInOrder(s')
  {
    if s.pcs[w].Appending? || s.pcs[w].Notifying? {
      assert HoldsRecordLock(s.pcs[w]);
    } else if s.pcs[w].WantRecord? {
      assert s'.pcs[w].Appending?;
    } else {
      assert !HoldsRecordLock(s.pcs[w]) && s'.recordLock == s.recordLock;
      assert s.recordLock.Some? ==> s'.pcs[s.recordLock.value] == s.pcs[s.recordLock.value];
    }
  }

  /** A worker of an untimed run leaves only once every ticket is out. */
  lemma StepKeepsExits(p: Params, s: State, s': State, w: nat)
    requires Inv(p, s) && Step(p, s, s', w)
    ensures !p.timed && (exists v: nat :: v < |s'.pcs| && s'.pcs[v].Exited?) ==> s'.started == p.limit
  {
    if !p.timed && exists v: nat :: v < |s'.pcs| && s'.pcs[v].Exited? {
      var v: nat :| v < |s'.pcs| && s'.pcs[v].Exited?;
      if v != w { assert s.pcs[v].Exited?; }
    }
  }

  lemma StepKeepsInv(p: Params, s: State, s': State, w: nat)
    requires Inv(p, s) && Step(p, s, s', w)
    ensures Inv(p, s')
  {
    StepKeepsTicketLock(p, s, s', w);
    StepKeepsRecordLock(p, s, s', w);
    StepKeepsReadsFresh(p, s, s', w);
    StepConservesTickets(p, s, s', w);
    StepKeepsProgress(p, s, s', w);
    StepKeepsExits(p, s, s', w);
  }

  lemma {:induction false} RunKeepsInv(p: Params, trace: seq<State>, i: nat)
    requires Run(p, trace) && i < |trace|
    ensures Inv(p, trace[i])
    decreases i
  {
    if i == 0 {
      InitInv(p);
    } else {
      RunKeepsInv(p, trace, i - 1);
      assert Next(p, trace[i - 1], trace[(i - 1) + 1]);
      var w: nat :| Step(p, trace[i - 1], trace[i], w);
      StepKeepsInv(p, trace[i - 1], trace[i], w);
    }
  }

  // ---------------------------------------------------------------- main results

  /** Safety over every run: issued = recorded + in flight, never above the limit, never more in flight than workers. */
  lemma RunsAreSafe(p: Params, trace: seq<State>, i: nat)
    requires Run(p, trace) && i < |trace|
    ensures var s := trace[i];
            && s.started == |s.records| + |InFlight(s.pcs)| <= p.limit
            && |InFlight(s.pcs)| <= Min(p.concurrency, p.limit)
            && s.progress <= UpTo(|s.records|)
            && (!p.timed ==> forall w: nat :: w < |s.pcs| && s.pcs[w].Exited? ==> s.started == p.limit)
  {
    RunKeepsInv(p, trace, i);
    var s := trace[i];
    assert |multiset(s.records)| == |s.records|;
    assert |multiset(s.records) + InFlight(s.pcs)| == |Tickets(s.started)|;
  }

  // ---------------------------------------------------------------- how much load is really applied

  predicate HasRequest(pc: Pc) { pc.Requesting? || pc.WantRecord? || pc.Appending? }

  predicate AllHaveRequests(pcs: seq<Pc>) { forall w :: 0 <= w < |pcs| ==> HasRequest(pcs[w]) }

  /** The load is the full concurrency exactly when no worker is between requests or gone. */
  lemma {:induction false} FullLoadExactly(pcs: seq<Pc>)
    ensures |InFlight(pcs)| == |pcs| <==> AllHaveRequests(pcs)
    decreases |pcs|
  {
    hide TicketOf, HasRequest, AllHaveRequests;
    if pcs == [] {
      NobodyHasAll();
    } else {
      FullLoadExactly(pcs[1..]);
      TicketSize(pcs[0]);
      HeadAndTail(pcs);
    }
  }

  lemma NobodyHasAll()
    ensures AllHaveRequests([])
  {}

  lemma TicketSize(pc: Pc)
    ensures |TicketOf(pc)| == if HasRequest(pc) then 1 else 0
  {}

  lemma HeadAndTail(pcs: seq<Pc>)
    requires pcs != []
    ensures AllHaveRequests(pcs) <==> HasRequest(pcs[0]) && AllHaveRequests(pcs[1..])
  {
    hide HasRequest;
    assert pcs == [pcs[0]] + pcs[1..];
  }

  /** Every worker awaits a response or has left: nobody is on the way from one request to the next. */
  ghost predicate Settled(s: State) {
    forall w :: 0 <= w < |s.pcs| ==> s.pcs[w].Requesting? || s.pcs[w].Exited?
  }

  /**
   With a request count, a settled run applies the full concurrency for as long as that many requests
   are left to record, and from then on exactly those that are left.
   */
  lemma SettledLoadExactly(p: Params, trace: seq<State>, i: nat)
    requires Run(p, trace) && i < |trace| && !p.timed && Settled(trace[i])
    ensures |InFlight(trace[i].pcs)| == Min(p.concurrency, p.limit - |trace[i].records|)
  {
    RunsAreSafe(p, trace, i);
    RunKeepsInv(p, trace, i);
    FullLoadExactly(trace[i].pcs);
    hide InFlight, Run;
  }

  /** The first `n` workers each have a request out; the others have not begun. */
  function Loaded(p: Params, n: nat): State
    requires n <= p.concurrency
  {
    State(seq(p.concurrency, w requires w >= 0 => if w < n then Requesting(w) else Idle), n, None, [], None, [])
  }

  lemma ExtendRun(p: Params, trace: seq<State>, s': State, w: nat)
    requires Run(p, trace) && Step(p, trace[|trace| - 1], s', w)
    ensures Run(p, trace + [s'])
  {
    var longer := trace + [s'];
    hide Step;
    forall i: nat | i + 1 < |longer| ensures Next(p, longer[i], longer[i + 1]) {
      if i + 1 < |trace| { assert Next(p, trace[i], trace[i + 1]); }
    }
  }

  /** Worker `n` goes from idle to having its request out. */
  lemma StartOne(p: Params, trace: seq<State>, n: nat) returns (longer: seq<State>)
    requires n < p.concurrency && n < p.limit
    requires Run(p, trace) && trace[|trace| - 1] == Loaded(p, n)
    ensures Run(p, longer) && longer[|longer| - 1] == Loaded(p, n + 1)
  {
    hide Run;
    var s := Loaded(p, n);
    var s1 := s.(pcs := s.pcs[n := WantTicket]);
    var s2 := s1.(pcs := s1.pcs[n := HoldTicket], ticketLock := Some(n));
    var s3 := s2.(pcs := s2.pcs[n := Bumping(n)]);
    var s4 := s3.(pcs := s3.pcs[n := Requesting(n)], started := n + 1, ticketLock := None);
    ExtendRun(p, trace, s1, n);
    ExtendRun(p, trace + [s1], s2, n);
    ExtendRun(p, trace + [s1] + [s2], s3, n);
    ExtendRun(p, trace + [s1] + [s2] + [s3], s4, n);
    longer := trace + [s1] + [s2] + [s3] + [s4];
    assert s4.pcs == Loaded(p, n + 1).pcs;
  }

  lemma {:induction false} StartMany(p: Params, n: nat) returns (trace: seq<State>)
    requires n <= p.concurrency && n <= p.limit
    ensures Run(p, trace) && trace[|trace| - 1] == Loaded(p, n)
    decreases n
  {
    if n == 0 {
      trace := [Init(p)];
      assert Init(p).pcs == Loaded(p, 0).pcs;
    } else {
      var shorter := StartMany(p, n - 1);
      trace := StartOne(p, shorter, n - 1);
    }
  }

  /**
   "Exactly `concurrency` requests in flight" is reached by some run exactly when the call may issue that
   many requests at all; a smaller request count leaves workers without one in every run.
   */
  lemma FullLoadReachedExactly(p: Params)
    ensures (exists trace: seq<State>, i: nat ::
               Run(p, trace) && i < |trace| && |InFlight(trace[i].pcs)| == p.concurrency)
            <==> p.limit >= p.concurrency
  {
    if p.limit >= p.concurrency {
      var trace := StartMany(p, p.concurrency);
      var last: nat := |trace| - 1;
      FullLoadExactly(trace[last].pcs);
      assert Run(p, trace) && last < |trace| && |InFlight(trace[last].pcs)| == p.concurrency;
    } else if exists trace: seq<State>, i: nat ::
        Run(p, trace) && i < |trace| && |InFlight(trace[i].pcs)| == p.concurrency {
      var trace: seq<State>, i: nat :| Run(p, trace) && i < |trace| && |InFlight(trace[i].pcs)| == p.concurrency;
      RunsAreSafe(p, trace, i);
    }
  }

  /** Worker `w` is inside its critical section, having entered it when the counter read `n`. */
  ghost predicate InSection(p: Params, s: State, w: nat, n: nat) {
    && w < |s.pcs| && s.started == n
    && (s.pcs[w].HoldTicket? || (s.pcs[w] == Bumping(n) && n < p.limit))
  }

  /** The lock keeps everyone else away from the counter. */
  lemma OthersKeepSection(p: Params, s: State, s': State, w: nat, v: nat, n: nat)
    requires Exclusive(s.pcs, s.ticketLock, HoldsTicketLock) && Step(p, s, s', v) && v != w && InSection(p, s, w, n)
    ensures InSection(p, s', w, n)
  {
    assert HoldsTicketLock(s.pcs[w]) && !HoldsTicketLock(s.pcs[v]);
  }

  lemma OwnStep(p: Params, s: State, s': State, w: nat, n: nat)
    requires Step(p, s, s', w) && InSection(p, s, w, n)
    ensures InSection(p, s', w, n) || (w < |s'.pcs| && !HoldsTicketLock(s'.pcs[w]) && Taken(p, s', w, n))
  {}

  lemma SectionStep(p: Params, trace: seq<State>, k: nat, w: nat, n: nat)
    requires Run(p, trace) && k + 1 < |trace| && InSection(p, trace[k], w, n)
    ensures InSection(p, trace[k + 1], w, n)
            || (w < |trace[k + 1].pcs| && !HoldsTicketLock(trace[k + 1].pcs[w]) && Taken(p, trace[k + 1], w, n))
  {
    RunKeepsInv(p, trace, k);
    assert Next(p, trace[k], trace[k + 1]);
    var v: nat :| Step(p, trace[k], trace[k + 1], v);
    hide Step, InSection, Exclusive, Run, Taken, HoldsTicketLock;
    if v == w { OwnStep(p, trace[k], trace[k + 1], w, n); } else { OthersKeepSection(p, trace[k], trace[k + 1], w, v, n); }
  }

  /** What `Take` promises: a ticket and one more on the counter while below the limit, else nothing. */
  ghost predicate Taken(p: Params, s: State, w: nat, n: nat)
    requires w < |s.pcs|
  {
    if n < p.limit then s.pcs[w] == Requesting(n) && s.started == n + 1
    else s.pcs[w].Exited? && s.started == n
  }

  lemma {:induction false} SectionHolds(p: Params, trace: seq<State>, i: nat, k: nat, w: nat)
    requires Run(p, trace) && i <= k < |trace| && w < |trace[i].pcs| && trace[i].pcs[w].HoldTicket?
    requires forall j :: i <= j <= k ==> w < |trace[j].pcs| && HoldsTicketLock(trace[j].pcs[w])
    ensures InSection(p, trace[k], w, trace[i].started)
    decreases k
  {
    hide Run, Taken, HoldsTicketLock;
    if i < k {
      SectionHolds(p, trace, i, k - 1, w);
      SectionStep(p, trace, k - 1, w, trace[i].started);
    }
  }

  /**
   However other workers' steps fall between its lock, read and write, a critical section does to the
   counter what one uninterrupted `Take` does.
   */
  lemma TakeIsAtomic(p: Params, trace: seq<State>, i: nat, j: nat, w: nat)
    requires Run(p, trace) && i < j < |trace| && w < |trace[i].pcs| && trace[i].pcs[w].HoldTicket?
    requires forall k :: i <= k < j ==> w < |trace[k].pcs| && HoldsTicketLock(trace[k].pcs[w])
    requires w < |trace[j].pcs| && !HoldsTicketLock(trace[j].pcs[w])
    ensures Taken(p, trace[j], w, trace[i].started)
  {
    hide Run, Taken;
    SectionHolds(p, trace, i, j - 1, w);
    SectionStep(p, trace, j - 1, w, trace[i].started);
  }

  /** Steps left, at most: eight per ticket still to issue, and each worker's distance to the exit. */
  function Rank(pc: Pc): nat {
    match pc
    case Requesting(_) => 8
    case WantRecord(_) => 7
    case Appending(_) => 6
    case Notifying => 5
    case Idle => 4
    case WantTicket => 3
    case HoldTicket => 2
    case Bumping(_) => 1
    case Exited => 0
  }

  ghost function Ranks(pcs: seq<Pc>): nat {
    if pcs == [] then 0 else Rank(pcs[0]) + Ranks(pcs[1..])
  }

  lemma {:induction false} RanksUpdate(pcs: seq<Pc>, w: nat, pc: Pc)
    requires w < |pcs|
    ensures Ranks(pcs[w := pc]) == Ranks(pcs) - Rank(pcs[w]) + Rank(pc)
    decreases w
  {
    if w == 0 {
      assert pcs[w := pc][1..] == pcs[1..];
    } else {
      assert pcs[w := pc][1..] == pcs[1..][w - 1 := pc];
      RanksUpdate(pcs[1..], w - 1, pc);
    }
  }

  lemma {:induction false} RanksAtStart(n: nat)
    ensures Ranks(seq(n, i => Idle)) == 4 * n
    decreases n
  {
    if n > 0 {
      assert seq(n, i => Idle)[1..] == seq(n - 1, i => Idle);
      RanksAtStart(n - 1);
    }
  }

  ghost function Remaining(p: Params, s: State): int {
    8 * (p.limit - s.started) + Ranks(s.pcs)
  }

  lemma StepMakesProgress(p: Params, s: State, s': State, w: nat)
    requires Inv(p, s) && Step(p, s, s', w)
    ensures Remaining(p, s') < Remaining(p, s)
  {
    RanksUpdate(s.pcs, w, s'.pcs[w]);
    assert s'.pcs == s.pcs[w := s'.pcs[w]];
  }

  lemma {:induction false} RemainingFalls(p: Params, trace: seq<State>, i: nat)
    requires Run(p, trace) && i < |trace|
    ensures Remaining(p, trace[i]) + i <= 8 * p.limit + 4 * p.concurrency
    decreases i
  {
    if i == 0 {
      RanksAtStart(p.concurrency);
    } else {
      RemainingFalls(p, trace, i - 1);
      RunKeepsInv(p, trace, i - 1);
      assert Next(p, trace[i - 1], trace[(i - 1) + 1]);
      var w: nat :| Step(p, trace[i - 1], trace[i], w);
      StepMakesProgress(p, trace[i - 1], trace[i], w);
    }
  }

  /** Whatever the schedule, a run takes at most eight steps per request and four per worker. */
  lemma RunsAreBounded(p: Params, trace: seq<State>)
    requires Run(p, trace)
    ensures |trace| <= 8 * p.limit + 4 * p.concurrency + 1
  {
    RemainingFalls(p, trace, |trace| - 1);
    RunKeepsInv(p, trace, |trace| - 1);
  }

  /** No deadlock: unless every worker has left, some worker can move. */
  lemma SomeoneCanMove(p: Params, s: State)
    requires Inv(p, s) && !Finished(s)
    ensures !Stuck(p, s)
  {
    var w: nat :| w < |s.pcs| && !s.pcs[w].Exited?;
    if s.pcs[w].WantTicket? && s.ticketLock.Some? {
      CanMove(p, s, s.ticketLock.value);
    } else if s.pcs[w].WantRecord? && s.recordLock.Some? {
      CanMove(p, s, s.recordLock.value);
    } else {
      CanMove(p, s, w);
    }
  }

  lemma CanMove(p: Params, s: State, w: nat)
    requires w < |s.pcs| && !s.pcs[w].Exited?
    requires s.pcs[w].WantTicket? ==> s.ticketLock.None?
    requires s.pcs[w].WantRecord? ==> s.recordLock.None?
    ensures !Stuck(p, s)
  {
    var s' := match s.pcs[w]
      case Idle => s.(pcs := s.pcs[w := WantTicket])
      case WantTicket => s.(pcs := s.pcs[w := HoldTicket], ticketLock := Some(w))
      case HoldTicket =>
        if s.started >= p.limit then s.(pcs := s.pcs[w := Exited], ticketLock := None)
        else s.(pcs := s.pcs[w := Bumping(s.started)])
      case Bumping(seen) => s.(pcs := s.pcs[w := Requesting(seen)], started := seen + 1, ticketLock := None)
      case Requesting(ticket) => s.(pcs := s.pcs[w := WantRecord(ticket)])
      case WantRecord(ticket) => s.(pcs := s.pcs[w := Appending(ticket)], recordLock := Some(w))
      case Appending(ticket) => s.(pcs := s.pcs[w := Notifying], records := s.records + [ticket])
      case Notifying =>
        s.(pcs := s.pcs[w := Idle], progress := s.progress + [|s.records|], recordLock := None)
      case Exited => s;
    assert Step(p, s, s', w);
    assert Next(p, s, s');
  }

  /**
   Every run that can go no further has finished; without a deadline it then holds exactly one record
   per ticket, and the callbacks counted 1, 2, ..., n in order.
   */
  lemma CompleteRunsRecordEverything(p: Params, trace: seq<State>)
    requires Run(p, trace) && p.concurrency >= 1
    requires Stuck(p, trace[|trace| - 1])
    ensures var s := trace[|trace| - 1];
            && Finished(s)
            && |s.records| == s.started
            && s.progress == UpTo(|s.records|)
            && (!p.timed ==> multiset(s.records) == Tickets(p.limit) && |s.records| == p.limit)
  {
    var s := trace[|trace| - 1];
    RunKeepsInv(p, trace, |trace| - 1);
    if !Finished(s) { SomeoneCanMove(p, s); }
    NoneInFlight(s.pcs);
    assert |multiset(s.records)| == |s.records|;
    assert s.pcs[0].Exited?;
  }

  /**
   From the caller's arguments: an accepted call that runs to its end records exactly the requests asked
   for, or, under a deadline, never more than the internal cap.
   */
  lemma AcceptedCallsDeliver(concurrency: int, nRequests: Option<int>, duration: Option<real>, trace: seq<State>)
    requires Prepare(concurrency, nRequests, duration).Ok?
    requires Run(Prepare(concurrency, nRequests, duration).value, trace)
    requires Stuck(Prepare(concurrency, nRequests, duration).value, trace[|trace| - 1])
    ensures var s := trace[|trace| - 1];
            && Finished(s) && |s.pcs| == concurrency
            && s.progress == UpTo(|s.records|)
            && (nRequests.Some? ==> |s.records| == nRequests.value)
            && (duration.Some? ==> |s.records| <= UNLIMITED)
  {
    var p := Prepare(concurrency, nRequests, duration).value;
    CompleteRunsRecordEverything(p, trace);
    RunsAreSafe(p, trace, |trace| - 1);
    RunKeepsInv(p, trace, |trace| - 1);
  }
}
