/** What the run lease and its 120 second term give, over whole behaviours of the protocol. */
module Leases {
  import opened Basics
  import opened JobRows
  import opened Protocol

  /** The lease table, one row per run. */
  class LeaseTable {
    var leases: map<int, Lease>

    constructor ()
      ensures leases == map[]
    {
      leases := map[];
    }

    /** Insert a missing row, renew one's own, or take over an expired one; otherwise change nothing. */
    method AcquireLease(w: Token, runId: int, now: int) returns (granted: bool)
      modifies this
      ensures granted == LeaseOpen(old(leases), runId, w, now)
      ensures leases == if granted then Granted(old(leases), runId, w, now) else old(leases)
      ensures granted <==> runId !in old(leases) || old(leases)[runId].owner == w || old(leases)[runId].expiresAt < now
      ensures granted ==> runId in leases && leases[runId] == Lease(w, now + 120_000_000)
    {
      if runId !in leases {
        leases := leases[runId := Lease(w, now + LEASE_TTL)];
        return true;
      }
      var lease := leases[runId];
      if lease.owner == w || lease.expiresAt < now {
        leases := leases[runId := lease.(owner := w, expiresAt := now + LEASE_TTL)];
        return true;
      }
      return false;
    }

    method ReleaseLease(w: Token, runId: int)
      modifies this
      ensures leases == Dropped(old(leases), runId, w)
      ensures runId in leases ==> leases[runId].owner != w
    {
      if runId in leases && leases[runId].owner == w {
        leases := leases - {runId};
      }
    }
  }

  // ---- Lease exclusion ----

  /** A grant of a run's lease: at acquisition, or by the heartbeat loop. */
  datatype Grant = Grant(w: Token, runId: int, from: int, until: int)

  function GrantOf(s: Sys, e: Event): Option<Grant>
    requires Enabled(s, e)
  {
    match e
    case Acquire(w, r) => Some(Grant(w, r, s.now, s.now + LEASE_TTL))
    case Renew(w) =>
      var r := s.sessions[w].runId;
      if LeaseOpen(s.leases, r, w, s.now) then Some(Grant(w, r, s.now, s.now + LEASE_TTL)) else None
    case _ => None
  }

  /** The event is the holder w deleting its own lease row for run r. */
  predicate LetsGo(s: Sys, e: Event, w: Token, r: int)
    requires Enabled(s, e)
  {
    e == Release(w) && s.sessions[w].runId == r && r in s.leases && s.leases[r].owner == w
  }

  ghost predicate LetGoBetween(ss: seq<Sys>, es: seq<Event>, w: Token, r: int, m: int, n: int)
    requires Behaviour(ss, es) && 0 <= m && n <= |es|
  {
    exists j | m <= j < n :: LetsGo(ss[j], es[j], w, r)
  }

  /** The grant is over, or the row still carries it. */
  ghost predicate Honoured(s: Sys, g: Grant) {
    g.until < s.now ||
    (g.runId in s.leases && s.leases[g.runId].owner == g.w && s.leases[g.runId].expiresAt >= g.until)
  }

  lemma HonouredStep(s: Sys, e: Event, g: Grant)
    requires Enabled(s, e) && Honoured(s, g) && g.until <= s.now + LEASE_TTL
    ensures Honoured(Apply(s, e), g) || LetsGo(s, e, g.w, g.runId)
  {
  }

  lemma {:induction false} HonouredAt(ss: seq<Sys>, es: seq<Event>, m: nat, n: nat)
    requires Behaviour(ss, es) && m < n <= |es| && GrantOf(ss[m], es[m]).Some?
    ensures var g := GrantOf(ss[m], es[m]).value;
            g.until <= ss[n].now + LEASE_TTL &&
            (Honoured(ss[n], g) || LetGoBetween(ss, es, g.w, g.runId, m + 1, n))
  {
    if m + 1 == n {
    } else {
      HonouredAt(ss, es, m, n - 1);
      var g := GrantOf(ss[m], es[m]).value;
      if Honoured(ss[n - 1], g) {
        HonouredStep(ss[n - 1], es[n - 1], g);
      }
    }
  }

  /**
   Grants of one run's lease to different workers never overlap in time, unless the earlier holder let it go
   in between.
   */
  lemma LeaseExclusion(ss: seq<Sys>, es: seq<Event>, m: nat, n: nat)
    requires Behaviour(ss, es) && m < n < |es|
    requires GrantOf(ss[m], es[m]).Some? && GrantOf(ss[n], es[n]).Some?
    ensures var g, h := GrantOf(ss[m], es[m]).value, GrantOf(ss[n], es[n]).value;
            g.runId == h.runId && g.w != h.w ==>
              g.until < h.from || LetGoBetween(ss, es, g.w, g.runId, m + 1, n)
  {
    HonouredAt(ss, es, m, n);
  }

  // ---- Timers compose ----

  /** The worker's last renewal of its lease has not lapsed. */
  predicate Fresh(s: Sys, w: Token)
    requires w in s.sessions
  {
    s.now <= s.sessions[w].renewedAt + LEASE_TTL
  }

  predicate WorksOn(s: Sys, w: Token, r: int) {
    w in s.sessions && s.sessions[w].runId == r
  }

  /** Every worker in flight on run r has renewed within the lease term. Idle workers and other runs may be late. */
  ghost predicate PunctualOn(s: Sys, r: int) {
    forall w | InFlight(s, w) && WorksOn(s, w, r) :: Fresh(s, w)
  }

  ghost predicate HoldsLease(s: Sys, w: Token)
    requires w in s.sessions
  {
    var x := s.sessions[w];
    x.looping && x.runId in s.leases && s.leases[x.runId] == Lease(w, x.renewedAt + LEASE_TTL)
  }

  /** The worker's job is running, is its own, and was refreshed no earlier than the renewal before the last. */
  ghost predicate HoldsJob(s: Sys, w: Token)
    requires InFlight(s, w)
  {
    var x, f := s.sessions[w], FlightOf(s, w);
    && f.key.runId == x.runId
    && f.key in s.db.jobs
    && var job := s.db.jobs[f.key];
       && job.status == JobRunning && job.owner == TokenOf(s, w) && job.attempt == f.attempt
       && job.heartbeatAt.Some?
       && job.heartbeatAt.value >= x.renewedAt - (if x.beatDue then LEASE_TTL else 0)
  }

  /** A named worker of the run whose renewal has not lapsed holds the lease; renewals lie in the past. */
  ghost predicate LeaseKept(s: Sys, w: Token)
    requires w in s.sessions
  {
    s.sessions[w].renewedAt <= s.now && (s.sessions[w].named && Fresh(s, w) ==> HoldsLease(s, w))
  }

  /** No two workers of run r are in flight on one job. */
  ghost predicate FlightsApart(s: Sys, r: int) {
    forall v, w | InFlight(s, v) && WorksOn(s, v, r) && InFlight(s, w) && WorksOn(s, w, r) && v != w ::
      FlightOf(s, v).key != FlightOf(s, w).key
  }

  ghost predicate OnTime(s: Sys, r: int) {
    && (forall w | WorksOn(s, w, r) :: LeaseKept(s, w))
    && (forall w | InFlight(s, w) && WorksOn(s, w, r) :: HoldsJob(s, w))
    && FlightsApart(s, r)
  }

  /** At most one named worker is in flight on a run whose workers in flight are punctual. */
  lemma OneFlightPerRun(s: Sys, r: int, v: Token, w: Token)
    requires OnTime(s, r) && PunctualOn(s, r)
    requires InFlight(s, v) && WorksOn(s, v, r) && InFlight(s, w) && WorksOn(s, w, r)
    requires s.sessions[v].named && s.sessions[w].named
    ensures v == w
  {
    assert LeaseKept(s, v) && LeaseKept(s, w);
  }

  lemma LeaseStep(s: Sys, e: Event, r: int, w: Token)
    requires OnTime(s, r) && Enabled(s, e) && WorksOn(Apply(s, e), w, r)
    ensures LeaseKept(Apply(s, e), w)
  {
    if !((e.Acquire? || e.Attach?) && e.w == w) {
      assert WorksOn(s, w, r) && LeaseKept(s, w);
    }
  }

  /** The two renewals that can pass unrefreshed add up to less than the stale cutoff. */
  lemma SweepSparesFlights(s: Sys, r: int, w: Token, cutoff: int)
    requires OnTime(s, r) && PunctualOn(s, r) && InFlight(s, w) && WorksOn(s, w, r) &&
             cutoff == Cutoff(s.now, STALE_AFTER)
    ensures !Silent(s.db.jobs[FlightOf(s, w).key], cutoff)
  {
    assert HoldsJob(s, w);
  }

  /** Nobody else claims, finishes or fails the job of a punctual worker. */
  lemma OthersKeepJob(s: Sys, e: Event, r: int, w: Token)
    requires Inv(s) && OnTime(s, r) && Enabled(s, e) && InFlight(s, w) && WorksOn(s, w, r)
    requires (e.Claim? || e.Finish? || e.Fail?) && e.w != w
    ensures var k := FlightOf(s, w).key; k in Apply(s, e).db.jobs && Apply(s, e).db.jobs[k] == s.db.jobs[k]
  {
    assert HoldsJob(s, w);
    if InFlight(s, e.w) {
      assert FlightOk(s, e.w);
    }
  }

  lemma SweepStep(s: Sys, r: int, w: Token)
    requires OnTime(s, r) && PunctualOn(s, r) && InFlight(s, w) && WorksOn(s, w, r)
    ensures HoldsJob(Apply(s, Sweep), w)
  {
    assert HoldsJob(s, w);
    SweepSparesFlights(s, r, w, Cutoff(s.now, STALE_AFTER));
  }

  predicate TouchesJobs(e: Event) {
    e.Claim? || e.Finish? || e.Fail? || e.Sweep?
  }

  lemma OwnClaim(s: Sys, i: StepId, w: Token)
    requires Enabled(s, Claim(w, i)) && s.sessions[w].renewedAt <= s.now
    ensures HoldsJob(Apply(s, Claim(w, i)), w)
  {
  }

  lemma QuietStep(s: Sys, e: Event, w: Token)
    requires Enabled(s, e) && !TouchesJobs(e) && InFlight(s, w) && InFlight(Apply(s, e), w)
    requires HoldsJob(s, w) && LeaseKept(s, w) && Fresh(s, w)
    ensures HoldsJob(Apply(s, e), w)
  {
  }

  lemma SessionKept(s: Sys, e: Event, w: Token)
    requires Enabled(s, e) && TouchesJobs(e) && InFlight(Apply(s, e), w) && !(e.Claim? && e.w == w)
    ensures InFlight(s, w) && Apply(s, e).sessions[w] == s.sessions[w]
  {
  }

  lemma JobStep(s: Sys, e: Event, r: int, w: Token)
    requires Inv(s) && OnTime(s, r) && PunctualOn(s, r) && Enabled(s, e)
    requires InFlight(Apply(s, e), w) && WorksOn(Apply(s, e), w, r)
    ensures HoldsJob(Apply(s, e), w)
  {
    if e.Claim? && e.w == w {
      assert WorksOn(s, w, r) && LeaseKept(s, w);
      OwnClaim(s, e.id, w);
    } else {
      FlightKept(s, e, w);
      assert WorksOn(s, w, r) && HoldsJob(s, w) && LeaseKept(s, w);
      if e.Sweep? {
        SweepStep(s, r, w);
      } else if TouchesJobs(e) {
        SessionKept(s, e, w);
        OthersKeepJob(s, e, r, w);
      } else {
        QuietStep(s, e, w);
      }
    }
  }

  /** A claim is never on the job of a worker in flight. */
  lemma ClaimApart(s: Sys, i: StepId, r: int, v: Token, w: Token)
    requires OnTime(s, r) && Enabled(s, Claim(v, i)) && InFlight(s, w) && WorksOn(s, w, r)
    ensures FlightOf(Apply(s, Claim(v, i)), v).key != FlightOf(s, w).key
  {
    assert HoldsJob(s, w);
  }

  lemma ApartStep(s: Sys, e: Event, r: int, v: Token, w: Token)
    requires OnTime(s, r) && Enabled(s, e) && v != w && InFlight(Apply(s, e), v) && WorksOn(Apply(s, e), v, r)
    requires InFlight(Apply(s, e), w) && WorksOn(Apply(s, e), w, r)
    ensures FlightOf(Apply(s, e), v).key != FlightOf(Apply(s, e), w).key
  {
    if e.Claim? && e.w == v {
      FlightKept(s, e, w);
      ClaimApart(s, e.id, r, v, w);
    } else if e.Claim? && e.w == w {
      FlightKept(s, e, v);
      ClaimApart(s, e.id, r, w, v);
    } else {
      FlightKept(s, e, v);
      FlightKept(s, e, w);
    }
  }

  lemma OnTimeStep(s: Sys, e: Event, r: int)
    requires Inv(s) && OnTime(s, r) && PunctualOn(s, r) && Enabled(s, e)
    ensures OnTime(Apply(s, e), r)
  {
    var t := Apply(s, e);
    forall w | WorksOn(t, w, r) ensures LeaseKept(t, w) { LeaseStep(s, e, r, w); }
    forall w | InFlight(t, w) && WorksOn(t, w, r) ensures HoldsJob(t, w) { JobStep(s, e, r, w); }
    forall v, w | InFlight(t, v) && WorksOn(t, v, r) && InFlight(t, w) && WorksOn(t, w, r) && v != w
      ensures FlightOf(t, v).key != FlightOf(t, w).key
    {
      ApartStep(s, e, r, v, w);
    }
  }

  lemma {:induction false} OnTimeAt(ss: seq<Sys>, es: seq<Event>, r: int, n: nat)
    requires Behaviour(ss, es) && n < |ss|
    requires forall i | 0 <= i < n :: PunctualOn(ss[i], r)
    ensures OnTime(ss[n], r)
  {
    if n == 0 {
    } else {
      OnTimeAt(ss, es, r, n - 1);
      InvAt(ss, es, n - 1);
      OnTimeStep(ss[n - 1], es[n - 1], r);
    }
  }

  /** What a worker in flight can count on while the workers in flight on its run are punctual. */
  lemma PunctualFlight(s: Sys, r: int, w: Token)
    requires Inv(s) && OnTime(s, r) && PunctualOn(s, r) && InFlight(s, w) && WorksOn(s, w, r)
    ensures forall o: Outcome :: Enabled(s, Finish(w, o))
    ensures Apply(s, Sweep).db.jobs[FlightOf(s, w).key] == s.db.jobs[FlightOf(s, w).key]
  {
    assert HoldsJob(s, w);
    SweepSparesFlights(s, r, w, Cutoff(s.now, STALE_AFTER));
  }

  /**
   While every worker in flight on the run has renewed in time, no two workers are in flight on one of
   its jobs (and no two named ones on the run), the fence refuses no completion of theirs, and the sweep
   takes no job away from them. Idle workers of the run and workers of other runs may be as late as they
   like; an anonymous worker counts as punctual for one lease term after it attaches.
   */
  lemma TimersCompose(ss: seq<Sys>, es: seq<Event>, n: nat, v: Token, w: Token)
    requires Behaviour(ss, es) && n < |ss| && InFlight(ss[n], v) && InFlight(ss[n], w)
    requires forall i | 0 <= i <= n :: PunctualOn(ss[i], ss[n].sessions[w].runId)
    ensures FlightOf(ss[n], v).key == FlightOf(ss[n], w).key ==> v == w
    ensures var x, y := ss[n].sessions[v], ss[n].sessions[w]; x.runId == y.runId && x.named && y.named ==> v == w
    ensures forall o: Outcome :: Enabled(ss[n], Finish(w, o))
    ensures Apply(ss[n], Sweep).db.jobs[FlightOf(ss[n], w).key] == ss[n].db.jobs[FlightOf(ss[n], w).key]
  {
    var s, r := ss[n], ss[n].sessions[w].runId;
    OnTimeAt(ss, es, r, n);
    InvAt(ss, es, n);
    PunctualFlight(s, r, w);
    assert FlightOk(s, v) && FlightOk(s, w);
    if WorksOn(s, v, r) && s.sessions[v].named && s.sessions[w].named {
      OneFlightPerRun(s, r, v, w);
    }
  }
}
