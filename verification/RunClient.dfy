/**
 The session loop of cmd/lanturn-phase2's runClient: pick an endpoint, try it up to `retries` times,
 go on to the next session. Session outcomes, clock readings and random draws are inputs.
 */
module RunClient {
  import opened Common
  import opened Fleet
  import FleetRuns

  /** Indexed by session, and by session and attempt; both count from 1. */
  datatype Env = Env(pickTime: nat -> int, draw: nat -> uint32,
                     succeeds: (nat, nat) -> bool, failTime: (nat, nat) -> int)

  datatype Outcome = Completed | NoHealthyEndpoint(session: nat)

  /** The attempts of one session from `attempt` on. */
  function Attempts(f: Selector, server: string, env: Env, session: nat, attempt: nat, retries: nat): Selector
    decreases retries + 1 - attempt
  {
    if attempt > retries then f
    else if env.succeeds(session, attempt) then AfterSuccess(f, server)
    else Attempts(AfterFailure(f, server, env.failTime(session, attempt)), server, env, session, attempt + 1, retries)
  }

  /** The outcome of sessions `session..count`, and the endpoint each one used. */
  function Sessions(f: Selector, env: Env, session: nat, count: nat, retries: nat): (Outcome, seq<string>)
    decreases count + 1 - session
  {
    if session > count then (Completed, [])
    else
      var (g, server) := PickFrom(f, env.pickTime(session), env.draw(session));
      if server.None? then (NoHealthyEndpoint(session), [])
      else
        var h := Attempts(g, server.value, env, session, 1, retries);
        var (o, used) := Sessions(h, env, session + 1, count, retries);
        (o, [server.value] + used)
  }

  method RunAttempts(fleet: FleetSelector, server: string, env: Env, session: nat, retries: nat)
    modifies fleet
    ensures fleet.View() == Attempts(old(fleet.View()), server, env, session, 1, retries)
  {
    var attempt := 1;
    while attempt <= retries
      invariant 1 <= attempt
      invariant Attempts(fleet.View(), server, env, session, attempt, retries)
        == Attempts(old(fleet.View()), server, env, session, 1, retries)
      decreases retries + 1 - attempt
    {
      if env.succeeds(session, attempt) {
        fleet.RecordSuccess(server);
        return;
      }
      fleet.RecordFailure(server, env.failTime(session, attempt));
      attempt := attempt + 1;
    }
  }

  /** `all` is what has happened so far followed by `rest`. */
  ghost predicate Follows(all: (Outcome, seq<string>), used: seq<string>, rest: (Outcome, seq<string>)) {
    all.0 == rest.0 && all.1 == used + rest.1
  }

  lemma {:induction false} NextSession(
      all: (Outcome, seq<string>), used: seq<string>, f: Selector, g: Selector, server: string, env: Env,
      session: nat, count: nat, retries: nat)
    requires session <= count && PickFrom(f, env.pickTime(session), env.draw(session)) == (g, Some(server))
    requires Follows(all, used, Sessions(f, env, session, count, retries))
    ensures Follows(all, used + [server],
                    Sessions(Attempts(g, server, env, session, 1, retries), env, session + 1, count, retries))
  {
    var rest := Sessions(Attempts(g, server, env, session, 1, retries), env, session + 1, count, retries);
    assert used + ([server] + rest.1) == used + [server] + rest.1;
  }

  method RunClient(endpoints: seq<string>, env: Env, sessionCount: nat, retries: nat)
    returns (r: Outcome, used: seq<string>)
    ensures (r, used) == Sessions(Selector(NewEndpoints(endpoints), ""), env, 1, sessionCount, retries)
  {
    var fleet := new FleetSelector(endpoints);
    ghost var all := Sessions(fleet.View(), env, 1, sessionCount, retries);
    used := [];
    assert used + all.1 == all.1;
    var session := 1;
    while session <= sessionCount
      invariant 1 <= session && fresh(fleet)
      invariant Follows(all, used, Sessions(fleet.View(), env, session, sessionCount, retries))
      decreases sessionCount + 1 - session
    {
      ghost var f := fleet.View();
      var server := fleet.Pick(env.pickTime(session), env.draw(session));
      if server.None? {
        assert used + [] == used;
        return NoHealthyEndpoint(session), used;
      }
      NextSession(all, used, f, fleet.View(), server.value, env, session, sessionCount, retries);
      RunAttempts(fleet, server.value, env, session, retries);
      used := used + [server.value];
      session := session + 1;
    }
    assert used + [] == used;
    return Completed, used;
  }

  // ----- A fleet that always fails -----

  /** Every attempt of session `s` fails, and its clock readings lie in one window shorter than the cool-off. */
  ghost predicate DeadSession(env: Env, start: int, s: nat, retries: nat) {
    && start <= env.pickTime(s) < start + HEAL_COOLDOWN
    && forall a: nat :: 1 <= a <= retries ==>
         !env.succeeds(s, a) && start <= env.failTime(s, a) < start + HEAL_COOLDOWN
  }

  /** Sessions s to `count` are dead. */
  ghost predicate DeadFrom(env: Env, start: int, s: nat, count: nat, retries: nat)
    decreases count + 1 - s
  {
    s <= count ==> DeadSession(env, start, s, retries) && DeadFrom(env, start, s + 1, count, retries)
  }

  /** A run of `count` sessions in which nothing succeeds and no bench ends. */
  ghost predicate DeadRun(env: Env, start: int, count: nat, retries: nat) {
    retries >= UNHEALTHY_AFTER && forall s: nat :: 1 <= s <= count ==> DeadSession(env, start, s, retries)
  }

  lemma {:induction false} DeadRest(env: Env, start: int, s: nat, count: nat, retries: nat)
    requires DeadRun(env, start, count, retries) && 1 <= s
    ensures DeadFrom(env, start, s, count, retries)
    decreases count + 1 - s
  {
    if s <= count {
      assert DeadSession(env, start, s, retries);
      DeadRest(env, start, s + 1, count, retries);
    }
  }

  /** During such a run an endpoint is either untouched or benched for the rest of the run. */
  ghost predicate UnusedOrSpent(es: seq<Endpoint>, start: int) {
    forall i :: 0 <= i < |es| ==>
      es[i].consecFails == 0 ||
      (es[i].consecFails >= UNHEALTHY_AFTER && start <= es[i].unhealthySince < start + HEAL_COOLDOWN)
  }

  ghost predicate DistinctAddrs(es: seq<Endpoint>) {
    forall i, j :: 0 <= i < j < |es| ==> es[i].addr != es[j].addr
  }

  ghost function Unused(es: seq<Endpoint>): seq<string> {
    if es == [] then []
    else Unused(es[..|es| - 1]) + if es[|es| - 1].consecFails == 0 then [es[|es| - 1].addr] else []
  }

  lemma {:induction false} HealthyIsUnused(es: seq<Endpoint>, start: int, now: int)
    requires UnusedOrSpent(es, start) && start <= now < start + HEAL_COOLDOWN
    ensures Healthy(es, now) == Unused(es) && HealAll(es, now) == es
  {
    if es == [] {
    } else {
      HealthyIsUnused(es[..|es| - 1], start, now);
      assert forall i :: 0 <= i < |es| ==> Heal(es[i], now) == es[i];
    }
  }

  lemma {:induction false} UnusedMembers(es: seq<Endpoint>, a: string)
    ensures a in Unused(es) <==> exists i :: 0 <= i < |es| && es[i].addr == a && es[i].consecFails == 0
  {
    if es == [] {
    } else {
      UnusedMembers(es[..|es| - 1], a);
      assert forall i :: 0 <= i < |es| - 1 ==> es[..|es| - 1][i] == es[i];
    }
  }

  /** Spending one endpoint shortens the unused list by one. */
  lemma {:induction false} SpendOne(es: seq<Endpoint>, i: nat, e: Endpoint)
    requires i < |es| && es[i].consecFails == 0 && e.consecFails > 0
    ensures |Unused(es[i := e])| == |Unused(es)| - 1
  {
    var n := |es| - 1;
    if i == n {
      assert es[i := e][..n] == es[..n];
    } else {
      SpendOne(es[..n], i, e);
      assert es[i := e][..n] == es[..n][i := e];
    }
  }

  lemma {:induction false} SameIndex(es: seq<Endpoint>, hs: seq<Endpoint>, server: string)
    requires |es| == |hs| && forall j :: 0 <= j < |es| ==> es[j].addr == hs[j].addr
    ensures IndexOf(es, server) == IndexOf(hs, server)
  {
    if es != [] && es[0].addr != server {
      SameIndex(es[1..], hs[1..], server);
    }
  }

  /** All attempts of a session fail: its endpoint, and only it, has failed `retries` more times. */
  lemma {:induction false} AttemptsFail(
      f: Selector, server: string, env: Env, s: nat, a: nat, retries: nat, start: int, i: nat)
    requires DeadSession(env, start, s, retries)
    requires i < |f.endpoints| && i == IndexOf(f.endpoints, server)
    requires 1 <= a <= retries + 1 && f.endpoints[i].consecFails + (retries + 1 - a) >= UNHEALTHY_AFTER
    requires f.endpoints[i].consecFails >= UNHEALTHY_AFTER ==>
      start <= f.endpoints[i].unhealthySince < start + HEAL_COOLDOWN
    ensures var g := Attempts(f, server, env, s, a, retries);
      && g.lastUsed == f.lastUsed && |g.endpoints| == |f.endpoints|
      && var e := g.endpoints[i];
      && g.endpoints == f.endpoints[i := e] && e.addr == server
      && e.consecFails >= UNHEALTHY_AFTER && start <= e.unhealthySince < start + HEAL_COOLDOWN
    decreases retries + 1 - a
  {
    if a <= retries {
      var t := env.failTime(s, a);
      var h := AfterFailure(f, server, t);
      assert h.endpoints == f.endpoints[i := Failed(f.endpoints[i], t)];
      SameIndex(f.endpoints, h.endpoints, server);
      AttemptsFail(h, server, env, s, a + 1, retries, start, i);
    }
  }

  /** How sessions `s..count` end on a fleet with the given unused addresses. */
  ghost predicate Exhausts(unused: seq<string>, s: nat, count: nat, o: Outcome, used: seq<string>) {
    && |used| == Min(|unused|, count + 1 - s)
    && o == (if count + 1 - s > |unused| then NoHealthyEndpoint(s + |unused|) else Completed)
    && (forall j :: 0 <= j < |used| ==> used[j] in unused)
    && FleetRuns.Distinct(used)
  }

  ghost predicate Ends(f: Selector, env: Env, s: nat, count: nat, retries: nat) {
    var r := Sessions(f, env, s, count, retries);
    Exhausts(Unused(f.endpoints), s, count, r.0, r.1)
  }

  lemma {:induction false} OneMore(
      unused: seq<string>, rest: seq<string>, server: string, s: nat, count: nat, o: Outcome, used: seq<string>)
    requires s <= count && |rest| == |unused| - 1 && server in unused
    requires forall a :: a in rest ==> a in unused && a != server
    requires Exhausts(rest, s + 1, count, o, used)
    ensures Exhausts(unused, s, count, o, [server] + used)
  {
    var all := [server] + used;
    assert forall j :: 1 <= j < |all| ==> all[j] == used[j - 1];
  }

  lemma {:induction false} NoMore(f: Selector, env: Env, s: nat, count: nat, retries: nat, start: int)
    requires UnusedOrSpent(f.endpoints, start)
    requires s == count + 1 || (s <= count && DeadSession(env, start, s, retries) &&
                                PickFrom(f, env.pickTime(s), env.draw(s)).1.None?)
    ensures Ends(f, env, s, count, retries)
  {
    if s <= count {
      HealthyIsUnused(f.endpoints, start, env.pickTime(s));
    }
  }

  lemma {:induction false} FirstSession(f: Selector, env: Env, s: nat, count: nat, retries: nat, h: Selector)
    requires s <= count && PickFrom(f, env.pickTime(s), env.draw(s)).1.Some?
    requires var (g, server) := PickFrom(f, env.pickTime(s), env.draw(s));
      h == Attempts(g, server.value, env, s, 1, retries)
    ensures var server := PickFrom(f, env.pickTime(s), env.draw(s)).1.value;
      var r := Sessions(h, env, s + 1, count, retries);
      Sessions(f, env, s, count, retries) == (r.0, [server] + r.1)
  {
  }

  /** The unused addresses once `server` is spent. */
  ghost predicate Spends(f: Selector, h: Selector, server: string) {
    && server in Unused(f.endpoints) && |Unused(h.endpoints)| == |Unused(f.endpoints)| - 1
    && forall a :: a in Unused(h.endpoints) ==> a in Unused(f.endpoints) && a != server
  }

  lemma {:induction false} OneSessionMore(f: Selector, env: Env, s: nat, count: nat, retries: nat, h: Selector)
    requires s <= count && PickFrom(f, env.pickTime(s), env.draw(s)).1.Some?
    requires var (g, server) := PickFrom(f, env.pickTime(s), env.draw(s));
      h == Attempts(g, server.value, env, s, 1, retries) && Spends(f, h, server.value)
    requires Ends(h, env, s + 1, count, retries)
    ensures Ends(f, env, s, count, retries)
  {
    var server := PickFrom(f, env.pickTime(s), env.draw(s)).1.value;
    var r := Sessions(h, env, s + 1, count, retries);
    OneMore(Unused(f.endpoints), Unused(h.endpoints), server, s, count, r.0, r.1);
    FirstSession(f, env, s, count, retries, h);
  }

  lemma {:induction false} UnusedIndex(f: Selector, now: int, draw: uint32, start: int) returns (i: nat)
    requires start <= now < start + HEAL_COOLDOWN && DistinctAddrs(f.endpoints) && UnusedOrSpent(f.endpoints, start)
    requires PickFrom(f, now, draw).1.Some?
    ensures var server := PickFrom(f, now, draw).1.value;
      && i < |f.endpoints| && i == IndexOf(f.endpoints, server)
      && f.endpoints[i].addr == server && f.endpoints[i].consecFails == 0
  {
    var server := PickFrom(f, now, draw).1.value;
    PickIsHealthy(f, now, draw);
    i :| 0 <= i < |f.endpoints| && f.endpoints[i].addr == server && !Benched(f.endpoints[i], now);
    assert f.endpoints[IndexOf(f.endpoints, server)].addr == server;
  }

  lemma {:induction false} PickedUnused(f: Selector, now: int, draw: uint32, start: int) returns (i: nat)
    requires start <= now < start + HEAL_COOLDOWN && DistinctAddrs(f.endpoints) && UnusedOrSpent(f.endpoints, start)
    requires PickFrom(f, now, draw).1.Some?
    ensures var (g, server) := PickFrom(f, now, draw);
      && g.endpoints == f.endpoints && server.value in Unused(f.endpoints)
      && i < |f.endpoints| && i == IndexOf(g.endpoints, server.value)
      && f.endpoints[i].addr == server.value && f.endpoints[i].consecFails == 0
  {
    HealthyIsUnused(f.endpoints, start, now);
    i := UnusedIndex(f, now, draw, start);
    UnusedMembers(f.endpoints, PickFrom(f, now, draw).1.value);
  }

  lemma {:induction false} StillUnused(es: seq<Endpoint>, hs: seq<Endpoint>, i: nat)
    requires i < |es| == |hs| && hs == es[i := hs[i]] && hs[i].consecFails > 0 && hs[i].addr == es[i].addr
    requires DistinctAddrs(es)
    ensures DistinctAddrs(hs) && forall a :: a in Unused(hs) ==> a in Unused(es) && a != es[i].addr
  {
    forall a | a in Unused(hs) ensures a in Unused(es) && a != es[i].addr {
      UnusedMembers(hs, a);
      var j :| 0 <= j < |hs| && hs[j].addr == a && hs[j].consecFails == 0;
      assert es[j] == hs[j];
      UnusedMembers(es, a);
    }
  }

  /** One failing session spends an endpoint that was unused. */
  lemma {:induction false} OneSession(f: Selector, env: Env, s: nat, retries: nat, start: int) returns (h: Selector)
    requires DeadSession(env, start, s, retries) && retries >= UNHEALTHY_AFTER
    requires DistinctAddrs(f.endpoints) && UnusedOrSpent(f.endpoints, start)
    requires PickFrom(f, env.pickTime(s), env.draw(s)).1.Some?
    ensures var (g, server) := PickFrom(f, env.pickTime(s), env.draw(s));
      h == Attempts(g, server.value, env, s, 1, retries) && Spends(f, h, server.value)
    ensures DistinctAddrs(h.endpoints) && UnusedOrSpent(h.endpoints, start)
  {
    var (g, server) := PickFrom(f, env.pickTime(s), env.draw(s));
    var i := PickedUnused(f, env.pickTime(s), env.draw(s), start);
    h := Attempts(g, server.value, env, s, 1, retries);
    AttemptsFail(g, server.value, env, s, 1, retries, start, i);
    SpendOne(f.endpoints, i, h.endpoints[i]);
    StillUnused(f.endpoints, h.endpoints, i);
  }

  /** If the rest of the run exhausts what one session leaves, the run exhausts what there was. */
  lemma {:induction false} PeelSession(f: Selector, env: Env, s: nat, count: nat, retries: nat, start: int)
    returns (h: Selector)
    requires DeadSession(env, start, s, retries) && retries >= UNHEALTHY_AFTER && s <= count
    requires DistinctAddrs(f.endpoints) && UnusedOrSpent(f.endpoints, start)
    ensures DistinctAddrs(h.endpoints) && UnusedOrSpent(h.endpoints, start)
    ensures Ends(h, env, s + 1, count, retries) ==> Ends(f, env, s, count, retries)
  {
    if PickFrom(f, env.pickTime(s), env.draw(s)).1.None? {
      h := f;
      NoMore(f, env, s, count, retries, start);
    } else {
      h := OneSession(f, env, s, retries, start);
      if Ends(h, env, s + 1, count, retries) {
        OneSessionMore(f, env, s, count, retries, h);
      }
    }
  }

  lemma {:induction false} AllFailing(f: Selector, env: Env, s: nat, count: nat, retries: nat, start: int)
    requires DeadFrom(env, start, s, count, retries) && s <= count + 1 && retries >= UNHEALTHY_AFTER
    requires DistinctAddrs(f.endpoints) && UnusedOrSpent(f.endpoints, start)
    ensures Ends(f, env, s, count, retries)
    decreases count + 1 - s
  {
    if s <= count {
      var h := PeelSession(f, env, s, count, retries, start);
      AllFailing(h, env, s + 1, count, retries, start);
    } else {
      NoMore(f, env, s, count, retries, start);
    }
  }

  lemma {:induction false} AllUnusedAtFirst(es: seq<Endpoint>)
    requires forall i :: 0 <= i < |es| ==> es[i].consecFails == 0
    ensures |Unused(es)| == |es|
  {
    if es == [] {
    } else {
      AllUnusedAtFirst(es[..|es| - 1]);
    }
  }

  /**
   With N distinct endpoints that always fail, at least three retries and a run shorter than the
   cool-off, each endpoint serves at most one session, and asking for more than N sessions ends with
   the no-healthy-endpoint error at session N + 1 after exactly N of them.
   */
  lemma {:induction false} DeadFleet(addrs: seq<string>, env: Env, count: nat, retries: nat, start: int)
    requires FleetRuns.Distinct(addrs) && DeadRun(env, start, count, retries)
    ensures var (o, used) := Sessions(Selector(NewEndpoints(addrs), ""), env, 1, count, retries);
      && FleetRuns.Distinct(used) && (forall a :: a in used ==> a in addrs)
      && |used| == Min(|addrs|, count)
      && o == (if count > |addrs| then NoHealthyEndpoint(|addrs| + 1) else Completed)
  {
    var f := Selector(NewEndpoints(addrs), "");
    AllUnusedAtFirst(f.endpoints);
    DeadRest(env, start, 1, count, retries);
    AllFailing(f, env, 1, count, retries, start);
    var (o, used) := Sessions(f, env, 1, count, retries);
    forall a | a in used ensures a in addrs {
      var j :| 0 <= j < |used| && used[j] == a;
      UnusedMembers(f.endpoints, a);
    }
  }

  // ----- A session is events of the selector -----

  /** Session `s` fails exactly `fails` times before it succeeds or runs out of attempts. */
  ghost predicate FailsFirst(env: Env, s: nat, retries: nat, fails: nat) {
    && fails <= retries && (fails < retries ==> env.succeeds(s, fails + 1))
    && forall a: nat :: 1 <= a <= fails ==> !env.succeeds(s, a)
  }

  ghost function Failures(server: string, env: Env, s: nat, n: nat): seq<FleetRuns.Event> {
    seq(n, i requires 0 <= i < n => FleetRuns.Event(FleetRuns.FailureOp(server), env.failTime(s, i + 1)))
  }

  /** One failure for each attempt before the first success, then that success, if there is one. */
  ghost function AttemptEvents(server: string, env: Env, s: nat, retries: nat, fails: nat): seq<FleetRuns.Event> {
    Failures(server, env, s, fails)
    + if fails < retries then [FleetRuns.Event(FleetRuns.SuccessOp(server), env.failTime(s, fails + 1))] else []
  }

  lemma {:induction false} OneMoreFailure(f: Selector, server: string, env: Env, s: nat, n: nat)
    ensures FleetRuns.Play(f, Failures(server, env, s, n + 1))
      == AfterFailure(FleetRuns.Play(f, Failures(server, env, s, n)), server, env.failTime(s, n + 1))
  {
    var e := FleetRuns.Event(FleetRuns.FailureOp(server), env.failTime(s, n + 1));
    assert Failures(server, env, s, n + 1) == Failures(server, env, s, n) + [e];
    FleetRuns.PlaySnoc(f, Failures(server, env, s, n), e);
  }

  /** A session that ends after n failures. */
  lemma {:induction false} AttemptsStop(f: Selector, server: string, env: Env, s: nat, n: nat, retries: nat)
    requires n <= retries && (n < retries ==> env.succeeds(s, n + 1))
    ensures Attempts(FleetRuns.Play(f, Failures(server, env, s, n)), server, env, s, n + 1, retries)
      == FleetRuns.Play(f, AttemptEvents(server, env, s, retries, n))
  {
    var before := Failures(server, env, s, n);
    if n == retries {
      assert before + [] == before;
    } else {
      FleetRuns.PlaySnoc(f, before, FleetRuns.Event(FleetRuns.SuccessOp(server), env.failTime(s, n + 1)));
    }
  }

  /** The rest of a session after n failures. */
  lemma {:induction false} AttemptsFrom(f: Selector, server: string, env: Env, s: nat, n: nat, retries: nat)
    returns (fails: nat)
    requires n <= retries && forall b: nat :: 1 <= b <= n ==> !env.succeeds(s, b)
    ensures FailsFirst(env, s, retries, fails)
    ensures Attempts(FleetRuns.Play(f, Failures(server, env, s, n)), server, env, s, n + 1, retries)
      == FleetRuns.Play(f, AttemptEvents(server, env, s, retries, fails))
    decreases retries - n
  {
    if n == retries || env.succeeds(s, n + 1) {
      fails := n;
      AttemptsStop(f, server, env, s, n, retries);
    } else {
      OneMoreFailure(f, server, env, s, n);
      fails := AttemptsFrom(f, server, env, s, n + 1, retries);
    }
  }

  /** A session changes the selector by its failures and then its success, and by nothing else. */
  lemma {:induction false} AttemptsAreEvents(f: Selector, server: string, env: Env, s: nat, retries: nat)
    returns (fails: nat)
    ensures FailsFirst(env, s, retries, fails)
    ensures Attempts(f, server, env, s, 1, retries)
      == FleetRuns.Play(f, AttemptEvents(server, env, s, retries, fails))
  {
    assert Failures(server, env, s, 0) == [];
    fails := AttemptsFrom(f, server, env, s, 0, retries);
  }

  /** A session that got an endpoint. */
  datatype Session = Session(server: string, fails: nat)

  ghost function Servers(ss: seq<Session>): seq<string> {
    if ss == [] then [] else Servers(ss[..|ss| - 1]) + [ss[|ss| - 1].server]
  }

  /** The events of sessions 1 to |ss|: for each a pick and the outcomes of its attempts. */
  ghost function Trace(env: Env, retries: nat, ss: seq<Session>): seq<FleetRuns.Event> {
    if ss == [] then []
    else
      var n := |ss|;
      var x := ss[n - 1];
      Trace(env, retries, ss[..n - 1]) + [FleetRuns.Event(FleetRuns.PickOp(env.draw(n)), env.pickTime(n))]
      + AttemptEvents(x.server, env, n, retries, x.fails)
  }

  ghost function StateAfter(addrs: seq<string>, env: Env, retries: nat, ss: seq<Session>): Selector {
    FleetRuns.Run(addrs, Trace(env, retries, ss)).0
  }

  ghost function LogAfter(addrs: seq<string>, env: Env, retries: nat, ss: seq<Session>): seq<FleetRuns.Entry> {
    FleetRuns.Run(addrs, Trace(env, retries, ss)).1
  }

  /** What `pick` makes of the selector at the start of the session after `ss`. */
  ghost function PickAfter(addrs: seq<string>, env: Env, retries: nat, ss: seq<Session>): (Selector, Option<string>) {
    PickFrom(StateAfter(addrs, env, retries, ss), env.pickTime(|ss| + 1), env.draw(|ss| + 1))
  }

  /** The session after `ss` gets what `pick` answers, and has the failures stated. */
  ghost predicate ServedNext(addrs: seq<string>, env: Env, retries: nat, ss: seq<Session>, x: Session) {
    PickAfter(addrs, env, retries, ss).1 == Some(x.server) && FailsFirst(env, |ss| + 1, retries, x.fails)
  }

  ghost predicate Served(addrs: seq<string>, env: Env, retries: nat, ss: seq<Session>) {
    ss != [] ==>
      Served(addrs, env, retries, ss[..|ss| - 1]) && ServedNext(addrs, env, retries, ss[..|ss| - 1], ss[|ss| - 1])
  }

  /** How a run of `count` sessions ends: all are served, or `pick` has no answer for the next. */
  ghost predicate RunEnds(addrs: seq<string>, env: Env, count: nat, retries: nat, ss: seq<Session>, o: Outcome) {
    && |ss| <= count && Served(addrs, env, retries, ss)
    && o == (if |ss| == count then Completed else NoHealthyEndpoint(|ss| + 1))
    && (|ss| < count ==> PickAfter(addrs, env, retries, ss).1.None?)
  }

  /** The selector after one more session. */
  lemma {:induction false} StateSnoc(addrs: seq<string>, env: Env, retries: nat, ss: seq<Session>, x: Session)
    ensures var n := |ss| + 1;
      StateAfter(addrs, env, retries, ss + [x])
      == FleetRuns.Play(PickFrom(StateAfter(addrs, env, retries, ss), env.pickTime(n), env.draw(n)).0,
                        AttemptEvents(x.server, env, n, retries, x.fails))
  {
    var n, init := |ss| + 1, Selector(NewEndpoints(addrs), "");
    var before := Trace(env, retries, ss);
    var pick := FleetRuns.Event(FleetRuns.PickOp(env.draw(n)), env.pickTime(n));
    assert (ss + [x])[..n - 1] == ss;
    FleetRuns.RunIsPlay(addrs, Trace(env, retries, ss + [x]));
    FleetRuns.RunIsPlay(addrs, before);
    FleetRuns.PlayAppend(init, before + [pick], AttemptEvents(x.server, env, n, retries, x.fails));
    FleetRuns.PlaySnoc(init, before, pick);
  }

  /** One more session after `ss`. */
  lemma {:induction false} ServeNext(addrs: seq<string>, env: Env, retries: nat, ss: seq<Session>)
    returns (x: Session)
    requires PickAfter(addrs, env, retries, ss).1.Some?
    ensures ServedNext(addrs, env, retries, ss, x)
    ensures StateAfter(addrs, env, retries, ss + [x])
      == Attempts(PickAfter(addrs, env, retries, ss).0, x.server, env, |ss| + 1, 1, retries)
  {
    var (g, server) := PickAfter(addrs, env, retries, ss);
    var fails := AttemptsAreEvents(g, server.value, env, |ss| + 1, retries);
    x := Session(server.value, fails);
    StateSnoc(addrs, env, retries, ss, x);
  }

  lemma {:induction false} ServedSnoc(addrs: seq<string>, env: Env, retries: nat, ss: seq<Session>, x: Session)
    requires Served(addrs, env, retries, ss) && ServedNext(addrs, env, retries, ss, x)
    ensures Served(addrs, env, retries, ss + [x]) && Servers(ss + [x]) == Servers(ss) + [x.server]
  {
    assert (ss + [x])[..|ss|] == ss;
  }

  lemma {:induction false} RunStops(addrs: seq<string>, env: Env, count: nat, retries: nat, ss: seq<Session>)
    returns (o: Outcome)
    requires |ss| <= count && Served(addrs, env, retries, ss)
    requires |ss| == count || PickAfter(addrs, env, retries, ss).1.None?
    ensures Sessions(StateAfter(addrs, env, retries, ss), env, |ss| + 1, count, retries) == (o, [])
    ensures RunEnds(addrs, env, count, retries, ss, o)
  {
    o := if |ss| == count then Completed else NoHealthyEndpoint(|ss| + 1);
  }

  lemma {:induction false} Prepend(before: seq<string>, server: string, rest: seq<string>)
    ensures before + ([server] + rest) == before + [server] + rest
  {
  }

  /** The rest of a run that has served `ss`. */
  lemma {:induction false} RunFrom(addrs: seq<string>, env: Env, count: nat, retries: nat, ss: seq<Session>)
    returns (all: seq<Session>, o: Outcome, rest: seq<string>)
    requires |ss| <= count && Served(addrs, env, retries, ss)
    ensures Sessions(StateAfter(addrs, env, retries, ss), env, |ss| + 1, count, retries) == (o, rest)
    ensures Servers(all) == Servers(ss) + rest && RunEnds(addrs, env, count, retries, all, o)
    decreases count - |ss|
  {
    if |ss| == count || PickAfter(addrs, env, retries, ss).1.None? {
      o := RunStops(addrs, env, count, retries, ss);
      all, rest := ss, [];
      assert Servers(ss) + [] == Servers(ss);
    } else {
      var x := ServeNext(addrs, env, retries, ss);
      ServedSnoc(addrs, env, retries, ss, x);
      all, o, rest := RunFrom(addrs, env, count, retries, ss + [x]);
      FirstSession(StateAfter(addrs, env, retries, ss), env, |ss| + 1, count, retries,
                   StateAfter(addrs, env, retries, ss + [x]));
      Prepend(Servers(ss), x.server, rest);
      rest := [x.server] + rest;
    }
  }

  /** Each session's address was available according to the log of the sessions before it. */
  ghost predicate ByLog(addrs: seq<string>, env: Env, retries: nat, ss: seq<Session>) {
    ss != [] ==>
      var before, x := ss[..|ss| - 1], ss[|ss| - 1];
      && ByLog(addrs, env, retries, before) && x.server in addrs
      && !FleetRuns.Unavailable(LogAfter(addrs, env, retries, before), x.server, env.pickTime(|ss|))
  }

  lemma {:induction false} ServedByLog(addrs: seq<string>, env: Env, retries: nat, ss: seq<Session>)
    requires FleetRuns.Distinct(addrs) && Served(addrs, env, retries, ss)
    ensures ByLog(addrs, env, retries, ss)
  {
    if ss != [] {
      var before := ss[..|ss| - 1];
      ServedByLog(addrs, env, retries, before);
      FleetRuns.PickByLog(addrs, Trace(env, retries, before), env.pickTime(|ss|), env.draw(|ss|));
    }
  }

  ghost predicate AllUnavailable(addrs: seq<string>, env: Env, retries: nat, ss: seq<Session>) {
    forall i :: 0 <= i < |addrs| ==>
      FleetRuns.Unavailable(LogAfter(addrs, env, retries, ss), addrs[i], env.pickTime(|ss| + 1))
  }

  lemma {:induction false} RefusedByLog(addrs: seq<string>, env: Env, retries: nat, ss: seq<Session>)
    requires FleetRuns.Distinct(addrs) && PickAfter(addrs, env, retries, ss).1.None?
    ensures AllUnavailable(addrs, env, retries, ss)
  {
    FleetRuns.PickByLog(addrs, Trace(env, retries, ss), env.pickTime(|ss| + 1), env.draw(|ss| + 1));
  }

  lemma {:induction false} WholeRun(addrs: seq<string>, env: Env, count: nat, retries: nat)
    returns (ss: seq<Session>)
    ensures var (o, used) := Sessions(Selector(NewEndpoints(addrs), ""), env, 1, count, retries);
      used == Servers(ss) && RunEnds(addrs, env, count, retries, ss, o)
  {
    var o, used;
    ss, o, used := RunFrom(addrs, env, count, retries, []);
    assert [] + used == used;
  }

  /**
   A whole run by its log. Each session picks an address that is available according to the log of the
   sessions before it: one pick each, a failure for each attempt before the first success, and that
   success. All sessions are served, or the first that is not finds every address unavailable.
   */
  lemma {:induction false} RunByLog(addrs: seq<string>, env: Env, count: nat, retries: nat)
    returns (ss: seq<Session>)
    requires FleetRuns.Distinct(addrs)
    ensures var (o, used) := Sessions(Selector(NewEndpoints(addrs), ""), env, 1, count, retries);
      used == Servers(ss) && RunEnds(addrs, env, count, retries, ss, o)
    ensures ByLog(addrs, env, retries, ss) && (|ss| < count ==> AllUnavailable(addrs, env, retries, ss))
  {
    ss := WholeRun(addrs, env, count, retries);
    ServedByLog(addrs, env, retries, ss);
    if |ss| < count {
      RefusedByLog(addrs, env, retries, ss);
    }
  }

  // ----- A run in which every session succeeds -----

  ghost predicate LiveSession(env: Env, s: nat, retries: nat) {
    exists a: nat :: 1 <= a <= retries && env.succeeds(s, a)
  }

  ghost predicate LiveFrom(env: Env, s: nat, count: nat, retries: nat)
    decreases count + 1 - s
  {
    s <= count ==> LiveSession(env, s, retries) && LiveFrom(env, s + 1, count, retries)
  }

  lemma {:induction false} LiveRest(env: Env, s: nat, count: nat, retries: nat)
    requires 1 <= s && forall j: nat :: 1 <= j <= count ==> LiveSession(env, j, retries)
    ensures LiveFrom(env, s, count, retries)
    decreases count + 1 - s
  {
    if s <= count {
      LiveRest(env, s + 1, count, retries);
    }
  }

  /** No endpoint has a streak of three. */
  ghost predicate Fit(es: seq<Endpoint>) {
    forall i :: 0 <= i < |es| ==> es[i].consecFails < UNHEALTHY_AFTER
  }

  /** A session that succeeds leaves its endpoint without a streak and the others as they were. */
  lemma {:induction false} AttemptsSucceed(
      f: Selector, server: string, env: Env, s: nat, a: nat, retries: nat, last: nat, i: nat)
    requires a <= last <= retries && env.succeeds(s, last)
    requires i < |f.endpoints| && i == IndexOf(f.endpoints, server)
    ensures var g := Attempts(f, server, env, s, a, retries);
      |g.endpoints| == |f.endpoints| && g.endpoints[i].consecFails == 0
      && g.endpoints == f.endpoints[i := g.endpoints[i]]
    decreases retries + 1 - a
  {
    if !env.succeeds(s, a) {
      var t := env.failTime(s, a);
      var h := AfterFailure(f, server, t);
      assert h.endpoints == f.endpoints[i := Failed(f.endpoints[i], t)];
      SameIndex(f.endpoints, h.endpoints, server);
      AttemptsSucceed(h, server, env, s, a + 1, retries, last, i);
    }
  }

  lemma {:induction false} FitPick(f: Selector, now: int, draw: uint32) returns (i: nat)
    requires f.endpoints != [] && Fit(f.endpoints)
    ensures var (g, r) := PickFrom(f, now, draw);
      r.Some? && g.endpoints == f.endpoints && i < |f.endpoints| && i == IndexOf(f.endpoints, r.value)
  {
    PickIsHealthy(f, now, draw);
    assert !Benched(f.endpoints[0], now);
    var r := PickFrom(f, now, draw).1;
    i := IndexOf(f.endpoints, r.value);
  }

  lemma {:induction false} LiveRun(f: Selector, env: Env, s: nat, count: nat, retries: nat)
    requires f.endpoints != [] && Fit(f.endpoints) && s <= count + 1 && LiveFrom(env, s, count, retries)
    ensures var (o, used) := Sessions(f, env, s, count, retries); o == Completed && |used| == count + 1 - s
    decreases count + 1 - s
  {
    if s <= count {
      var i := FitPick(f, env.pickTime(s), env.draw(s));
      var (g, server) := PickFrom(f, env.pickTime(s), env.draw(s));
      var last: nat :| 1 <= last <= retries && env.succeeds(s, last);
      AttemptsSucceed(g, server.value, env, s, 1, retries, last, i);
      LiveRun(Attempts(g, server.value, env, s, 1, retries), env, s + 1, count, retries);
    }
  }

  /** If some attempt of every session succeeds, all sessions are served, whatever the clock and the draws. */
  lemma {:induction false} LiveFleet(addrs: seq<string>, env: Env, count: nat, retries: nat)
    requires addrs != [] && forall s: nat :: 1 <= s <= count ==> LiveSession(env, s, retries)
    ensures var (o, used) := Sessions(Selector(NewEndpoints(addrs), ""), env, 1, count, retries);
      o == Completed && |used| == count
  {
    LiveRest(env, 1, count, retries);
    LiveRun(Selector(NewEndpoints(addrs), ""), env, 1, count, retries);
  }
}
