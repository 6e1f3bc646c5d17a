/** Whole timed runs of the fleet selector: what its counters mean and whom `pick` may return. */
module FleetRuns {
  import opened Common
  import opened Fleet

  datatype Op = PickOp(draw: uint32) | SuccessOp(addr: string) | FailureOp(addr: string)
  datatype Event = Event(op: Op, now: int)

  /** What an observer of the selector sees. */
  datatype Entry = Picked(r: Option<string>, t: int) | Success(addr: string, t: int) | Failure(addr: string, t: int)

  ghost function Apply(f: Selector, e: Event): (Selector, Entry) {
    match e.op
    case PickOp(draw) => var (g, r) := PickFrom(f, e.now, draw); (g, Picked(r, e.now))
    case SuccessOp(addr) => (AfterSuccess(f, addr), Success(addr, e.now))
    case FailureOp(addr) => (AfterFailure(f, addr, e.now), Failure(addr, e.now))
  }

  ghost function Run(addrs: seq<string>, es: seq<Event>): (r: (Selector, seq<Entry>))
    ensures |r.1| == |es|
  {
    if es == [] then (Selector(NewEndpoints(addrs), ""), [])
    else
      var (f, log) := Run(addrs, es[..|es| - 1]);
      var (g, entry) := Apply(f, es[|es| - 1]);
      (g, log + [entry])
  }

  ghost predicate InOrder(log: seq<Entry>) {
    forall i, j :: 0 <= i < j < |log| ==> log[i].t <= log[j].t
  }

  ghost predicate Distinct(addrs: seq<string>) {
    forall i, j :: 0 <= i < j < |addrs| ==> addrs[i] != addrs[j]
  }

  /** Time of the latest failure of an address. */
  ghost function LastFailure(log: seq<Entry>, a: string): int {
    if log == [] then 0
    else
      var x := log[|log| - 1];
      if x.Failure? && x.addr == a then x.t else LastFailure(log[..|log| - 1], a)
  }

  const FIVE_MINUTES := 5 * 60 * 1_000_000_000

  /**
   Failures of an address since its last success or heal, where a heal is a pick that comes at least
   five minutes after the latest of three or more failures.
   */
  ghost function Streak(log: seq<Entry>, a: string): nat {
    if log == [] then 0
    else
      var x, before := log[|log| - 1], log[..|log| - 1];
      match x
      case Failure(b, _) => if b == a then Streak(before, a) + 1 else Streak(before, a)
      case Success(b, _) => if b == a then 0 else Streak(before, a)
      case Picked(_, t) =>
        if Streak(before, a) >= 3 && t - LastFailure(before, a) >= FIVE_MINUTES then 0
        else Streak(before, a)
  }

  ghost function Successes(log: seq<Entry>, a: string): nat {
    if log == [] then 0
    else
      var x := log[|log| - 1];
      Successes(log[..|log| - 1], a) + if x.Success? && x.addr == a then 1 else 0
  }

  ghost function Failures(log: seq<Entry>, from: nat, a: string): nat {
    if |log| <= from then 0
    else
      var x := log[|log| - 1];
      Failures(log[..|log| - 1], from, a) + if x.Failure? && x.addr == a then 1 else 0
  }

  ghost predicate Tracks(e: Endpoint, log: seq<Entry>) {
    && e.consecFails == Streak(log, e.addr)
    && (e.consecFails >= 3 ==> e.unhealthySince == LastFailure(log, e.addr))
    && e.totalFail == Failures(log, 0, e.addr) && e.totalSuccess == Successes(log, e.addr)
  }

  ghost predicate Inv(addrs: seq<string>, f: Selector, log: seq<Entry>) {
    && |f.endpoints| == |addrs|
    && forall i :: 0 <= i < |addrs| ==> f.endpoints[i].addr == addrs[i] && Tracks(f.endpoints[i], log)
  }

  lemma {:induction false} StepTracks(addrs: seq<string>, f: Selector, log: seq<Entry>, e: Event, i: nat)
    requires Distinct(addrs) && Inv(addrs, f, log) && i < |addrs|
    ensures var (g, entry) := Apply(f, e);
      |g.endpoints| == |addrs| && g.endpoints[i].addr == addrs[i] && Tracks(g.endpoints[i], log + [entry])
  {
    var (g, entry) := Apply(f, e);
    assert (log + [entry])[..|log|] == log;
    if !e.op.PickOp? {
      var k := IndexOf(f.endpoints, e.op.addr);
      assert k < |addrs| ==> addrs[k] == e.op.addr;
      assert i == k || addrs[i] != e.op.addr;
    }
  }

  /**
   In every run over distinct addresses an endpoint's streak is the number of its failures since its last
   success or heal, its timestamp is that of the latest of them, and its totals count all of its outcomes.
   */
  lemma {:induction false} CountersMeanStreaks(addrs: seq<string>, es: seq<Event>)
    requires Distinct(addrs)
    ensures Inv(addrs, Run(addrs, es).0, Run(addrs, es).1)
  {
    if es == [] {
    } else {
      var es', e := es[..|es| - 1], es[|es| - 1];
      CountersMeanStreaks(addrs, es');
      var (f, log) := Run(addrs, es');
      forall i | 0 <= i < |addrs|
        ensures var (g, entry) := Apply(f, e);
          |g.endpoints| == |addrs| && g.endpoints[i].addr == addrs[i] && Tracks(g.endpoints[i], log + [entry])
      {
        StepTracks(addrs, f, log, e, i);
      }
    }
  }

  /** Unavailable according to the log: a streak of three whose last failure is within the cool-off. */
  ghost predicate Unavailable(log: seq<Entry>, a: string, t: int) {
    Streak(log, a) >= 3 && t - LastFailure(log, a) < FIVE_MINUTES
  }

  /** `pick` fails exactly when every address is unavailable, and never returns an unavailable one. */
  lemma {:induction false} PickByLog(addrs: seq<string>, es: seq<Event>, now: int, draw: uint32)
    requires Distinct(addrs)
    ensures var (f, log) := Run(addrs, es);
      var r := PickFrom(f, now, draw).1;
      && (r.None? <==> forall i :: 0 <= i < |addrs| ==> Unavailable(log, addrs[i], now))
      && (r.Some? ==> r.value in addrs && !Unavailable(log, r.value, now))
  {
    var (f, log) := Run(addrs, es);
    CountersMeanStreaks(addrs, es);
    PickIsHealthy(f, now, draw);
    assert forall i :: 0 <= i < |addrs| ==> (Benched(f.endpoints[i], now) <==> Unavailable(log, addrs[i], now));
    var r := PickFrom(f, now, draw).1;
    if r.Some? {
      var i :| 0 <= i < |f.endpoints| && f.endpoints[i].addr == r.value && !Benched(f.endpoints[i], now);
      assert addrs[i] == r.value;
    }
  }

  // ----- A statement without heals -----

  /** Within one cool-off of a failure nothing heals, so the streak counts everything since. */
  lemma {:induction false} NoHealInWindow(log: seq<Entry>, i: nat, a: string)
    requires i < |log| && InOrder(log) && log[i].Failure? && log[i].addr == a
    requires log[|log| - 1].t - log[i].t < FIVE_MINUTES
    requires forall j :: i < j < |log| ==> !(log[j].Success? && log[j].addr == a)
    ensures Streak(log, a) >= Failures(log, i, a) && LastFailure(log, a) >= log[i].t
  {
    var before := log[..|log| - 1];
    if i == |before| {
      assert Failures(before, i, a) == 0;
    } else {
      assert before[|before| - 1].t <= log[|log| - 1].t;
      NoHealInWindow(before, i, a);
    }
  }

  lemma {:induction false} RunPrefix(addrs: seq<string>, es: seq<Event>, p: nat)
    requires p <= |es|
    ensures Run(addrs, es).1[..p] == Run(addrs, es[..p]).1
    decreases |es|
  {
    if p == |es| {
      assert es[..p] == es;
    } else {
      var n := |es| - 1;
      RunPrefix(addrs, es[..n], p);
      assert es[..n][..p] == es[..p];
      assert Run(addrs, es).1[..n] == Run(addrs, es[..n]).1;
    }
  }

  /**
   Seen from outside: if an address is picked at time t, then any window shorter than the cool-off
   that starts at one of its failures, ends at t and contains no success of it holds at most two of
   its failures.
   */
  lemma {:induction false} NeverPickedAfterThree(addrs: seq<string>, es: seq<Event>, i: nat, p: nat, a: string)
    requires Distinct(addrs) && InOrder(Run(addrs, es).1) && i < p < |es|
    requires var log := Run(addrs, es).1;
      && log[i].Failure? && log[i].addr == a
      && log[p].Picked? && log[p].r == Some(a) && log[p].t - log[i].t < FIVE_MINUTES
      && forall j :: i < j < p ==> !(log[j].Success? && log[j].addr == a)
    ensures Failures(Run(addrs, es).1[..p], i, a) <= 2
  {
    var log := Run(addrs, es).1;
    RunPrefix(addrs, es, p);
    RunPrefix(addrs, es, p + 1);
    var (f, before) := Run(addrs, es[..p]);
    assert es[..p + 1][..p] == es[..p];
    var e := es[p];
    assert log[p] == log[..p + 1][p] == Apply(f, e).1;
    PickByLog(addrs, es[..p], e.now, e.op.draw);
    assert before == log[..p] && log[p - 1].t <= log[p].t;
    NoHealInWindow(before, i, a);
  }

  // ----- Runs from any state -----

  ghost function Play(f: Selector, es: seq<Event>): Selector {
    if es == [] then f else Apply(Play(f, es[..|es| - 1]), es[|es| - 1]).0
  }

  lemma {:induction false} PlaySnoc(f: Selector, es: seq<Event>, e: Event)
    ensures Play(f, es + [e]) == Apply(Play(f, es), e).0
  {
    assert (es + [e])[..|es|] == es;
  }

  lemma {:induction false} PlayAppend(f: Selector, xs: seq<Event>, ys: seq<Event>)
    ensures Play(f, xs + ys) == Play(Play(f, xs), ys)
  {
    if ys == [] {
      assert xs + ys == xs;
    } else {
      PlayAppend(f, xs, ys[..|ys| - 1]);
      assert (xs + ys)[..|xs + ys| - 1] == xs + ys[..|ys| - 1];
    }
  }

  lemma {:induction false} RunIsPlay(addrs: seq<string>, es: seq<Event>)
    ensures Run(addrs, es).0 == Play(Selector(NewEndpoints(addrs), ""), es)
  {
    if es != [] {
      RunIsPlay(addrs, es[..|es| - 1]);
    }
  }
}
