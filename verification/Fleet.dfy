/**
 fleetSelector of cmd/lanturn-phase2: endpoints with a failure streak, a cool-off and a recency rule.
 Times are clock readings in nanoseconds; the random draw of `pick` is an input.
 */
module Fleet {
  import opened Common

  const UNHEALTHY_AFTER := 3
  const HEAL_COOLDOWN := 300_000_000_000

  datatype Endpoint = Endpoint(addr: string, consecFails: nat, totalSuccess: nat, totalFail: nat, unhealthySince: int)

  datatype Selector = Selector(endpoints: seq<Endpoint>, lastUsed: string)

  function NewEndpoints(addrs: seq<string>): (es: seq<Endpoint>)
    ensures |es| == |addrs| && forall i :: 0 <= i < |es| ==> es[i] == Endpoint(addrs[i], 0, 0, 0, 0)
  {
    seq(|addrs|, i requires 0 <= i < |addrs| => Endpoint(addrs[i], 0, 0, 0, 0))
  }

  /** Three or more consecutive failures, the last of them less than the cool-off ago. */
  predicate Benched(e: Endpoint, now: int) {
    e.consecFails >= UNHEALTHY_AFTER && now - e.unhealthySince < HEAL_COOLDOWN
  }

  function Heal(e: Endpoint, now: int): Endpoint {
    if e.consecFails >= UNHEALTHY_AFTER && !Benched(e, now) then e.(consecFails := 0) else e
  }

  function HealAll(es: seq<Endpoint>, now: int): (hs: seq<Endpoint>)
    ensures |hs| == |es| && forall i :: 0 <= i < |es| ==> hs[i] == Heal(es[i], now)
  {
    seq(|es|, i requires 0 <= i < |es| => Heal(es[i], now))
  }

  /** Addresses of the endpoints that are not benched, in fleet order. */
  function Healthy(es: seq<Endpoint>, now: int): seq<string> {
    if es == [] then []
    else Healthy(es[..|es| - 1], now) + if Benched(es[|es| - 1], now) then [] else [es[|es| - 1].addr]
  }

  function Except(addrs: seq<string>, last: string): seq<string> {
    if addrs == [] then []
    else Except(addrs[..|addrs| - 1], last) + if addrs[|addrs| - 1] == last then [] else [addrs[|addrs| - 1]]
  }

  function Candidates(healthy: seq<string>, lastUsed: string): (cs: seq<string>)
    ensures healthy != [] ==> cs != []
  {
    if |healthy| >= 2 && lastUsed != "" && Except(healthy, lastUsed) != [] then Except(healthy, lastUsed)
    else healthy
  }

  function PickFrom(f: Selector, now: int, draw: uint32): (Selector, Option<string>) {
    var healed := HealAll(f.endpoints, now);
    var healthy := Healthy(f.endpoints, now);
    if healthy == [] then (f.(endpoints := healed), None)
    else
      var cs := Candidates(healthy, f.lastUsed);
      var addr := cs[draw % |cs|];
      (Selector(healed, addr), Some(addr))
  }

  /** Index of the first endpoint with an address, or the fleet size. */
  function IndexOf(es: seq<Endpoint>, addr: string): (i: nat)
    ensures i <= |es| && (i < |es| ==> es[i].addr == addr) && forall j :: 0 <= j < i ==> es[j].addr != addr
  {
    if es == [] then 0
    else if es[0].addr == addr then 0
    else
      var k := IndexOf(es[1..], addr);
      assert forall j :: 1 <= j < 1 + k ==> es[j] == es[1..][j - 1];
      1 + k
  }

  function Succeeded(e: Endpoint): Endpoint {
    e.(consecFails := 0, totalSuccess := e.totalSuccess + 1)
  }

  function Failed(e: Endpoint, now: int): Endpoint {
    var e' := e.(consecFails := e.consecFails + 1, totalFail := e.totalFail + 1);
    if e'.consecFails >= UNHEALTHY_AFTER then e'.(unhealthySince := now) else e'
  }

  function AfterSuccess(f: Selector, addr: string): Selector {
    var i := IndexOf(f.endpoints, addr);
    if i < |f.endpoints| then f.(endpoints := f.endpoints[i := Succeeded(f.endpoints[i])]) else f
  }

  function AfterFailure(f: Selector, addr: string, now: int): Selector {
    var i := IndexOf(f.endpoints, addr);
    if i < |f.endpoints| then f.(endpoints := f.endpoints[i := Failed(f.endpoints[i], now)]) else f
  }

  // ----- The selector object -----

  class FleetSelector {
    var endpoints: seq<Endpoint>
    var lastUsed: string

    function View(): Selector
      reads this
    {
      Selector(endpoints, lastUsed)
    }

    constructor (addrs: seq<string>)
      ensures View() == Selector(NewEndpoints(addrs), "")
    {
      endpoints, lastUsed := NewEndpoints(addrs), "";
    }

    /** The scan of `pick`: heals in place and collects the healthy endpoints. */
    method Scan(now: int) returns (healthy: seq<string>)
      modifies this`endpoints
      ensures endpoints == HealAll(old(endpoints), now) && healthy == Healthy(old(endpoints), now)
    {
      healthy := [];
      ghost var before := endpoints;
      for i := 0 to |endpoints|
        invariant |endpoints| == |before|
        invariant forall j :: 0 <= j < i ==> endpoints[j] == Heal(before[j], now)
        invariant forall j :: i <= j < |before| ==> endpoints[j] == before[j]
        invariant healthy == Healthy(before[..i], now)
      {
        assert before[..i + 1][..i] == before[..i];
        var e := endpoints[i];
        if e.consecFails >= UNHEALTHY_AFTER {
          if now - e.unhealthySince < HEAL_COOLDOWN {
            continue;
          }
          endpoints := endpoints[i := e.(consecFails := 0)];
        }
        healthy := healthy + [e.addr];
      }
      assert before[..|before|] == before;
    }

    /** `pick` at clock reading `now`. */
    method Pick(now: int, draw: uint32) returns (r: Option<string>)
      modifies this
      ensures (View(), r) == PickFrom(old(View()), now, draw)
    {
      var healthy := Scan(now);
      if |healthy| == 0 {
        return None;
      }
      var candidates := healthy;
      if |healthy| >= 2 && lastUsed != "" {
        var filtered: seq<string> := [];
        for i := 0 to |healthy|
          invariant filtered == Except(healthy[..i], lastUsed)
        {
          assert healthy[..i + 1][..i] == healthy[..i];
          if healthy[i] != lastUsed {
            filtered := filtered + [healthy[i]];
          }
        }
        assert healthy[..|healthy|] == healthy;
        if |filtered| > 0 {
          candidates := filtered;
        }
      }
      var pick := candidates[draw % |candidates|];
      lastUsed := pick;
      return Some(pick);
    }

    method RecordSuccess(addr: string)
      modifies this`endpoints
      ensures View() == AfterSuccess(old(View()), addr)
    {
      for i := 0 to |endpoints|
        invariant endpoints == old(endpoints)
        invariant forall j :: 0 <= j < i ==> endpoints[j].addr != addr
      {
        if endpoints[i].addr == addr {
          var e := endpoints[i];
          endpoints := endpoints[i := e.(consecFails := 0, totalSuccess := e.totalSuccess + 1)];
          return;
        }
      }
    }

    method RecordFailure(addr: string, now: int)
      modifies this`endpoints
      ensures View() == AfterFailure(old(View()), addr, now)
    {
      for i := 0 to |endpoints|
        invariant endpoints == old(endpoints)
        invariant forall j :: 0 <= j < i ==> endpoints[j].addr != addr
      {
        if endpoints[i].addr == addr {
          var e := endpoints[i];
          e := e.(consecFails := e.consecFails + 1, totalFail := e.totalFail + 1);
          if e.consecFails >= UNHEALTHY_AFTER {
            e := e.(unhealthySince := now);
          }
          endpoints := endpoints[i := e];
          return;
        }
      }
    }
  }

  // ----- What a pick is -----

  lemma {:induction false} HealthyMembers(es: seq<Endpoint>, now: int, a: string)
    ensures a in Healthy(es, now) <==> exists i :: 0 <= i < |es| && es[i].addr == a && !Benched(es[i], now)
    ensures Healthy(es, now) == [] <==> forall i :: 0 <= i < |es| ==> Benched(es[i], now)
  {
    if es == [] {
    } else {
      var n := |es| - 1;
      HealthyMembers(es[..n], now, a);
      assert forall i :: 0 <= i < n ==> es[..n][i] == es[i];
    }
  }

  lemma {:induction false} ExceptMembers(addrs: seq<string>, last: string, a: string)
    ensures a in Except(addrs, last) <==> a in addrs && a != last
  {
    if addrs == [] {
    } else {
      var n := |addrs| - 1;
      ExceptMembers(addrs[..n], last, a);
      assert addrs == addrs[..n] + [addrs[n]];
    }
  }

  /**
   `pick` fails exactly when every endpoint is benched. What it returns is the address of an endpoint
   that is not benched, and it returns the previous address again only if no other one was available.
   */
  lemma {:induction false} PickIsHealthy(f: Selector, now: int, draw: uint32)
    ensures var r := PickFrom(f, now, draw).1;
      && (r.None? <==> forall i :: 0 <= i < |f.endpoints| ==> Benched(f.endpoints[i], now))
      && (r.Some? ==> exists i ::
            0 <= i < |f.endpoints| && f.endpoints[i].addr == r.value && !Benched(f.endpoints[i], now))
      && (r == Some(f.lastUsed) && f.lastUsed != "" ==>
            forall i :: 0 <= i < |f.endpoints| && !Benched(f.endpoints[i], now) ==> f.endpoints[i].addr == f.lastUsed)
  {
    var healthy, r := Healthy(f.endpoints, now), PickFrom(f, now, draw).1;
    HealthyMembers(f.endpoints, now, "");
    if r.Some? {
      var cs := Candidates(healthy, f.lastUsed);
      assert r.value in cs;
      ExceptMembers(healthy, f.lastUsed, r.value);
      HealthyMembers(f.endpoints, now, r.value);
      if r.value == f.lastUsed && f.lastUsed != "" {
        forall i | 0 <= i < |f.endpoints| && !Benched(f.endpoints[i], now)
          ensures f.endpoints[i].addr == f.lastUsed
        {
          HealthyMembers(f.endpoints, now, f.endpoints[i].addr);
          ExceptMembers(healthy, f.lastUsed, f.endpoints[i].addr);
          if |healthy| == 1 {
            assert healthy[0] == r.value;
          }
        }
      }
    }
  }

  // ----- Which candidate a draw picks -----

  /** Addresses of the endpoints that are not benched and not at `skip`, in fleet order. */
  ghost function Listed(es: seq<Endpoint>, now: int, skip: Option<string>): seq<string> {
    if es == [] then []
    else
      var e := es[|es| - 1];
      Listed(es[..|es| - 1], now, skip) + if Benched(e, now) || skip == Some(e.addr) then [] else [e.addr]
  }

  lemma {:induction false} ListedIsHealthy(es: seq<Endpoint>, now: int)
    ensures Listed(es, now, None) == Healthy(es, now)
  {
    if es != [] {
      ListedIsHealthy(es[..|es| - 1], now);
    }
  }

  lemma {:induction false} ExceptSnoc(addrs: seq<string>, a: string, last: string)
    ensures Except(addrs + [a], last) == Except(addrs, last) + if a == last then [] else [a]
  {
    assert (addrs + [a])[..|addrs|] == addrs;
  }

  lemma {:induction false} ListedIsExcept(es: seq<Endpoint>, now: int, last: string)
    ensures Listed(es, now, Some(last)) == Except(Healthy(es, now), last)
  {
    if es != [] {
      var n := |es| - 1;
      ListedIsExcept(es[..n], now, last);
      if !Benched(es[n], now) {
        ExceptSnoc(Healthy(es[..n], now), es[n].addr, last);
      } else {
        assert Healthy(es[..n], now) + [] == Healthy(es[..n], now);
      }
    }
  }

  /** Some endpoint other than the previous one is available, so the previous one is left out. */
  ghost predicate Avoids(f: Selector, now: int) {
    f.lastUsed != "" && Listed(f.endpoints, now, Some(f.lastUsed)) != []
  }

  lemma {:induction false} CandidatesListed(f: Selector, now: int)
    ensures var healthy := Healthy(f.endpoints, now);
      healthy != [] ==>
        Candidates(healthy, f.lastUsed)
        == Listed(f.endpoints, now, if Avoids(f, now) then Some(f.lastUsed) else None)
  {
    var healthy := Healthy(f.endpoints, now);
    ListedIsHealthy(f.endpoints, now);
    ListedIsExcept(f.endpoints, now, f.lastUsed);
    if |healthy| == 1 {
      assert healthy == [] + [healthy[0]];
      ExceptSnoc([], healthy[0], f.lastUsed);
    }
  }

  ghost function Forgiven(e: Endpoint, now: int): Endpoint {
    if e.consecFails >= 3 && now - e.unhealthySince >= 300_000_000_000 then e.(consecFails := 0) else e
  }

  /**
   The draw modulo the number of candidates is the place of the picked one among them, in fleet order;
   the pick is remembered, and three failures whose last is five minutes old are forgiven, nothing else.
   */
  lemma {:induction false} PickIsDrawn(f: Selector, now: int, draw: uint32)
    ensures var (g, r) := PickFrom(f, now, draw);
      var cs := Listed(f.endpoints, now, if Avoids(f, now) then Some(f.lastUsed) else None);
      && (if cs == [] then r.None? && g.lastUsed == f.lastUsed
          else r == Some(cs[draw % |cs|]) && g.lastUsed == r.value)
      && |g.endpoints| == |f.endpoints|
      && forall i :: 0 <= i < |f.endpoints| ==> g.endpoints[i] == Forgiven(f.endpoints[i], now)
  {
    ListedIsHealthy(f.endpoints, now);
    ListedIsExcept(f.endpoints, now, f.lastUsed);
    CandidatesListed(f, now);
    var g := PickFrom(f, now, draw).0;
    assert g.endpoints == HealAll(f.endpoints, now);
    forall i | 0 <= i < |f.endpoints|
      ensures g.endpoints[i] == Forgiven(f.endpoints[i], now)
    {
      assert g.endpoints[i] == Heal(f.endpoints[i], now);
    }
  }
}
