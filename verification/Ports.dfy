/** Port allocation of cluster/network/Network.cc as functions on its two maps. */
module Ports {
  import opened Collections

  type Port = int

  /** Reverse ports, lent to senders for the time of a send, start here. */
  const REV_BASE: Port := 100

  /** The downward search: the highest free port from i down to lo, or lo - 1. */
  function FreeDown(taken: set<Port>, lo: Port, i: int): (r: int)
    requires i >= lo - 1
    ensures lo - 1 <= r <= i
    ensures r >= lo ==> r !in taken
    ensures forall k | r < k <= i :: k in taken
    decreases i - lo + 1
  {
    if i < lo || i !in taken then i else FreeDown(taken, lo, i - 1)
  }

  /** Searching |taken| + 1 places never comes up empty. */
  lemma FreeDownFinds(taken: set<Port>, lo: Port)
    ensures FreeDown(taken, lo, lo + |taken|) >= lo
  {
    FreePlace(taken, lo);
  }

  function ServicePort<P>(services: map<Port, P>): Port {
    FreeDown(services.Keys, 0, |services|)
  }

  function NewRevPort<P>(revs: map<Port, P>): Port {
    FreeDown(revs.Keys, REV_BASE, REV_BASE + |revs|)
  }

  lemma PortsFound<P>(m: map<Port, P>)
    ensures ServicePort(m) >= 0 && ServicePort(m) !in m
    ensures NewRevPort(m) >= REV_BASE && NewRevPort(m) !in m
  {
    FreeDownFinds(m.Keys, 0);
    FreeDownFinds(m.Keys, REV_BASE);
    assert |m.Keys| == |m|;
  }

  /** find_procrev: the lowest port lent to p, or -1. */
  function RevPortOf<P(==)>(revs: map<Port, P>, p: P): (q: Port)
    requires forall x | x in revs :: x >= REV_BASE
    ensures q >= 0 ==> q in revs && revs[q] == p && forall x | x in revs && revs[x] == p :: q <= x
    ensures q < 0 ==> q == -1 && forall x | x in revs :: revs[x] != p
  {
    var mine := set x | x in revs && revs[x] == p;
    if mine == {} then
      assert forall x | x in revs :: revs[x] == p ==> x in mine;
      -1
    else
      assert forall x | x in revs && revs[x] == p :: x in mine;
      Min(mine)
  }

  /** find_or_register_rev. */
  function LentPort<P(==)>(revs: map<Port, P>, p: P): Port
    requires forall x | x in revs :: x >= REV_BASE
  {
    var q := RevPortOf(revs, p);
    if q < 0 then NewRevPort(revs) else q
  }

  /** dispatch: a service port wins over a reverse port. */
  function Resolve<P>(services: map<Port, P>, revs: map<Port, P>, q: Port): Option<P> {
    if q in services then Some(services[q]) else if q in revs then Some(revs[q]) else None
  }

  /* ---------- Histories of service registration on one host ---------- */

  datatype ServiceStep<P> = Up(p: P) | Down(port: Port)

  function After<P>(history: seq<ServiceStep<P>>): map<Port, P> {
    if history == [] then map[]
    else
      var m := After(history[..|history| - 1]);
      Moved(m, history[|history| - 1])
  }

  function Moved<P>(m: map<Port, P>, s: ServiceStep<P>): map<Port, P> {
    match s
    case Up(p) => m[ServicePort(m) := p]
    case Down(q) => m - {q}
  }

  /** The largest number of services ever live at once. */
  function Peak<P>(history: seq<ServiceStep<P>>): nat {
    if history == [] then 0
    else
      var before := Peak(history[..|history| - 1]);
      if |After(history)| > before then |After(history)| else before
  }

  /** Whatever is started and stopped, a service port stays below the peak number of live services. */
  lemma {:induction false} ServicePortsBelowPeak<P>(history: seq<ServiceStep<P>>)
    ensures |After(history)| <= Peak(history)
    ensures forall q | q in After(history) :: 0 <= q < Peak(history)
  {
    if history != [] {
      var init := history[..|history| - 1];
      ServicePortsBelowPeak(init);
      var m := After(init);
      PortsFound(m);
      match history[|history| - 1]
      case Up(p) => assert |After(history)| == |m| + 1;
      case Down(q) =>
    }
  }

  lemma {:induction false} PeakGrows<P>(history: seq<ServiceStep<P>>, n: nat)
    requires n <= |history|
    ensures Peak(history[..n]) <= Peak(history)
  {
    hide After;
    if n == |history| {
      assert history[..n] == history;
    } else {
      var init := history[..|history| - 1];
      PeakGrows(init, n);
      assert init[..n] == history[..n];
    }
  }

  /** Some service has been given port q at some point of the history. */
  ghost predicate Taken<P>(history: seq<ServiceStep<P>>, q: Port) {
    exists n | 0 <= n <= |history| :: q in After(history[..n])
  }

  lemma TakenBefore<P>(history: seq<ServiceStep<P>>, n: nat, q: Port)
    requires n <= |history| && !Taken(history, q)
    ensures !Taken(history[..n], q) && q !in After(history[..n])
  {
    forall k | 0 <= k <= n
      ensures q !in After(history[..n][..k])
    {
      assert history[..n][..k] == history[..k];
    }
  }

  /** A port that is never taken bounds all that are: a new port is at most the number of live services. */
  lemma {:induction false} NeverTaken<P>(history: seq<ServiceStep<P>>, q: Port)
    requires q >= 0 && !Taken(history, q)
    ensures (forall x | x in After(history) :: 0 <= x < q) && Peak(history) <= q
  {
    hide Taken, ServicePort, Moved;
    if history != [] {
      var init := history[..|history| - 1];
      assert history[..|history|] == history;
      TakenBefore(history, |history|, q);
      TakenBefore(history, |init|, q);
      NeverTaken(init, q);
      PortsBelow(After(init), q);
      PortsFound(After(init));
      NewPortBelow(After(init), history[|init|], q);
      PortsBelow(After(history), q);
    }
  }

  lemma NewPortBelow<P>(m: map<Port, P>, s: ServiceStep<P>, q: Port)
    requires q >= 0 && (forall x | x in m :: 0 <= x < q) && q !in Moved(m, s)
    ensures forall x | x in Moved(m, s) :: 0 <= x < q
  {
    hide ServicePort;
    PortsBelow(m, q);
    PortsFound(m);
  }

  lemma PortsBelow<P>(m: map<Port, P>, q: Port)
    requires q >= 0
    ensures (forall x | x in m :: 0 <= x < q) ==> |m| <= q
    ensures ServicePort(m) <= |m|
  {
    if forall x | x in m :: 0 <= x < q {
      IntervalSize(0, q);
      SubsetSize(m.Keys, Interval(0, q));
      assert |m| == |m.Keys|;
    }
  }

  /** Over any history of starts and stops, a service is at some point given port q exactly when more than q services
      have been live at once. For the first reverse port this is the 101st service. */
  lemma TakenExactly<P>(history: seq<ServiceStep<P>>, q: Port)
    requires q >= 0
    ensures Taken(history, q) <==> Peak(history) > q
  {
    hide After, Peak;
    if Taken(history, q) {
      var n :| 0 <= n <= |history| && q in After(history[..n]);
      ServicePortsBelowPeak(history[..n]);
      PeakGrows(history, n);
    } else {
      NeverTaken(history, q);
    }
  }

  /** So while at most 100 services are ever live together, dispatch never takes a lent port for a service. */
  lemma NoShadow<P>(history: seq<ServiceStep<P>>, revs: map<Port, P>, q: Port)
    requires Peak(history) <= REV_BASE && q >= REV_BASE && q in revs
    ensures Resolve(After(history), revs, q) == Some(revs[q])
  {
    ServicePortsBelowPeak(history);
  }

  /** On a host that has lent no port, the reply to p's message reaches p exactly when no other process serves at the
      first reverse port. */
  lemma FirstReply<P>(services: map<Port, P>, p: P)
    ensures LentPort(map[], p) == REV_BASE
    ensures Resolve(services, map[REV_BASE := p], REV_BASE) == Some(p) <==>
        REV_BASE !in services || services[REV_BASE] == p
  {
  }

  /** A port lent to p leads back to p exactly when no other process serves at it; nobody else's lent port is
      affected. */
  lemma LentPortAnswers<P>(services: map<Port, P>, revs: map<Port, P>, p: P, q: Port)
    requires forall x | x in revs :: x >= REV_BASE
    ensures var e := LentPort(revs, p);
      && e >= REV_BASE && (e in revs ==> revs[e] == p)
      && (Resolve(services, revs[e := p], e) == Some(p) <==> e !in services || services[e] == p)
      && (q != e ==> Resolve(services, revs[e := p], q) == Resolve(services, revs, q))
  {
    PortsFound(revs);
  }
}
