/** Reverse ports of all hosts together: what Host::send_message lends and takes back (cluster/Host.cc). */
module Lending {
  import opened Collections
  import opened Ports
  import opened Topology

  type Lent = map<Entity, Proc>

  /** proc_revmap of one host. */
  function Local(lent: Lent, h: HostId): (m: map<Port, Proc>)
    ensures forall q :: q in m <==> Entity(h, q) in lent
    ensures forall q | q in m :: m[q] == lent[Entity(h, q)]
  {
    var ports := set e | e in lent && e.host == h :: e.port;
    assert forall q :: Entity(h, q) in lent ==> Entity(h, q).port in ports;
    map q | q in ports :: lent[Entity(h, q)]
  }

  /** Every port is lent by its holder's own host, and no process holds two. */
  ghost predicate Orderly(lent: Lent, hostOf: Proc -> HostId) {
    && (forall e | e in lent :: e.port >= REV_BASE && hostOf(lent[e]) == e.host)
    && (forall e, f | e in lent && f in lent && lent[e] == lent[f] :: e == f)
  }

  /** Where a sender on host h receives answers: the port it already holds, or a new one. */
  function LendTo(lent: Lent, h: HostId, p: Proc): Entity
    requires forall e | e in lent :: e.port >= REV_BASE
  {
    Entity(h, LentPort(Local(lent, h), p))
  }

  lemma LendOrderly(lent: Lent, hostOf: Proc -> HostId, p: Proc)
    requires Orderly(lent, hostOf)
    ensures var e := LendTo(lent, hostOf(p), p);
            && Orderly(lent[e := p], hostOf) && e.port >= REV_BASE && e.host == hostOf(p)
            && (e in lent ==> lent[e] == p)
            && (e !in lent ==> forall f | f in lent :: lent[f] != p)
  {
    var h := hostOf(p);
    var m := Local(lent, h);
    PortsFound(m);
    var e := LendTo(lent, h, p);
    if e !in lent {
      forall f | f in lent
        ensures lent[f] != p
      {
        assert f == Entity(f.host, f.port) && hostOf(lent[f]) == f.host;
        assert f.host == h ==> f.port in m && m[f.port] == lent[f];
      }
    }
  }

  /** What is left when the processes in `done` have given their ports back. */
  function Released(lent: Lent, done: set<Proc>): Lent {
    map e | e in lent && lent[e] !in done :: lent[e]
  }

  lemma ReleasedTwice(lent: Lent, a: set<Proc>, b: set<Proc>)
    ensures Released(Released(lent, a), b) == Released(lent, a + b)
  {
  }

  lemma ReleasedEmpty(lent: Lent, done: set<Proc>)
    requires lent == map[]
    ensures Released(lent, done) == map[]
  {
  }

  lemma ReleasedNone(lent: Lent)
    ensures Released(lent, {}) == lent
  {
  }

  /** One whole send: the port e is lent to p, the receiver's own sends (by `inner`) come and go, and the port is
      taken back. In the end p and everybody in `inner` hold no port, and nobody else's changed. */
  lemma SendLeaves(lent: Lent, hostOf: Proc -> HostId, p: Proc, e: Entity, inner: set<Proc>)
    requires Orderly(lent, hostOf) && Orderly(lent[e := p], hostOf) && (e in lent ==> lent[e] == p)
    ensures Released(lent[e := p], inner) - {e} == Released(lent, inner + {p})
    ensures Orderly(Released(lent, inner + {p}), hostOf)
  {
    var m := lent[e := p];
    forall f | f in lent && f != e
      ensures lent[f] != p
    {
      assert f in m && m[f] == lent[f] && e in m && m[e] == p;
    }
  }

  /** Nothing has been lent since. */
  ghost predicate Within(lent: Lent, before: Lent) {
    forall e | e in lent :: e in before && lent[e] == before[e]
  }

  lemma ReturnedWithin(lent: Lent, before: Lent, e: Entity, p: Proc)
    requires Within(lent, before[e := p])
    ensures Within(lent - {e}, before)
  {
  }

  /** find_or_register_rev of the sender's host. */
  method Borrow(lent: Lent, hostOf: Proc -> HostId, p: Proc) returns (e: Entity)
    requires Orderly(lent, hostOf)
    ensures Orderly(lent[e := p], hostOf)
    ensures e.port >= REV_BASE && e.host == hostOf(p) && (e in lent ==> lent[e] == p)
  {
    LendOrderly(lent, hostOf, p);
    e := LendTo(lent, hostOf(p), p);
  }

  /** Network::dispatch over all hosts: a service first, then the holder of a reverse port. */
  function Receiver(services: map<Entity, Proc>, lent: Lent, e: Entity): Option<Proc> {
    if e in services then Some(services[e]) else if e in lent then Some(lent[e]) else None
  }

  lemma ReceiverLent(services: map<Entity, Proc>, lent: Lent, p: Proc, e: Entity, f: Entity)
    requires e !in services && (e in lent ==> lent[e] == p)
    ensures Receiver(services, lent[e := p], e) == Some(p)
    ensures Receiver(services, lent, f).Some? ==> Receiver(services, lent[e := p], f) == Receiver(services, lent, f)
  {
  }

  /* ---------- All nested runs ---------- */

  /** One active call of send_message; `spent` once a nested send by the same process has returned. */
  datatype Frame = Frame(proc: Proc, at: Entity, spent: bool)

  datatype Machine = Machine(lent: Lent, stack: seq<Frame>)

  /** A run is any properly nested sequence of calls and returns, by any processes. */
  datatype Step = Call(p: Proc) | Return

  ghost predicate Nested(run: seq<Step>) {
    && Depth(run) >= 0
    && (run == [] || Nested(run[..|run| - 1]))
  }

  ghost function Depth(run: seq<Step>): int {
    if run == [] then 0 else Depth(run[..|run| - 1]) + (if run[|run| - 1].Call? then 1 else -1)
  }

  function Spend(stack: seq<Frame>, p: Proc): (r: seq<Frame>)
    ensures |r| == |stack|
    ensures forall i | 0 <= i < |r| :: r[i] == if stack[i].proc == p then stack[i].(spent := true) else stack[i]
  {
    seq(|stack|, i requires 0 <= i < |stack| => if stack[i].proc == p then stack[i].(spent := true) else stack[i])
  }

  ghost predicate Sound(m: Machine, hostOf: Proc -> HostId) {
    && Orderly(m.lent, hostOf)
    && (forall i | 0 <= i < |m.stack| ::
        m.stack[i].at.host == hostOf(m.stack[i].proc) && m.stack[i].at.port >= REV_BASE)
    && (forall i | 0 <= i < |m.stack| && !m.stack[i].spent ::
        m.stack[i].at in m.lent && m.lent[m.stack[i].at] == m.stack[i].proc)
    && (forall e | e in m.lent :: Holder(m.stack, e) == Some(m.lent[e]))
    && AllHeld(m.lent, m.stack)
    && (forall i, j | 0 <= i < j < |m.stack| :: m.stack[j].spent && m.stack[i].proc == m.stack[j].proc ==>
        m.stack[i].spent)
  }

  /** Some unspent call of p has the port e. */
  ghost predicate Held(stack: seq<Frame>, e: Entity, p: Proc) {
    exists i :: Holds(stack, i, e, p)
  }

  ghost predicate AllHeld(lent: Lent, stack: seq<Frame>) {
    forall e | e in lent :: Held(stack, e, lent[e])
  }

  ghost predicate Holds(stack: seq<Frame>, i: int, e: Entity, p: Proc) {
    0 <= i < |stack| && !stack[i].spent && stack[i].at == e && stack[i].proc == p
  }

  /** Who last called with the port e and has not returned. */
  function Holder(stack: seq<Frame>, e: Entity): Option<Proc> {
    if stack == [] then None
    else if stack[|stack| - 1].at == e then Some(stack[|stack| - 1].proc)
    else Holder(stack[..|stack| - 1], e)
  }

  ghost function Exec(run: seq<Step>, hostOf: Proc -> HostId): (m: Machine)
    requires Nested(run)
    ensures Sound(m, hostOf) && |m.stack| == Depth(run)
  {
    if run == [] then Machine(map[], [])
    else
      var m := Exec(run[..|run| - 1], hostOf);
      match run[|run| - 1]
      case Call(p) => CallStep(m, hostOf, p)
      case Return => ReturnStep(m, hostOf)
  }

  ghost function CallStep(m: Machine, hostOf: Proc -> HostId, p: Proc): (n: Machine)
    requires Sound(m, hostOf)
    ensures Sound(n, hostOf)
  {
    var e := LendTo(m.lent, hostOf(p), p);
    LendOrderly(m.lent, hostOf, p);
    CallSound(m, hostOf, p, e);
    Machine(m.lent[e := p], m.stack + [Frame(p, e, false)])
  }

  ghost function ReturnStep(m: Machine, hostOf: Proc -> HostId): (n: Machine)
    requires Sound(m, hostOf) && m.stack != []
    ensures Sound(n, hostOf)
  {
    var top := m.stack[|m.stack| - 1];
    var n := Machine(m.lent - {top.at}, Spend(m.stack[..|m.stack| - 1], top.proc));
    ReturnSound(m, hostOf);
    n
  }

  lemma {:induction false} SpendHolder(stack: seq<Frame>, p: Proc, e: Entity)
    ensures Holder(Spend(stack, p), e) == Holder(stack, e)
  {
    if stack != [] {
      var init := stack[..|stack| - 1];
      SpendHolder(init, p, e);
      assert Spend(stack, p)[..|stack| - 1] == Spend(init, p);
    }
  }

  lemma CallKeepsHolds(m: Machine, hostOf: Proc -> HostId, p: Proc, e: Entity)
    requires Sound(m, hostOf)
    ensures AllHeld(m.lent[e := p], m.stack + [Frame(p, e, false)])
  {
    hide Orderly, Holder;
    var lent, stack := m.lent[e := p], m.stack + [Frame(p, e, false)];
    forall f | f in lent
      ensures Held(stack, f, lent[f])
    {
      if f == e {
        assert Holds(stack, |m.stack|, f, p);
      } else {
        var i :| Holds(m.stack, i, f, m.lent[f]);
        assert Holds(stack, i, f, m.lent[f]);
      }
    }
  }

  lemma CallSound(m: Machine, hostOf: Proc -> HostId, p: Proc, e: Entity)
    requires Sound(m, hostOf)
    requires Orderly(m.lent[e := p], hostOf) && e.host == hostOf(p) && (e in m.lent ==> m.lent[e] == p)
    requires e.port >= REV_BASE
    ensures Sound(Machine(m.lent[e := p], m.stack + [Frame(p, e, false)]), hostOf)
  {
    CallKeepsHolds(m, hostOf, p, e);
    hide Held;
    forall f | f in m.lent[e := p]
      ensures Holder(m.stack + [Frame(p, e, false)], f) == Some(m.lent[e := p][f])
    {
      HolderPush(m.stack, Frame(p, e, false), f);
    }
  }

  lemma HolderPush(stack: seq<Frame>, top: Frame, e: Entity)
    ensures Holder(stack + [top], e) == if top.at == e then Some(top.proc) else Holder(stack, e)
  {
    assert (stack + [top])[..|stack|] == stack;
  }

  lemma ReturnKeepsHolds(m: Machine, hostOf: Proc -> HostId)
    requires Sound(m, hostOf) && m.stack != []
    ensures var top := m.stack[|m.stack| - 1];
      AllHeld(m.lent - {top.at}, Spend(m.stack[..|m.stack| - 1], top.proc))
  {
    hide Holder;
    var top := m.stack[|m.stack| - 1];
    var rest := Spend(m.stack[..|m.stack| - 1], top.proc);
    forall e | e in m.lent - {top.at}
      ensures Held(rest, e, m.lent[e])
    {
      var i :| Holds(m.stack, i, e, m.lent[e]);
      assert m.stack[i].proc == top.proc ==> !top.spent;
      assert Holds(rest, i, e, m.lent[e]);
    }
  }

  lemma ReturnSound(m: Machine, hostOf: Proc -> HostId)
    requires Sound(m, hostOf) && m.stack != []
    ensures var top := m.stack[|m.stack| - 1];
            Sound(Machine(m.lent - {top.at}, Spend(m.stack[..|m.stack| - 1], top.proc)), hostOf)
  {
    ReturnKeepsHolds(m, hostOf);
    var top := m.stack[|m.stack| - 1];
    var init := m.stack[..|m.stack| - 1];
    var n := Machine(m.lent - {top.at}, Spend(init, top.proc));
    forall e | e in n.lent
      ensures Holder(n.stack, e) == Some(n.lent[e])
    {
      SpendHolder(init, top.proc, e);
    }
    forall i | 0 <= i < |n.stack| && !n.stack[i].spent
      ensures n.stack[i].at in n.lent && n.lent[n.stack[i].at] == n.stack[i].proc
    {
      assert n.stack[i] == m.stack[i];
      assert m.lent[m.stack[i].at] == m.stack[i].proc;
      assert top.at in m.lent ==> Holder(m.stack, top.at) == Some(top.proc);
    }
  }

  /** In every run, a reply sent to an active call finds its sender exactly when some unspent call of the same process
      holds the same port: always when no nested send by that process has returned, since then the call itself does.
      */
  lemma ReplySafety(run: seq<Step>, hostOf: Proc -> HostId, services: map<Port, Proc>, i: nat)
    requires Nested(run) && i < Depth(run)
    requires forall q | q in services :: q < REV_BASE
    ensures var m := Exec(run, hostOf);
      var f := m.stack[i];
      && (Resolve(services, Local(m.lent, f.at.host), f.at.port) == Some(f.proc) <==> Held(m.stack, f.at, f.proc))
      && (!f.spent ==> Held(m.stack, f.at, f.proc))
  {
    var m := Exec(run, hostOf);
    var f := m.stack[i];
    assert f.at == Entity(f.at.host, f.at.port);
    assert !f.spent ==> Holds(m.stack, i, f.at, f.proc);
    if Held(m.stack, f.at, f.proc) {
      var j :| Holds(m.stack, j, f.at, f.proc);
      assert m.lent[m.stack[j].at] == f.proc;
    }
  }

  lemma ExecAfter(run: seq<Step>, s: Step, hostOf: Proc -> HostId)
    requires Nested(run) && (s.Return? ==> Depth(run) > 0)
    ensures Nested(run + [s]) && Depth(run + [s]) == Depth(run) + (if s.Call? then 1 else -1)
    ensures var m := Exec(run, hostOf);
      Exec(run + [s], hostOf) == if s.Call? then CallStep(m, hostOf, s.p) else ReturnStep(m, hostOf)
  {
    hide Sound, CallStep, ReturnStep;
    var all := run + [s];
    assert all[..|all| - 1] == run && all[|all| - 1] == s;
  }

  /** A send that nests another send of the same process loses its port when that one returns. */
  lemma LostPort(p: Proc, hostOf: Proc -> HostId, services: map<Port, Proc>)
    requires forall q | q in services :: q < REV_BASE
    ensures var run := [] + [Call(p)] + [Call(p)] + [Return];
      && Nested(run) && Depth(run) == 1
      && var f := Exec(run, hostOf).stack[0];
        && f.proc == p && f.spent
        && Resolve(services, Local(Exec(run, hostOf).lent, f.at.host), f.at.port) == None
  {
    hide Orderly, LendTo, Local, Exec, Nested, Depth;
    NoSteps(hostOf);
    ExecAfter([], Call(p), hostOf);
    ExecAfter([] + [Call(p)], Call(p), hostOf);
    ExecAfter([] + [Call(p)] + [Call(p)], Return, hostOf);
    var m := Exec([] + [Call(p)] + [Call(p)] + [Return], hostOf);
    var f := m.stack[0];
    assert f.proc == p && f.spent;
    assert forall j :: !Holds(m.stack, j, f.at, p);
    assert f.at !in m.lent && f.at == Entity(f.at.host, f.at.port);
  }

  lemma NoSteps(hostOf: Proc -> HostId)
    ensures Nested([]) && Depth([]) == 0 && Exec([], hostOf) == Machine(map[], [])
  {
  }

  lemma NothingLentAtRest(run: seq<Step>, hostOf: Proc -> HostId)
    requires Nested(run) && Depth(run) == 0
    ensures Exec(run, hostOf).lent == map[]
  {
    var m := Exec(run, hostOf);
    forall e
      ensures e !in m.lent
    {
      assert Holder(m.stack, e) == None;
    }
    assert m.lent.Keys == {};
  }
}
