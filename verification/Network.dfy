/** cluster/network/Network.cc: the port tables of one host, changed in place. */
module NetworkLayer {
  import opened Collections
  import opened Ports

  class Network<P(==)> {
    var serviceMap: map<Port, P>
    var procRevmap: map<Port, P>

    ghost predicate Valid()
      reads this
    {
      && (forall q | q in serviceMap :: q >= 0)
      && (forall q | q in procRevmap :: q >= REV_BASE)
    }

    constructor ()
      ensures Valid() && serviceMap == map[] && procRevmap == map[]
    {
      serviceMap, procRevmap := map[], map[];
    }

    /** The search always finds a port, so the source's "Unexpected no port" branch is never taken. */
    method RegisterService(s: P) returns (port: Port)
      requires Valid()
      modifies this`serviceMap
      ensures Valid() && port >= 0 && port !in old(serviceMap)
      ensures port == ServicePort(old(serviceMap)) && serviceMap == old(serviceMap)[port := s]
    {
      PortsFound(serviceMap);
      var i := |serviceMap|;
      while i > -1 && i in serviceMap
        invariant -1 <= i <= |serviceMap|
        invariant FreeDown(serviceMap.Keys, 0, i) == ServicePort(serviceMap)
      {
        i := i - 1;
      }
      if i != -1 {
        serviceMap := serviceMap[i := s];
      }
      return i;
    }

    method UnregisterService(port: Port) returns (found: bool)
      requires Valid()
      modifies this`serviceMap
      ensures Valid() && found == (port in old(serviceMap)) && serviceMap == old(serviceMap) - {port}
    {
      if port !in serviceMap { return false; }
      serviceMap := serviceMap - {port};
      return true;
    }

    method FindProcRev(p: P) returns (port: Port)
      requires Valid()
      ensures port == RevPortOf(procRevmap, p)
    {
      var keys := SortedKeys(procRevmap.Keys);
      var i := 0;
      while i < |keys|
        invariant 0 <= i <= |keys|
        invariant forall j | 0 <= j < i :: procRevmap[keys[j]] != p
      {
        if procRevmap[keys[i]] == p {
          assert RevPortOf(procRevmap, p) in keys;
          return keys[i];
        }
        i := i + 1;
      }
      return -1;
    }

    method RegisterProcRev(p: P) returns (port: Port)
      requires Valid()
      modifies this`procRevmap
      ensures Valid() && port >= REV_BASE && port !in old(procRevmap)
      ensures port == NewRevPort(old(procRevmap)) && procRevmap == old(procRevmap)[port := p]
    {
      PortsFound(procRevmap);
      var i := REV_BASE + |procRevmap|;
      while i > REV_BASE - 1 && i in procRevmap
        invariant REV_BASE - 1 <= i <= REV_BASE + |procRevmap|
        invariant FreeDown(procRevmap.Keys, REV_BASE, i) == NewRevPort(procRevmap)
      {
        i := i - 1;
      }
      if i >= REV_BASE {
        procRevmap := procRevmap[i := p];
      } else {
        i := -1;
      }
      return i;
    }

    method FindOrRegisterRev(p: P) returns (port: Port)
      requires Valid()
      modifies this`procRevmap
      ensures Valid() && port == LentPort(old(procRevmap), p) && procRevmap == old(procRevmap)[port := p]
    {
      port := FindProcRev(p);
      if port < 0 {
        port := RegisterProcRev(p);
      }
    }

    method UnregisterProcRev(port: Port) returns (found: bool)
      requires Valid()
      modifies this`procRevmap
      ensures Valid() && found == (port in old(procRevmap)) && procRevmap == old(procRevmap) - {port}
    {
      if port !in procRevmap { return false; }
      procRevmap := procRevmap - {port};
      return true;
    }

    /** Who a message for this port is handed to. */
    method Dispatch(port: Port) returns (receiver: Option<P>)
      ensures receiver == None <==> port !in serviceMap && port !in procRevmap
      ensures receiver == Resolve(serviceMap, procRevmap, port)
    {
      if port in serviceMap { return Some(serviceMap[port]); }
      if port in procRevmap { return Some(procRevmap[port]); }
      return None;
    }
  }
}
