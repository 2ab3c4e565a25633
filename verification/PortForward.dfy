/** Port-forward listeners of one embedded interface (internal/amneziawgnet/portfwd.go). */
module PortForward {
  import opened Text
  import opened Ports

  type Addr = string

  /** A peer, with the first IPv4 and the first IPv6 entry of its AllowedIPs (empty when there is none). */
  datatype Peer = Peer(email: string, firstV4: string, firstV6: string, forwardedPorts: string)

  datatype Instance = Instance(peers: seq<Peer>, ipv6Enabled: bool)

  datatype Proto = Tcp | Udp

  datatype Key = Key(email: string, port: int, proto: Proto)

  /** netip.ParseAddr, and ExpandForwardedPorts. */
  datatype Env = Env(parse: string -> Option<Addr>, expand: string -> seq<int>)

  /** The expansion the panel uses. */
  ghost predicate Expands(env: Env) { forall s :: env.expand(s) == Expanded(Specs(s), MAX_PORTS) }

  function Raw(p: Peer, ipv6Enabled: bool): string {
    if p.firstV4 == "" && ipv6Enabled then p.firstV6 else p.firstV4
  }

  /** Where traffic for this peer goes, if anywhere. */
  function Target(p: Peer, ipv6Enabled: bool, env: Env): Option<Addr> {
    if p.email == "" || Raw(p, ipv6Enabled) == "" then None else env.parse(Raw(p, ipv6Enabled))
  }

  /** The targets by email; a later peer of the same email replaces an earlier one. */
  function Targets(peers: seq<Peer>, ipv6Enabled: bool, env: Env): map<string, Addr> {
    if peers == [] then map[]
    else
      var p := peers[|peers| - 1];
      var before := Targets(peers[..|peers| - 1], ipv6Enabled, env);
      var t := Target(p, ipv6Enabled, env);
      if t.None? then before else before[p.email := t.value]
  }

  /** desiredPeerTargets. */
  method DesiredTargets(inst: Instance, env: Env) returns (out: map<string, Addr>)
    ensures out == Targets(inst.peers, inst.ipv6Enabled, env)
  {
    out := map[];
    for i := 0 to |inst.peers|
      invariant out == Targets(inst.peers[..i], inst.ipv6Enabled, env)
    {
      var p := inst.peers[i];
      assert inst.peers[..i + 1][..i] == inst.peers[..i];
      if p.email == "" { continue; }
      var raw := p.firstV4;
      if raw == "" && inst.ipv6Enabled { raw := p.firstV6; }
      if raw == "" { continue; }
      var addr := env.parse(raw);
      if addr.None? { continue; }
      out := out[p.email := addr.value];
    }
    assert inst.peers[..|inst.peers|] == inst.peers;
  }

  /** An email has a target exactly when some peer of that email resolves. */
  lemma {:induction false} TargetsMean(peers: seq<Peer>, ipv6Enabled: bool, env: Env, email: string)
    ensures email in Targets(peers, ipv6Enabled, env)
       <==> exists i :: 0 <= i < |peers| && peers[i].email == email && Target(peers[i], ipv6Enabled, env).Some?
  {
    if peers != [] {
      var n := |peers| - 1;
      TargetsMean(peers[..n], ipv6Enabled, env, email);
      assert forall i :: 0 <= i < n ==> peers[..n][i] == peers[i];
    }
  }

  predicate Forwards(inst: Instance, env: Env, p: Peer) {
    && p in inst.peers && p.email != "" && p.forwardedPorts != ""
    && p.email in Targets(inst.peers, inst.ipv6Enabled, env)
  }

  function PortsOf(p: Peer, env: Env): seq<int> { env.expand(p.forwardedPorts) }

  /** A listener is wanted for every port of every forwarding peer, on both protocols. */
  ghost predicate Wanted(inst: Instance, env: Env, k: Key) {
    exists p :: Forwards(inst, env, p) && p.email == k.email && Serves(p, k.port, env)
  }

  /** forwardingPeers. */
  method ForwardingPeers(inst: Instance, env: Env) returns (out: seq<Peer>)
    ensures forall p :: p in out <==> Forwards(inst, env, p)
  {
    var targets := DesiredTargets(inst, env);
    out := [];
    for i := 0 to |inst.peers|
      invariant forall p <- out :: Forwards(inst, env, p)
      invariant forall j :: 0 <= j < i && Forwards(inst, env, inst.peers[j]) ==> inst.peers[j] in out
    {
      var p := inst.peers[i];
      if p.email == "" || p.forwardedPorts == "" || p.email !in targets { continue; }
      ghost var before := out;
      out := out + [p];
      assert forall q <- before :: q in out;
    }
  }

  ghost predicate Exactly(keys: set<Key>, inst: Instance, env: Env, done: seq<Peer>) {
    forall k :: k in keys <==> exists p :: p in done && p.email == k.email && Serves(p, k.port, env)
  }

  /** desiredPortForwardKeys. */
  method DesiredKeys(inst: Instance, env: Env) returns (keys: set<Key>)
    ensures forall k :: k in keys <==> Wanted(inst, env, k)
  {
    var peers := ForwardingPeers(inst, env);
    keys := {};
    for i := 0 to |peers|
      invariant Exactly(keys, inst, env, peers[..i])
    {
      keys := AddPeer(inst, env, peers[..i], peers[i], keys);
      assert peers[..i + 1] == peers[..i] + [peers[i]];
    }
    assert peers[..|peers|] == peers;
    ExactlyWanted(inst, env, peers, keys);
  }

  lemma ExactlyWanted(inst: Instance, env: Env, peers: seq<Peer>, keys: set<Key>)
    requires Exactly(keys, inst, env, peers) && forall p :: p in peers <==> Forwards(inst, env, p)
    ensures forall k :: k in keys <==> Wanted(inst, env, k)
  {
    forall k ensures k in keys <==> Wanted(inst, env, k) {
      assert k in keys <==> exists p :: p in peers && p.email == k.email && Serves(p, k.port, env);
    }
  }

  method AddPeer(ghost inst: Instance, env: Env, ghost done: seq<Peer>, p: Peer, before: set<Key>)
    returns (keys: set<Key>)
    requires Exactly(before, inst, env, done)
    ensures Exactly(keys, inst, env, done + [p])
  {
    keys := AddKeys(p.email, PortsOf(p, env), before);
    ExactlyNext(inst, env, done, p, before, keys);
  }

  lemma BothKeys(email: string, port: int, k: Key)
    ensures k in {Key(email, port, Tcp)} + {Key(email, port, Udp)} <==> k.email == email && k.port == port
  {
    match k.proto
    case Tcp => assert k.email == email && k.port == port ==> k == Key(email, port, Tcp);
    case Udp => assert k.email == email && k.port == port ==> k == Key(email, port, Udp);
  }

  ghost predicate WithPorts(keys: set<Key>, before: set<Key>, email: string, ports: seq<int>) {
    forall k :: k in keys <==> k in before || (k.email == email && k.port in ports)
  }

  lemma WithPortsNext(keys: set<Key>, before: set<Key>, email: string, ports: seq<int>, port: int)
    requires WithPorts(keys, before, email, ports)
    ensures WithPorts(keys + ({Key(email, port, Tcp)} + {Key(email, port, Udp)}), before, email, ports + [port])
  {
    var more := keys + ({Key(email, port, Tcp)} + {Key(email, port, Udp)});
    forall k ensures k in more <==> k in before || (k.email == email && k.port in ports + [port]) {
      BothKeys(email, port, k);
      assert k in keys <==> k in before || (k.email == email && k.port in ports);
    }
  }

  lemma ExactlyNext(inst: Instance, env: Env, done: seq<Peer>, p: Peer, before: set<Key>, keys: set<Key>)
    requires Exactly(before, inst, env, done) && WithPorts(keys, before, p.email, PortsOf(p, env))
    ensures Exactly(keys, inst, env, done + [p])
  {
    forall k ensures k in keys <==> exists q :: q in done + [p] && q.email == k.email && Serves(q, k.port, env) {
      assert k in before <==> exists q :: q in done && q.email == k.email && Serves(q, k.port, env);
      assert p in done + [p];
      if k in keys && !(k.email == p.email && k.port in PortsOf(p, env)) {
        var q :| q in done && q.email == k.email && Serves(q, k.port, env);
        assert q in done + [p];
      }
    }
  }

  /** The keys of one peer. */
  method AddKeys(email: string, ports: seq<int>, before: set<Key>) returns (keys: set<Key>)
    ensures WithPorts(keys, before, email, ports)
  {
    keys := before;
    for j := 0 to |ports|
      invariant WithPorts(keys, before, email, ports[..j])
    {
      WithPortsNext(keys, before, email, ports[..j], ports[j]);
      keys := keys + ({Key(email, ports[j], Tcp)} + {Key(email, ports[j], Udp)});
      assert ports[..j + 1] == ports[..j] + [ports[j]];
    }
    assert ports[..|ports|] == ports;
  }

  predicate Serves(p: Peer, port: int, env: Env) { port in PortsOf(p, env) }

  /** The inner loop of ForwardedPortOwner. */
  method ServesPort(p: Peer, port: int, env: Env) returns (found: bool)
    ensures found <==> Serves(p, port, env)
  {
    found := Scan(PortsOf(p, env), port);
  }

  method Scan(ports: seq<int>, port: int) returns (found: bool)
    ensures found <==> port in ports
  {
    for j := 0 to |ports|
      invariant port !in ports[..j]
    {
      if ports[j] == port { return true; }
      assert ports[..j + 1] == ports[..j] + [ports[j]];
    }
    assert ports[..|ports|] == ports;
    found := false;
  }

  /** ForwardedPortOwner: a port has an owner exactly when a listener is wanted on it, and the owner named is one for
      whom both the TCP and the UDP listener are wanted. */
  method ForwardedPortOwner(inst: Instance, env: Env, port: int) returns (email: string, found: bool)
    ensures found <==> exists k :: Wanted(inst, env, k) && k.port == port
    ensures found ==> Wanted(inst, env, Key(email, port, Tcp)) && Wanted(inst, env, Key(email, port, Udp))
    ensures !found ==> email == ""
  {
    var peers := ForwardingPeers(inst, env);
    var i := FirstServing(peers, port, env);
    if i < |peers| {
      Owned(inst, env, peers[i], port);
      return peers[i].email, true;
    }
    Unowned(inst, env, peers, port);
    email, found := "", false;
  }

  /** The double loop of ForwardedPortOwner. */
  method FirstServing(peers: seq<Peer>, port: int, env: Env) returns (i: nat)
    ensures i <= |peers| && (i < |peers| ==> Serves(peers[i], port, env))
    ensures forall j :: 0 <= j < i ==> !Serves(peers[j], port, env)
  {
    i := 0;
    while i < |peers|
      invariant i <= |peers|
      invariant forall j :: 0 <= j < i ==> !Serves(peers[j], port, env)
    {
      var here := ServesPort(peers[i], port, env);
      if here { return; }
      i := i + 1;
    }
  }

  lemma Owned(inst: Instance, env: Env, p: Peer, port: int)
    requires Forwards(inst, env, p) && Serves(p, port, env)
    ensures Wanted(inst, env, Key(p.email, port, Tcp)) && Wanted(inst, env, Key(p.email, port, Udp))
    ensures exists k :: Wanted(inst, env, k) && k.port == port
  {
    var k := Key(p.email, port, Tcp);
    assert Wanted(inst, env, k) && k.port == port;
  }

  lemma Unowned(inst: Instance, env: Env, peers: seq<Peer>, port: int)
    requires forall p :: p in peers <==> Forwards(inst, env, p)
    requires forall j :: 0 <= j < |peers| ==> !Serves(peers[j], port, env)
    ensures !exists k :: Wanted(inst, env, k) && k.port == port
  {
    forall p | Forwards(inst, env, p) ensures !Serves(p, port, env) {
      assert p in peers;
    }
  }

  /** With the panel's expansion, a listener is wanted only on a port its peer's specification includes, and on every
      such port unless the specification exceeds the cap. */
  lemma WantedPortsAreIncluded(env: Env, p: Peer, port: int)
    requires Expands(env)
    ensures Serves(p, port, env) ==> Covers(Specs(p.forwardedPorts), port)
    ensures |Covered(Specs(p.forwardedPorts))| <= MAX_PORTS && Covers(Specs(p.forwardedPorts), port) ==> Serves(p, port, env)
    ensures |PortsOf(p, env)| <= MAX_PORTS
  {
    var specs := Specs(p.forwardedPorts);
    ExpandedMeans(specs, MAX_PORTS);
    CoveredIsCovers(specs, port);
    assert PortsOf(p, env) == Expanded(specs, MAX_PORTS);
    assert port in PortsOf(p, env) <==> port in Elems(PortsOf(p, env));
  }

  // ---------------------------------------------------------------- the supervisor

  type Listener = nat

  /** PortForwardSet. Listeners get numbers as they are opened; closed holds those closed since. */
  class PortForwardSet {
    var peerTargets: map<string, Addr>
    var listeners: map<Key, Listener>
    var made: nat
    ghost var closed: set<Listener>

    /** Every listener ever opened is in the map under one key, or closed, and not both. */
    ghost predicate Valid()
      reads this
    {
      && (forall k <- listeners :: listeners[k] < made && listeners[k] !in closed)
      && (forall k, l :: k in listeners && l in listeners && listeners[k] == listeners[l] ==> k == l)
      && (forall n: Listener :: n < made && n !in listeners.Values ==> n in closed)
      && (forall n <- closed :: n < made)
    }

    constructor ()
      ensures Valid() && listeners == map[] && made == 0
    {
      peerTargets, listeners, made, closed := map[], map[], 0, {};
    }

    /** Close one listener and forget it. */
    method Drop(k: Key)
      requires Valid() && k in listeners
      modifies this`listeners, this`closed
      ensures Valid() && listeners == old(listeners) - {k} && closed == old(closed) + {old(listeners)[k]}
    {
      ghost var n := listeners[k];
      listeners := listeners - {k};
      closed := closed + {n};
      assert forall l :: l in listeners <==> l in old(listeners) && l != k;
      assert forall l <- listeners :: listeners[l] == old(listeners)[l];
    }

    /** Try to open one listener. */
    method Open(k: Key, ok: bool)
      requires Valid() && k !in listeners
      modifies this`listeners, this`made
      ensures Valid()
      ensures if ok then listeners == old(listeners)[k := old(made)] && made == old(made) + 1
              else listeners == old(listeners) && made == old(made)
    {
      if ok {
        listeners := listeners[k := made];
        made := made + 1;
        assert listeners[k] == made - 1;
        assert forall l <- old(listeners) :: listeners[l] == old(listeners)[l];
      }
    }

    method CloseUnwanted(want: set<Key>)
      requires Valid()
      modifies this`listeners, this`closed
      ensures Valid()
      ensures forall k :: k in listeners <==> k in old(listeners) && k in want
      ensures forall k <- listeners :: listeners[k] == old(listeners)[k]
      ensures old(closed) <= closed && forall n <- closed :: n in old(closed) || n in old(listeners).Values
    {
      var keys := listeners.Keys;
      while keys != {}
        invariant Valid() && keys <= listeners.Keys
        invariant forall k :: k in listeners <==> k in old(listeners) && (k in want || k in keys)
        invariant forall k <- listeners :: listeners[k] == old(listeners)[k]
        invariant old(closed) <= closed && forall n <- closed :: n in old(closed) || n in old(listeners).Values
        decreases keys
      {
        var k :| k in keys;
        keys := keys - {k};
        if k !in want { Drop(k); }
      }
    }

    /** Reconcile. What is open afterwards is exactly what is wanted and was open before or could be bound now; open
        listeners that stay wanted are not touched; the others are closed; nothing else is. */
    method Reconcile(inst: Instance, env: Env, binds: Key -> bool)
      requires Valid()
      modifies this
      ensures Valid() && peerTargets == Targets(inst.peers, inst.ipv6Enabled, env)
      ensures forall k :: k in listeners <==> Wanted(inst, env, k) && (k in old(listeners) || binds(k))
      ensures forall k :: k in listeners && k in old(listeners) ==> listeners[k] == old(listeners)[k]
      ensures old(closed) <= closed && forall n <- closed :: n in old(closed) || n in old(listeners).Values
    {
      var wantTargets := DesiredTargets(inst, env);
      var want := DesiredKeys(inst, env);
      peerTargets := wantTargets;
      CloseUnwanted(want);
      OpenMissing(want, binds);
    }

    method OpenMissing(want: set<Key>, binds: Key -> bool)
      requires Valid()
      modifies this`listeners, this`made
      ensures Valid()
      ensures forall k :: k in listeners <==> k in old(listeners) || (k in want && binds(k))
      ensures forall k <- old(listeners) :: k in listeners && listeners[k] == old(listeners)[k]
    {
      var toOpen := want - listeners.Keys;
      while toOpen != {}
        invariant Valid()
        invariant forall k <- toOpen :: k in want && k !in listeners
        invariant forall k :: k in listeners <==> k in old(listeners) || (k in want && k !in toOpen && binds(k))
        invariant forall k <- old(listeners) :: k in listeners && listeners[k] == old(listeners)[k]
        decreases toOpen
      {
        var k :| k in toOpen;
        toOpen := toOpen - {k};
        Open(k, binds(k));
      }
    }

    /** Close leaves no listener open. */
    method Close()
      requires Valid()
      modifies this`listeners, this`closed
      ensures Valid() && listeners == map[]
      ensures forall n: Listener :: n < made ==> n in closed
    {
      CloseUnwanted({});
      assert listeners == map[];
    }
  }
}
