/**
 Forwarder server lists: normalising the configured specs and the rules a list must meet to be
 accepted.  A forwarder may not mix Tor and direct servers, and Tor requires DNS over TLS.
 */
module ForwarderConfig {
  import opened Basics

  datatype Transport = Udp | Tcp | Dot
  datatype Via = Direct | Tor

  datatype Spec = Bare(address: int) | Full(address: int, transport: Transport, tlsName: Option<string>, via: Via)
  datatype Server = Server(address: int, transport: Transport, tlsName: Option<string>, via: Via)

  function Normalise(s: Spec): Server {
    match s
    case Bare(ip) => Server(ip, Udp, None, Direct)
    case Full(ip, transport, tls, via) => Server(ip, transport, tls, via)
  }

  /** The rules on a single server. */
  predicate Usable(s: Server) {
    && (s.transport.Dot? ==> s.tlsName.Some?)
    && !s.transport.Tcp?
    && (s.via.Tor? ==> s.transport.Dot?)
  }

  predicate AllVia(servers: seq<Server>, via: Via) { forall i :: 0 <= i < |servers| ==> servers[i].via == via }

  /** A list that can be loaded: usable servers, all of one kind. */
  predicate Acceptable(servers: seq<Server>) {
    && (forall i :: 0 <= i < |servers| ==> Usable(servers[i]))
    && (AllVia(servers, Tor) || AllVia(servers, Direct))
  }

  function NormaliseAll(specs: seq<Spec>): (servers: seq<Server>)
    ensures |servers| == |specs| && forall i :: 0 <= i < |specs| ==> servers[i] == Normalise(specs[i])
  {
    seq(|specs|, i requires 0 <= i < |specs| => Normalise(specs[i]))
  }

  /** `resolved_servers`: the normalised list exactly when it is acceptable, otherwise an error. */
  method ResolvedServers(specs: seq<Spec>) returns (r: Option<seq<Server>>)
    ensures r.Some? <==> Acceptable(NormaliseAll(specs))
    ensures r.Some? ==> r.value == NormaliseAll(specs)
  {
    var out: seq<Server> := [];
    ghost var all := NormaliseAll(specs);
    var anyTor, anyDirect := false, false;
    for i := 0 to |specs|
      invariant out == all[..i]
      invariant forall k :: 0 <= k < i ==> Usable(all[k])
      invariant anyTor <==> exists k :: 0 <= k < i && all[k].via == Tor
      invariant anyDirect <==> exists k :: 0 <= k < i && all[k].via == Direct
    {
      var srv := Normalise(specs[i]);
      assert srv == all[i];
      if srv.transport.Dot? && srv.tlsName.None? { return None; }
      if srv.transport.Tcp? { return None; }
      if srv.via.Tor? && !srv.transport.Dot? { return None; }
      out := out + [srv];
      anyTor, anyDirect := anyTor || srv.via == Tor, anyDirect || srv.via == Direct;
    }
    assert forall k :: 0 <= k < |all| ==> all[k].via == Tor || all[k].via == Direct;
    if anyTor && anyDirect { return None; }
    return Some(out);
  }
}
