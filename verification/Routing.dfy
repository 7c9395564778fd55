/** From a client's server name to the tunnel that serves it: `routeSubscribersAndClients` and
    `tryToServeName` in cmd/telebit/telebit.go over the registry of internal/telebit/table.go. */
module Routing {
  import opened Text
  import opened Relay
  import opened Vhost

  /** A domain under which a client that asks for the name may be served. */
  ghost predicate Suits(domain: bytes, servername: bytes) { domain == servername || Covers(domain, servername) }

  /** The exact name comes first, then the longer wildcard. */
  predicate Better(x: bytes, y: bytes, servername: bytes) {
    y != servername && (x == servername || |x| > |y|)
  }

  /** While the indexes agree: a client is turned away exactly when no registered server was granted a
      suiting domain. Otherwise the server that gets it is registered and was itself granted the
      domain under which it was found; no server was granted a better one; and none that was granted
      the same one has fewer clients. */
  method ServeClient(registry: Registry, servername: bytes) returns (srv: SubscriberConn?, name: bytes)
    requires Agree(registry.servers, registry.table) && NoEmptyInner(registry.table)
    ensures srv == null
       <==> forall subject, a, d :: Entry(registry.servers, subject, a).Present?
                                    && d in Entry(registry.servers, subject, a).server.domains ==>
              !Suits(d, servername)
    ensures srv != null ==>
              && Entry(registry.servers, srv.subject, srv.remoteAddr) == Present(srv)
              && name in srv.domains && Suits(name, servername)
    ensures srv != null ==>
              forall subject, a, d :: Entry(registry.servers, subject, a).Present?
                                      && d in Entry(registry.servers, subject, a).server.domains
                                      && Suits(d, servername) ==>
                && !Better(d, name, servername)
                && (d == name ==> |srv.clients| <= |Entry(registry.servers, subject, a).server.clients|)
  {
    hide Covers, Agree;
    var r := ServeName(servername, registry.table.Keys);
    forall subject, a, d | Entry(registry.servers, subject, a).Present?
                           && d in Entry(registry.servers, subject, a).server.domains
      ensures Entry(registry.table, d, a) == Entry(registry.servers, subject, a)
    {
      Listed(registry.servers, registry.table, subject, a, d);
    }
    if r == NotHandled { return null, []; }
    name := r.name;
    var ok;
    srv, ok := registry.GetServer(name);
    var a :| Entry(registry.table, name, a) == Present(srv);
    Granted(registry.servers, registry.table, name, a);
    assert name in Entry(registry.servers, srv.subject, srv.remoteAddr).server.domains && Suits(name, servername);
  }

  lemma Listed(servers: Index, table: Index, subject: bytes, a: bytes, d: bytes)
    requires Agree(servers, table) && Entry(servers, subject, a).Present?
    requires d in Entry(servers, subject, a).server.domains
    ensures Entry(table, d, a) == Entry(servers, subject, a)
  {
  }

  lemma Granted(servers: Index, table: Index, d: bytes, a: bytes)
    requires Agree(servers, table) && Entry(table, d, a).Present?
    ensures var s := Entry(table, d, a).server;
            d in s.domains && Entry(servers, s.subject, s.remoteAddr) == Present(s)
  {
  }
}
