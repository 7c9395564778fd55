/** internal/telebit/table.go: the relay's two indexes of connected servers. Each of Add, Remove and
    GetServer is taken as one atomic step. */
module Relay {
  import opened Text

  class SubscriberConn {
    const remoteAddr: bytes
    const subject: bytes
    const domains: seq<bytes>
    var clients: set<bytes>
    var closed: bool

    constructor (remoteAddr: bytes, subject: bytes, domains: seq<bytes>)
      ensures this.remoteAddr == remoteAddr && this.subject == subject && this.domains == domains
      ensures clients == {} && !closed
    {
      this.remoteAddr, this.subject, this.domains := remoteAddr, subject, domains;
      clients, closed := {}, false;
    }
  }

  /** A map of maps, as `Servers` (by subject, then address) and `Table` (by domain, then address). */
  type Index = map<bytes, map<bytes, SubscriberConn>>

  datatype Found = Absent | Present(server: SubscriberConn)

  function Entry(t: Index, k: bytes, a: bytes): Found {
    if k in t && a in t[k] then Present(t[k][a]) else Absent
  }

  // ---------- the indexes agree ----------

  predicate NoEmptyInner(t: Index) { forall k :: k in t ==> t[k] != map[] }

  /** Table[d][a] is s exactly when Servers[subject of s][a] is s and d is among its domains. */
  ghost predicate Agree(servers: Index, table: Index) {
    && (forall subject, a :: Entry(servers, subject, a).Present? ==>
          var s := Entry(servers, subject, a).server;
          s.subject == subject && s.remoteAddr == a && forall d :: d in s.domains ==> Entry(table, d, a) == Present(s))
    && (forall d, a :: Entry(table, d, a).Present? ==>
          var s := Entry(table, d, a).server;
          d in s.domains && Entry(servers, s.subject, a) == Present(s))
  }

  // ---------- Add ----------

  function Inner(t: Index, k: bytes): map<bytes, SubscriberConn> {
    if k in t then t[k] else map[]
  }

  function Put(t: Index, k: bytes, s: SubscriberConn): Index {
    t[k := Inner(t, k)[s.remoteAddr := s]]
  }

  function PutAll(t: Index, ks: seq<bytes>, s: SubscriberConn): Index {
    if ks == [] then t else Put(PutAll(t, ks[..|ks| - 1], s), ks[|ks| - 1], s)
  }

  lemma {:induction false} PutAllEntry(t: Index, ks: seq<bytes>, s: SubscriberConn, d: bytes, a: bytes)
    ensures Entry(PutAll(t, ks, s), d, a) == if d in ks && a == s.remoteAddr then Present(s) else Entry(t, d, a)
    ensures NoEmptyInner(t) ==> NoEmptyInner(PutAll(t, ks, s))
    decreases |ks|
  {
    if ks != [] {
      PutAllEntry(t, ks[..|ks| - 1], s, d, a);
      var t1, k := PutAll(t, ks[..|ks| - 1], s), ks[|ks| - 1];
      assert s.remoteAddr in Put(t1, k, s)[k];
      assert ks == ks[..|ks| - 1] + [ks[|ks| - 1]];
    }
  }

  /** No server registered under the same address would be left half registered: one of the same
      subject must have all its domains taken over, one of another subject must share none. */
  predicate NoStale(servers: Index, s: SubscriberConn) {
    forall subject :: subject in servers && s.remoteAddr in servers[subject] ==>
      var o := servers[subject][s.remoteAddr];
      o == s || forall d :: d in o.domains ==> (d in s.domains <==> subject == s.subject)
  }

  /** Add keeps the indexes in agreement exactly when nothing stale is left behind; in particular
      whenever the address is not registered yet. */
  lemma AddAgrees(servers: Index, table: Index, s: SubscriberConn)
    requires Agree(servers, table)
    ensures Agree(Put(servers, s.subject, s), PutAll(table, s.domains, s)) <==> NoStale(servers, s)
    ensures (forall subject :: Entry(servers, subject, s.remoteAddr) == Absent) ==> NoStale(servers, s)
  {
    hide PutAll;
    var servers', table' := Put(servers, s.subject, s), PutAll(table, s.domains, s);
    forall d, a
      ensures Entry(table', d, a) == if d in s.domains && a == s.remoteAddr then Present(s) else Entry(table, d, a)
    {
      PutAllEntry(table, s.domains, s, d, a);
    }
    forall k, a
      ensures Entry(servers', k, a) == if k == s.subject && a == s.remoteAddr then Present(s) else Entry(servers, k, a)
    {
    }
    AddBreaks(servers, table, servers', table', s);
    AddKeeps(servers, table, servers', table', s);
    assert forall k :: k in servers && s.remoteAddr in servers[k] ==> Entry(servers, k, s.remoteAddr).Present?;
  }

  ghost predicate Extends(t: Index, t': Index, s: SubscriberConn, ks: seq<bytes>) {
    forall k, a :: Entry(t', k, a) == if k in ks && a == s.remoteAddr then Present(s) else Entry(t, k, a)
  }

  lemma AddKeeps(servers: Index, table: Index, servers': Index, table': Index, s: SubscriberConn)
    requires Agree(servers, table) && Extends(servers, servers', s, [s.subject]) && Extends(table, table', s, s.domains)
    ensures NoStale(servers, s) ==> Agree(servers', table')
  {
    if NoStale(servers, s) {
      forall subject, a | Entry(servers', subject, a).Present?
        ensures var o := Entry(servers', subject, a).server;
                && o.subject == subject && o.remoteAddr == a
                && forall d :: d in o.domains ==> Entry(table', d, a) == Present(o)
      {
        var o := Entry(servers', subject, a).server;
        if o != s || a != s.remoteAddr { assert Entry(servers, subject, a) == Present(o); }
        forall d | d in o.domains
          ensures Entry(table', d, a) == Present(o)
        {
          if o != s { assert Entry(table, d, a) == Present(o); }
        }
      }
      forall d, a | Entry(table', d, a).Present?
        ensures var o := Entry(table', d, a).server;
                d in o.domains && Entry(servers', o.subject, a) == Present(o)
      {
        var o := Entry(table', d, a).server;
        if !(d in s.domains && a == s.remoteAddr) {
          assert Entry(table, d, a) == Present(o);
          assert Entry(servers, o.subject, a) == Present(o);
        }
      }
    }
  }

  lemma AddBreaks(servers: Index, table: Index, servers': Index, table': Index, s: SubscriberConn)
    requires Agree(servers, table) && Extends(servers, servers', s, [s.subject]) && Extends(table, table', s, s.domains)
    ensures Agree(servers', table') ==> NoStale(servers, s)
  {
    if Agree(servers', table') {
      forall subject | subject in servers && s.remoteAddr in servers[subject]
        ensures var o := servers[subject][s.remoteAddr];
                o == s || forall d :: d in o.domains ==> (d in s.domains <==> subject == s.subject)
      {
        var o := servers[subject][s.remoteAddr];
        assert Entry(servers, subject, s.remoteAddr) == Present(o);
        forall d | d in o.domains && o != s
          ensures d in s.domains <==> subject == s.subject
        {
          assert Entry(table, d, s.remoteAddr) == Present(o);
          assert Entry(table', d, s.remoteAddr) == if d in s.domains then Present(s) else Present(o);
          if subject == s.subject {
            assert Entry(servers', subject, s.remoteAddr) == Present(s);
          } else {
            assert Entry(servers', subject, s.remoteAddr) == Present(o);
          }
        }
      }
    }
  }

  // ---------- Remove ----------

  /** What Remove takes out of the table: each removed server's address under each of its domains. */
  function Gone(inner: map<bytes, SubscriberConn>): set<(bytes, bytes)> {
    set k, d | k in inner && d in inner[k].domains :: (d, inner[k].remoteAddr)
  }

  ghost predicate Without(t: Index, t': Index, gone: set<(bytes, bytes)>) {
    forall d, a :: Entry(t', d, a) == if (d, a) in gone then Absent else Entry(t, d, a)
  }

  /** Remove keeps the indexes in agreement, and takes out the subject's own entries and no others. */
  lemma RemoveAgrees(servers: Index, table: Index, table': Index, subject: bytes)
    requires Agree(servers, table) && subject in servers && Without(table, table', Gone(servers[subject]))
    ensures Agree(servers - {subject}, table')
    ensures forall d, a :: Entry(table', d, a)
              == if Entry(table, d, a).Present? && Entry(table, d, a).server.subject == subject then Absent
                 else Entry(table, d, a)
  {
    var inner, servers' := servers[subject], servers - {subject};
    assert forall k, a :: Entry(servers', k, a) == if k == subject then Absent else Entry(servers, k, a);
    forall d, a
      ensures (d, a) in Gone(inner) <==> Entry(table, d, a).Present? && Entry(table, d, a).server.subject == subject
    {
      if (d, a) in Gone(inner) {
        var k :| k in inner && d in inner[k].domains && inner[k].remoteAddr == a;
        assert Entry(servers, subject, k) == Present(inner[k]);
      }
      if Entry(table, d, a).Present? && Entry(table, d, a).server.subject == subject {
        assert Entry(servers, subject, a) == Entry(table, d, a);
        assert a in inner;
      }
    }
  }

  lemma Unlisted(t: Index, t': Index, domain: bytes, addr: bytes)
    requires t' == if domain !in t then t
                   else if t[domain] - {addr} == map[] then t - {domain} else t[domain := t[domain] - {addr}]
    ensures Without(t, t', {(domain, addr)})
    ensures NoEmptyInner(t) ==> NoEmptyInner(t')
  {
    forall d, a
      ensures Entry(t', d, a) == if (d, a) in {(domain, addr)} then Absent else Entry(t, d, a)
    {
      if d == domain && domain in t && a in t[domain] && a != addr { assert a in t[domain] - {addr}; }
    }
  }

  lemma WithoutBoth(t0: Index, t: Index, t': Index, g: set<(bytes, bytes)>, h: set<(bytes, bytes)>)
    requires Without(t0, t, g) && Without(t, t', h)
    ensures Without(t0, t', g + h)
  {
    hide Entry;
  }

  // ---------- the operations ----------

  datatype Op = AddOp(s: SubscriberConn) | RemoveOp(subject: bytes)

  datatype Indexes = Indexes(servers: Index, table: Index)

  /** What an operation does to the two indexes; Remove may visit the subject's servers in any order. */
  ghost predicate Did(op: Op, x: Indexes, y: Indexes) {
    match op
    case AddOp(s) => y == Indexes(Put(x.servers, s.subject, s), PutAll(x.table, s.domains, s))
    case RemoveOp(subject) =>
      if subject !in x.servers then y == x
      else
        && y.servers == x.servers - {subject} && Without(x.table, y.table, Gone(x.servers[subject]))
        && (NoEmptyInner(x.table) ==> NoEmptyInner(y.table))
  }

  // ---------- the registry ----------

  class Registry {
    var servers: Index
    var table: Index

    constructor ()
      ensures servers == map[] && table == map[]
    {
      servers, table := map[], map[];
    }

    method Add(server: SubscriberConn)
      modifies this
      ensures servers == Put(old(servers), server.subject, server)
      ensures table == PutAll(old(table), server.domains, server)
      ensures Did(AddOp(server), old(Indexes(servers, table)), Indexes(servers, table))
    {
      servers := servers[server.subject := Inner(servers, server.subject)[server.remoteAddr := server]];
      for i := 0 to |server.domains|
        invariant servers == Put(old(servers), server.subject, server)
        invariant table == PutAll(old(table), server.domains[..i], server)
      {
        var domain := server.domains[i];
        var srvMap := Inner(table, domain);
        assert server.domains[..i + 1][..i] == server.domains[..i];
        table := table[domain := srvMap[server.remoteAddr := server]];
      }
      assert server.domains[..|server.domains|] == server.domains;
    }

    /** The body of Remove's inner loop. */
    method UnlistFrom(domain: bytes, addr: bytes)
      modifies this`table
      ensures Without(old(table), table, {(domain, addr)})
      ensures old(NoEmptyInner(table)) ==> NoEmptyInner(table)
    {
      Unlisted(table, if domain !in table then table
                      else if table[domain] - {addr} == map[] then table - {domain}
                      else table[domain := table[domain] - {addr}],
               domain, addr);
      if domain !in table { return; }
      var srvMap := table[domain] - {addr};
      table := table[domain := srvMap];
      var n := |srvMap|;
      if n == 0 {
        table := table - {domain};
        assert table == old(table) - {domain};
      }
    }

    /** The inner loop of Remove: one server leaves every domain it was granted. */
    method Unlist(srv: SubscriberConn, ghost t0: Index, ghost gone: set<(bytes, bytes)>)
      requires Without(t0, table, gone)
      modifies this`table
      ensures Without(t0, table, gone + (set d | d in srv.domains :: (d, srv.remoteAddr)))
      ensures old(NoEmptyInner(table)) ==> NoEmptyInner(table)
    {
      hide Without, NoEmptyInner;
      ghost var done: set<(bytes, bytes)> := {};
      assert gone + done == gone;
      for i := 0 to |srv.domains|
        invariant done == set d | d in srv.domains[..i] :: (d, srv.remoteAddr)
        invariant Without(t0, table, gone + done)
        invariant old(NoEmptyInner(table)) ==> NoEmptyInner(table)
      {
        ghost var before, one := table, {(srv.domains[i], srv.remoteAddr)};
        UnlistFrom(srv.domains[i], srv.remoteAddr);
        WithoutBoth(t0, before, table, gone + done, one);
        assert gone + done + one == gone + (done + one);
        assert srv.domains[..i + 1] == srv.domains[..i] + [srv.domains[i]];
        done := done + one;
      }
      assert srv.domains[..|srv.domains|] == srv.domains;
    }

    /** Remove. Range visits the subject's servers in no particular order. */
    method Remove(subject: bytes) returns (ok: bool)
      modifies this, set k | subject in servers && k in servers[subject] :: servers[subject][k]
      ensures ok <==> subject in old(servers)
      ensures servers == old(servers) - {subject}
      ensures !ok ==> table == old(table)
      ensures ok ==> Without(old(table), table, Gone(old(servers)[subject]))
      ensures ok ==> forall k :: k in old(servers)[subject] ==> old(servers)[subject][k].closed
      ensures old(NoEmptyInner(table)) ==> NoEmptyInner(table)
      ensures Did(RemoveOp(subject), old(Indexes(servers, table)), Indexes(servers, table))
    {
      if subject !in servers { return false; }
      var inner := servers[subject];
      var todo := inner.Keys;
      ghost var gone: set<(bytes, bytes)> := {};
      while todo != {}
        invariant todo <= inner.Keys
        invariant servers == old(servers) && subject in servers && inner == servers[subject]
        invariant gone == set k, d | k in inner.Keys - todo && d in inner[k].domains :: (d, inner[k].remoteAddr)
        invariant Without(old(table), table, gone)
        invariant old(NoEmptyInner(table)) ==> NoEmptyInner(table)
        invariant forall k :: k in inner.Keys - todo ==> inner[k].closed
        decreases |todo|
      {
        var k :| k in todo;
        var srv := inner[k];
        srv.closed := true;
        Unlist(srv, old(table), gone);
        gone := gone + (set d | d in srv.domains :: (d, srv.remoteAddr));
        todo := todo - {k};
      }
      servers := servers - {subject};
      return true;
    }

    /** GetServer. Range visits the servers in no particular order. */
    method GetServer(servername: bytes) returns (srv: SubscriberConn?, ok: bool)
      ensures ok <==> servername in table
      ensures srv != null <==> ok && table[servername] != map[]
      ensures srv != null ==> exists a :: Entry(table, servername, a) == Present(srv)
      ensures srv != null ==> forall a :: a in table[servername] ==> |srv.clients| <= |table[servername][a].clients|
    {
      srv := null;
      var load := -1;
      if servername !in table { return null, false; }
      var srvMap := table[servername];
      var todo := srvMap.Keys;
      while todo != {}
        invariant todo <= srvMap.Keys
        invariant load == -1 <==> srv == null
        invariant srv == null <==> todo == srvMap.Keys
        invariant srv != null ==> load == |srv.clients|
        invariant srv != null ==> exists a :: a in srvMap && srvMap[a] == srv
        invariant forall a :: a in srvMap.Keys - todo ==> load <= |srvMap[a].clients|
        decreases |todo|
      {
        var k :| k in todo;
        var mySrv := srvMap[k];
        var myLoad := |mySrv.clients|;
        if load == -1 || myLoad < load {
          load := myLoad;
          srv := mySrv;
        }
        todo := todo - {k};
      }
      if srv != null {
        var a :| a in srvMap && srvMap[a] == srv;
        assert Entry(table, servername, a) == Present(srv);
      }
      return srv, true;
    }
  }

  // ---------- every history ----------

  ghost predicate IsHistory(xs: seq<Indexes>, ops: seq<Op>) {
    && |xs| == |ops| + 1 && xs[0] == Indexes(map[], map[])
    && forall i :: 0 <= i < |ops| ==> Did(ops[i], xs[i], xs[i + 1])
  }

  /** In no history of whole operations, however careless its Adds, does a domain keep an empty inner
      map, so that by its contract GetServer never answers "nil, true"; Races.dfy shows what happens
      inside them. If every Add met a free address, or at least left nothing stale, the two indexes
      agree. */
  lemma {:induction false} HistoryInvariant(xs: seq<Indexes>, ops: seq<Op>, n: nat)
    requires IsHistory(xs, ops) && n < |xs|
    ensures NoEmptyInner(xs[n].table)
    ensures (forall i :: 0 <= i < n && ops[i].AddOp? ==> NoStale(xs[i].servers, ops[i].s)) ==>
              Agree(xs[n].servers, xs[n].table)
  {
    if n > 0 {
      hide Agree, NoStale, PutAll, Gone, Without, NoEmptyInner;
      HistoryInvariant(xs, ops, n - 1);
      var x := xs[n - 1];
      match ops[n - 1]
      case AddOp(s) =>
        PutAllEntry(x.table, s.domains, s, [], []);
        if Agree(x.servers, x.table) { AddAgrees(x.servers, x.table, s); }
      case RemoveOp(subject) =>
        if subject in x.servers && Agree(x.servers, x.table) {
          RemoveAgrees(x.servers, x.table, xs[n].table, subject);
        }
    }
  }

  /** A server that comes back under its old address with fewer domains: from an empty relay, two Adds
      leave the first connection listed under a domain that only it had, although the subject now
      stands for the second; and removing the subject leaves that entry behind for good. */
  lemma StaleHistory(s1: SubscriberConn, s2: SubscriberConn, d: bytes) returns (xs: seq<Indexes>)
    requires s1 != s2 && s1.remoteAddr == s2.remoteAddr && s1.subject == s2.subject
    requires d in s1.domains && d !in s2.domains
    ensures IsHistory(xs, [AddOp(s1), AddOp(s2)])
    ensures Agree(xs[1].servers, xs[1].table) && !Agree(xs[2].servers, xs[2].table)
    ensures Entry(xs[2].servers, s1.subject, s1.remoteAddr) == Present(s2)
    ensures forall y :: Did(RemoveOp(s1.subject), xs[2], y) ==>
              s1.subject !in y.servers && Entry(y.table, d, s1.remoteAddr) == Present(s1)
  {
    hide PutAll;
    var e: Index := map[];
    var x1 := Indexes(Put(e, s1.subject, s1), PutAll(e, s1.domains, s1));
    var x2 := Indexes(Put(x1.servers, s2.subject, s2), PutAll(x1.table, s2.domains, s2));
    xs := [Indexes(e, e), x1, x2];
    AddAgrees(e, e, s1);
    AddAgrees(x1.servers, x1.table, s2);
    PutAllEntry(e, s1.domains, s1, d, s1.remoteAddr);
    PutAllEntry(x1.table, s2.domains, s2, d, s1.remoteAddr);
    assert x2.servers[s1.subject] == map[s1.remoteAddr := s2];
    assert (d, s1.remoteAddr) !in Gone(x2.servers[s1.subject]);
  }
}
