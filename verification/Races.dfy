/** Add, Remove and GetServer of internal/telebit/table.go as they run concurrently: every call on a
    sync.Map is a step of its own. Only the table by domain is kept; an inner map is the set of the
    addresses in it. One task is one domain of one server, which allows more schedules than the loops. */
module Races {
  import opened Text

  /** An inner map, and the domain it was made for. */
  datatype Inner = Inner(domain: bytes, addrs: set<bytes>)

  /** A goroutine between two calls; `inner` is the map it holds a pointer to. */
  datatype Task =
    | Adding(inner: nat, addr: bytes)      // Add has its inner map
    | Added(inner: nat)                    // ... has stored the server in it
    | Removing(inner: nat, addr: bytes)    // Remove has its inner map
    | Deleted(inner: nat)                  // ... has deleted the server from it
    | Counted(inner: nat, n: nat)          // ... has counted what is left
    | Getting(inner: nat)                  // GetServer has its inner map

  datatype State = State(heap: seq<Inner>, table: map<bytes, nat>, tasks: map<nat, Task>)

  const INIT: State := State([], map[], map[])

  datatype Step =
    | AddLoad(req: nat, domain: bytes, addr: bytes)
    | AddStore(req: nat)
    | AddPut(req: nat)
    | RemoveLoad(req: nat, domain: bytes, addr: bytes)
    | RemoveDelete(req: nat)
    | RemoveCount(req: nat)
    | RemoveDrop(req: nat)
    | GetLoad(req: nat, domain: bytes)
    | GetRange(req: nat)

  /** The state's own pointers are good, and lead to maps of the right domain. */
  predicate Valid(s: State) {
    && (forall d :: d in s.table ==> s.table[d] < |s.heap| && s.heap[s.table[d]].domain == d)
    && (forall req :: req in s.tasks ==> s.tasks[req].inner < |s.heap|)
  }

  /** A Load that finds nothing ends Remove's iteration and GetServer without a further step. */
  predicate Enabled(s: State, step: Step) {
    match step
    case AddLoad(req, _, _) => req !in s.tasks
    case AddStore(req) => req in s.tasks && s.tasks[req].Adding?
    case AddPut(req) => req in s.tasks && s.tasks[req].Added?
    case RemoveLoad(req, domain, _) => req !in s.tasks && domain in s.table
    case RemoveDelete(req) => req in s.tasks && s.tasks[req].Removing?
    case RemoveCount(req) => req in s.tasks && s.tasks[req].Deleted?
    case RemoveDrop(req) => req in s.tasks && s.tasks[req].Counted?
    case GetLoad(req, domain) => req !in s.tasks && domain in s.table
    case GetRange(req) => req in s.tasks && s.tasks[req].Getting?
  }

  function Apply(s: State, step: Step): State
    requires Valid(s) && Enabled(s, step)
  {
    match step
    case AddLoad(req, domain, addr) =>
      if domain in s.table then s.(tasks := s.tasks[req := Adding(s.table[domain], addr)])
      else s.(heap := s.heap + [Inner(domain, {})], tasks := s.tasks[req := Adding(|s.heap|, addr)])
    case AddStore(req) =>
      var p := s.tasks[req].inner;
      s.(heap := s.heap[p := s.heap[p].(addrs := s.heap[p].addrs + {s.tasks[req].addr})],
         tasks := s.tasks[req := Added(p)])
    case AddPut(req) =>
      var p := s.tasks[req].inner;
      s.(table := s.table[s.heap[p].domain := p], tasks := s.tasks - {req})
    case RemoveLoad(req, domain, addr) => s.(tasks := s.tasks[req := Removing(s.table[domain], addr)])
    case RemoveDelete(req) =>
      var p := s.tasks[req].inner;
      s.(heap := s.heap[p := s.heap[p].(addrs := s.heap[p].addrs - {s.tasks[req].addr})],
         tasks := s.tasks[req := Deleted(p)])
    case RemoveCount(req) =>
      var p := s.tasks[req].inner;
      s.(tasks := s.tasks[req := Counted(p, |s.heap[p].addrs|)])
    case RemoveDrop(req) =>
      var d := s.heap[s.tasks[req].inner].domain;
      s.(table := if s.tasks[req].n == 0 then s.table - {d} else s.table, tasks := s.tasks - {req})
    case GetLoad(req, domain) => s.(tasks := s.tasks[req := Getting(s.table[domain])])
    case GetRange(req) => s.(tasks := s.tasks - {req})
  }

  /** GetServer answers "nil, true" when it ranges over an empty map. */
  predicate AnswersNil(s: State, step: Step) {
    && step.GetRange? && step.req in s.tasks && s.tasks[step.req].inner < |s.heap|
    && s.heap[s.tasks[step.req].inner].addrs == {}
  }

  predicate IsRun(states: seq<State>, steps: seq<Step>) {
    && |states| == |steps| + 1 && states[0] == INIT
    && forall k :: 0 <= k < |steps| ==>
         Valid(states[k]) && Enabled(states[k], steps[k]) && states[k + 1] == Apply(states[k], steps[k])
  }

  lemma StepKeepsValid(s: State, step: Step)
    requires Valid(s) && Enabled(s, step)
    ensures Valid(Apply(s, step)) && |s.heap| <= |Apply(s, step).heap|
    ensures forall p :: 0 <= p < |s.heap| ==> Apply(s, step).heap[p].domain == s.heap[p].domain
  {
  }

  // ---------- where an empty map can be seen ----------

  /** A Remove that has deleted from map p and is about to take it out of the table, as far as it knows. */
  predicate Emptying(t: Task, p: nat) { t == Deleted(p) || t == Counted(p, 0) }

  predicate BeingEmptied(s: State, p: nat) { exists req :: req in s.tasks && Emptying(s.tasks[req], p) }

  predicate Lists(s: State, p: nat) {
    p < |s.heap| && s.heap[p].domain in s.table && s.table[s.heap[p].domain] == p
  }

  predicate Empty(s: State, p: nat) { p < |s.heap| && s.heap[p].addrs == {} }

  /** Add puts map p into the table although, since it stored its server there, a Remove has deleted it
      again, and p is empty. */
  predicate PutsEmpty(s: State, step: Step, p: nat) {
    step.AddPut? && step.req in s.tasks && s.tasks[step.req] == Added(p) && Empty(s, p)
  }

  /** An Add has put this very map into the table empty, and it has been empty ever since. */
  predicate PutBackEmpty(states: seq<State>, steps: seq<Step>, k: nat, p: nat)
    requires k < |states| == |steps| + 1
  {
    exists j :: 0 <= j < k && PutsEmpty(states[j], steps[j], p) && forall l :: j < l <= k ==> Empty(states[l], p)
  }

  lemma EmptyStep(s: State, step: Step, p: nat)
    requires Valid(s) && Enabled(s, step)
    requires Lists(Apply(s, step), p) && Empty(Apply(s, step), p)
    ensures || BeingEmptied(Apply(s, step), p)
            || (Empty(s, p) && (PutsEmpty(s, step, p) || (Lists(s, p) && !BeingEmptied(s, p))))
  {
    var t := Apply(s, step);
    if step.RemoveDelete? && s.tasks[step.req].inner == p {
      assert Emptying(t.tasks[step.req], p);
    } else if req :| req in s.tasks && Emptying(s.tasks[req], p) {
      if req in t.tasks { assert Emptying(t.tasks[req], p); }
    }
  }

  /** Every empty map in the table is about to be taken out of it, or has been put back empty. */
  lemma {:induction false} WhyEmpty(states: seq<State>, steps: seq<Step>, k: nat, p: nat)
    requires IsRun(states, steps) && k < |states| && Lists(states[k], p) && Empty(states[k], p)
    ensures BeingEmptied(states[k], p) || PutBackEmpty(states, steps, k, p)
  {
    hide Valid, Enabled, Apply, Lists, BeingEmptied, PutsEmpty;
    if k > 0 && !BeingEmptied(states[k], p) {
      EmptyStep(states[k - 1], steps[k - 1], p);
      if !PutsEmpty(states[k - 1], steps[k - 1], p) {
        WhyEmpty(states, steps, k - 1, p);
        var j :| 0 <= j < k - 1 && PutsEmpty(states[j], steps[j], p)
                 && forall l :: j < l <= k - 1 ==> Empty(states[l], p);
      }
    }
  }

  lemma NothingThere()
    ensures Valid(INIT)
  {
  }

  lemma {:induction false} RunKeepsValid(states: seq<State>, steps: seq<Step>, i: nat, k: nat)
    requires IsRun(states, steps) && i <= k < |states|
    ensures Valid(states[i]) && Valid(states[k]) && |states[i].heap| <= |states[k].heap|
    decreases k
  {
    hide Valid, Enabled, Apply;
    if i < k {
      RunKeepsValid(states, steps, i, k - 1);
      StepKeepsValid(states[k - 1], steps[k - 1]);
    } else if k > 0 {
      StepKeepsValid(states[k - 1], steps[k - 1]);
    } else {
      NothingThere();
    }
  }

  /** A map becomes empty only when a Remove deletes from it. */
  lemma {:induction false} BecomesEmpty(states: seq<State>, steps: seq<Step>, i: nat, k: nat, p: nat)
    requires IsRun(states, steps) && i <= k < |states| && p < |states[i].heap|
    requires states[i].heap[p].addrs != {}
    ensures p < |states[k].heap|
    ensures states[k].heap[p].addrs == {} ==> exists j :: i < j <= k && BeingEmptied(states[j], p)
    decreases k
  {
    RunKeepsValid(states, steps, i, k);
    if i < k && states[k].heap[p].addrs == {} {
      BecomesEmpty(states, steps, i, k - 1, p);
      if states[k - 1].heap[p].addrs != {} {
        EmptyingStep(states[k - 1], steps[k - 1], p);
        assert BeingEmptied(states[k], p);
      }
    }
  }

  lemma EmptyingStep(s: State, step: Step, p: nat)
    requires Valid(s) && Enabled(s, step) && p < |s.heap| && s.heap[p].addrs != {}
    requires p < |Apply(s, step).heap| && Apply(s, step).heap[p].addrs == {}
    ensures BeingEmptied(Apply(s, step), p)
  {
    assert step.RemoveDelete? && Emptying(Apply(s, step).tasks[step.req], p);
  }

  lemma {:induction false} HoldsItsMap(states: seq<State>, steps: seq<Step>, i: nat, k: nat, req: nat, domain: bytes)
    requires IsRun(states, steps) && i < k < |states|
    requires steps[i] == GetLoad(req, domain) && forall j :: i < j < k ==> steps[j] != GetRange(req)
    ensures domain in states[i].table && req in states[k].tasks
    ensures states[k].tasks[req] == Getting(states[i].table[domain])
    decreases k
  {
    if i + 1 < k { HoldsItsMap(states, steps, i, k - 1, req, domain); }
  }

  /** In every run: when GetServer answers "nil, true", then at some moment between its Load and its
      Range a Remove stood between deleting from that very map and taking it out of the table, or an
      Add had put that very map into the table empty, and it had been empty from then until the Load. */
  lemma NilServer(states: seq<State>, steps: seq<Step>, i: nat, k: nat, req: nat, domain: bytes)
    requires IsRun(states, steps) && i < k < |steps|
    requires steps[i] == GetLoad(req, domain) && forall j :: i < j < k ==> steps[j] != GetRange(req)
    requires steps[k] == GetRange(req) && AnswersNil(states[k], steps[k])
    ensures domain in states[i].table
    ensures var p := states[i].table[domain];
            || (exists j :: i <= j <= k && BeingEmptied(states[j], p))
            || PutBackEmpty(states, steps, i, p)
  {
    hide BeingEmptied, PutsEmpty, PutBackEmpty, Apply, Valid, Lists;
    HoldsItsMap(states, steps, i, k, req, domain);
    RunKeepsValid(states, steps, i, k);
    var p := states[i].table[domain];
    InTable(states[i], domain);
    if states[i].heap[p].addrs != {} {
      BecomesEmpty(states, steps, i, k, p);
    } else {
      WhyEmpty(states, steps, i, p);
    }
  }

  lemma InTable(s: State, domain: bytes)
    requires Valid(s) && domain in s.table
    ensures s.table[domain] < |s.heap| && Lists(s, s.table[domain])
  {
  }

  // ---------- the window of one Remove ----------

  /** What GetServer would answer if both its steps were taken here. */
  datatype Answer = Absent | Nil | Server

  function Look(s: State, domain: bytes): Answer
    requires Valid(s)
  {
    if domain !in s.table then Absent else if s.heap[s.table[domain]].addrs == {} then Nil else Server
  }

  predicate Concerns(s: State, step: Step, domain: bytes)
    requires Valid(s) && Enabled(s, step)
  {
    match step
    case AddLoad(_, d, _) => d == domain
    case RemoveLoad(_, d, _) => d == domain
    case AddStore(req) => s.heap[s.tasks[req].inner].domain == domain
    case AddPut(req) => s.heap[s.tasks[req].inner].domain == domain
    case RemoveDelete(req) => s.heap[s.tasks[req].inner].domain == domain
    case RemoveCount(_) => false
    case RemoveDrop(req) => s.heap[s.tasks[req].inner].domain == domain
    case GetLoad(_, _) => false
    case GetRange(_) => false
  }

  /** Remove `req` is alone with the domain. */
  predicate Alone(s: State, step: Step, req: nat, domain: bytes)
    requires Valid(s) && Enabled(s, step)
  {
    if step.req == req then step.RemoveDelete? || step.RemoveCount? || step.RemoveDrop?
    else !Concerns(s, step, domain)
  }

  /** Before the Delete, between it and the Table.Delete, and after that. */
  predicate Before(s: State, req: nat, domain: bytes, p: nat, addr: bytes) {
    && req in s.tasks && s.tasks[req] == Removing(p, addr)
    && domain in s.table && s.table[domain] == p && p < |s.heap| && s.heap[p].addrs == {addr}
  }

  predicate During(s: State, req: nat, domain: bytes, p: nat) {
    && req in s.tasks && Emptying(s.tasks[req], p)
    && domain in s.table && s.table[domain] == p && p < |s.heap| && s.heap[p].addrs == {}
  }

  predicate Past(s: State, req: nat, domain: bytes) { req !in s.tasks && domain !in s.table }

  lemma WindowStep(s: State, step: Step, req: nat, domain: bytes, p: nat, addr: bytes)
    requires Valid(s) && Enabled(s, step) && Alone(s, step, req, domain)
    requires Before(s, req, domain, p, addr) || During(s, req, domain, p) || Past(s, req, domain)
    ensures var t := Apply(s, step);
            Before(t, req, domain, p, addr) || During(t, req, domain, p) || Past(t, req, domain)
  {
  }

  /** While one Remove takes out the last server of a domain and nobody else adds to it or removes from
      it, and whatever else goes on: GetServer finds the server until the Delete, finds nothing from
      the Table.Delete on, and answers "nil, true" exactly in between. */
  lemma {:induction false} RemoveWindow(
      states: seq<State>, steps: seq<Step>, i: nat, k: nat, req: nat, domain: bytes, p: nat, addr: bytes)
    requires IsRun(states, steps) && i <= k < |states| && Before(states[i], req, domain, p, addr)
    requires forall j :: i <= j < k ==> Alone(states[j], steps[j], req, domain)
    ensures Valid(states[k])
    ensures Look(states[k], domain) == Server <==> req in states[k].tasks && states[k].tasks[req].Removing?
    ensures Look(states[k], domain) == Nil <==> req in states[k].tasks && Emptying(states[k].tasks[req], p)
    ensures Look(states[k], domain) == Absent <==> req !in states[k].tasks
  {
    hide Apply, Enabled;
    RunKeepsValid(states, steps, i, k);
    InWindow(states, steps, i, k, req, domain, p, addr);
  }

  lemma {:induction false} InWindow(
      states: seq<State>, steps: seq<Step>, i: nat, k: nat, req: nat, domain: bytes, p: nat, addr: bytes)
    requires IsRun(states, steps) && i <= k < |states| && Before(states[i], req, domain, p, addr)
    requires forall j :: i <= j < k ==> Alone(states[j], steps[j], req, domain)
    ensures var s := states[k];
            Before(s, req, domain, p, addr) || During(s, req, domain, p) || Past(s, req, domain)
    decreases k
  {
    hide Apply, Enabled, Valid, Before, During, Past, Alone;
    if i < k {
      InWindow(states, steps, i, k - 1, req, domain, p, addr);
      WindowStep(states[k - 1], steps[k - 1], req, domain, p, addr);
    }
  }

  // ---------- what can be left behind ----------

  /** One more step of a run that has got to state s. */
  lemma Extend(states: seq<State>, steps: seq<Step>, s: State, step: Step, t: State)
      returns (states': seq<State>, steps': seq<Step>)
    requires IsRun(states, steps) && states[|steps|] == s
    requires Valid(s) && Enabled(s, step) && Apply(s, step) == t
    ensures IsRun(states', steps') && steps' == steps + [step]
    ensures states'[..|steps| + 1] == states && states'[|steps'|] == t && Valid(t)
  {
    hide Apply, Enabled, Valid;
    states', steps' := states + [t], steps + [step];
    StepKeepsValid(s, step);
  }

  /** A server is added to an empty table. */
  lemma AddOne(req: nat, domain: bytes, addr: bytes) returns (states: seq<State>, steps: seq<Step>)
    ensures IsRun(states, steps) && steps == [AddLoad(req, domain, addr), AddStore(req), AddPut(req)]
    ensures states[3] == Listing(domain, {addr}, map[]) && Valid(states[3])
  {
    var noAddrs: set<bytes> := {};
    assert noAddrs + {addr} == {addr};
    var s1 := State([Inner(domain, noAddrs)], map[], map[req := Adding(0, addr)]);
    var s2 := State([Inner(domain, {addr})], map[], map[req := Added(0)]);
    var s3 := Listing(domain, {addr}, map[]);
    assert IsRun([INIT], []) && Valid(INIT);
    hide IsRun;
    assert s2.tasks - {req} == map[];
    states, steps := Extend([INIT], [], INIT, AddLoad(req, domain, addr), s1);
    states, steps := Extend(states, steps, s1, AddStore(req), s2);
    states, steps := Extend(states, steps, s2, AddPut(req), s3);
  }

  /** One domain in the table. */
  function Listing(domain: bytes, addrs: set<bytes>, tasks: map<nat, Task>): State {
    State([Inner(domain, addrs)], map[domain := 0], tasks)
  }

  function Unlisted(domain: bytes, addrs: set<bytes>, tasks: map<nat, Task>): State {
    State([Inner(domain, addrs)], map[], tasks)
  }

  /** A Remove has deleted the only server of a map and counted none left. */
  lemma RemoveToCount(states: seq<State>, steps: seq<Step>, domain: bytes, addr: bytes, tasks: map<nat, Task>)
      returns (states': seq<State>, steps': seq<Step>)
    requires IsRun(states, steps) && states[|steps|] == Listing(domain, {addr}, tasks) && 1 !in tasks
    requires Valid(states[|steps|])
    ensures IsRun(states', steps')
    ensures steps' == steps + [RemoveLoad(1, domain, addr)] + [RemoveDelete(1)] + [RemoveCount(1)]
    ensures states'[|steps'|] == Listing(domain, {}, tasks[1 := Counted(0, 0)]) && Valid(states'[|steps'|])
  {
    var last := states[|steps|];
    hide IsRun, Valid;
    var one: set<bytes>, none: set<bytes> := {addr}, {};
    assert one - {addr} == none;
    var s := Listing(domain, one, tasks[1 := Removing(0, addr)]);
    var t := Listing(domain, none, tasks[1 := Deleted(0)]);
    var u := Listing(domain, none, tasks[1 := Counted(0, 0)]);
    states', steps' := Extend(states, steps, last, RemoveLoad(1, domain, addr), s);
    states', steps' := Extend(states', steps', s, RemoveDelete(1), t);
    states', steps' := Extend(states', steps', t, RemoveCount(1), u);
  }

  /** An Add gets hold of a listed map and stores its server there. */
  lemma AddToStore(
      states: seq<State>, steps: seq<Step>, domain: bytes, addrs: set<bytes>, addr: bytes, tasks: map<nat, Task>)
      returns (states': seq<State>, steps': seq<Step>)
    requires IsRun(states, steps) && states[|steps|] == Listing(domain, addrs, tasks) && 0 !in tasks
    requires Valid(states[|steps|])
    ensures IsRun(states', steps') && steps' == steps + [AddLoad(0, domain, addr)] + [AddStore(0)]
    ensures states'[|steps'|] == Listing(domain, addrs + {addr}, tasks[0 := Added(0)]) && Valid(states'[|steps'|])
  {
    var last := states[|steps|];
    hide IsRun, Valid;
    var s := Listing(domain, addrs, tasks[0 := Adding(0, addr)]);
    var t := Listing(domain, addrs + {addr}, tasks[0 := Added(0)]);
    states', steps' := Extend(states, steps, last, AddLoad(0, domain, addr), s);
    states', steps' := Extend(states', steps', s, AddStore(0), t);
  }

  /** An Add and a Remove of the same server that overlap leave an empty map in the table with nobody
      about to take it out: from then on GetServer answers "nil, true". */
  lemma StuckRun(domain: bytes, addr: bytes) returns (states: seq<State>, steps: seq<Step>)
    ensures IsRun(states, steps) && |steps| == 10
    ensures states[10] == Listing(domain, {}, map[]) && Valid(states[10]) && Look(states[10], domain) == Nil
  {
    hide IsRun, Valid;
    var tasks: map<nat, Task>, none: set<bytes> := map[0 := Added(0)], {};
    assert {addr} + {addr} == {addr};
    states, steps := AddOne(0, domain, addr);
    states, steps := AddToStore(states, steps, domain, {addr}, addr, map[]);
    states, steps := RemoveToCount(states, steps, domain, addr, tasks);
    var s := Listing(domain, none, tasks[1 := Counted(0, 0)]);
    var t, u := Unlisted(domain, none, tasks), Listing(domain, none, map[]);
    assert s.table - {domain} == map[] && s.tasks - {1} == tasks && tasks - {0} == map[];
    states, steps := Extend(states, steps, s, RemoveDrop(1), t);
    states, steps := Extend(states, steps, t, AddPut(0), u);
  }

  /** An Add that stores its server after a Remove of another one has counted none left: the server is
      in its map, but the domain is no longer in the table, although nobody removed that server. */
  lemma LostRun(domain: bytes, a: bytes, b: bytes) returns (states: seq<State>, steps: seq<Step>)
    requires a != b
    ensures IsRun(states, steps) && |steps| == 10
    ensures states[10] == Unlisted(domain, {b}, map[]) && Valid(states[10]) && Look(states[10], domain) == Absent
    ensures steps[8] == AddPut(0) && forall step :: step in steps && step.RemoveLoad? ==> step.addr != b
  {
    hide IsRun, Valid;
    var tasks: map<nat, Task>, both: set<bytes>, none: set<bytes> := map[1 := Counted(0, 0)], {b}, {};
    assert map[][1 := Counted(0, 0)] == tasks && none + {b} == both;
    states, steps := AddOne(0, domain, a);
    states, steps := RemoveToCount(states, steps, domain, a, map[]);
    states, steps := AddToStore(states, steps, domain, none, b, tasks);
    var s, t := Listing(domain, both, tasks[0 := Added(0)]), Listing(domain, both, tasks);
    var u := Unlisted(domain, both, map[]);
    assert s.tasks - {0} == tasks && t.table - {domain} == map[] && tasks - {1} == map[];
    states, steps := Extend(states, steps, s, AddPut(0), t);
    states, steps := Extend(states, steps, t, RemoveDrop(1), u);
  }

  /** In such a state GetServer goes through both its steps, and its answer is "nil, true". */
  lemma StuckForGood(domain: bytes, req: nat)
    ensures var s := Listing(domain, {}, map[]);
            && Valid(s) && Enabled(s, GetLoad(req, domain))
            && var t := Apply(s, GetLoad(req, domain));
               Valid(t) && Enabled(t, GetRange(req)) && AnswersNil(t, GetRange(req))
               && Apply(t, GetRange(req)) == s
  {
    assert map[req := Getting(0)] - {req} == map[];
  }

  /** A Remove of one of several servers takes out that one and leaves the domain in the table. */
  lemma OthersStay(domain: bytes, addrs: set<bytes>, addr: bytes, req: nat)
    requires addr in addrs && addrs != {addr}
    ensures var s0 := Listing(domain, addrs, map[]);
            && Valid(s0) && Enabled(s0, RemoveLoad(req, domain, addr))
            && var s1 := Apply(s0, RemoveLoad(req, domain, addr));
               && Valid(s1) && Enabled(s1, RemoveDelete(req))
               && var s2 := Apply(s1, RemoveDelete(req));
                  && Valid(s2) && Enabled(s2, RemoveCount(req))
                  && var s3 := Apply(s2, RemoveCount(req));
                     && Valid(s3) && Enabled(s3, RemoveDrop(req))
                     && Apply(s3, RemoveDrop(req)) == Listing(domain, addrs - {addr}, map[])
  {
    var rest := addrs - {addr};
    assert rest == {} ==> addrs == {addr};
    var s1 := Listing(domain, addrs, map[req := Removing(0, addr)]);
    var s2 := Listing(domain, rest, map[req := Deleted(0)]);
    var s3 := Listing(domain, rest, map[req := Counted(0, |rest|)]);
    var s0 := Listing(domain, addrs, map[]);
    assert Valid(s0);
    hide Valid;
    assert Apply(s0, RemoveLoad(req, domain, addr)) == s1;
    StepKeepsValid(s0, RemoveLoad(req, domain, addr));
    assert Apply(s1, RemoveDelete(req)) == s2;
    StepKeepsValid(s1, RemoveDelete(req));
    assert Apply(s2, RemoveCount(req)) == s3;
    StepKeepsValid(s2, RemoveCount(req));
    assert s3.tasks - {req} == map[];
  }
}
