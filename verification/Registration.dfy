/** Device registration under concurrency: the handlers of internal/mgmt/route.go and devices.go as
    programs of atomic statements over one store, interleaved in any order. */
module Registration {
  import opened Text
  import opened AuthStore

  /** A request between its two statements. */
  datatype Pending =
    | Registering(original: Row, ppid: bytes)
    | Deleting(slug: bytes)
    | Mastering(secret: bytes)

  /** What has happened, for the record. */
  datatype Entry =
    | Inserted(key: bytes)        // Add took effect
    | Registered(key: bytes)      // Set succeeded
    | MasterSet(secret: bytes)    // the UPDATE of SetMaster

  datatype State = State(rows: seq<Row>, pending: map<nat, Pending>, log: seq<Entry>)

  datatype Step =
    | Create(id: bytes, slug: bytes, key: bytes, publicKey: bytes, ppid: bytes, random: bytes)
    | RegisterGet(req: nat, row: nat, id: bytes, otp: bytes, ppid: bytes, publicKey: bytes)
    | RegisterSet(req: nat)
    | DeleteGet(req: nat, row: nat, id: bytes)
    | DeleteSet(req: nat)
    | MasterAdd(req: nat, secret: bytes)
    | MasterUpdate(req: nat)

  const INIT: State := State([], map[], [])

  predicate Enabled(pub: PubFn, s: State, step: Step) {
    match step
    case Create(id, slug, key, publicKey, ppid, random) =>
      CheckCreate(pub, id, slug, key, publicKey, ppid, random).Accepted?
    case RegisterGet(req, row, id, otp, ppid, publicKey) =>
      && req !in s.pending && row < |s.rows| && Matches(pub, s.rows[row], otp)
      && s.rows[row].ppid == [] && CheckRegister(pub, id, otp, ppid, publicKey)
    case RegisterSet(req) => req in s.pending && s.pending[req].Registering?
    case DeleteGet(req, row, id) => req !in s.pending && row < |s.rows| && Matches(pub, s.rows[row], id)
    case DeleteSet(req) => req in s.pending && s.pending[req].Deleting?
    case MasterAdd(req, _) => req !in s.pending
    case MasterUpdate(req) => req in s.pending && s.pending[req].Mastering?
  }

  function InsertEntries(rows: seq<Row>, slug: bytes, key: bytes): seq<Entry> {
    if SlugTaken(rows, slug) then [] else [Inserted(key)]
  }

  function Apply(pub: PubFn, s: State, step: Step): State
    requires Enabled(pub, s, step)
  {
    match step
    case Create(id, slug, key, publicKey, ppid, random) =>
      var c := CheckCreate(pub, id, slug, key, publicKey, ppid, random);
      s.(rows := Added(s.rows, c.slug, c.key, c.publicKey), log := s.log + InsertEntries(s.rows, c.slug, c.key))
    case RegisterGet(req, row, id, otp, ppid, publicKey) =>
      s.(pending := s.pending[req := Registering(s.rows[row], ppid)])
    case RegisterSet(req) =>
      var p := s.pending[req];
      State(SetAll(s.rows, p.ppid, p.original.sharedKey, pub(p.ppid)), s.pending - {req},
            s.log + if SetCount(s.rows, p.original.sharedKey) == 1 then [Registered(p.original.sharedKey)] else [])
    case DeleteGet(req, row, id) =>
      s.(pending := s.pending[req := Deleting(s.rows[row].slug)])
    case DeleteSet(req) =>
      s.(rows := Deleted(s.rows, s.pending[req].slug), pending := s.pending - {req})
    case MasterAdd(req, secret) =>
      State(Added(s.rows, STAR, secret, pub(secret)), s.pending[req := Mastering(secret)],
            s.log + InsertEntries(s.rows, STAR, secret))
    case MasterUpdate(req) =>
      var secret := s.pending[req].secret;
      State(Mastered(s.rows, secret, pub(secret)), s.pending - {req}, s.log + [MasterSet(secret)])
  }

  ghost predicate IsRun(pub: PubFn, states: seq<State>, steps: seq<Step>) {
    && |states| == |steps| + 1 && states[0] == INIT
    && forall k :: 0 <= k < |steps| ==>
         Enabled(pub, states[k], steps[k]) && states[k + 1] == Apply(pub, states[k], steps[k])
  }

  // ---------- the invariant ----------

  /** The public key belongs to the machine id, or to the shared key while there is none. */
  predicate KeyFits(pub: PubFn, r: Row) {
    r.publicKey == pub(if r.ppid == [] then r.sharedKey else r.ppid)
  }

  predicate OneLive(rows: seq<Row>) {
    forall i, j :: 0 <= i < j < |rows| && rows[i].live && rows[j].live && rows[i].slug == rows[j].slug ==>
      rows[i].slug == STAR
  }

  /** An entry after which the key can be registered: an insertion of the key, or, for the empty key
      only, a master secret that is empty. */
  predicate Opens(e: Entry, key: bytes) { e == Inserted(key) || (key == [] && e == MasterSet([])) }

  /** The key was registered, and nothing has opened it since. */
  predicate Spent(log: seq<Entry>, key: bytes) {
    log != [] &&
    var front, last := log[..|log| - 1], log[|log| - 1];
    last == Registered(key) || (!Opens(last, key) && Spent(front, key))
  }

  /** No key is registered twice without having been opened in between. */
  predicate NoDoubleRegistration(log: seq<Entry>) {
    forall a, b :: 0 <= a < b < |log| && log[a].Registered? && log[b] == log[a] ==>
      exists c :: a < c < b && Opens(log[c], log[a].key)
  }

  ghost predicate Inv(pub: PubFn, s: State) {
    && (forall i :: 0 <= i < |s.rows| ==> KeyFits(pub, s.rows[i]))
    && OneLive(s.rows)
    && (forall i :: 0 <= i < |s.rows| && Spent(s.log, s.rows[i].sharedKey) ==>
          !Settable(s.rows[i], s.rows[i].sharedKey))
    && NoDoubleRegistration(s.log)
    && (forall req :: req in s.pending && s.pending[req].Registering? ==> s.pending[req].ppid != [])
  }

  /** Rows are never dropped or renamed, and a row that is not the master's keeps its shared key and,
      once it has a machine id, that id and its public key. */
  predicate RowsKept(before: seq<Row>, after: seq<Row>) {
    && |before| <= |after|
    && forall i :: 0 <= i < |before| ==>
        && after[i].slug == before[i].slug
        && (before[i].slug != STAR ==> after[i].sharedKey == before[i].sharedKey)
        && (before[i].slug != STAR && before[i].ppid != [] ==>
              after[i].ppid == before[i].ppid && after[i].publicKey == before[i].publicKey)
  }

  // ---------- logs ----------

  lemma SpentSnoc(log: seq<Entry>, e: Entry, key: bytes)
    ensures Spent(log + [e], key) <==> e == Registered(key) || (!Opens(e, key) && Spent(log, key))
  {
    assert (log + [e])[..|log|] == log;
  }

  lemma {:induction false} SpentWitness(log: seq<Entry>, a: nat, key: bytes)
    requires a < |log| && log[a] == Registered(key)
    ensures Spent(log, key) || exists c :: a < c < |log| && Opens(log[c], key)
    decreases |log|
  {
    var front := log[..|log| - 1];
    if a < |front| {
      assert front[a] == log[a];
      SpentWitness(front, a, key);
      if !Spent(front, key) {
        var c :| a < c < |front| && Opens(front[c], key);
        assert log[c] == front[c];
      } else if Opens(log[|log| - 1], key) {
        assert a < |log| - 1;
      }
    }
  }

  lemma LogGrows(log: seq<Entry>, e: Entry)
    requires NoDoubleRegistration(log)
    requires e.Registered? ==> !Spent(log, e.key)
    ensures NoDoubleRegistration(log + [e])
  {
    var log' := log + [e];
    forall a, b | 0 <= a < b < |log'| && log'[a].Registered? && log'[b] == log'[a]
      ensures exists c :: a < c < b && Opens(log'[c], log'[a].key)
    {
      assert log'[a] == log[a];
      if b < |log| {
        assert log'[b] == log[b];
        var c :| a < c < b && Opens(log[c], log[a].key);
        assert log'[c] == log[c];
      } else {
        SpentWitness(log, a, e.key);
        var c :| a < c < |log| && Opens(log[c], e.key);
        assert log'[c] == log[c];
      }
    }
  }

  lemma CountZero(rows: seq<Row>, key: bytes)
    ensures SetCount(rows, key) > 0 ==> exists i :: 0 <= i < |rows| && Settable(rows[i], key)
  {
    if SetRows(rows, key) != {} {
      var i :| i in SetRows(rows, key);
      assert Settable(rows[i], key);
    }
  }

  // ---------- the statements keep the invariant ----------

  lemma AddKeeps(pub: PubFn, s: State, slug: bytes, key: bytes, pending: map<nat, Pending>)
    requires Inv(pub, s)
    requires forall req :: req in pending && pending[req].Registering? ==> pending[req].ppid != []
    ensures Inv(pub, State(Added(s.rows, slug, key, pub(key)), pending, s.log + InsertEntries(s.rows, slug, key)))
    ensures RowsKept(s.rows, Added(s.rows, slug, key, pub(key)))
  {
    if SlugTaken(s.rows, slug) {
      assert s.log + [] == s.log;
    } else {
      LogGrows(s.log, Inserted(key));
      forall k { SpentSnoc(s.log, Inserted(key), k); }
    }
  }

  lemma SetKeeps(pub: PubFn, s: State, ppid: bytes, key: bytes, pending: map<nat, Pending>)
    requires Inv(pub, s) && ppid != []
    requires forall req :: req in pending && pending[req].Registering? ==> pending[req].ppid != []
    ensures Inv(pub, State(SetAll(s.rows, ppid, key, pub(ppid)), pending,
                           s.log + if SetCount(s.rows, key) == 1 then [Registered(key)] else []))
    ensures RowsKept(s.rows, SetAll(s.rows, ppid, key, pub(ppid)))
  {
    if SetCount(s.rows, key) == 1 {
      CountZero(s.rows, key);
      LogGrows(s.log, Registered(key));
      forall k { SpentSnoc(s.log, Registered(key), k); }
    } else {
      assert s.log + [] == s.log;
    }
  }

  lemma DeleteKeeps(pub: PubFn, s: State, slug: bytes, pending: map<nat, Pending>)
    requires Inv(pub, s)
    requires forall req :: req in pending && pending[req].Registering? ==> pending[req].ppid != []
    ensures Inv(pub, s.(rows := Deleted(s.rows, slug), pending := pending))
    ensures RowsKept(s.rows, Deleted(s.rows, slug))
  {
  }

  lemma MasterKeeps(pub: PubFn, s: State, secret: bytes, pending: map<nat, Pending>)
    requires Inv(pub, s)
    requires forall req :: req in pending && pending[req].Registering? ==> pending[req].ppid != []
    ensures Inv(pub, State(Mastered(s.rows, secret, pub(secret)), pending, s.log + [MasterSet(secret)]))
    ensures RowsKept(s.rows, Mastered(s.rows, secret, pub(secret)))
  {
    LogGrows(s.log, MasterSet(secret));
    forall k { SpentSnoc(s.log, MasterSet(secret), k); }
  }

  lemma StepKeeps(pub: PubFn, s: State, step: Step)
    requires Inv(pub, s) && Enabled(pub, s, step)
    ensures Inv(pub, Apply(pub, s, step)) && RowsKept(s.rows, Apply(pub, s, step).rows)
  {
    hide KeyFits, OneLive, Spent, NoDoubleRegistration, Added, SetAll, Mastered, Deleted, InsertEntries, RowsKept;
    var t := Apply(pub, s, step);
    match step
    case Create(id, slug, key, publicKey, ppid, random) =>
      var c := CheckCreate(pub, id, slug, key, publicKey, ppid, random);
      AddKeeps(pub, s, c.slug, c.key, s.pending);
    case RegisterSet(req) => SetKeeps(pub, s, s.pending[req].ppid, s.pending[req].original.sharedKey, t.pending);
    case DeleteSet(req) => DeleteKeeps(pub, s, s.pending[req].slug, t.pending);
    case MasterAdd(req, secret) => AddKeeps(pub, s, STAR, secret, t.pending);
    case MasterUpdate(req) => MasterKeeps(pub, s, s.pending[req].secret, t.pending);
    case _ => Unchanged(s.rows);
  }

  lemma Unchanged(rows: seq<Row>)
    ensures RowsKept(rows, rows)
  {
  }

  // ---------- the theorems ----------

  lemma {:induction false} RunInv(pub: PubFn, states: seq<State>, steps: seq<Step>, k: nat)
    requires IsRun(pub, states, steps) && k < |states|
    ensures Inv(pub, states[k])
  {
    hide Inv, Enabled, Apply;
    if k == 0 {
      InitInv(pub);
    } else {
      RunInv(pub, states, steps, k - 1);
      StepKeeps(pub, states[k - 1], steps[k - 1]);
    }
  }

  lemma InitInv(pub: PubFn)
    ensures Inv(pub, INIT)
  {
  }

  /** In every state of every interleaving: each row's public key is derived from its machine id, or
      from its shared key while it has none; at most one live row has a given slug other than "*";
      and no shared key has been registered twice without having been added in between. */
  lemma RegistrationSafety(pub: PubFn, states: seq<State>, steps: seq<Step>, k: nat)
    requires IsRun(pub, states, steps) && k < |states|
    ensures forall i :: 0 <= i < |states[k].rows| ==> KeyFits(pub, states[k].rows[i])
    ensures OneLive(states[k].rows)
    ensures NoDoubleRegistration(states[k].log)
  {
    RunInv(pub, states, steps, k);
  }

  lemma RowsKeptTransitive(a: seq<Row>, b: seq<Row>, c: seq<Row>)
    requires RowsKept(a, b) && RowsKept(b, c)
    ensures RowsKept(a, c)
  {
  }

  /** A machine id, once set on a row that is not the master's, is there for good. */
  lemma {:induction false} IdsAreFinal(pub: PubFn, states: seq<State>, steps: seq<Step>, j: nat, k: nat)
    requires IsRun(pub, states, steps) && j <= k < |states|
    ensures RowsKept(states[j].rows, states[k].rows)
    decreases k
  {
    hide Inv, Enabled, Apply, RowsKept;
    if j == k {
      Unchanged(states[j].rows);
    } else {
      IdsAreFinal(pub, states, steps, j, k - 1);
      RunInv(pub, states, steps, k - 1);
      StepKeeps(pub, states[k - 1], steps[k - 1]);
      RowsKeptTransitive(states[j].rows, states[k - 1].rows, states[k].rows);
    }
  }

  /** Two devices created under one shared key: registering with it reports an error, logs nothing, and
      yet both rows carry the machine id. Every pair of slugs, key and machine id gives such a run. */
  lemma SharedKeyRun(pub: PubFn, a: bytes, b: bytes, key: bytes, ppid: bytes)
    returns (states: seq<State>, steps: seq<Step>)
    requires a != [] && b != [] && a != b && |key| >= 20 && ppid != []
    requires |pub(key)| <= 24 && pub(ppid) != []
    ensures IsRun(pub, states, steps) && |steps| == 4 && steps[3] == RegisterSet(0)
    ensures SetCount(states[3].rows, key) == 2 && states[4].log == states[3].log
    ensures states[3].rows == [Row(a, key, pub(key), [], true), Row(b, key, pub(key), [], true)]
    ensures states[4].rows == [Row(a, key, pub(ppid), ppid, true), Row(b, key, pub(ppid), ppid, true)]
  {
    steps := [Create([], a, key, [], [], []), Create([], b, key, [], [], []),
              RegisterGet(0, 0, [], key, ppid, pub(ppid)), RegisterSet(0)];
    var s1 := Apply(pub, INIT, steps[0]);
    assert s1.rows == [Row(a, key, pub(key), [], true)];
    var s2 := Apply(pub, s1, steps[1]);
    assert s2.rows == [Row(a, key, pub(key), [], true), Row(b, key, pub(key), [], true)];
    hide Added, InsertEntries, CheckCreate;
    var s3 := Apply(pub, s2, steps[2]);
    assert SetRows(s3.rows, key) == {0, 1};
    var s4 := Apply(pub, s3, steps[3]);
    states := [INIT, s1, s2, s3, s4];
  }
}
