/** internal/mgmt/route.go and devices.go: the handlers over the store, each cut at its calls of the
    store. Every call extends a recorded run of the Registration machine, so what that machine proves
    of all interleavings holds of the store's rows after any sequence of calls. */
module Handlers {
  import opened Text
  import opened AuthStore
  import opened Registration

  class Management {
    const store: PGStore
    var pending: map<nat, Pending>
    ghost var states: seq<State>
    ghost var steps: seq<Step>

    ghost predicate Valid()
      reads this, store
    {
      && IsRun(store.pub, states, steps)
      && Now().rows == store.rows && Now().pending == pending
    }

    ghost function Now(): State
      reads this
      requires |states| > 0
    { states[|states| - 1] }

    /** The run recorded so far goes on by one step. */
    twostate predicate Took(step: Step)
      reads this
    {
      && |old(states)| > 0 && Enabled(store.pub, old(Now()), step)
      && steps == old(steps) + [step]
      && states == old(states) + [Apply(store.pub, old(Now()), step)]
    }

    twostate predicate Idle()
      reads this, store
    { steps == old(steps) && states == old(states) && pending == old(pending) && store.rows == old(store.rows) }

    constructor (pub: PubFn)
      ensures Valid() && fresh(store) && store.pub == pub && steps == [] && store.rows == []
    {
      store := new PGStore(pub);
      pending := map[];
      states, steps := [INIT], [];
    }

    /** POST /devices: refused by its checks, or a single Add. With `random` for a key that is not given
        and the key's own public key for one that is not given, a request is accepted exactly if it sets
        no id, a slug, a key of at least 20 bytes, and the public key of that, as far as 24 bytes. */
    method CreateDevice(id: bytes, slug: bytes, key: bytes, publicKey: bytes, ppid: bytes, random: bytes)
      returns (ok: bool)
      requires Valid()
      modifies this, store
      ensures Valid()
      ensures var k := if key == [] then random else key;
              var accepted := && id == [] && ppid == [] && slug != [] && |k| >= 20
                              && if publicKey == [] then |store.pub(k)| <= 24
                                 else store.pub(k) == if |publicKey| > 24 then publicKey[..24] else publicKey;
              && (if accepted then Took(Create(id, slug, key, publicKey, ppid, random)) else Idle())
              && (ok <==> accepted && forall n :: 0 <= n < |old(store.rows)| ==>
                            !(old(store.rows)[n].live && old(store.rows)[n].slug == slug))
              && store.rows == old(store.rows) + if ok then [Row(slug, k, store.pub(k), [], true)] else []
    {
      ok := false;
      var c := CheckCreate(store.pub, id, slug, key, publicKey, ppid, random);
      if c.Accepted? {
        ok := store.Add(c.slug, c.key, c.publicKey);
        Record(Create(id, slug, key, publicKey, ppid, random));
      }
    }

    /** POST /register-device/{otp}, up to the lookup and the checks. `row` is the row that Get found:
        it must have no machine id yet, and the request must name one, with its public key. */
    method Lookup(req: nat, id: bytes, otp: bytes, ppid: bytes, publicKey: bytes) returns (ok: bool, ghost row: nat)
      requires Valid() && req !in pending
      modifies this
      ensures Valid() && store.rows == old(store.rows)
      ensures if ok then Took(RegisterGet(req, row, id, otp, ppid, publicKey)) else Idle()
      ensures var short := if |otp| > 24 then otp[..24] else otp;
              var asked := id == [] && ppid != [] && publicKey != [] && otp != [] && store.pub(ppid) == publicKey;
              && (ok ==> && asked && row < |store.rows| && store.rows[row].live && store.rows[row].ppid == []
                         && (store.rows[row].slug == short || store.rows[row].publicKey == short
                             || store.rows[row].publicKey == store.pub(otp))
                         && pending == old(pending)[req := Registering(store.rows[row], ppid)])
              && (!ok && asked ==>
                    || (forall k :: 0 <= k < |store.rows| && store.rows[k].live ==>
                          store.rows[k].slug != short && store.rows[k].publicKey != short
                          && store.rows[k].publicKey != store.pub(otp))
                    || (row < |store.rows| && Matches(store.pub, store.rows[row], otp) && store.rows[row].ppid != []))
    {
      var i;
      ok, i := store.Get(otp);
      row := i;
      ok := ok && store.rows[i].ppid == [] && CheckRegister(store.pub, id, otp, ppid, publicKey);
      if ok {
        pending := pending[req := Registering(store.rows[i], ppid)];
        Record(RegisterGet(req, row, id, otp, ppid, publicKey));
      }
    }

    /** The rest of it: the Set, whose outcome is the answer. */
    method Register(req: nat) returns (ok: bool)
      requires Valid() && req in pending && pending[req].Registering?
      modifies this, store
      ensures Valid() && Took(RegisterSet(req)) && pending == old(pending) - {req}
      ensures var key, ppid := old(pending)[req].original.sharedKey, old(pending)[req].ppid;
              var touched := set k | 0 <= k < |old(store.rows)| && old(store.rows)[k].live
                                     && old(store.rows)[k].sharedKey == key && old(store.rows)[k].ppid == [];
              && (ok <==> exists j :: touched == {j})
              && (ok <==> Now().log == old(Now().log) + [Registered(key)])
              && |store.rows| == |old(store.rows)|
              && forall k :: 0 <= k < |store.rows| ==>
                   store.rows[k] == if k in touched then Row(old(store.rows)[k].slug, key, store.pub(ppid), ppid, true)
                                    else old(store.rows)[k]
    {
      var p := pending[req];
      ok := store.Set(p.ppid, p.original.sharedKey, store.pub(p.ppid));
      pending := pending - {req};
      Record(RegisterSet(req));
    }

    /** DELETE /devices/{slug}, up to the lookup: a live device is found under its slug, if that has at
        most 24 bytes, and under its public key. */
    method DeleteLookup(req: nat, id: bytes) returns (ok: bool, ghost row: nat)
      requires Valid() && req !in pending
      modifies this
      ensures Valid() && store.rows == old(store.rows)
      ensures if ok then Took(DeleteGet(req, row, id)) else Idle()
      ensures var short := if |id| > 24 then id[..24] else id;
              && (ok ==> && row < |store.rows| && store.rows[row].live
                         && (store.rows[row].slug == short || store.rows[row].publicKey == short
                             || store.rows[row].publicKey == store.pub(id))
                         && pending == old(pending)[req := Deleting(store.rows[row].slug)])
              && (!ok ==> forall k :: 0 <= k < |store.rows| && store.rows[k].live ==>
                    && store.rows[k].slug != short && store.rows[k].publicKey != short
                    && store.rows[k].publicKey != store.pub(id))
    {
      var i;
      ok, i := store.Get(id);
      row := i;
      if ok {
        pending := pending[req := Deleting(store.rows[i].slug)];
        Record(DeleteGet(req, row, id));
      }
    }

    /** The rest of it. No live row has the slug afterwards, whether or not an error is reported. */
    method DeleteDevice(req: nat) returns (ok: bool)
      requires Valid() && req in pending && pending[req].Deleting?
      modifies this, store
      ensures Valid() && Took(DeleteSet(req)) && pending == old(pending) - {req}
      ensures var slug := old(pending)[req].slug;
              var touched := set k | 0 <= k < |old(store.rows)|
                                     && old(store.rows)[k].live && old(store.rows)[k].slug == slug;
              && (ok <==> exists j :: touched == {j})
              && |store.rows| == |old(store.rows)|
              && forall k :: 0 <= k < |store.rows| ==>
                   store.rows[k] == if k in touched then old(store.rows)[k].(live := false) else old(store.rows)[k]
    {
      ok := store.Delete(pending[req].slug);
      pending := pending - {req};
      Record(DeleteSet(req));
    }

    /** SetMaster, up to its Add, and its update. */
    method AddMaster(req: nat, secret: bytes)
      requires Valid() && req !in pending
      modifies this, store
      ensures Valid() && Took(MasterAdd(req, secret)) && pending == old(pending)[req := Mastering(secret)]
      ensures store.rows == old(store.rows)
                + if exists k :: 0 <= k < |old(store.rows)|
                                 && old(store.rows)[k].live && old(store.rows)[k].slug == STAR then []
                  else [Row(STAR, secret, store.pub(secret), [], true)]
    {
      var _ := store.Add(STAR, secret, store.pub(secret));
      pending := pending[req := Mastering(secret)];
      Record(MasterAdd(req, secret));
    }

    method UpdateMaster(req: nat)
      requires Valid() && req in pending && pending[req].Mastering?
      modifies this, store
      ensures Valid() && Took(MasterUpdate(req)) && pending == old(pending) - {req}
      ensures var secret := old(pending)[req].secret;
              && |store.rows| == |old(store.rows)|
              && forall k :: 0 <= k < |store.rows| ==>
                   store.rows[k] == if old(store.rows)[k].slug == STAR
                                    then Row(STAR, secret, store.pub(secret), secret, true) else old(store.rows)[k]
    {
      store.UpdateMaster(pending[req].secret);
      pending := pending - {req};
      Record(MasterUpdate(req));
    }

    ghost method Record(step: Step)
      requires IsRun(store.pub, states, steps) && Enabled(store.pub, Now(), step)
      requires Apply(store.pub, Now(), step).rows == store.rows && Apply(store.pub, Now(), step).pending == pending
      modifies this`states, this`steps
      ensures Valid() && Took(step)
    {
      states, steps := states + [Apply(store.pub, Now(), step)], steps + [step];
    }

    /** After any calls, in any order: public keys are derived from their rows, one live row a slug, no
        key registered twice without an insertion between, and nothing has happened to an id that was
        set before. */
    lemma StoreIsSafe(k: nat)
      requires Valid() && k < |states|
      ensures forall i :: 0 <= i < |store.rows| ==> KeyFits(store.pub, store.rows[i])
      ensures OneLive(store.rows)
      ensures NoDoubleRegistration(Now().log)
      ensures RowsKept(states[k].rows, store.rows)
    {
      RegistrationSafety(store.pub, states, steps, |steps|);
      IdsAreFinal(store.pub, states, steps, k, |steps|);
    }
  }
}
