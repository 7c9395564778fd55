/** internal/mgmt/authstore/postgresql.go: the table of authorizations, one atomic statement at a
    time. `ToPublicKeyString` is a parameter, and may be any function. */
module AuthStore {
  import opened Text

  type PubFn = bytes -> bytes

  const STAR: bytes := [42]

  datatype Row = Row(slug: bytes, sharedKey: bytes, publicKey: bytes, ppid: bytes, live: bool)

  // ---------- the statements, row by row ----------

  function InsertRow(slug: bytes, key: bytes, publicKey: bytes): Row { Row(slug, key, publicKey, [], true) }

  predicate Settable(r: Row, key: bytes) { r.live && r.sharedKey == key && r.ppid == [] }

  function SetRow(r: Row, ppid: bytes, key: bytes, publicKey: bytes): Row {
    if Settable(r, key) then r.(ppid := ppid, publicKey := publicKey) else r
  }

  function MasterRow(r: Row, secret: bytes, publicKey: bytes): Row {
    if r.slug == STAR then Row(STAR, secret, publicKey, secret, true) else r
  }

  predicate Deletable(r: Row, slug: bytes) { r.live && r.slug == slug }

  predicate SlugTaken(rows: seq<Row>, slug: bytes) {
    exists i :: 0 <= i < |rows| && Deletable(rows[i], slug)
  }

  function DeleteRow(r: Row, slug: bytes): Row {
    if Deletable(r, slug) then r.(live := false) else r
  }

  /** The rows Get may return for an id. */
  predicate Matches(pub: PubFn, r: Row, id: bytes) {
    var short := if |id| > 24 then id[..24] else id;
    r.live && (r.slug == short || r.publicKey == short || r.publicKey == pub(id))
  }

  // ---------- the statements, on the table ----------

  function Added(rows: seq<Row>, slug: bytes, key: bytes, publicKey: bytes): seq<Row> {
    if SlugTaken(rows, slug) then rows else rows + [InsertRow(slug, key, publicKey)]
  }

  function SetAll(rows: seq<Row>, ppid: bytes, key: bytes, publicKey: bytes): (out: seq<Row>)
    ensures |out| == |rows|
  { seq(|rows|, i requires 0 <= i < |rows| => SetRow(rows[i], ppid, key, publicKey)) }

  function Mastered(rows: seq<Row>, secret: bytes, publicKey: bytes): (out: seq<Row>)
    ensures |out| == |rows|
  { seq(|rows|, i requires 0 <= i < |rows| => MasterRow(rows[i], secret, publicKey)) }

  function Deleted(rows: seq<Row>, slug: bytes): (out: seq<Row>)
    ensures |out| == |rows|
  { seq(|rows|, i requires 0 <= i < |rows| => DeleteRow(rows[i], slug)) }

  /** The rows that a SET touches, and how many there are. */
  function SetRows(rows: seq<Row>, key: bytes): set<int> { set i | 0 <= i < |rows| && Settable(rows[i], key) }

  function SetCount(rows: seq<Row>, key: bytes): nat { |SetRows(rows, key)| }

  function DeletedRows(rows: seq<Row>, slug: bytes): set<int> { set i | 0 <= i < |rows| && Deletable(rows[i], slug) }

  /** A SET that reports an error because it touched several rows has changed them all the same; the
      table is left as it was exactly when no row was touched. */
  lemma SetLeavesTable(rows: seq<Row>, ppid: bytes, key: bytes, publicKey: bytes)
    requires ppid != []
    ensures SetAll(rows, ppid, key, publicKey) == rows <==> SetCount(rows, key) == 0
  {
    var out := SetAll(rows, ppid, key, publicKey);
    if SetRows(rows, key) == {} {
      forall i | 0 <= i < |rows| ensures out[i] == rows[i] {
        assert i !in SetRows(rows, key);
      }
    } else {
      var i :| i in SetRows(rows, key);
      assert out[i] != rows[i];
    }
  }

  // ---------- the store ----------

  class PGStore {
    const pub: PubFn
    var rows: seq<Row>

    constructor (pub: PubFn)
      ensures this.pub == pub && rows == []
    {
      this.pub := pub;
      rows := [];
    }

    /** Add. It reports ErrExists when a live row has the slug; otherwise the new row is live, has no
        machine id, and is the only live one of its slug. */
    method Add(slug: bytes, key: bytes, publicKey: bytes) returns (ok: bool)
      modifies this`rows
      ensures ok <==> forall k :: 0 <= k < |old(rows)| ==> !(old(rows)[k].live && old(rows)[k].slug == slug)
      ensures !ok ==> rows == old(rows)
      ensures ok ==> |rows| == |old(rows)| + 1 && rows[..|old(rows)|] == old(rows)
      ensures ok ==> rows[|old(rows)|] == Row(slug, key, publicKey, [], true)
      ensures rows == Added(old(rows), slug, key, publicKey)
    {
      var i := 0;
      while i < |rows| && !Deletable(rows[i], slug)
        invariant i <= |rows|
        invariant forall k :: 0 <= k < i ==> !Deletable(rows[k], slug)
      {
        i := i + 1;
      }
      ok := i == |rows|;
      if ok { rows := rows + [InsertRow(slug, key, publicKey)]; }
    }

    /** Set. Its WHERE clause spares deleted rows and rows that have a machine id; it reports an error
        unless exactly one row was touched, but whatever it touched stays changed. */
    method Set(ppid: bytes, key: bytes, publicKey: bytes) returns (ok: bool)
      modifies this`rows
      ensures var touched := set k | 0 <= k < |old(rows)|
                                     && old(rows)[k].live && old(rows)[k].sharedKey == key && old(rows)[k].ppid == [];
              && |rows| == |old(rows)|
              && (ok <==> exists j :: touched == {j})
              && forall k :: 0 <= k < |rows| ==>
                   rows[k] == if k in touched then Row(old(rows)[k].slug, key, publicKey, ppid, true) else old(rows)[k]
      ensures ok <==> SetCount(old(rows), key) == 1
      ensures rows == SetAll(old(rows), ppid, key, publicKey)
    {
      hide SetAll, SetRows;
      var i, count := 0, 0;
      ghost var was := rows;
      NoRows();
      assert was[..0] == [];
      while i < |rows|
        invariant i <= |rows| == |was|
        invariant count == |SetRows(was[..i], key)|
        invariant forall k :: 0 <= k < i ==> rows[k] == SetRow(was[k], ppid, key, publicKey)
        invariant forall k :: i <= k < |was| ==> rows[k] == was[k]
      {
        SetSnoc(was, i, key);
        if Settable(rows[i], key) {
          rows := rows[i := rows[i].(ppid := ppid, sharedKey := key, publicKey := publicKey)];
          count := count + 1;
        }
        i := i + 1;
      }
      assert was[..i] == was;
      OneMember(SetRows(was, key));
      SetTouches(was, ppid, key, publicKey);
      SetRowsAre(was, key);
      ok := count == 1;
    }

    /** Delete. Live rows of the slug are marked deleted, and nothing else; success means exactly one. */
    method Delete(slug: bytes) returns (ok: bool)
      modifies this`rows
      ensures var touched := set k | 0 <= k < |old(rows)| && old(rows)[k].live && old(rows)[k].slug == slug;
              && |rows| == |old(rows)|
              && (ok <==> exists j :: touched == {j})
              && forall k :: 0 <= k < |rows| ==>
                   rows[k] == if k in touched then old(rows)[k].(live := false) else old(rows)[k]
      ensures rows == Deleted(old(rows), slug)
    {
      hide Deleted, DeletedRows;
      var i, count := 0, 0;
      ghost var was := rows;
      NoRows();
      assert was[..0] == [];
      while i < |rows|
        invariant i <= |rows| == |was|
        invariant count == |DeletedRows(was[..i], slug)|
        invariant forall k :: 0 <= k < i ==> rows[k] == DeleteRow(was[k], slug)
        invariant forall k :: i <= k < |was| ==> rows[k] == was[k]
      {
        DeleteSnoc(was, i, slug);
        if Deletable(rows[i], slug) {
          rows := rows[i := rows[i].(live := false)];
          count := count + 1;
        }
        i := i + 1;
      }
      assert was[..i] == was;
      OneMember(DeletedRows(was, slug));
      DeleteTouches(was, slug);
      DeletedRowsAre(was, slug);
      assert rows == Deleted(was, slug);
      ok := count == 1;
    }

    /** The second statement of SetMaster: every row named "*", deleted or not, takes the secret. */
    method UpdateMaster(secret: bytes)
      modifies this`rows
      ensures |rows| == |old(rows)|
      ensures forall k :: 0 <= k < |rows| && old(rows)[k].slug == STAR ==>
                rows[k] == Row(STAR, secret, pub(secret), secret, true)
      ensures forall k :: 0 <= k < |rows| && old(rows)[k].slug != STAR ==> rows[k] == old(rows)[k]
      ensures rows == Mastered(old(rows), secret, pub(secret))
    {
      var i := 0;
      while i < |rows|
        invariant i <= |rows| == |old(rows)|
        invariant forall k :: 0 <= k < i ==> rows[k] == MasterRow(old(rows)[k], secret, pub(secret))
        invariant forall k :: i <= k < |rows| ==> rows[k] == old(rows)[k]
      {
        if rows[i].slug == STAR {
          rows := rows[i := Row(STAR, secret, pub(secret), secret, true)];
        }
        i := i + 1;
      }
    }

    /** SetMaster, its two statements run back to back. The result of Add is ignored: whether or not a
        row named "*" was there, afterwards one is, and all of them are live and carry the secret. */
    method SetMaster(secret: bytes)
      modifies this`rows
      ensures |rows| == |old(rows)|
                + if exists k :: 0 <= k < |old(rows)| && old(rows)[k].live && old(rows)[k].slug == STAR then 0 else 1
      ensures exists k :: 0 <= k < |rows| && rows[k].slug == STAR
      ensures forall k :: 0 <= k < |rows| && rows[k].slug == STAR ==>
                rows[k] == Row(STAR, secret, pub(secret), secret, true)
      ensures forall k :: 0 <= k < |old(rows)| && old(rows)[k].slug != STAR ==> rows[k] == old(rows)[k]
      ensures rows == Mastered(Added(old(rows), STAR, secret, pub(secret)), secret, pub(secret))
    {
      var ok := Add(STAR, secret, pub(secret));
      ghost var k := |rows| - 1;
      if !ok { k :| 0 <= k < |rows| && Deletable(rows[k], STAR); }
      UpdateMaster(secret);
      assert rows[k].slug == STAR;
    }

    /** Get: some live row whose slug or public key is the id, or whose public key is derived from it;
        none exactly when there is no such row. */
    method Get(id: bytes) returns (found: bool, i: nat)
      ensures found ==> i < |rows| && Matches(pub, rows[i], id)
      ensures var short := if |id| > 24 then id[..24] else id;
              && (found ==> rows[i].live
                            && (rows[i].slug == short || rows[i].publicKey == short || rows[i].publicKey == pub(id)))
              && forall k :: 0 <= k < |rows| && rows[k].live ==>
                   (rows[k].slug == short || rows[k].publicKey == short || rows[k].publicKey == pub(id) ==> found)
    {
      i := 0;
      while i < |rows| && !Matches(pub, rows[i], id)
        invariant i <= |rows|
        invariant forall k :: 0 <= k < i ==> !Matches(pub, rows[k], id)
      {
        i := i + 1;
      }
      found := i < |rows|;
    }
  }

  lemma SetRowsAre(rows: seq<Row>, key: bytes)
    ensures SetRows(rows, key)
         == set k | 0 <= k < |rows| && rows[k].live && rows[k].sharedKey == key && rows[k].ppid == []
  {
  }

  lemma DeletedRowsAre(rows: seq<Row>, slug: bytes)
    ensures DeletedRows(rows, slug) == set k | 0 <= k < |rows| && rows[k].live && rows[k].slug == slug
  {
  }

  lemma NoRows()
    ensures forall key :: SetRows([], key) == {} && DeletedRows([], key) == {}
  {
  }

  lemma SetSnoc(rows: seq<Row>, i: nat, key: bytes)
    requires i < |rows|
    ensures |SetRows(rows[..i + 1], key)| == |SetRows(rows[..i], key)| + if Settable(rows[i], key) then 1 else 0
  {
    hide Settable;
    assert SetRows(rows[..i + 1], key) == SetRows(rows[..i], key) + if Settable(rows[i], key) then {i} else {};
  }

  lemma SetTouches(rows: seq<Row>, ppid: bytes, key: bytes, publicKey: bytes)
    ensures var out := SetAll(rows, ppid, key, publicKey);
            forall k :: 0 <= k < |rows| ==>
              out[k] == SetRow(rows[k], ppid, key, publicKey)
              == if k in SetRows(rows, key) then Row(rows[k].slug, key, publicKey, ppid, true) else rows[k]
  {
  }

  lemma DeleteSnoc(rows: seq<Row>, i: nat, slug: bytes)
    requires i < |rows|
    ensures |DeletedRows(rows[..i + 1], slug)|
         == |DeletedRows(rows[..i], slug)| + if Deletable(rows[i], slug) then 1 else 0
  {
    hide Deletable;
    assert DeletedRows(rows[..i + 1], slug)
        == DeletedRows(rows[..i], slug) + if Deletable(rows[i], slug) then {i} else {};
  }

  lemma DeleteTouches(rows: seq<Row>, slug: bytes)
    ensures var out := Deleted(rows, slug);
            && !SlugTaken(out, slug)
            && forall k :: 0 <= k < |rows| ==>
                 out[k] == DeleteRow(rows[k], slug)
                 == if k in DeletedRows(rows, slug) then rows[k].(live := false) else rows[k]
  {
  }

  lemma OneMember(s: set<int>)
    ensures |s| == 1 <==> exists j :: s == {j}
  {
    assert (forall j :: j !in s) ==> s == {};
    if |s| == 1 {
      var j :| j in s;
      assert |s - {j}| == 0;
      assert s == {j};
    }
  }

  // ---------- the handlers' checks ----------

  datatype Checked = Refused | Accepted(slug: bytes, key: bytes, publicKey: bytes)

  /** The create handler: defaults and truncations, then the check of the public key. `random` is the
      text of the fresh key it makes up when none is given. */
  function CheckCreate(
    pub: PubFn, id: bytes, slug: bytes, key: bytes, publicKey: bytes, ppid: bytes, random: bytes): Checked
  {
    if id != [] || ppid != [] || slug == [] then Refused
    else
      var key1 := if key == [] then random else key;
      if |key1| < 20 then Refused
      else
        var pub1 := if publicKey == [] then pub(key1) else publicKey;
        var pub2 := if |pub1| > 24 then pub1[..24] else pub1;
        if pub(key1) != pub2 then Refused else Accepted(slug, key1, pub2)
  }

  /** The register handler's checks of its request body. */
  predicate CheckRegister(pub: PubFn, id: bytes, otp: bytes, ppid: bytes, publicKey: bytes) {
    id == [] && ppid != [] && publicKey != [] && otp != [] && pub(ppid) == publicKey
  }
}
