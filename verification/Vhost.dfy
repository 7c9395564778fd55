/** `routeSubscribersAndClients` in cmd/telebit/telebit.go: which registered name serves a client.
    `tryToServeName` is represented by the set of names that have a server. */
module Vhost {
  import opened Text

  const STAR_DOT: bytes := [42, DOT]

  datatype Served = NotHandled | By(name: bytes)

  function Labels(name: bytes): seq<bytes> { Split(name, DOT) }

  function WildName(labels: seq<bytes>, i: nat): bytes
    requires i < |labels|
  { STAR_DOT + Join(labels[i..], DOT) }

  /** The wildcard w covers the name: it stands for at least one label, and two or more remain. */
  ghost predicate Covers(w: bytes, name: bytes) {
    exists prefix, suffix :: name == prefix + [DOT] + suffix && DOT in suffix && w == STAR_DOT + suffix
  }

  method ServeName(servername: bytes, names: set<bytes>) returns (r: Served)
    ensures servername in names ==> r == By(servername)
    ensures servername !in names && r.By? ==>
              && r.name in names && Covers(r.name, servername)
              && forall w :: w in names && Covers(w, servername) ==> |w| <= |r.name|
    ensures r == NotHandled <==> servername !in names && forall w :: w in names ==> !Covers(w, servername)
  {
    if servername in names { return By(servername); }
    var labels := Labels(servername);
    var n := |labels|;
    forall w ensures Covers(w, servername) <==> exists j :: 1 <= j < n - 1 && w == WildName(labels, j) {
      CoversByLabels(w, servername);
    }
    if n < 3 { return NotHandled; }
    for i := 1 to n - 1
      invariant forall j :: 1 <= j < i ==> WildName(labels, j) !in names
    {
      var wildname := WildName(labels, i);
      if wildname in names {
        forall w | w in names && Covers(w, servername)
          ensures |w| <= |wildname|
        {
          var j :| 1 <= j < n - 1 && w == WildName(labels, j);
          ShorterSuffix(labels, i, j);
        }
        return By(wildname);
      }
    }
    return NotHandled;
  }

  lemma {:induction false} SplitConcat(a: bytes, b: bytes)
    ensures Split(a + [DOT] + b, DOT) == Split(a, DOT) + Split(b, DOT)
  {
    var s := a + [DOT] + b;
    if a == [] {
      assert s[1..] == b;
    } else {
      assert s[1..] == a[1..] + [DOT] + b;
      SplitConcat(a[1..], b);
      var front, back := Split(a[1..], DOT), Split(b, DOT);
      PrependByte(a[0], front, back);
    }
  }

  lemma PrependByte(c: byte, front: seq<bytes>, back: seq<bytes>)
    requires front != []
    ensures [[]] + (front + back) == ([[]] + front) + back
    ensures [[c] + (front + back)[0]] + (front + back)[1..] == ([[c] + front[0]] + front[1..]) + back
  {
  }

  lemma {:induction false} JoinConcat(x: seq<bytes>, y: seq<bytes>)
    requires x != [] && y != []
    ensures Join(x + y, DOT) == Join(x, DOT) + [DOT] + Join(y, DOT)
  {
    if |x| == 1 {
      assert (x + y)[1..] == y;
    } else {
      assert (x + y)[1..] == x[1..] + y;
      JoinConcat(x[1..], y);
    }
  }

  lemma {:induction false} SplitJoin(parts: seq<bytes>)
    requires parts != [] && forall k :: 0 <= k < |parts| ==> DOT !in parts[k]
    ensures Split(Join(parts, DOT), DOT) == parts
  {
    if |parts| == 1 {
      SplitLast(parts[0], DOT);
    } else {
      SplitJoin(parts[1..]);
      SplitField(parts[0], Join(parts[1..], DOT), DOT);
      assert parts == [parts[0]] + parts[1..];
    }
  }

  lemma DotMeansTwoLabels(s: bytes)
    ensures DOT in s <==> |Split(s, DOT)| >= 2
  {
    if DOT !in s {
      SplitLast(s, DOT);
    } else {
      JoinSplit(s, DOT);
    }
  }

  lemma CoverHasLabel(prefix: bytes, suffix: bytes) returns (j: nat)
    requires DOT in suffix
    ensures var labels := Labels(prefix + [DOT] + suffix);
            1 <= j < |labels| - 1 && WildName(labels, j) == STAR_DOT + suffix
  {
    hide Split, Join;
    j := |Split(prefix, DOT)|;
    SplitConcat(prefix, suffix);
    DotMeansTwoLabels(suffix);
    JoinSplit(suffix, DOT);
    assert (Split(prefix, DOT) + Split(suffix, DOT))[j..] == Split(suffix, DOT);
  }

  lemma LabelCovers(name: bytes, j: nat)
    requires 1 <= j < |Labels(name)| - 1
    ensures Covers(WildName(Labels(name), j), name)
  {
    hide Split, Join, Covers;
    var labels := Labels(name);
    var front, back := labels[..j], labels[j..];
    JoinSplit(name, DOT);
    assert labels == front + back;
    assert forall k :: 0 <= k < |back| ==> back[k] == labels[j + k];
    JoinConcat(front, back);
    SplitJoin(back);
    DotMeansTwoLabels(Join(back, DOT));
    CoverBy(Join(front, DOT), Join(back, DOT));
  }

  lemma CoverBy(prefix: bytes, suffix: bytes)
    requires DOT in suffix
    ensures Covers(STAR_DOT + suffix, prefix + [DOT] + suffix)
  {
  }

  /** The wildcards that cover a name are exactly those the loop tries. */
  lemma CoversByLabels(w: bytes, name: bytes)
    ensures var labels := Labels(name);
            Covers(w, name) <==> exists j :: 1 <= j < |labels| - 1 && w == WildName(labels, j)
  {
    hide Labels, WildName;
    if Covers(w, name) {
      var prefix, suffix :| name == prefix + [DOT] + suffix && DOT in suffix && w == STAR_DOT + suffix;
      var j := CoverHasLabel(prefix, suffix);
      assert w == WildName(Labels(name), j);
    }
    if j :| 1 <= j < |Labels(name)| - 1 && w == WildName(Labels(name), j) {
      LabelCovers(name, j);
    }
  }

  lemma {:induction false} ShorterSuffix(labels: seq<bytes>, i: nat, j: nat)
    requires i <= j < |labels|
    ensures |WildName(labels, j)| <= |WildName(labels, i)|
    decreases j - i
  {
    if i < j {
      ShorterSuffix(labels, i + 1, j);
      assert labels[i..][1..] == labels[i + 1..];
    }
  }
}
