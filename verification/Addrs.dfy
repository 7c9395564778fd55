/** internal/telebit/addr.go: the address record and the key under which a connection is kept. */
module Addrs {
  import opened Text

  const TUN: bytes := [116, 117, 110]
  /** Schemes that double as control messages. */
  const END: bytes := [101, 110, 100]
  const ERROR: bytes := [101, 114, 114, 111, 114]
  const CONTROL: bytes := [99, 111, 110, 116, 114, 111, 108]

  datatype Addr = Addr(family: bytes, scheme: bytes, termination: bytes, addr: bytes, port: int) {
    /** The connection key. */
    function String(): bytes {
      family + [PLUS] + scheme + [COLON] + addr + [COLON] + Itoa(port)
    }
  }

  /** Go's zero value `Addr{}`. */
  const NO_ADDR: Addr := Addr([], [], [], [], 0)

  function NewAddr(scheme: bytes, termination: bytes, a: bytes, port: int): Addr {
    Addr(TUN, scheme, termination, a, port)
  }

  lemma SameFirst(x: bytes, r: bytes, y: bytes, t: bytes, c: byte)
    requires c !in x && c !in y
    requires x + [c] + r == y + [c] + t
    ensures x == y && r == t
  {
    var s := x + [c] + r;
    assert s[|x|] == c && s[|y|] == c;
    assert x == s[..|x|] && y == s[..|y|];
    assert r == s[|x| + 1..] && t == s[|y| + 1..];
  }

  lemma SameLast(x: bytes, r: bytes, y: bytes, t: bytes, c: byte)
    requires c !in r && c !in t
    requires x + [c] + r == y + [c] + t
    ensures x == y && r == t
  {
    var s := x + [c] + r;
    assert s[|x|] == c && s[|y|] == c;
    assert x == s[..|x|] && y == s[..|y|];
    assert r == s[|x| + 1..] && t == s[|y| + 1..];
  }

  lemma ItoaInjective(p: int, q: int)
    requires IsInt64(p) && IsInt64(q) && Itoa(p) == Itoa(q)
    ensures p == q
  {
    AtoiItoa(p);
    AtoiItoa(q);
  }

  /** Two connections share a key exactly when they agree on all four printed fields,
      even though the address itself may contain colons and plus signs. */
  lemma StringInjective(a: Addr, b: Addr)
    requires PLUS !in a.family && PLUS !in b.family
    requires COLON !in a.scheme && COLON !in b.scheme
    requires IsInt64(a.port) && IsInt64(b.port)
    ensures a.String() == b.String()
       <==> a.family == b.family && a.scheme == b.scheme && a.addr == b.addr && a.port == b.port
  {
    if a.String() == b.String() {
      var ra := a.scheme + [COLON] + (a.addr + [COLON] + Itoa(a.port));
      var rb := b.scheme + [COLON] + (b.addr + [COLON] + Itoa(b.port));
      assert a.String() == a.family + [PLUS] + ra;
      assert b.String() == b.family + [PLUS] + rb;
      SameFirst(a.family, ra, b.family, rb, PLUS);
      SameFirst(a.scheme, a.addr + [COLON] + Itoa(a.port), b.scheme, b.addr + [COLON] + Itoa(b.port), COLON);
      ItoaBytes(a.port);
      ItoaBytes(b.port);
      SameLast(a.addr, Itoa(a.port), b.addr, Itoa(b.port), COLON);
      ItoaInjective(a.port, b.port);
    }
  }

  /** The two side conditions are not idle: every address with a plus sign in its family, or a colon
      in its scheme, shares its key with a different address. */
  lemma StringCollides(a: Addr) returns (b: Addr)
    requires PLUS in a.family || COLON in a.scheme
    ensures b.String() == a.String()
    ensures b.family != a.family || b.scheme != a.scheme
  {
    hide Itoa;
    if PLUS in a.family {
      var x, y := CutAt(a.family, PLUS);
      b := a.(family := x, scheme := y + [PLUS] + a.scheme);
      assert x + [PLUS] + b.scheme == a.family + [PLUS] + a.scheme;
    } else {
      var x, y := CutAt(a.scheme, COLON);
      b := a.(scheme := x, addr := y + [COLON] + a.addr);
      var f := a.family + [PLUS];
      assert f + x + [COLON] + b.addr == f + a.scheme + [COLON] + a.addr;
    }
  }

  lemma CutAt(s: bytes, c: byte) returns (x: bytes, y: bytes)
    requires c in s
    ensures s == x + [c] + y
  {
    var k :| 0 <= k < |s| && s[k] == c;
    x, y := s[..k], s[k + 1..];
  }
}
