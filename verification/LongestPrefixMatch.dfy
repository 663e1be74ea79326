/** What the IPv4 trie has to compute: longest-prefix match over the routes added, as in section
    5.2.4.3 of RFC 1812.  Addresses are 32-bit numbers in host order. */
module LongestPrefixMatch {
  import opened Arithmetic
  import opened PowersOfTwo

  /** A call of `ip4_fib_mtrie_route_add`. */
  datatype Route = Route(dst: nat, len: nat, adj: nat)

  /** The leaf that a slot holds and the length of the prefix that put it there. */
  datatype Slot = Slot(leaf: nat, bits: nat)

  ghost predicate IsRoute(r: Route) {
    && r.dst < UINT32 && r.len <= 32 && r.adj < UINT32
    && (r.len == 0 ==> r.dst == 0)  // the mask is computed with a shift by 32 - len
  }

  /** How many addresses a prefix of this length covers. */
  function Span(len: nat): (n: nat)
    requires len <= 32
    ensures 0 < n <= UINT32
  {
    Pow2Values();
    Pow2Monotone(32 - len, 32);
    Pow2(32 - len)
  }

  /** The first `len` bits of the address are those of the route. */
  predicate Covers(r: Route, a: nat)
    requires r.len <= 32
  {
    a / Span(r.len) == r.dst / Span(r.len)
  }

  /** `1 + 2 * adj_index` on 32-bit words, and back. */
  function TerminalLeaf(adj: nat): (leaf: nat)
    ensures leaf % 2 == 1 && leaf < UINT32
    ensures leaf / 2 == adj % 0x8000_0000
  {
    (1 + 2 * adj) % UINT32
  }

  /** The effect of adding a route on the slot that an address resolves to. */
  function Improve(r: Route, was: Slot, a: nat): Slot
    requires r.len <= 32
  {
    if Covers(r, a) && r.len >= was.bits then Slot(TerminalLeaf(r.adj), r.len) else was
  }

  /** The slot of an address after adding the routes in order. */
  function Best(routes: seq<Route>, a: nat): Slot
    requires forall r :: r in routes ==> r.len <= 32
  {
    if routes == [] then Slot(1, 0)
    else
      var last := |routes| - 1;
      Improve(routes[last], Best(routes[..last], a), a)
  }

  /** Route `i` is the longest match; among equally long ones it is the last added. */
  ghost predicate LongestMatch(routes: seq<Route>, a: nat, i: int)
    requires forall r :: r in routes ==> r.len <= 32
  {
    && 0 <= i < |routes| && Covers(routes[i], a)
    && forall j :: 0 <= j < |routes| && Covers(routes[j], a) ==>
         routes[j].len < routes[i].len || (routes[j].len == routes[i].len && j <= i)
  }

  /** The index of the longest match, or -1 when no route covers the address. */
  lemma {:induction false} BestIsLongestMatch(routes: seq<Route>, a: nat) returns (i: int)
    requires forall r :: r in routes ==> r.len <= 32
    ensures i == -1 ==> Best(routes, a) == Slot(1, 0) && forall r :: r in routes ==> !Covers(r, a)
    ensures i != -1 ==> LongestMatch(routes, a, i)
                        && Best(routes, a) == Slot(TerminalLeaf(routes[i].adj), routes[i].len)
  {
    if routes == [] {
      i := -1;
    } else {
      var last := |routes| - 1;
      var k := BestIsLongestMatch(routes[..last], a);
      i := if Covers(routes[last], a) && (k == -1 || routes[last].len >= routes[k].len) then last else k;
      if i == -1 {
        forall r | r in routes ensures !Covers(r, a) {
          if r != routes[last] { assert r in routes[..last]; }
        }
      } else {
        forall j | 0 <= j < |routes| && Covers(routes[j], a)
          ensures routes[j].len < routes[i].len || (routes[j].len == routes[i].len && j <= i)
        {
          if j < last {
            assert routes[..last][j] == routes[j] && routes[j] in routes[..last];
          }
        }
      }
    }
  }

  // ---- Masked addresses

  /** The address without the bits below the prefix. */
  function Masked(r: Route): (d: nat)
    requires r.len <= 32
  {
    r.dst - r.dst % Span(r.len)
  }

  lemma MaskedIsAnd(r: Route)
    requires IsRoute(r)
    ensures And(r.dst, UINT32 - Span(r.len)) == Masked(r)
  {
    var n := 32;
    Pow2Values();
    MaskHighBits(r.dst, n - r.len, n);
  }

  lemma {:induction false} MaskHighBits(x: nat, k: nat, n: nat)
    requires k <= n && x < Pow2(n)
    ensures Pow2(k) <= Pow2(n) && And(x, Pow2(n) - Pow2(k)) == x - x % Pow2(k)
  {
    if k == 0 {
      MaskLowBits(x, n);
      MaskWhole(x, Pow2(n));
    } else {
      var p, q := Pow2(n - 1), Pow2(k - 1);
      MaskHighBits(x / 2, k - 1, n - 1);
      RemainderByBits(x, q);
      assert (2 * p - 2 * q) / 2 == p - q && (2 * p - 2 * q) % 2 == 0;
    }
  }

  lemma MaskWhole(x: nat, p: nat)
    requires x < p
    ensures x % p == x
  {
    RemainderUnique(x, p, 0, x);
  }

  /** A route covers the addresses from its masked address up. */
  lemma CoversIsRange(r: Route, a: nat)
    requires r.len <= 32
    ensures Masked(r) % Span(r.len) == 0
    ensures Covers(r, a) <==> Masked(r) <= a < Masked(r) + Span(r.len)
  {
    var p, d := Span(r.len), Masked(r);
    var t, u := r.dst / p, a / p;
    assert r.dst == p * t + r.dst % p && a == p * u + a % p;
    assert d == p * t;
    if t < u {
      ProductMonotone(t + 1, u, p);
    } else if u < t {
      ProductMonotone(u + 1, t, p);
    }
    RemainderUnique(d, p, t, 0);
  }
}
