/** IP and socket addresses in their standard order; sorting and removing repeats. */
module Addresses {

  /** Addresses by their numeric value, of 32 and 128 bits. */
  datatype IpAddr = V4(value: nat) | V6(value: nat)

  datatype SocketAddr = SocketAddr(ip: IpAddr, port: nat)

  /** IPv4 before IPv6, then by value. */
  predicate IpLess(a: IpAddr, b: IpAddr) {
    match (a, b)
    case (V4(x), V4(y)) => x < y
    case (V6(x), V6(y)) => x < y
    case (V4(_), V6(_)) => true
    case (V6(_), V4(_)) => false
  }

  predicate Less(a: SocketAddr, b: SocketAddr) {
    IpLess(a.ip, b.ip) || (a.ip == b.ip && a.port < b.port)
  }

  /** An address as one number: family first, then value, then port. */
  function Code(a: SocketAddr): nat {
    (if a.ip.V6? then 0x1_0000_0000_0000_0000_0000_0000_0000_0000 * 0x1_0000 else 0)
    + a.ip.value * 0x1_0000 + a.port
  }

  lemma LessIsByCode(a: SocketAddr, b: SocketAddr)
    requires a.port < 0x1_0000 && b.port < 0x1_0000
    requires a.ip.value < 0x1_0000_0000_0000_0000_0000_0000_0000_0000
    requires b.ip.value < 0x1_0000_0000_0000_0000_0000_0000_0000_0000
    ensures Less(a, b) <==> Code(a) < Code(b)
  {
  }

  lemma IpLessIsStrictOrder(a: IpAddr, b: IpAddr, c: IpAddr)
    ensures !IpLess(a, a)
    ensures IpLess(a, b) && IpLess(b, c) ==> IpLess(a, c)
    ensures IpLess(a, b) || a == b || IpLess(b, a)
  {
  }

  lemma LessIsStrictOrder(a: SocketAddr, b: SocketAddr, c: SocketAddr)
    ensures !Less(a, a)
    ensures Less(a, b) && Less(b, c) ==> Less(a, c)
    ensures Less(a, b) || a == b || Less(b, a)
  {
    hide IpLess;
    IpLessIsStrictOrder(a.ip, b.ip, c.ip);
    IpLessIsStrictOrder(b.ip, c.ip, a.ip);
  }

  /** `x` put in its place among the increasing `s`. */
  function InsertSorted(s: seq<SocketAddr>, x: SocketAddr): seq<SocketAddr> {
    if s == [] || !Less(s[0], x) then [x] + s else [s[0]] + InsertSorted(s[1..], x)
  }

  function SortAddrs(s: seq<SocketAddr>): seq<SocketAddr> {
    if s == [] then [] else InsertSorted(SortAddrs(s[1..]), s[0])
  }

  /** Keeps the first of each run of equal neighbours. */
  function Dedup(s: seq<SocketAddr>): (r: seq<SocketAddr>)
    ensures s != [] ==> r != [] && r[0] == s[0]
  {
    if |s| <= 1 then s
    else if s[0] == s[1] then Dedup(s[1..])
    else [s[0]] + Dedup(s[1..])
  }

  ghost predicate Ascending(s: seq<SocketAddr>) {
    forall i, j :: 0 <= i < j < |s| ==> !Less(s[j], s[i])
  }

  ghost predicate StrictlyAscending(s: seq<SocketAddr>) {
    forall i, j :: 0 <= i < j < |s| ==> Less(s[i], s[j])
  }

  lemma NotBelow(x: SocketAddr, first: SocketAddr, y: SocketAddr)
    requires !Less(first, x) && !Less(y, first)
    ensures !Less(y, x)
  {
    hide Less;
    LessIsStrictOrder(y, x, first);
    LessIsStrictOrder(y, first, x);
    LessIsStrictOrder(x, first, y);
    LessIsStrictOrder(first, y, x);
  }

  lemma {:induction false} InsertSortedAdds(s: seq<SocketAddr>, x: SocketAddr)
    ensures multiset(InsertSorted(s, x)) == multiset(s) + multiset{x}
  {
    hide Less;
    if s != [] {
      assert s == [s[0]] + s[1..];
      if Less(s[0], x) {
        InsertSortedAdds(s[1..], x);
      }
    }
  }

  lemma {:induction false} InsertSortedAscends(s: seq<SocketAddr>, x: SocketAddr)
    requires Ascending(s)
    ensures Ascending(InsertSorted(s, x))
  {
    hide Less;
    if s != [] {
      if Less(s[0], x) {
        InsertSortedAscends(s[1..], x);
        var rest := InsertSorted(s[1..], x);
        forall j | 0 <= j < |rest| ensures !Less(rest[j], s[0]) {
          InsertSortedMembers(s[1..], x, j);
          LessIsStrictOrder(s[0], x, s[0]);
        }
      } else {
        LessIsStrictOrder(s[0], s[0], s[0]);
        forall j | 0 <= j < |s| ensures !Less(s[j], x) {
          NotBelow(x, s[0], s[j]);
        }
      }
    }
  }

  lemma InsertSortedMembers(s: seq<SocketAddr>, x: SocketAddr, j: nat)
    requires j < |InsertSorted(s, x)|
    ensures InsertSorted(s, x)[j] == x || InsertSorted(s, x)[j] in s
  {
    hide InsertSorted;
    InsertSortedAdds(s, x);
    assert InsertSorted(s, x)[j] in multiset(InsertSorted(s, x));
  }

  lemma {:induction false} SortAddrsSorts(s: seq<SocketAddr>)
    ensures Ascending(SortAddrs(s)) && multiset(SortAddrs(s)) == multiset(s)
  {
    if s != [] {
      SortAddrsSorts(s[1..]);
      InsertSortedAscends(SortAddrs(s[1..]), s[0]);
      InsertSortedAdds(SortAddrs(s[1..]), s[0]);
      hide Ascending, InsertSorted;
      assert s == [s[0]] + s[1..];
    }
  }

  lemma {:induction false} DedupOfAscending(s: seq<SocketAddr>)
    requires Ascending(s)
    ensures StrictlyAscending(Dedup(s))
    ensures forall x :: x in Dedup(s) <==> x in s
  {
    hide Less;
    if |s| > 1 {
      DedupOfAscending(s[1..]);
      assert s == [s[0]] + s[1..];
      if s[0] != s[1] {
        var rest := Dedup(s[1..]);
        forall j | 0 <= j < |rest| ensures Less(s[0], rest[j]) {
          assert rest[0] == s[1];
          LessIsStrictOrder(s[0], s[1], s[0]);
          if j > 0 {
            LessIsStrictOrder(s[0], s[1], rest[j]);
          }
        }
      }
    }
  }

  /** A set of addresses has one strictly ascending listing. */
  lemma {:induction false} AscendingListingIsUnique(s: seq<SocketAddr>, t: seq<SocketAddr>)
    requires StrictlyAscending(s) && StrictlyAscending(t)
    requires forall x :: x in s <==> x in t
    ensures s == t
  {
    assert (t == [] <==> s == []) by {
      assert t != [] ==> t[0] in t;
      assert s != [] ==> s[0] in s;
    }
    if s != [] {
      assert s[0] in s && t[0] in t;
      SameFirst(s, t);
      assert s == [s[0]] + s[1..] && t == [t[0]] + t[1..];
      forall x ensures x in s[1..] <==> x in t[1..] {
        FirstOccursOnce(s, x);
        FirstOccursOnce(t, x);
      }
      AscendingListingIsUnique(s[1..], t[1..]);
    }
  }

  lemma SameFirst(s: seq<SocketAddr>, t: seq<SocketAddr>)
    requires StrictlyAscending(s) && StrictlyAscending(t) && s != [] && t != []
    requires s[0] in t && t[0] in s
    ensures s[0] == t[0]
  {
    var i :| 0 <= i < |t| && t[i] == s[0];
    var j :| 0 <= j < |s| && s[j] == t[0];
    LessIsStrictOrder(s[0], t[0], s[0]);
  }

  lemma FirstOccursOnce(s: seq<SocketAddr>, x: SocketAddr)
    requires StrictlyAscending(s) && s != []
    ensures x in s[1..] <==> x in s && x != s[0]
  {
    LessIsStrictOrder(x, x, x);
    assert s == [s[0]] + s[1..];
  }

  /** The address list a pool keeps. */
  function PoolAddresses(addresses: seq<SocketAddr>): seq<SocketAddr> {
    Dedup(SortAddrs(addresses))
  }

  /** It is strictly ascending and holds the same addresses. */
  lemma PoolAddressesMeaning(addresses: seq<SocketAddr>)
    ensures StrictlyAscending(PoolAddresses(addresses))
    ensures forall x :: x in PoolAddresses(addresses) <==> x in addresses
  {
    SortAddrsSorts(addresses);
    DedupOfAscending(SortAddrs(addresses));
    forall x ensures x in PoolAddresses(addresses) <==> x in addresses {
      assert x in SortAddrs(addresses) <==> x in multiset(addresses);
    }
  }

  /** The order in which addresses are handed to a pool, and repeats among them, make no difference. */
  lemma OrderDoesNotMatter(a: seq<SocketAddr>, b: seq<SocketAddr>)
    requires forall x :: x in a <==> x in b
    ensures PoolAddresses(a) == PoolAddresses(b)
  {
    PoolAddressesMeaning(a);
    PoolAddressesMeaning(b);
    AscendingListingIsUnique(PoolAddresses(a), PoolAddresses(b));
  }
}
