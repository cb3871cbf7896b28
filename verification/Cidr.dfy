/** Address ranges by prefix length. */
module Cidr {
  import opened Addresses
  import opened Bits
  import opened Arithmetic

  const V4_BITS: nat := 32
  const V6_BITS: nat := 128

  datatype Cidr = C4(net: nat, prefix: nat) | C6(net: nat, prefix: nat)
  {
    function Width(): nat {
      if C4? then V4_BITS else V6_BITS
    }

    /** What parsing guarantees: a number of the right width and a prefix no longer than it. */
    predicate Valid() {
      net < Pow2(Width()) && prefix <= Width()
    }

    /** Prefix 0 has an empty mask; a shift by the full width is not possible. */
    function Mask(): nat
      requires Valid()
    {
      if prefix == 0 then 0 else ShiftLeft(Width(), Pow2(Width()) - 1, Width() - prefix)
    }

    predicate SameFamily(ip: IpAddr) {
      C4? <==> ip.V4?
    }

    predicate Contains(ip: IpAddr)
      requires Valid()
    {
      SameFamily(ip) && And(ip.value, Mask()) == And(net, Mask())
    }
  }

  /** An address of either family within its width. */
  predicate ValidIp(ip: IpAddr) {
    ip.value < Pow2(if ip.V4? then V4_BITS else V6_BITS)
  }

  lemma MaskMeaning(c: Cidr, x: nat)
    requires c.Valid() && x < Pow2(c.Width())
    ensures And(x, c.Mask()) == x - x % Pow2(c.Width() - c.prefix)
  {
    hide Pow2, ShiftLeft;
    var w, k := c.Width(), c.Width() - c.prefix;
    if c.prefix == 0 {
      DivModIs(x, Pow2(w), 0, x);
      AndZero(x);
    } else {
      ShiftedOnes(w, k);
      AndMask(x, k, c.prefix);
    }
  }

  lemma AndZero(x: nat)
    ensures And(x, 0) == 0
  {
  }

  /** A range contains exactly the addresses of its family that agree with it on the top `prefix` bits,
      prefix 0 and full prefixes included. */
  lemma ContainsMeaning(c: Cidr, ip: IpAddr)
    requires c.Valid() && ValidIp(ip)
    ensures c.Contains(ip) <==>
            c.SameFamily(ip) && forall i :: c.Width() - c.prefix <= i < c.Width() ==> Bit(ip.value, i) == Bit(c.net, i)
  {
    hide Pow2, Cidr.Mask, Bit;
    if c.SameFamily(ip) {
      var k := c.Width() - c.prefix;
      MaskMeaning(c, ip.value);
      MaskMeaning(c, c.net);
      ClearedIsTop(ip.value, c.net, Pow2(k));
      TopIsBits(c.Width(), ip.value, c.net, k);
    }
  }

  /** Every address of `d` is one of `c`. */
  ghost predicate Within(d: Cidr, c: Cidr)
    requires c.Valid() && d.Valid()
  {
    forall ip :: ValidIp(ip) && d.Contains(ip) ==> c.Contains(ip)
  }

  ghost predicate Disjoint(c: Cidr, d: Cidr)
    requires c.Valid() && d.Valid()
  {
    forall ip :: ValidIp(ip) ==> !(c.Contains(ip) && d.Contains(ip))
  }

  /** Two ranges of one family are nested or have nothing in common. */
  lemma NestedOrDisjoint(c: Cidr, d: Cidr)
    requires c.Valid() && d.Valid() && c.C4? == d.C4?
    ensures Within(c, d) || Within(d, c) || Disjoint(c, d)
  {
    hide Pow2, Cidr.Contains, Bit, ValidIp;
    if !Disjoint(c, d) {
      var ip :| ValidIp(ip) && c.Contains(ip) && d.Contains(ip);
      if c.prefix <= d.prefix {
        SharedMeansWithin(c, d, ip);
      } else {
        SharedMeansWithin(d, c, ip);
      }
    }
  }

  lemma SharedMeansWithin(c: Cidr, d: Cidr, shared: IpAddr)
    requires c.Valid() && d.Valid() && c.C4? == d.C4? && c.prefix <= d.prefix
    requires ValidIp(shared) && c.Contains(shared) && d.Contains(shared)
    ensures Within(d, c)
  {
    hide Pow2, Cidr.Contains, Bit, ValidIp;
    ContainsMeaning(c, shared);
    ContainsMeaning(d, shared);
    forall ip | ValidIp(ip) && d.Contains(ip) ensures c.Contains(ip) {
      ContainsMeaning(d, ip);
      ContainsMeaning(c, ip);
    }
  }
}
