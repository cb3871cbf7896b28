/** Unpadded base64url (RFC 4648, sections 3.5 and 5) and URI percent-escapes. */
module Base64Url {
  import opened Wrappers

  /** `n` consecutive characters from `first`. */
  function Run(first: char, n: nat): (s: string)
    requires first as int + n <= 128
    ensures |s| == n && forall i :: 0 <= i < n ==> s[i] as int == first as int + i
  {
    seq(n, i requires 0 <= i < n => (first as int + i) as char)
  }

  /** The alphabet: A to Z, a to z, 0 to 9, minus and underscore. */
  const TABLE: string := Run('A', 26) + Run('a', 26) + Run('0', 10) + "-_"

  type Sextet = bv6

  /** The alphabet character for a sextet. */
  function CharOf(v: Sextet): char {
    TABLE[v as int]
  }

  /** Position of `c` in the first `n` characters of the alphabet. */
  function PositionBelow(c: char, n: nat): (r: Option<nat>)
    requires n <= |TABLE|
    ensures r.Some? ==> r.value < n && TABLE[r.value] == c
    ensures r.None? ==> forall i :: 0 <= i < n ==> TABLE[i] != c
  {
    if n == 0 then None
    else if TABLE[n - 1] == c then Some(n - 1)
    else PositionBelow(c, n - 1)
  }

  /** The sextet a character stands for. */
  function SextetOf(c: char): (r: Option<Sextet>)
    ensures r.Some? ==> CharOf(r.value) == c
    ensures r.None? ==> forall i :: 0 <= i < |TABLE| ==> TABLE[i] != c
  {
    var p := PositionBelow(c, |TABLE|);
    if p.Some? then Some(ToSextet(p.value)) else None
  }

  function ToSextet(i: nat): (v: Sextet)
    requires i < 64
    ensures v as int == i
  {
    i as bv6
  }

  /** The alphabet has no repeated character. */
  lemma CharOfInjective(v: Sextet, w: Sextet)
    requires CharOf(v) == CharOf(w)
    ensures v == w
  {
    AlphabetPosition(v as int);
    AlphabetPosition(w as int);
  }

  /** Where a character of the alphabet stands. */
  function Rank(c: char): int {
    if 'A' <= c <= 'Z' then c as int - 'A' as int
    else if 'a' <= c <= 'z' then c as int - 'a' as int + 26
    else if '0' <= c <= '9' then c as int - '0' as int + 52
    else if c == '-' then 62
    else 63
  }

  lemma AlphabetPosition(i: nat)
    requires i < |TABLE|
    ensures Rank(TABLE[i]) == i
  {
  }

  // ---------------------------------------------------------------------------
  // The encoding: 24-bit groups read as four sextets, the last group cut short
  // ---------------------------------------------------------------------------

  /** Three octets as one 24-bit group. */
  function GroupOf(b0: bv8, b1: bv8, b2: bv8): bv24 {
    (b0 as bv24 << 16) | (b1 as bv24 << 8) | b2 as bv24
  }

  /** The four sextets of a group, from the left. */
  function SextetsOf(g: bv24): (r: seq<Sextet>)
    ensures |r| == 4
  {
    [((g >> 18) & 0x3F) as bv6, ((g >> 12) & 0x3F) as bv6, ((g >> 6) & 0x3F) as bv6, (g & 0x3F) as bv6]
  }

  /** Sextets of the unpadded encoding: missing octets count as zero, and sextets made of them alone are dropped. */
  function EncodeSextets(b: seq<bv8>): (r: seq<Sextet>)
  {
    if |b| == 0 then []
    else if |b| == 1 then SextetsOf(GroupOf(b[0], 0, 0))[..2]
    else if |b| == 2 then SextetsOf(GroupOf(b[0], b[1], 0))[..3]
    else SextetsOf(GroupOf(b[0], b[1], b[2])) + EncodeSextets(b[3..])
  }

  function Text(vs: seq<Sextet>): (s: string)
    ensures |s| == |vs|
    ensures forall i :: 0 <= i < |vs| ==> s[i] == CharOf(vs[i])
  {
    seq(|vs|, i requires 0 <= i < |vs| => CharOf(vs[i]))
  }

  function Encode(b: seq<bv8>): string {
    Text(EncodeSextets(b))
  }

  // ---------------------------------------------------------------------------
  // The octets that sextets carry
  // ---------------------------------------------------------------------------

  function High(u: Sextet, v: Sextet): bv8 {
    (u as bv8 << 2) | (v as bv8 >> 4)
  }

  function Middle(u: Sextet, v: Sextet): bv8 {
    (u as bv8 << 4) | (v as bv8 >> 2)
  }

  function Low(u: Sextet, v: Sextet): bv8 {
    (u as bv8 << 6) | v as bv8
  }

  /** The whole octets in a run of sextets. */
  function Octets(vs: seq<Sextet>): seq<bv8> {
    if |vs| <= 1 then []
    else if |vs| == 2 then [High(vs[0], vs[1])]
    else if |vs| == 3 then [High(vs[0], vs[1]), Middle(vs[1], vs[2])]
    else [High(vs[0], vs[1]), Middle(vs[1], vs[2]), Low(vs[2], vs[3])] + Octets(vs[4..])
  }

  /** The bits left over after the last whole octet are zero. */
  predicate LeftoverZero(vs: seq<Sextet>) {
    match |vs| % 4
    case 2 => vs[|vs| - 1] & 0xF == 0
    case 3 => vs[|vs| - 1] & 0x3 == 0
    case _ => true
  }

  lemma OctetsGroup(v0: Sextet, v1: Sextet, v2: Sextet, v3: Sextet, rest: seq<Sextet>)
    ensures Octets([v0, v1, v2, v3] + rest) == [High(v0, v1), Middle(v1, v2), Low(v2, v3)] + Octets(rest)
  {
    hide High, Middle, Low;
    assert ([v0, v1, v2, v3] + rest)[4..] == rest;
  }

  lemma GroupRoundTrip(b0: bv8, b1: bv8, b2: bv8)
    ensures var vs := SextetsOf(GroupOf(b0, b1, b2));
            High(vs[0], vs[1]) == b0 && Middle(vs[1], vs[2]) == b1 && Low(vs[2], vs[3]) == b2
  {
  }

  lemma SextetsRoundTrip(v0: Sextet, v1: Sextet, v2: Sextet, v3: Sextet)
    ensures SextetsOf(GroupOf(High(v0, v1), Middle(v1, v2), Low(v2, v3))) == [v0, v1, v2, v3]
  {
  }

  lemma ShortGroups(b0: bv8, b1: bv8)
    ensures SextetsOf(GroupOf(b0, 0, 0))[1] & 0xF == 0
    ensures SextetsOf(GroupOf(b0, b1, 0))[2] & 0x3 == 0
  {
  }

  lemma OneOctet(v0: Sextet, v1: Sextet)
    requires v1 & 0xF == 0
    ensures SextetsOf(GroupOf(High(v0, v1), 0, 0))[..2] == [v0, v1]
  {
  }

  lemma TwoOctets(v0: Sextet, v1: Sextet, v2: Sextet)
    requires v2 & 0x3 == 0
    ensures SextetsOf(GroupOf(High(v0, v1), Middle(v1, v2), 0))[..3] == [v0, v1, v2]
  {
  }

  lemma LeftoverOfRest(head: seq<Sextet>, rest: seq<Sextet>)
    requires |head| == 4 && LeftoverZero(rest)
    ensures LeftoverZero(head + rest) && |head + rest| % 4 == |rest| % 4
  {
  }

  /** An encoding of at least three octets starts with the group of the first three. */
  lemma EncodeGroup(b: seq<bv8>)
    requires |b| >= 3
    ensures EncodeSextets(b) == SextetsOf(GroupOf(b[0], b[1], b[2])) + EncodeSextets(b[3..])
  {
    hide SextetsOf, GroupOf;
  }

  lemma OctetsOfFew(b: seq<bv8>)
    requires |b| < 3
    ensures var vs := EncodeSextets(b);
            Octets(vs) == b && LeftoverZero(vs) && |vs| % 4 != 1 && (b != [] ==> vs != [])
  {
    hide SextetsOf, GroupOf, High, Middle, Low;
    if |b| == 1 {
      GroupRoundTrip(b[0], 0, 0);
      ShortGroups(b[0], 0);
    } else if |b| == 2 {
      GroupRoundTrip(b[0], b[1], 0);
      ShortGroups(b[0], b[1]);
    }
  }

  /** The octets of an encoding are the encoded octets, with nothing but zero bits left over. */
  lemma {:induction false} OctetsOfEncoding(b: seq<bv8>)
    ensures Octets(EncodeSextets(b)) == b
    ensures LeftoverZero(EncodeSextets(b))
    ensures |EncodeSextets(b)| % 4 != 1
    ensures b != [] ==> EncodeSextets(b) != []
  {
    hide SextetsOf, GroupOf, High, Middle, Low, EncodeSextets, Octets, LeftoverZero;
    if |b| < 3 {
      OctetsOfFew(b);
    } else {
      var head, rest := SextetsOf(GroupOf(b[0], b[1], b[2])), EncodeSextets(b[3..]);
      EncodeGroup(b);
      GroupRoundTrip(b[0], b[1], b[2]);
      OctetsOfEncoding(b[3..]);
      assert head == [head[0], head[1], head[2], head[3]];
      OctetsGroup(head[0], head[1], head[2], head[3], rest);
      LeftoverOfRest(head, rest);
      assert b == [b[0], b[1], b[2]] + b[3..];
    }
  }

  lemma EncodingOfFew(vs: seq<Sextet>)
    requires LeftoverZero(vs) && |vs| % 4 != 1 && |vs| < 4
    ensures EncodeSextets(Octets(vs)) == vs
  {
    hide SextetsOf, GroupOf, High, Middle, Low;
    if |vs| == 2 {
      OneOctet(vs[0], vs[1]);
    } else if |vs| == 3 {
      TwoOctets(vs[0], vs[1], vs[2]);
    }
  }

  lemma RestOfLeftover(vs: seq<Sextet>)
    requires |vs| >= 4 && LeftoverZero(vs)
    ensures LeftoverZero(vs[4..]) && |vs[4..]| % 4 == |vs| % 4
  {
  }

  /** Sextets without left-over bits are the encoding of their octets. */
  lemma {:induction false} EncodingOfOctets(vs: seq<Sextet>)
    requires LeftoverZero(vs) && |vs| % 4 != 1
    ensures EncodeSextets(Octets(vs)) == vs
  {
    hide SextetsOf, GroupOf, High, Middle, Low, EncodeSextets, Octets, LeftoverZero;
    if |vs| < 4 {
      EncodingOfFew(vs);
    } else {
      RestOfLeftover(vs);
      EncodingOfOctets(vs[4..]);
      SextetsRoundTrip(vs[0], vs[1], vs[2], vs[3]);
      assert vs == [vs[0], vs[1], vs[2], vs[3]] + vs[4..];
      OctetsGroup(vs[0], vs[1], vs[2], vs[3], vs[4..]);
      var b := Octets(vs);
      assert b[3..] == Octets(vs[4..]);
      EncodeGroup(b);
    }
  }

  lemma FewOctets(vs: seq<Sextet>)
    requires |vs| <= 4
    ensures |vs| <= 1 ==> Octets(vs) == []
    ensures |vs| == 2 ==> Octets(vs) == [High(vs[0], vs[1])]
    ensures |vs| == 3 ==> Octets(vs) == [High(vs[0], vs[1]), Middle(vs[1], vs[2])]
    ensures |vs| == 4 ==> Octets(vs) == [High(vs[0], vs[1]), Middle(vs[1], vs[2]), Low(vs[2], vs[3])]
  {
    hide High, Middle, Low;
    if |vs| == 4 {
      assert vs[4..] == [];
      NoOctets();
    }
  }

  /** What one more sextet adds: it completes an octet unless it opens a group. */
  function Added(vs: seq<Sextet>, v: Sextet): seq<bv8> {
    match |vs| % 4
    case 0 => []
    case 1 => [High(vs[|vs| - 1], v)]
    case 2 => [Middle(vs[|vs| - 1], v)]
    case _ => [Low(vs[|vs| - 1], v)]
  }

  predicate Completes(vs: seq<Sextet>, v: Sextet) {
    Octets(vs + [v]) == Octets(vs) + Added(vs, v)
  }

  lemma FewOctetsStep(vs: seq<Sextet>, v: Sextet)
    requires |vs| < 4
    ensures Completes(vs, v)
  {
    hide High, Middle, Low, Octets;
    FewOctets(vs);
    FewOctets(vs + [v]);
  }

  lemma {:induction false} OctetsStep(vs: seq<Sextet>, v: Sextet)
    ensures Completes(vs, v)
  {
    hide High, Middle, Low, Octets, Completes;
    if |vs| >= 4 {
      OctetsStep(vs[4..], v);
      LaterCompletes(vs, v);
    } else {
      FewOctetsStep(vs, v);
    }
  }

  lemma AddedLater(vs: seq<Sextet>, v: Sextet)
    requires |vs| >= 4
    ensures Added(vs[4..], v) == Added(vs, v)
  {
    hide High, Middle, Low;
    assert |vs[4..]| % 4 == |vs| % 4;
    assert vs[4..] != [] ==> vs[4..][|vs[4..]| - 1] == vs[|vs| - 1];
  }

  lemma LaterCompletes(vs: seq<Sextet>, v: Sextet)
    requires |vs| >= 4 && Completes(vs[4..], v)
    ensures Completes(vs, v)
  {
    hide High, Middle, Low, Octets, Added;
    var rest, head := vs[4..], [High(vs[0], vs[1]), Middle(vs[1], vs[2]), Low(vs[2], vs[3])];
    AddedLater(vs, v);
    OctetsOfGroup(vs);
    OctetsOfGroup(vs + [v]);
    assert (vs + [v])[4..] == rest + [v];
    assert head + (Octets(rest) + Added(vs, v)) == (head + Octets(rest)) + Added(vs, v);
  }

  lemma OctetsOfGroup(vs: seq<Sextet>)
    requires |vs| >= 4
    ensures Octets(vs) == [High(vs[0], vs[1]), Middle(vs[1], vs[2]), Low(vs[2], vs[3])] + Octets(vs[4..])
  {
    hide High, Middle, Low;
  }

  // ---------------------------------------------------------------------------
  // The decoder: an accumulator that is shifted and never masked
  // ---------------------------------------------------------------------------

  /** The low six bits of the accumulator are the last sextet, whatever the bits above them. */
  predicate EndsIn(bits: bv32, v: Sextet) {
    bits & 0x3F == v as bv32
  }

  function Shift(bits: bv32, v: Sextet): bv32 {
    (bits << 6) | v as bv32
  }

  /** Conversion to eight bits drops the higher ones. */
  function Truncate(bits: bv32): bv8 {
    (bits & 0xFF) as bv8
  }

  /** The octet in front of the lowest `held` bits. */
  function OctetAbove(bits: bv32, held: bv32): bv8
    requires held <= 32
  {
    Truncate(bits >> held)
  }

  lemma ShiftEndsIn(bits: bv32, v: Sextet)
    ensures EndsIn(Shift(bits, v), v)
  {
  }

  lemma ShiftedOctets(bits: bv32, u: Sextet, v: Sextet)
    requires EndsIn(bits, u)
    ensures OctetAbove(Shift(bits, v), 4) == High(u, v)
    ensures OctetAbove(Shift(bits, v), 2) == Middle(u, v)
    ensures OctetAbove(Shift(bits, v), 0) == Low(u, v)
  {
  }

  lemma LeftoverBits(bits: bv32, v: Sextet)
    requires EndsIn(bits, v)
    ensures bits & ((1 << 4) - 1) == 0 <==> v & 0xF == 0
    ensures bits & ((1 << 2) - 1) == 0 <==> v & 0x3 == 0
  {
  }

  /** Bits held back after `n` sextets. */
  function PendingBits(n: nat): (bits: bv32)
    ensures bits <= 6
  {
    match n % 4
    case 0 => 0
    case 1 => 6
    case 2 => 4
    case _ => 2
  }

  predicate LowBitsZero(bits: bv32, held: bv32)
    requires held <= 32
  {
    bits & ((1 << held) - 1) == 0
  }

  /** What shifting in sextet `i` does: the accumulator ends in it, and once eight bits are held the
      highest of them are the next octet. */
  lemma DecodeStep(vs: seq<Sextet>, i: nat, bits: bv32)
    requires i < |vs| && (i > 0 ==> EndsIn(bits, vs[i - 1]))
    ensures var held, shifted := PendingBits(i) + 6, Shift(bits, vs[i]);
            && EndsIn(shifted, vs[i])
            && (held < 8 ==> PendingBits(i + 1) == held && Octets(vs[..i + 1]) == Octets(vs[..i]))
            && (held >= 8 ==> PendingBits(i + 1) == held - 8
                              && Octets(vs[..i + 1]) == Octets(vs[..i]) + [OctetAbove(shifted, held - 8)])
  {
    hide High, Middle, Low, Shift, OctetAbove, EndsIn, Octets, PendingBits;
    ShiftEndsIn(bits, vs[i]);
    OctetsStep(vs[..i], vs[i]);
    assert vs[..i] + [vs[i]] == vs[..i + 1];
    if i % 4 != 0 {
      ShiftedOctets(bits, vs[i - 1], vs[i]);
      assert vs[..i][i - 1] == vs[i - 1];
    }
    NextPending(i);
  }

  lemma NextPending(i: nat)
    ensures PendingBits(i + 1) == if i % 4 == 0 then 6 else if i % 4 == 1 then 4 else if i % 4 == 2 then 2 else 0
    ensures PendingBits(i) == if i % 4 == 0 then 0 else if i % 4 == 1 then 6 else if i % 4 == 2 then 4 else 2
  {
  }

  /** The bits still held are zero exactly when the sextets leave nothing over. */
  lemma LeftoverExactly(vs: seq<Sextet>, bits: bv32)
    requires |vs| % 4 != 1 && (vs != [] ==> EndsIn(bits, vs[|vs| - 1]))
    ensures var held := PendingBits(|vs|);
            held < 8 && (LeftoverZero(vs) <==> held == 0 || LowBitsZero(bits, held))
  {
    if vs != [] {
      LeftoverBits(bits, vs[|vs| - 1]);
    }
  }

  method DecodeSextets(vs: seq<Sextet>) returns (r: Option<seq<bv8>>)
    requires |vs| % 4 != 1
    ensures r == if LeftoverZero(vs) then Some(Octets(vs)) else None
  {
    hide High, Middle, Low, Shift, Truncate, EndsIn, Octets, PendingBits, LeftoverZero, OctetAbove, LowBitsZero;
    var bits: bv32, nbits: bv32 := 0, 0;
    var out: seq<bv8> := [];
    NoOctets();
    NextPending(0);
    for i := 0 to |vs|
      invariant nbits == PendingBits(i)
      invariant out == Octets(vs[..i])
      invariant i > 0 ==> EndsIn(bits, vs[i - 1])
    {
      DecodeStep(vs, i, bits);
      bits := Shift(bits, vs[i]);
      nbits := nbits + 6;
      if nbits >= 8 {
        nbits := nbits - 8;
        out := out + [OctetAbove(bits, nbits)];
      }
    }
    assert vs[..|vs|] == vs;
    LeftoverExactly(vs, bits);
    if nbits > 0 && !LowBitsZero(bits, nbits) {
      return None;
    }
    r := Some(out);
  }

  lemma NoOctets()
    ensures Octets([]) == []
  {
  }

  /** Decodes exactly the canonical encodings of non-empty octet strings. */
  method DecodeBase64Url(s: string) returns (r: Option<seq<bv8>>)
    ensures r.Some? ==> s == Encode(r.value) && r.value != []
    ensures r.None? ==> forall b :: b != [] ==> s != Encode(b)
  {
    hide EncodeSextets, Octets, LeftoverZero;
    if s == "" || |s| % 4 == 1 {
      forall b | b != [] ensures s != Encode(b) {
        OctetsOfEncoding(b);
      }
      return None;
    }
    var vs: seq<Sextet> := [];
    for i := 0 to |s|
      invariant |vs| == i && forall k :: 0 <= k < i ==> CharOf(vs[k]) == s[k]
    {
      var v := SextetOf(s[i]);
      if v.None? {
        forall b ensures s != Encode(b) {
          if |EncodeSextets(b)| == |s| {
            assert Encode(b)[i] == CharOf(EncodeSextets(b)[i]) == TABLE[EncodeSextets(b)[i] as int];
          }
        }
        return None;
      }
      vs := vs + [v.value];
    }
    assert s == Text(vs);
    forall b | s == Encode(b) ensures EncodeSextets(b) == vs && LeftoverZero(vs) {
      TextInjective(EncodeSextets(b), vs);
      OctetsOfEncoding(b);
    }
    r := DecodeSextets(vs);
    if r.Some? {
      EncodingOfOctets(vs);
      OctetsOfShort(vs);
    }
  }

  lemma OctetsOfShort(vs: seq<Sextet>)
    requires vs != [] && |vs| % 4 != 1
    ensures Octets(vs) != []
  {
  }

  lemma TextInjective(vs: seq<Sextet>, ws: seq<Sextet>)
    requires Text(vs) == Text(ws)
    ensures vs == ws
  {
    hide CharOf;
    assert |vs| == |Text(vs)| == |ws|;
    forall i | 0 <= i < |vs| ensures vs[i] == ws[i] {
      assert Text(vs)[i] == Text(ws)[i];
      CharOfInjective(vs[i], ws[i]);
    }
  }

  /** Different octet strings have different encodings, so the decoder has one possible answer. */
  lemma EncodeInjective(b: seq<bv8>, d: seq<bv8>)
    requires Encode(b) == Encode(d)
    ensures b == d
  {
    TextInjective(EncodeSextets(b), EncodeSextets(d));
    OctetsOfEncoding(b);
    OctetsOfEncoding(d);
  }
}
