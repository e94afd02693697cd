/** The Base64 encoding the XML encoder writes inside `<data>`: the
    alphabet of section 4 of RFC 4648, groups of three bytes turned into
    four characters, and `=` padding for a final group of one or two bytes.

    The encoding is specified in two layers: `SextetsOf` gives the 6-bit
    values (with `Pad` standing for a padding position) and `Render` turns
    them into characters. */
module Base64 {
  import opened PlistValue
  import opened Sequences

  /** The sextet value that stands for a `=` padding character. */
  const Pad: nat := 64

  /** Character `k` of the encoder's 64-character lookup table. */
  function Base64Char(k: nat): char
    requires k < 64
  {
    if k < 26 then ('A' as int + k) as char
    else if k < 52 then ('a' as int + k - 26) as char
    else if k < 62 then ('0' as int + k - 52) as char
    else if k == 62 then '+'
    else '/'
  }

  /** The characters of the alphabet: upper-case and lower-case letters,
      digits, `+` and `/`. */
  predicate IsBase64Char(c: char)
  {
    ('A' <= c <= 'Z') || ('a' <= c <= 'z') || ('0' <= c <= '9') || c == '+' || c == '/'
  }

  /** The position of a character in the alphabet. */
  function SextetValue(c: char): nat
  {
    if 'A' <= c <= 'Z' then (c as int - 'A' as int) as nat
    else if 'a' <= c <= 'z' then (c as int - 'a' as int + 26) as nat
    else if '0' <= c <= '9' then (c as int - '0' as int + 52) as nat
    else if c == '+' then 62
    else 63
  }

  /** The character for a sextet value, `=` for `Pad`. */
  function Symbol(k: nat): char
  {
    if k < 64 then Base64Char(k) else '='
  }

  /** The sextet value a character stands for, `Pad` for `=`. */
  function Position(c: char): nat
  {
    if c == '=' then Pad else SextetValue(c)
  }

  /** Symbols are alphabet characters, except `Pad`, which is `=`, and each
      reads back as the value it was written for. */
  lemma SymbolRoundTrip(k: nat)
    requires k <= Pad
    ensures Position(Symbol(k)) == k
    ensures k < Pad ==> IsBase64Char(Symbol(k))
    ensures k == Pad <==> Symbol(k) == '='
  {
  }

  function Render(ks: seq<nat>): string
  {
    seq(|ks|, i requires 0 <= i < |ks| => Symbol(ks[i]))
  }

  function Positions(s: string): seq<nat>
  {
    seq(|s|, i requires 0 <= i < |s| => Position(s[i]))
  }

  // ---------------------------------------------------------------------
  // Specification.

  /** The four sextets of three bytes: their 24 bits, six at a time, most
      significant first. */
  function Sextets(b0: byte, b1: byte, b2: byte): seq<nat>
  {
    [b0 as nat / 4,
     (b0 as nat % 4) * 16 + b1 as nat / 16,
     (b1 as nat % 16) * 4 + b2 as nat / 64,
     b2 as nat % 64]
  }

  /** The sextets of the groups of three bytes, for a multiple of three
      bytes. */
  function GroupSextets(bs: seq<byte>): seq<nat>
  {
    if |bs| < 3 then []
    else
      var n := |bs|;
      GroupSextets(bs[..n - 3]) + Sextets(bs[n - 3], bs[n - 2], bs[n - 1])
  }

  /** A final group of one or two bytes: the bits it has, padded with zero
      bits to whole sextets, then padding up to four. */
  function TailSextets(bs: seq<byte>): seq<nat>
    requires |bs| < 3
  {
    if |bs| == 0 then []
    else if |bs| == 1 then
      [bs[0] as nat / 4, (bs[0] as nat % 4) * 16, Pad, Pad]
    else
      [bs[0] as nat / 4, (bs[0] as nat % 4) * 16 + bs[1] as nat / 16, (bs[1] as nat % 16) * 4, Pad]
  }

  function SextetsOf(bs: seq<byte>): seq<nat>
  {
    var whole := |bs| / 3 * 3;
    GroupSextets(bs[..whole]) + TailSextets(bs[whole..])
  }

  function Base64(bs: seq<byte>): string
  {
    Render(SextetsOf(bs))
  }

  /** The encoder computes the sextets of a byte `b` with masks and shifts;
      on the byte's bit pattern these are the divisions and remainders
      `Sextets` uses. */
  lemma MasksHigh(b: bv8)
    ensures ((b & 0xFC) >> 2) as nat == b as nat / 4
    ensures ((b & 0x03) << 4) as nat == b as nat % 4 * 16
    ensures ((b & 0xF0) >> 4) as nat == b as nat / 16
  {
    assert (b & 0xFC) >> 2 == b / 4 && (b & 0x03) << 4 == (b % 4) * 16 && (b & 0xF0) >> 4 == b / 16;
  }

  lemma MasksLow(b: bv8)
    ensures ((b & 0x0F) << 2) as nat == b as nat % 16 * 4
    ensures ((b & 0xC0) >> 6) as nat == b as nat / 64
    ensures (b & 0x3F) as nat == b as nat % 64
  {
    assert (b & 0x0F) << 2 == (b % 16) * 4 && (b & 0xC0) >> 6 == b / 64 && b & 0x3F == b % 64;
  }

  // ---------------------------------------------------------------------
  // Length and padding.

  /** `k` groups of three bytes give `4 * k` sextets. */
  lemma {:induction false} GroupSextetsLength(bs: seq<byte>, k: nat)
    requires |bs| == 3 * k
    ensures |GroupSextets(bs)| == 4 * k
  {
    if k > 0 {
      GroupSextetsLength(bs[..|bs| - 3], k - 1);
    }
  }

  /** Whole groups hold no padding. */
  lemma {:induction false} GroupSextetsRange(bs: seq<byte>)
    ensures forall i | 0 <= i < |GroupSextets(bs)| :: GroupSextets(bs)[i] < Pad
    decreases |bs|
  {
    if |bs| >= 3 {
      GroupSextetsRange(bs[..|bs| - 3]);
    }
  }

  /** A final group of one or two bytes takes four sextets, padded with
      `3 - c` padding entries. */
  lemma TailShape(rest: seq<byte>)
    requires |rest| < 3
    ensures var t := TailSextets(rest); var pad := (3 - |rest|) % 3;
      |t| == (if rest == [] then 0 else 4) &&
      (forall i | |t| - pad <= i < |t| :: t[i] == Pad) &&
      (forall i | 0 <= i < |t| - pad :: t[i] < Pad)
  {
  }

  /** The counting behind the layout: `n` bytes are `n / 3` whole groups
      and `n % 3` bytes more. */
  lemma GroupCount(n: nat)
    ensures n / 3 * 3 + n % 3 == n
    ensures (n + 2) / 3 == n / 3 + (if n % 3 == 0 then 0 else 1)
    ensures (3 - n % 3) % 3 == (if n % 3 == 0 then 0 else 3 - n % 3)
  {
  }

  /** The sextets of `n` bytes: `4 * ceil(n / 3)` of them, the last
      `(3 - n % 3) % 3` padding and the others alphabet positions. */
  lemma SextetsShape(bs: seq<byte>)
    ensures var ks := SextetsOf(bs); var pad := (3 - |bs| % 3) % 3;
      |ks| == 4 * ((|bs| + 2) / 3) &&
      (forall i | |ks| - pad <= i < |ks| :: ks[i] == Pad) &&
      (forall i | 0 <= i < |ks| - pad :: ks[i] < Pad)
  {
    var whole := |bs| / 3 * 3;
    GroupCount(|bs|);
    var g := GroupSextets(bs[..whole]);
    var t := TailSextets(bs[whole..]);
    GroupSextetsLength(bs[..whole], |bs| / 3);
    GroupSextetsRange(bs[..whole]);
    TailShape(bs[whole..]);
    var ks := g + t;
    forall i | 0 <= i < |ks|
      ensures i < |g| ==> ks[i] == g[i]
      ensures i >= |g| ==> ks[i] == t[i - |g|]
    {
    }
  }

  /** Every three bytes, or part of three, take four characters. */
  lemma Base64Length(bs: seq<byte>)
    ensures |Base64(bs)| == 4 * ((|bs| + 2) / 3)
  {
    SextetsShape(bs);
  }

  /** The text ends in `(3 - n % 3) % 3` characters `=`, and every character
      before them is from the alphabet. */
  lemma Base64Padding(bs: seq<byte>)
    ensures var s := Base64(bs); var pad := (3 - |bs| % 3) % 3;
      pad <= |s| &&
      (forall i | |s| - pad <= i < |s| :: s[i] == '=') &&
      (forall i | 0 <= i < |s| - pad :: IsBase64Char(s[i]))
  {
    SextetsShape(bs);
    var ks := SextetsOf(bs);
    forall i | 0 <= i < |ks|
      ensures Symbol(ks[i]) == '=' <==> ks[i] == Pad
      ensures ks[i] < Pad ==> IsBase64Char(Symbol(ks[i]))
    {
      SymbolRoundTrip(ks[i]);
    }
  }

  // ---------------------------------------------------------------------
  // Decoding, as the inverse the encoding is written for.

  /** Three bytes back from four sextets, fewer when the group ends in
      padding. */
  function Recombine(k0: nat, k1: nat, k2: nat, k3: nat): seq<byte>
  {
    var b0 := ((k0 * 4 + k1 / 16) % 256) as byte;
    var b1 := ((k1 % 16 * 16 + k2 / 4) % 256) as byte;
    var b2 := ((k2 % 4 * 64 + k3) % 256) as byte;
    if k2 == Pad then [b0]
    else if k3 == Pad then [b0, b1]
    else [b0, b1, b2]
  }

  /** The bytes of groups of four sextets; a final incomplete group is
      ignored. */
  function DecodeSextets(ks: seq<nat>): seq<byte>
  {
    if |ks| < 4 then []
    else
      var n := |ks|;
      DecodeSextets(ks[..n - 4]) + Recombine(ks[n - 4], ks[n - 3], ks[n - 2], ks[n - 1])
  }

  function Decode(s: string): seq<byte>
  {
    DecodeSextets(Positions(s))
  }

  /** Reading the characters back gives the sextets they were written
      for. */
  lemma Unrender(ks: seq<nat>)
    requires forall i | 0 <= i < |ks| :: ks[i] <= Pad
    ensures Positions(Render(ks)) == ks
  {
    forall i | 0 <= i < |ks|
      ensures Positions(Render(ks))[i] == ks[i]
    {
      SymbolRoundTrip(ks[i]);
    }
  }

  /** Decoding after appending: the last group of four comes from `b`. */
  lemma DecodeLastOfAppend(a: seq<nat>, b: seq<nat>)
    requires |b| >= 4
    ensures var n := |b|;
      DecodeSextets(a + b) == DecodeSextets(a + b[..n - 4]) + Recombine(b[n - 4], b[n - 3], b[n - 2], b[n - 1])
  {
    var u := a + b;
    var n := |b|;
    assert u[..|u| - 4] == a + b[..n - 4];
    assert u[|u| - 4] == b[n - 4] && u[|u| - 3] == b[n - 3] && u[|u| - 2] == b[n - 2] && u[|u| - 1] == b[n - 1];
  }

  /** Decoding works group by group, so it distributes over appending whole
      groups. */
  lemma {:induction false} DecodeSextetsAppend(a: seq<nat>, b: seq<nat>, i: nat, j: nat)
    requires |a| == 4 * i && |b| == 4 * j
    ensures DecodeSextets(a + b) == DecodeSextets(a) + DecodeSextets(b)
  {
    if j > 0 {
      var n := |b|;
      var last := Recombine(b[n - 4], b[n - 3], b[n - 2], b[n - 1]);
      DecodeLastOfAppend(a, b);
      DecodeSextetsAppend(a, b[..n - 4], i, j - 1);
      AppendAssoc(DecodeSextets(a), DecodeSextets(b[..n - 4]), last);
    } else {
      assert a + b == a;
    }
  }

  /** The arithmetic of regrouping: each byte comes back from the sextets
      cut out of the 24 bits of three bytes. */
  lemma RegroupFirst(x0: nat, x1: nat)
    requires x0 < 256 && x1 < 256
    ensures var s1 := (x0 % 4) * 16 + x1 / 16; (x0 / 4 * 4 + s1 / 16) % 256 == x0
  {
    var s1 := (x0 % 4) * 16 + x1 / 16;
    assert s1 / 16 == x0 % 4;
  }

  lemma RegroupSecond(x0: nat, x1: nat, x2: nat)
    requires x0 < 256 && x1 < 256 && x2 < 256
    ensures var s1, s2 := (x0 % 4) * 16 + x1 / 16, (x1 % 16) * 4 + x2 / 64; (s1 % 16 * 16 + s2 / 4) % 256 == x1
  {
    var s1, s2 := (x0 % 4) * 16 + x1 / 16, (x1 % 16) * 4 + x2 / 64;
    assert s1 % 16 == x1 / 16;
    assert s2 / 4 == x1 % 16;
  }

  lemma RegroupThird(x1: nat, x2: nat)
    requires x1 < 256 && x2 < 256
    ensures var s2 := (x1 % 16) * 4 + x2 / 64; s2 < Pad && (s2 % 4 * 64 + x2 % 64) % 256 == x2
  {
    var s2 := (x1 % 16) * 4 + x2 / 64;
    assert s2 % 4 == x2 / 64;
  }

  /** Four sextets without padding give three bytes. */
  lemma RecombineWhole(k0: nat, k1: nat, k2: nat, k3: nat)
    requires k2 < Pad && k3 < Pad
    ensures Recombine(k0, k1, k2, k3) ==
      [((k0 * 4 + k1 / 16) % 256) as byte, ((k1 % 16 * 16 + k2 / 4) % 256) as byte, ((k2 % 4 * 64 + k3) % 256) as byte]
  {
  }

  /** The four sextets of three bytes give the bytes back. */
  lemma SextetsRecombine(b0: byte, b1: byte, b2: byte)
    ensures var ks := Sextets(b0, b1, b2); Recombine(ks[0], ks[1], ks[2], ks[3]) == [b0, b1, b2]
  {
    var x0, x1, x2 := b0 as nat, b1 as nat, b2 as nat;
    var k0, k1, k2, k3 := x0 / 4, (x0 % 4) * 16 + x1 / 16, (x1 % 16) * 4 + x2 / 64, x2 % 64;
    assert Sextets(b0, b1, b2) == [k0, k1, k2, k3];
    RegroupFirst(x0, x1);
    RegroupSecond(x0, x1, x2);
    RegroupThird(x1, x2);
    RecombineWhole(k0, k1, k2, k3);
  }

  /** One group of three bytes decodes back to the bytes. */
  lemma GroupDecodes(b0: byte, b1: byte, b2: byte)
    ensures DecodeSextets(Sextets(b0, b1, b2)) == [b0, b1, b2]
  {
    SextetsRecombine(b0, b1, b2);
    DecodeOneGroup(Sextets(b0, b1, b2));
  }

  lemma SplitLastGroup(bs: seq<byte>)
    requires |bs| >= 3
    ensures var n := |bs|; bs[..n - 3] + [bs[n - 3], bs[n - 2], bs[n - 1]] == bs
  {
  }

  /** Decoding the sextets of one more group adds its three bytes. */
  lemma GroupStep(bs: seq<byte>, k: nat)
    requires |bs| == 3 * k && k > 0
    ensures var n := |bs|;
      DecodeSextets(GroupSextets(bs)) == DecodeSextets(GroupSextets(bs[..n - 3])) + [bs[n - 3], bs[n - 2], bs[n - 1]]
  {
    var n := |bs|;
    var ks := Sextets(bs[n - 3], bs[n - 2], bs[n - 1]);
    GroupSextetsLength(bs[..n - 3], k - 1);
    GroupDecodes(bs[n - 3], bs[n - 2], bs[n - 1]);
    DecodeSextetsAppend(GroupSextets(bs[..n - 3]), ks, k - 1, 1);
  }

  /** Whole groups decode back to their bytes. */
  lemma {:induction false} GroupRoundTrip(bs: seq<byte>, k: nat)
    requires |bs| == 3 * k
    ensures DecodeSextets(GroupSextets(bs)) == bs
  {
    if k > 0 {
      GroupRoundTrip(bs[..|bs| - 3], k - 1);
      GroupStep(bs, k);
      SplitLastGroup(bs);
    }
  }

  /** A single group of four sextets decodes by itself. */
  lemma DecodeOneGroup(ks: seq<nat>)
    requires |ks| == 4
    ensures DecodeSextets(ks) == Recombine(ks[0], ks[1], ks[2], ks[3])
  {
    assert ks[..0] == [];
  }

  /** A final group of one byte, written with two padding characters. */
  lemma TailOne(b0: byte)
    ensures DecodeSextets(TailSextets([b0])) == [b0]
  {
    var x0 := b0 as nat;
    var k0, k1 := x0 / 4, (x0 % 4) * 16;
    assert TailSextets([b0]) == [k0, k1, Pad, Pad];
    DecodeOneGroup([k0, k1, Pad, Pad]);
    RegroupFirst(x0, 0);
  }

  /** A final group of two bytes, written with one padding character. */
  lemma TailTwo(b0: byte, b1: byte)
    ensures DecodeSextets(TailSextets([b0, b1])) == [b0, b1]
  {
    var x0, x1 := b0 as nat, b1 as nat;
    var k0, k1, k2 := x0 / 4, (x0 % 4) * 16 + x1 / 16, (x1 % 16) * 4;
    assert TailSextets([b0, b1]) == [k0, k1, k2, Pad];
    DecodeOneGroup([k0, k1, k2, Pad]);
    RegroupFirst(x0, x1);
    RegroupSecond(x0, x1, 0);
  }

  lemma TailRoundTrip(bs: seq<byte>)
    requires |bs| < 3
    ensures DecodeSextets(TailSextets(bs)) == bs
  {
    if |bs| == 1 {
      TailOne(bs[0]);
      assert bs == [bs[0]];
    } else if |bs| == 2 {
      TailTwo(bs[0], bs[1]);
      assert bs == [bs[0], bs[1]];
    }
  }

  /** The sextets decode back to the bytes. */
  lemma SextetsRoundTrip(bs: seq<byte>)
    ensures DecodeSextets(SextetsOf(bs)) == bs
  {
    var whole := |bs| / 3 * 3;
    var g, t := GroupSextets(bs[..whole]), TailSextets(bs[whole..]);
    GroupRoundTrip(bs[..whole], |bs| / 3);
    TailRoundTrip(bs[whole..]);
    GroupSextetsLength(bs[..whole], |bs| / 3);
    DecodeSextetsAppend(g, t, |bs| / 3, if |t| == 0 then 0 else 1);
    SplitAt(bs, whole);
  }

  /** Decoding gives back every byte: the encoding loses nothing. */
  lemma Base64RoundTrip(bs: seq<byte>)
    ensures Decode(Base64(bs)) == bs
  {
    var ks := SextetsOf(bs);
    SextetsShape(bs);
    assert forall i | 0 <= i < |ks| :: ks[i] <= Pad;
    Unrender(ks);
    SextetsRoundTrip(bs);
  }

  /** The two bytes 0x00 0x01 encode as `AAE=`. */
  lemma TwoByteExample()
    ensures Base64([0, 1]) == "AAE="
  {
    var bs: seq<byte> := [0, 1];
    assert bs[..0] == [] && bs[0..] == bs;
    assert SextetsOf(bs) == [0, 0, 4, Pad];
  }

  // ---------------------------------------------------------------------
  // The encoder's loop.

  lemma RenderAppend(a: seq<nat>, b: seq<nat>)
    ensures Render(a + b) == Render(a) + Render(b)
  {
    assert forall i | 0 <= i < |a + b| :: Render(a + b)[i] == (Render(a) + Render(b))[i];
  }

  /** The four characters of a full group, from the lookup table. */
  method EncodeGroup(b0: byte, b1: byte, b2: byte) returns (quad: string)
    ensures quad == Render(Sextets(b0, b1, b2))
  {
    quad := [Base64Char(b0 as nat / 4)];
    quad := quad + [Base64Char((b0 as nat % 4) * 16 + b1 as nat / 16)];
    quad := quad + [Base64Char((b1 as nat % 16) * 4 + b2 as nat / 64)];
    quad := quad + [Base64Char(b2 as nat % 64)];
  }

  /** The final group of `c` bytes (one or two) held in `charArray`, then
      `=` until the group has four characters. `rest` names the bytes the
      buffer holds. */
  method EncodeTail(charArray: array<byte>, c: nat, ghost rest: seq<byte>) returns (tail: string)
    requires charArray.Length == 3 && 1 <= c <= 2 && |rest| == c
    requires forall j | 0 <= j < c :: charArray[j] == rest[j]
    ensures tail == Render(TailSextets(rest))
  {
    var a0 := charArray[0] as nat;
    tail := [Base64Char(a0 / 4)];
    if c == 1 {
      tail := tail + [Base64Char((a0 % 4) * 16)];
    } else {
      var a1 := charArray[1] as nat;
      tail := tail + [Base64Char((a0 % 4) * 16 + a1 / 16)];
      tail := tail + [Base64Char((a1 % 16) * 4)];
    }
    ghost var full := Render(TailSextets(rest));
    var n := c + 1;
    while n < 4
      invariant c + 1 <= n <= 4
      invariant tail == full[..n]
    {
      tail := tail + "=";
      n := n + 1;
    }
  }

  /** The sextets of one more group follow those of the groups before. */
  lemma NextGroup(bs: seq<byte>, g: nat)
    requires 3 * g + 3 <= |bs|
    ensures Render(GroupSextets(bs[..3 * g + 3])) ==
      Render(GroupSextets(bs[..3 * g])) + Render(Sextets(bs[3 * g], bs[3 * g + 1], bs[3 * g + 2]))
  {
    var p := bs[..3 * g + 3];
    assert p[..3 * g] == bs[..3 * g];
    RenderAppend(GroupSextets(bs[..3 * g]), Sextets(bs[3 * g], bs[3 * g + 1], bs[3 * g + 2]));
  }

  /** After `g` whole groups and `c < 3` remaining bytes, the text is that
      of the whole groups followed by that of the final group. */
  lemma LastGroup(bs: seq<byte>, g: nat, c: nat)
    requires |bs| == 3 * g + c && c < 3
    ensures Base64(bs) == Render(GroupSextets(bs[..3 * g])) + Render(TailSextets(bs[3 * g..]))
  {
    assert |bs| / 3 == g;
    RenderAppend(GroupSextets(bs[..3 * g]), TailSextets(bs[3 * g..]));
  }

  /** Appends the Base64 text of a Data blob. Bytes are collected in a
      three-byte buffer; each full buffer is written as four characters, and
      a partial one at the end as a padded final group. */
  method EncodeBase64(bs: seq<byte>, result: string) returns (out: string)
    ensures out == result + Base64(bs)
  {
    var charArray := new byte[3];
    var c := 0;
    var i := 0;
    ghost var groups := 0;
    var text := "";
    while i < |bs|
      invariant i <= |bs| && c < 3 && i == 3 * groups + c
      invariant forall j | 0 <= j < c :: charArray[j] == bs[3 * groups + j]
      invariant text == Render(GroupSextets(bs[..3 * groups]))
    {
      charArray[c] := bs[i];
      c := c + 1;
      if c == 3 {
        assert charArray[0] == bs[3 * groups] && charArray[1] == bs[3 * groups + 1] && charArray[2] == bs[3 * groups + 2];
        var quad := EncodeGroup(charArray[0], charArray[1], charArray[2]);
        NextGroup(bs, groups);
        text := text + quad;
        c := 0;
        groups := groups + 1;
      }
      i := i + 1;
    }
    LastGroup(bs, groups, c);
    if c != 0 {
      var tail := EncodeTail(charArray, c, bs[3 * groups..]);
      text := text + tail;
    } else {
      assert bs[3 * groups..] == [];
    }
    out := result + text;
  }
}
