/** The variable-length integers and entry headers of the table format. Bytes are numbers below
    256; a bit field is a remainder or quotient by a power of two. */
module Varint {
  import opened Wrappers
  import opened Arithmetic

  /** Seven bits a byte, low bits first; the high bit says that more bytes follow. */
  function Encode(v: nat): seq<nat> {
    if v < 128 then [v] else [v % 128 + 128] + Encode(v / 128)
  }

  /** The writer for 64 bits, a loop. */
  method EncodeVarint64(v: nat) returns (out: seq<nat>)
    ensures out == Encode(v)
  {
    out := [];
    var x := v;
    while x >= 128
      invariant out + Encode(x) == Encode(v)
    {
      assert out + Encode(x) == out + [x % 128 + 128] + Encode(x / 128);
      out := out + [x % 128 + 128];
      x := x / 128;
    }
    out := out + [x];
  }

  /** The writer for 32 bits, unrolled, writes the same bytes. */
  method EncodeVarint32(v: nat) returns (out: seq<nat>)
    requires v < 0x1_0000_0000
    ensures out == Encode(v)
  {
    var b0, b1, b2, b3 := v % 128 + 128, v / 0x80 % 128 + 128, v / 0x4000 % 128 + 128, v / 0x20_0000 % 128 + 128;
    Chain(v);
    Unroll(v);
    Unroll(v / 0x80);
    Unroll(v / 0x4000);
    Unroll(v / 0x20_0000);
    Unroll(v / 0x1000_0000);
    if v < 0x80 {
      out := [v];
    } else if v < 0x4000 {
      out := [b0, v / 0x80];
    } else if v < 0x20_0000 {
      out := [b0, b1, v / 0x4000];
    } else if v < 0x1000_0000 {
      out := [b0, b1, b2, v / 0x20_0000];
    } else {
      out := [b0, b1, b2, b3, v / 0x1000_0000];
    }
  }

  lemma Unroll(v: nat)
    ensures Encode(v) == if v < 128 then [v] else [v % 128 + 128] + Encode(v / 128)
  {
  }

  lemma Chain(v: nat)
    ensures v / 0x80 / 128 == v / 0x4000 && v / 0x4000 / 128 == v / 0x20_0000 && v / 0x20_0000 / 128 == v / 0x1000_0000
  {
  }

  /** Reads at most groups bytes; gives the value and how many bytes it took. */
  function Decode(s: seq<nat>, groups: nat): Option<(nat, nat)> {
    if s == [] || groups == 0 then None
    else if s[0] < 128 then Some((s[0], 1))
    else
      var rest := Decode(s[1..], groups - 1);
      if rest.None? then None else Some((s[0] % 128 + 128 * rest.value.0, rest.value.1 + 1))
  }

  /** How many bytes a value of so many seven-bit groups needs. */
  function Groups(v: nat): nat {
    if v < 128 then 1 else 1 + Groups(v / 128)
  }

  /** Decoding undoes encoding, whatever follows. */
  lemma {:induction false} RoundTrip(v: nat, rest: seq<nat>, groups: nat)
    requires Groups(v) <= groups
    ensures Decode(Encode(v) + rest, groups) == Some((v, |Encode(v)|)) && |Encode(v)| == Groups(v)
  {
    if v >= 128 {
      RoundTrip(v / 128, rest, groups - 1);
      assert (Encode(v) + rest)[1..] == Encode(v / 128) + rest;
    }
  }

  lemma {:induction false} GroupsBound(v: nat, k: nat)
    requires k >= 1 && v < Pow2(7 * k)
    ensures Groups(v) <= k
  {
    if k == 1 {
      assert Pow2(7) == 128 by { Pow2Seven(0); }
    } else if v >= 128 {
      Pow2Seven(7 * (k - 1));
      GroupsBound(v / 128, k - 1);
    }
  }

  lemma Pow2Seven(k: nat)
    ensures Pow2(k + 7) == 128 * Pow2(k)
  {
    assert Pow2(k + 7) == 2 * Pow2(k + 6) == 4 * Pow2(k + 5) == 8 * Pow2(k + 4) == 16 * Pow2(k + 3);
    assert Pow2(k + 3) == 2 * Pow2(k + 2) == 4 * Pow2(k + 1) == 8 * Pow2(k);
  }

  /** Five bytes are enough for 32 bits and ten for 64. */
  lemma WidthsFit(v: nat)
    ensures v < 0x1_0000_0000 ==> Groups(v) <= 5
    ensures v < 0x1_0000_0000_0000_0000 ==> Groups(v) <= 10
  {
    Powers();
    if v < 0x1_0000_0000 {
      GroupsBound(v, 5);
    }
    if v < 0x1_0000_0000_0000_0000 {
      GroupsBound(v, 10);
    }
  }

  lemma Powers()
    ensures Pow2(35) == 0x8_0000_0000 && Pow2(70) == 0x40_0000_0000_0000_0000
  {
    assert Pow2(0) == 1;
    hide Pow2;
    FiveSevens(0);
    FiveSevens(35);
  }

  lemma FiveSevens(k: nat)
    ensures Pow2(k + 35) == 0x8_0000_0000 * Pow2(k)
  {
    hide Pow2;
    Pow2Seven(k);
    Pow2Seven(k + 7);
    Pow2Seven(k + 14);
    Pow2Seven(k + 21);
    Pow2Seven(k + 28);
  }

  /** The readers: result and shift grow by seven bits a step. The value is cut to the width
      only if the bytes say more than it can hold. */
  method GetVarint(s: seq<nat>, groups: nat, width: nat) returns (r: Option<(nat, nat)>)
    requires forall i :: 0 <= i < |s| ==> s[i] < 256
    requires width >= 1
    ensures r == var d := Decode(s, groups); if d.None? then None else Some((d.value.0 % width, d.value.1))
  {
    hide Decode, Ahead;
    var i: nat, result: nat, scale: nat := 0, 0, 1;
    AheadStart(s, groups);
    while i < |s| && i < groups
      invariant i <= |s| && i <= groups
      invariant Decode(s, groups) == Ahead(Decode(s[i..], groups - i), result, scale, i)
    {
      var byte := s[i];
      assert s[i..][1..] == s[i + 1..] && s[i..][0] == byte;
      AheadStep(s[i..], groups - i, result, scale, i);
      if byte >= 128 {
        result := result + Product(byte % 128, scale);
        scale := scale * 128;
        i := i + 1;
      } else {
        return Some(((result + Product(byte, scale)) % width, i + 1));
      }
    }
    AheadEnd(s[i..], groups - i, result, scale, i);
    return None;
  }

  lemma AheadStart(s: seq<nat>, groups: nat)
    ensures Decode(s, groups) == Ahead(Decode(s[0..], groups), 0, 1, 0)
  {
    assert s[0..] == s;
  }

  lemma AheadEnd(s: seq<nat>, groups: nat, result: nat, scale: nat, i: nat)
    requires s == [] || groups == 0
    ensures Ahead(Decode(s, groups), result, scale, i) == None
  {
  }

  function Ahead(d: Option<(nat, nat)>, result: nat, scale: nat, i: nat): Option<(nat, nat)> {
    if d.None? then None else Some((result + d.value.0 * scale, d.value.1 + i))
  }

  lemma AheadStep(s: seq<nat>, groups: nat, result: nat, scale: nat, i: nat)
    requires s != [] && groups >= 1
    ensures s[0] >= 128 ==>
              Ahead(Decode(s, groups), result, scale, i)
              == Ahead(Decode(s[1..], groups - 1), result + Product(s[0] % 128, scale), scale * 128, i + 1)
    ensures s[0] < 128 ==> Ahead(Decode(s, groups), result, scale, i) == Some((result + Product(s[0], scale), i + 1))
  {
    var d := Decode(s[1..], groups - 1);
    if s[0] >= 128 && d.Some? {
      Distribute(s[0] % 128, d.value.0, scale);
    }
  }

  lemma Distribute(x: nat, y: nat, scale: nat)
    ensures (x + 128 * y) * scale == x * scale + y * (scale * 128)
  {
  }

  // ----- entry headers

  datatype Header = Header(shared: nat, nonShared: nat, valueLength: nat, at: nat)

  function EncodeHeader(shared: nat, nonShared: nat, valueLength: nat): seq<nat> {
    Encode(shared) + Encode(nonShared) + Encode(valueLength)
  }

  /** The general path: three varints of 32 bits. */
  function DecodeThree(s: seq<nat>): Option<Header> {
    var a := Decode(s, 5);
    if a.None? || a.value.1 > |s| then None
    else
      var b := Decode(s[a.value.1..], 5);
      if b.None? || a.value.1 + b.value.1 > |s| then None
      else
        var c := Decode(s[a.value.1 + b.value.1..], 5);
        if c.None? then None
        else Some(Header(a.value.0 % WIDTH, b.value.0 % WIDTH, c.value.0 % WIDTH, a.value.1 + b.value.1 + c.value.1))
  }

  const WIDTH: nat := 0x1_0000_0000

  /** Three bytes below 128 are taken as they are. */
  function DecodeFast(s: seq<nat>): Option<Header> {
    if |s| < 3 then None
    else if s[0] < 128 && s[1] < 128 && s[2] < 128 then Some(Header(s[0], s[1], s[2], 3))
    else DecodeThree(s)
  }

  /** The fast path changes nothing. */
  lemma FastPathAgrees(s: seq<nat>)
    requires |s| >= 3
    ensures DecodeFast(s) == DecodeThree(s)
  {
    if s[0] < 128 && s[1] < 128 && s[2] < 128 {
      assert s[1..][0] == s[1] && s[2..][0] == s[2];
      assert Decode(s, 5) == Some((s[0], 1)) && Decode(s[1..], 5) == Some((s[1], 1));
      assert Decode(s[2..], 5) == Some((s[2], 1));
    }
  }

  /** An entry, header first; the bytes of key and value must be there too. */
  function DecodeEntry(s: seq<nat>): Option<Header> {
    var h := DecodeFast(s);
    if h.None? || h.value.at > |s| then None
    else if |s| - h.value.at < (h.value.nonShared + h.value.valueLength) % WIDTH then None
    else h
  }

  lemma EncodeLength(v: nat)
    ensures |Encode(v)| >= 1
  {
  }

  lemma ThreeRoundTrip(x: nat, y: nat, z: nat, tail: seq<nat>)
    requires x < WIDTH && y < WIDTH && z < WIDTH
    ensures var a, b, c := Encode(x), Encode(y), Encode(z);
            DecodeThree(a + (b + (c + tail))) == Some(Header(x, y, z, |a| + |b| + |c|))
  {
    hide Encode, Decode, Groups, DecodeThree;
    var a, b, c := Encode(x), Encode(y), Encode(z);
    var s := a + (b + (c + tail));
    DropTwo(a, b, c + tail);
    WidthsFit(x);
    WidthsFit(y);
    WidthsFit(z);
    RoundTrip(x, b + (c + tail), 5);
    RoundTrip(y, c + tail, 5);
    RoundTrip(z, tail, 5);
    ThreeParts(s, |a|, |b|, |c|, x, y, z);
  }

  lemma ThreeParts(s: seq<nat>, i: nat, j: nat, k: nat, x: nat, y: nat, z: nat)
    requires x < WIDTH && y < WIDTH && z < WIDTH && i + j <= |s|
    requires Decode(s, 5) == Some((x, i)) && Decode(s[i..], 5) == Some((y, j)) && Decode(s[i + j..], 5) == Some((z, k))
    ensures DecodeThree(s) == Some(Header(x, y, z, i + j + k))
  {
    hide Decode;
  }

  lemma DropTwo(a: seq<nat>, b: seq<nat>, t: seq<nat>)
    ensures (a + (b + t))[|a|..] == b + t && (a + (b + t))[|a| + |b|..] == t
  {
  }

  /** An encoded entry decodes to its own lengths, with the key right behind the header. */
  lemma EntryRoundTrip(shared: nat, key: seq<nat>, value: seq<nat>, rest: seq<nat>)
    requires shared < WIDTH && |key| + |value| < WIDTH
    ensures var h := EncodeHeader(shared, |key|, |value|);
            DecodeEntry(h + key + value + rest) == Some(Header(shared, |key|, |value|, |h|))
  {
    hide Encode, Decode, DecodeThree, DecodeFast;
    var a, b, c := Encode(shared), Encode(|key|), Encode(|value|);
    var tail := key + value + rest;
    var s := a + (b + (c + tail));
    assert EncodeHeader(shared, |key|, |value|) + key + value + rest == s;
    EncodeLength(shared);
    EncodeLength(|key|);
    EncodeLength(|value|);
    FastPathAgrees(s);
    ThreeRoundTrip(shared, |key|, |value|, tail);
  }

  /** An entry whose key and value are not all there is not decoded. */
  lemma CutShort(shared: nat, nonShared: nat, valueLength: nat, body: seq<nat>)
    requires shared < WIDTH && nonShared + valueLength < WIDTH && |body| < nonShared + valueLength
    ensures DecodeEntry(EncodeHeader(shared, nonShared, valueLength) + body) == None
  {
    hide Encode, Decode, DecodeThree, DecodeFast;
    var a, b, c := Encode(shared), Encode(nonShared), Encode(valueLength);
    var s := a + (b + (c + body));
    assert EncodeHeader(shared, nonShared, valueLength) + body == s;
    EncodeLength(shared);
    EncodeLength(nonShared);
    EncodeLength(valueLength);
    FastPathAgrees(s);
    ThreeRoundTrip(shared, nonShared, valueLength, body);
  }
}
