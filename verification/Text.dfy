/** Python strings as sequences of code points, and their UTF-8 form (RFC 3629 section 3). */
module Text {
  import opened Prelude

  /** A code point of a Python string; lone surrogates are allowed. */
  type Code = c: int | 0 <= c < 0x110000

  type Text = seq<Code>

  type Byte = b: int | 0 <= b < 0x100

  function Lit(s: string): Text {
    seq(|s|, i requires 0 <= i < |s| => s[i] as int)
  }

  predicate Surrogate(c: Code) { 0xD800 <= c < 0xE000 }

  /** `text.encode("utf-8")` raises on surrogates. */
  predicate Encodable(t: Text) { forall i | 0 <= i < |t| :: !Surrogate(t[i]) }

  function Width(c: Code): nat {
    if c < 0x80 then 1 else if c < 0x800 then 2 else if c < 0x10000 then 3 else 4
  }

  /** `_utf8_bytes`, for encodable text. */
  function Size(t: Text): nat {
    if t == [] then 0 else Width(t[0]) + Size(t[1..])
  }

  lemma {:induction false} SizeConcat(a: Text, b: Text)
    ensures Size(a + b) == Size(a) + Size(b)
  {
    if a == [] {
      assert a + b == b;
    } else {
      SizeConcat(a[1..], b);
      assert (a + b)[1..] == a[1..] + b;
    }
  }

  function EncodeCode(c: Code): (r: seq<Byte>)
    requires !Surrogate(c)
    ensures |r| == Width(c)
  {
    var c1 := c / 0x40;
    var c2 := c1 / 0x40;
    if c < 0x80 then [c]
    else if c < 0x800 then [0xC0 + c1, 0x80 + c % 0x40]
    else if c < 0x10000 then [0xE0 + c2, 0x80 + c1 % 0x40, 0x80 + c % 0x40]
    else [0xF0 + c2 / 0x40, 0x80 + c2 % 0x40, 0x80 + c1 % 0x40, 0x80 + c % 0x40]
  }

  function Encode(t: Text): (r: seq<Byte>)
    requires Encodable(t)
    ensures |r| == Size(t)
  {
    if t == [] then [] else EncodeCode(t[0]) + Encode(t[1..])
  }

  predicate Continues(b: Byte) { 0x80 <= b < 0xC0 }

  /** The second byte after the lead byte `b`: RFC 3629 section 4. */
  predicate Follows(b: Byte, next: Byte) {
    && Continues(next)
    && (b == 0xE0 ==> 0xA0 <= next)
    && (b == 0xED ==> next < 0xA0)
    && (b == 0xF0 ==> 0x90 <= next)
    && (b == 0xF4 ==> next < 0x90)
  }

  /** Length of the sequence a lead byte announces; 0 if it is none. */
  function Announced(b: Byte): nat {
    if b < 0x80 then 1
    else if 0xC2 <= b < 0xE0 then 2
    else if 0xE0 <= b < 0xF0 then 3
    else if 0xF0 <= b < 0xF5 then 4
    else 0
  }

  /** How many bytes of `bytes` belong to the sequence its first byte starts. */
  function WellFormed(bytes: seq<Byte>): (n: nat)
    requires bytes != []
    ensures n <= |bytes| && n <= Announced(bytes[0])
  {
    var k := Announced(bytes[0]);
    if k <= 1 then k
    else if |bytes| < 2 || !Follows(bytes[0], bytes[1]) then 1
    else if k == 2 || |bytes| < 3 || !Continues(bytes[2]) then 2
    else if k == 3 || |bytes| < 4 || !Continues(bytes[3]) then 3
    else 4
  }

  function Assemble(bytes: seq<Byte>): Code
    requires bytes != [] && WellFormed(bytes) == Announced(bytes[0]) != 0
  {
    var k := Announced(bytes[0]);
    var b0: int := bytes[0];
    if k == 1 then b0
    else
      var b1: int := bytes[1] - 0x80;
      if k == 2 then (b0 - 0xC0) * 0x40 + b1
      else
        var b2: int := bytes[2] - 0x80;
        if k == 3 then (b0 - 0xE0) * 0x1000 + b1 * 0x40 + b2
        else
          var b3: int := bytes[3] - 0x80;
          (b0 - 0xF0) * 0x40000 + b1 * 0x1000 + b2 * 0x40 + b3
  }

  /** `bytes.decode("utf-8", errors="ignore")`: each ill-formed piece is skipped. */
  function DecodeIgnore(bytes: seq<Byte>): Text
    decreases |bytes|
  {
    if bytes == [] then []
    else
      var k := Announced(bytes[0]);
      var n := WellFormed(bytes);
      if k != 0 && n == k then [Assemble(bytes)] + DecodeIgnore(bytes[k..])
      else DecodeIgnore(bytes[if n == 0 then 1 else n..])
  }

  lemma DecodeWhole(c: Code, rest: seq<Byte>)
    requires !Surrogate(c)
    ensures DecodeIgnore(EncodeCode(c) + rest) == [c] + DecodeIgnore(rest)
  {
    var bytes := EncodeCode(c) + rest;
    AssembleWhole(c, rest);
    assert bytes[Width(c)..] == rest;
  }

  predicate Reads(bytes: seq<Byte>, k: nat, c: Code)
    requires bytes != []
  {
    Announced(bytes[0]) == WellFormed(bytes) == k != 0 && Assemble(bytes) == c
  }

  lemma ReadsTwo(q: nat, r: nat, rest: seq<Byte>)
    requires 2 <= q < 0x20 && r < 0x40
    ensures Reads([0xC0 + q, 0x80 + r] + rest, 2, q * 0x40 + r)
  {
    var bytes: seq<Byte> := [0xC0 + q, 0x80 + r] + rest;
    assert bytes[0] == 0xC0 + q && bytes[1] == 0x80 + r;
  }

  lemma ReadsThree(p: nat, q: nat, r: nat, rest: seq<Byte>)
    requires p < 0x10 && q < 0x40 && r < 0x40
    requires 0x800 <= p * 0x1000 + q * 0x40 + r && !Surrogate(p * 0x1000 + q * 0x40 + r)
    ensures Reads([0xE0 + p, 0x80 + q, 0x80 + r] + rest, 3, p * 0x1000 + q * 0x40 + r)
  {
    var bytes: seq<Byte> := [0xE0 + p, 0x80 + q, 0x80 + r] + rest;
    assert bytes[0] == 0xE0 + p && bytes[1] == 0x80 + q && bytes[2] == 0x80 + r;
  }

  lemma ReadsFour(o: nat, p: nat, q: nat, r: nat, rest: seq<Byte>)
    requires o < 5 && p < 0x40 && q < 0x40 && r < 0x40
    requires 0x10000 <= o * 0x40000 + p * 0x1000 + q * 0x40 + r < 0x110000
    ensures Reads([0xF0 + o, 0x80 + p, 0x80 + q, 0x80 + r] + rest, 4, o * 0x40000 + p * 0x1000 + q * 0x40 + r)
  {
    var bytes: seq<Byte> := [0xF0 + o, 0x80 + p, 0x80 + q, 0x80 + r] + rest;
    assert bytes[0] == 0xF0 + o && bytes[1] == 0x80 + p && bytes[2] == 0x80 + q && bytes[3] == 0x80 + r;
  }

  lemma AssembleWhole(c: Code, rest: seq<Byte>)
    requires !Surrogate(c)
    ensures Reads(EncodeCode(c) + rest, Width(c), c)
  {
    var c1 := c / 0x40;
    var c2 := c1 / 0x40;
    if c < 0x80 {
    } else if c < 0x800 {
      ReadsTwo(c1, c % 0x40, rest);
    } else if c < 0x10000 {
      ReadsThree(c2, c1 % 0x40, c % 0x40, rest);
    } else {
      ReadsFour(c2 / 0x40, c2 % 0x40, c1 % 0x40, c % 0x40, rest);
    }
  }

  /** A character cut short decodes to nothing. */
  lemma DecodeCut(c: Code, n: nat)
    requires !Surrogate(c) && n < Width(c)
    ensures DecodeIgnore(EncodeCode(c)[..n]) == []
  {
    if n > 0 {
      var bytes := EncodeCode(c)[..n];
      assert Announced(bytes[0]) == Width(c);
      assert WellFormed(bytes) == n;
      assert bytes[n..] == [];
    }
  }

  /** How many whole characters of `t` fit into `limit` bytes. */
  function WholeChars(t: Text, limit: nat): (n: nat)
    ensures n <= |t|
  {
    if t == [] || Width(t[0]) > limit then 0 else 1 + WholeChars(t[1..], limit - Width(t[0]))
  }

  lemma EncodeSlice(t: Text, limit: nat)
    requires Encodable(t) && t != [] && Width(t[0]) <= limit <= Size(t)
    ensures Encode(t)[..limit] == EncodeCode(t[0]) + Encode(t[1..])[..limit - Width(t[0])]
  {
  }

  lemma {:induction false} DecodeSlice(t: Text, limit: nat)
    requires Encodable(t) && limit <= Size(t)
    ensures DecodeIgnore(Encode(t)[..limit]) == t[..WholeChars(t, limit)]
  {
    if t == [] {
    } else if Width(t[0]) > limit {
      assert Encode(t)[..limit] == EncodeCode(t[0])[..limit];
      DecodeCut(t[0], limit);
    } else {
      var w := Width(t[0]);
      EncodeSlice(t, limit);
      DecodeWhole(t[0], Encode(t[1..])[..limit - w]);
      DecodeSlice(t[1..], limit - w);
      var n := WholeChars(t[1..], limit - w);
      assert t[..n + 1] == [t[0]] + t[1..][..n];
    }
  }

  lemma {:induction false} WholeCharsIsLongest(t: Text, limit: nat)
    ensures var n := WholeChars(t, limit);
            Size(t[..n]) <= limit && (n == |t| || Size(t[..n + 1]) > limit)
  {
    if t == [] {
    } else if Width(t[0]) > limit {
      assert t[..1][1..] == [];
    } else {
      var w := Width(t[0]);
      WholeCharsIsLongest(t[1..], limit - w);
      var n := WholeChars(t[1..], limit - w);
      assert t[..n + 1][1..] == t[1..][..n];
      if n < |t| - 1 {
        assert t[..n + 2][1..] == t[1..][..n + 1];
      }
    }
  }

  /** `_cap_utf8`; `None` is the `UnicodeEncodeError` of an unencodable text. */
  function CapUtf8(t: Text, limit: nat): Option<(Text, bool)> {
    if !Encodable(t) then None
    else if Size(t) <= limit then Some((t, false))
    else Some((DecodeIgnore(Encode(t)[..limit]), true))
  }

  lemma SizeOfPrefix(t: Text, n: nat)
    requires n <= |t|
    ensures Size(t[..n]) <= Size(t)
    ensures n < |t| ==> Size(t[..n]) < Size(t)
  {
    assert t == t[..n] + t[n..];
    SizeConcat(t[..n], t[n..]);
  }

  /** Capping yields the longest prefix of whole characters within the limit, and says whether it cut. */
  lemma CapIsLongestPrefix(t: Text, limit: nat)
    ensures CapUtf8(t, limit).None? <==> !Encodable(t)
    ensures Encodable(t) ==>
              var (kept, cut) := CapUtf8(t, limit).value;
              && kept <= t && Size(kept) <= limit
              && (cut <==> kept != t) && (cut <==> Size(t) > limit)
              && (kept != t ==> Size(t[..|kept| + 1]) > limit)
  {
    if Encodable(t) && Size(t) > limit {
      DecodeSlice(t, limit);
      WholeCharsIsLongest(t, limit);
      var n := WholeChars(t, limit);
      assert t[..|t|] == t;
    }
  }

  /** Every encodable text survives encoding and decoding. */
  lemma EncodeDecode(t: Text)
    requires Encodable(t)
    ensures DecodeIgnore(Encode(t)) == t
  {
    DecodeSlice(t, Size(t));
    assert Encode(t)[..Size(t)] == Encode(t);
    WholeCharsIsLongest(t, Size(t));
    var n := WholeChars(t, Size(t));
    if n < |t| { SizeOfPrefix(t, n + 1); }
    assert t[..|t|] == t;
  }
}
