/** Base64url without padding, from `src/lib/base64url.ts`: the encoder's loops, and the decoder's over a
    32-bit buffer that is never masked, against the groups of three bytes and four characters that
    section 5 of RFC 4648 describes. */
module Base64Url {
  import opened Wrappers

  type Byte = b: int | 0 <= b < 256
  type Sextet = v: int | 0 <= v < 64

  /** `ALPHABET[v]`, Table 2 of RFC 4648. */
  function Symbol(v: Sextet): char {
    if v < 26 then ('A' as int + v) as char
    else if v < 52 then ('a' as int + v - 26) as char
    else if v < 62 then ('0' as int + v - 52) as char
    else if v == 62 then '-' else '_'
  }

  /** The value a character stands for, `LOOKUP.get(c)`. */
  function Lookup(c: char): Option<Sextet> {
    if 'A' <= c <= 'Z' then Some(c as int - 'A' as int)
    else if 'a' <= c <= 'z' then Some(c as int - 'a' as int + 26)
    else if '0' <= c <= '9' then Some(c as int - '0' as int + 52)
    else if c == '-' then Some(62)
    else if c == '_' then Some(63)
    else None
  }

  // The specification: groups of three bytes and of four six-bit values, and what is left at the end.

  function Sextets(b: seq<Byte>): seq<Sextet> {
    if |b| == 0 then []
    else if |b| == 1 then [b[0] / 4, b[0] % 4 * 16]
    else if |b| == 2 then [b[0] / 4, b[0] % 4 * 16 + b[1] / 16, b[1] % 16 * 4]
    else [b[0] / 4, b[0] % 4 * 16 + b[1] / 16, b[1] % 16 * 4 + b[2] / 64, b[2] % 64] + Sextets(b[3..])
  }

  // The byte a value completes, given the value before it: for the second, third and fourth of a group.

  function First(previous: Sextet, x: Sextet): Byte {
    previous * 4 + x / 16
  }

  function Second(previous: Sextet, x: Sextet): Byte {
    previous % 16 * 16 + x / 4
  }

  function Third(previous: Sextet, x: Sextet): Byte {
    previous % 4 * 64 + x
  }

  function Bytes(v: seq<Sextet>): seq<Byte> {
    if |v| <= 1 then []
    else if |v| == 2 then [First(v[0], v[1])]
    else if |v| == 3 then [First(v[0], v[1]), Second(v[1], v[2])]
    else [First(v[0], v[1]), Second(v[1], v[2]), Third(v[2], v[3])] + Bytes(v[4..])
  }

  function Spelled(v: seq<Sextet>): string {
    if v == [] then "" else [Symbol(v[0])] + Spelled(v[1..])
  }

  function Read(s: string): Option<seq<Sextet>> {
    if s == "" then Some([])
    else if Lookup(s[0]).None? || Read(s[1..]).None? then None
    else Some([Lookup(s[0]).value] + Read(s[1..]).value)
  }

  /** `replace(/=+$/, "")`. */
  function Unpadded(s: string): string {
    if s != "" && s[|s| - 1] == '=' then Unpadded(s[..|s| - 1]) else s
  }

  function Encode(b: seq<Byte>): string {
    Spelled(Sextets(b))
  }

  function Decode(value: string): Option<seq<Byte>> {
    var s := Unpadded(value);
    if |s| % 4 == 1 then None
    else
      match Read(s)
      case None => None
      case Some(v) => Some(Bytes(v))
  }

  // The alphabet.

  /** No character stands for two values, and none is the padding. */
  lemma LookupInverts(v: Sextet)
    ensures Lookup(Symbol(v)) == Some(v) && Symbol(v) != '='
  {
    assert Symbol(v) as int == (if v < 26 then 65 + v else if v < 52 then 71 + v else if v < 62 then v - 4 else if v == 62 then 45 else 95);
  }

  lemma SymbolInverts(c: char)
    requires Lookup(c).Some?
    ensures Symbol(Lookup(c).value) == c
  {
  }

  lemma {:induction false} ReadsSpelled(v: seq<Sextet>)
    ensures Read(Spelled(v)) == Some(v) && |Spelled(v)| == |v|
  {
    if v != [] {
      ReadsSpelled(v[1..]);
      LookupInverts(v[0]);
      assert v == [v[0]] + v[1..];
    }
  }

  lemma {:induction false} SpellsRead(s: string)
    requires Read(s).Some?
    ensures Spelled(Read(s).value) == s
  {
    if s != "" {
      SpellsRead(s[1..]);
      SymbolInverts(s[0]);
      assert s == [s[0]] + s[1..];
    }
  }

  // Groups and back.

  lemma SextetsCons(p: Byte, q: Byte, r: Byte, rest: seq<Byte>)
    ensures Sextets([p, q, r] + rest) == [p / 4, p % 4 * 16 + q / 16, q % 16 * 4 + r / 64, r % 64] + Sextets(rest)
  {
    assert ([p, q, r] + rest)[3..] == rest;
  }

  lemma BytesCons(a: Sextet, b: Sextet, c: Sextet, d: Sextet, rest: seq<Sextet>)
    ensures Bytes([a, b, c, d] + rest) == [First(a, b), Second(b, c), Third(c, d)] + Bytes(rest)
  {
    assert ([a, b, c, d] + rest)[4..] == rest;
  }

  /** Four values of a group give its three bytes back. */
  lemma GroupForth(p: Byte, q: Byte, r: Byte)
    ensures First(p / 4, p % 4 * 16 + q / 16) == p
    ensures Second(p % 4 * 16 + q / 16, q % 16 * 4 + r / 64) == q
    ensures Third(q % 16 * 4 + r / 64, r % 64) == r
  {
  }

  lemma BytesBack(p: Byte, q: Byte, r: Byte, rest: seq<Byte>)
    ensures Bytes(Sextets([p, q, r] + rest)) == [p, q, r] + Bytes(Sextets(rest))
  {
    SextetsCons(p, q, r, rest);
    BytesCons(p / 4, p % 4 * 16 + q / 16, q % 16 * 4 + r / 64, r % 64, Sextets(rest));
    GroupForth(p, q, r);
  }

  lemma {:induction false} BytesOfSextets(b: seq<Byte>)
    ensures Bytes(Sextets(b)) == b
  {
    if |b| >= 3 {
      BytesOfSextets(b[3..]);
      FirstThree(b);
      BytesBack(b[0], b[1], b[2], b[3..]);
    } else {
      FewBytes(b);
    }
  }

  lemma FirstThree(b: seq<Byte>)
    requires |b| >= 3
    ensures b == [b[0], b[1], b[2]] + b[3..]
  {
  }

  lemma FewBytes(b: seq<Byte>)
    requires |b| < 3
    ensures Bytes(Sextets(b)) == b
  {
    Few(b);
    if |b| == 2 {
      TwoBytes(b, b[0], b[1]);
    } else if |b| == 1 {
      OneByte(b, b[0]);
    }
  }

  lemma OneByte(b: seq<Byte>, p: Byte)
    requires b == [p]
    ensures Bytes(Sextets(b)) == b
  {
    GroupForth(p, 0, 0);
  }

  lemma TwoBytes(b: seq<Byte>, p: Byte, q: Byte)
    requires b == [p, q]
    ensures Bytes(Sextets(b)) == b
  {
    GroupForth(p, q, 0);
  }

  lemma {:induction false} SextetsLength(b: seq<Byte>)
    ensures |Sextets(b)| == (4 * |b| + 2) / 3
  {
    if |b| >= 3 { SextetsLength(b[3..]); }
  }

  /** The bits of the last value that no byte takes are zero. */
  predicate ZeroTail(v: seq<Sextet>) {
    && (|v| % 4 == 2 ==> v[|v| - 1] % 16 == 0)
    && (|v| % 4 == 3 ==> v[|v| - 1] % 4 == 0)
  }

  /** Three bytes of a group give its four values back. */
  lemma GroupBack(a: Sextet, b: Sextet, c: Sextet, d: Sextet)
    ensures First(a, b) / 4 == a
    ensures First(a, b) % 4 * 16 + Second(b, c) / 16 == b
    ensures Second(b, c) % 16 * 4 + Third(c, d) / 64 == c
    ensures Third(c, d) % 64 == d
    ensures First(a, b) % 4 * 16 == b - b % 16
    ensures Second(b, c) % 16 * 4 == c - c % 4
  {
  }

  lemma FullGroup(a: Sextet, b: Sextet, c: Sextet, d: Sextet, rest: seq<Sextet>)
    ensures Sextets(Bytes([a, b, c, d] + rest)) == [a, b, c, d] + Sextets(Bytes(rest))
  {
    GroupBack(a, b, c, d);
    BytesCons(a, b, c, d, rest);
    SextetsCons(First(a, b), Second(b, c), Third(c, d), Bytes(rest));
  }

  lemma TwoLeft(a: Sextet, b: Sextet)
    ensures Sextets(Bytes([a, b])) == [a, b - b % 16]
  {
    GroupBack(a, b, 0, 0);
    assert Bytes([a, b]) == [First(a, b)];
  }

  lemma ThreeLeft(a: Sextet, b: Sextet, c: Sextet)
    ensures Sextets(Bytes([a, b, c])) == [a, b, c - c % 4]
  {
    GroupBack(a, b, c, 0);
    assert Bytes([a, b, c]) == [First(a, b), Second(b, c)];
  }

  lemma FrontCancels<T>(front: seq<T>, a: seq<T>, b: seq<T>)
    ensures front + a == front + b <==> a == b
  {
    assert (front + a)[|front|..] == a && (front + b)[|front|..] == b;
  }

  lemma {:induction false} SextetsOfBytes(v: seq<Sextet>)
    requires |v| % 4 != 1
    ensures Sextets(Bytes(v)) == v <==> ZeroTail(v)
  {
    if |v| >= 4 {
      SextetsOfBytes(v[4..]);
      FirstGroup(v);
    } else {
      LastGroup(v);
    }
  }

  lemma FirstGroup(v: seq<Sextet>)
    requires |v| >= 4 && (Sextets(Bytes(v[4..])) == v[4..] <==> ZeroTail(v[4..]))
    ensures Sextets(Bytes(v)) == v <==> ZeroTail(v)
  {
    TailOfRest(v);
    FirstFour(v);
    Regrouped(v, v[0], v[1], v[2], v[3], v[4..]);
  }

  lemma FirstFour(v: seq<Sextet>)
    requires |v| >= 4
    ensures v == [v[0], v[1], v[2], v[3]] + v[4..]
  {
  }

  lemma Regrouped(v: seq<Sextet>, a: Sextet, b: Sextet, c: Sextet, d: Sextet, rest: seq<Sextet>)
    requires v == [a, b, c, d] + rest
    ensures Sextets(Bytes(v)) == v <==> Sextets(Bytes(rest)) == rest
  {
    FullGroup(a, b, c, d, rest);
    FrontCancels([a, b, c, d], Sextets(Bytes(rest)), rest);
  }

  lemma LastGroup(v: seq<Sextet>)
    requires |v| == 0 || 2 <= |v| < 4
    ensures Sextets(Bytes(v)) == v <==> ZeroTail(v)
  {
    Few(v);
    if |v| == 3 {
      LastThree(v, v[0], v[1], v[2]);
    } else if |v| == 2 {
      LastTwo(v, v[0], v[1]);
    }
  }

  lemma Few<T>(v: seq<T>)
    ensures |v| == 1 ==> v == [v[0]]
    ensures |v| == 2 ==> v == [v[0], v[1]]
    ensures |v| == 3 ==> v == [v[0], v[1], v[2]]
  {
  }

  lemma LastTwo(v: seq<Sextet>, a: Sextet, b: Sextet)
    requires v == [a, b]
    ensures Sextets(Bytes(v)) == v <==> ZeroTail(v)
  {
    TwoLeft(a, b);
    assert [a, b - b % 16][1] == b - b % 16;
  }

  lemma LastThree(v: seq<Sextet>, a: Sextet, b: Sextet, c: Sextet)
    requires v == [a, b, c]
    ensures Sextets(Bytes(v)) == v <==> ZeroTail(v)
  {
    ThreeLeft(a, b, c);
    assert [a, b, c - c % 4][2] == c - c % 4;
  }

  lemma TailOfRest(v: seq<Sextet>)
    requires |v| >= 4
    ensures ZeroTail(v) <==> ZeroTail(v[4..])
  {
    if |v| > 4 { assert v[4..][|v| - 5] == v[|v| - 1]; }
  }

  // The two directions of the codec.

  predicate Padding(s: string) {
    forall k :: 0 <= k < |s| ==> s[k] == '='
  }

  lemma {:induction false} UnpadsAll(s: string, padding: string)
    requires Padding(padding) && (s == "" || s[|s| - 1] != '=')
    ensures Unpadded(s + padding) == s
    decreases |padding|
  {
    var all := s + padding;
    if padding == "" {
      assert all == s;
    } else {
      assert all[|all| - 1] == '=';
      assert all[..|all| - 1] == s + padding[..|padding| - 1];
      UnpadsAll(s, padding[..|padding| - 1]);
    }
  }

  lemma {:induction false} SpelledHasNoPadding(v: seq<Sextet>)
    ensures Spelled(v) != "" ==> Spelled(v)[|Spelled(v)| - 1] != '='
  {
    if v != [] {
      LookupInverts(v[0]);
      SpelledHasNoPadding(v[1..]);
    }
  }

  /** Every byte string comes back, whatever padding was added. */
  lemma DecodesEncoded(b: seq<Byte>, padding: string)
    requires Padding(padding)
    ensures Decode(Encode(b) + padding) == Some(b)
  {
    var v := Sextets(b);
    SpelledHasNoPadding(v);
    UnpadsAll(Spelled(v), padding);
    ReadsSpelled(v);
    BytesOfSextets(b);
    SextetsLength(b);
  }

  lemma {:induction false} UnpaddedIsPrefix(s: string)
    ensures |Unpadded(s)| <= |s| && Unpadded(s) == s[..|Unpadded(s)|] && Padding(s[|Unpadded(s)|..])
    ensures Unpadded(s) != "" ==> Unpadded(s)[|Unpadded(s)| - 1] != '='
    decreases |s|
  {
    if s != "" && s[|s| - 1] == '=' {
      var t := s[..|s| - 1];
      UnpaddedIsPrefix(t);
      var n := |Unpadded(t)|;
      forall k | 0 <= k < |s[n..]| ensures s[n..][k] == '=' {
        if k < |t[n..]| { assert s[n..][k] == t[n..][k]; }
      }
    }
  }

  /** The text that comes back is the text given exactly when that had no padding and no stray bits. */
  lemma EncodesDecoded(value: string)
    requires Decode(value).Some?
    ensures Encode(Decode(value).value) == value
      <==> Unpadded(value) == value && Read(value).Some? && ZeroTail(Read(value).value)
  {
    var s := Unpadded(value);
    var v := Read(s).value;
    var w := Sextets(Bytes(v));
    SpellsRead(s);
    ReadsSpelled(v);
    SextetsOfBytes(v);
    ReadsSpelled(w);
    if Spelled(w) == value {
      SpelledHasNoPadding(w);
      assert s == value;
    }
  }

  lemma {:induction false} ReadExactly(s: string)
    ensures Read(s).Some? <==> forall k :: 0 <= k < |s| ==> Lookup(s[k]).Some?
    ensures Read(s).Some? ==> |Read(s).value| == |s|
  {
    if s != "" {
      ReadExactly(s[1..]);
      forall k | 0 < k < |s| ensures s[k] == s[1..][k - 1] {}
      assert forall k :: 0 <= k < |s[1..]| ==> s[1..][k] == s[k + 1];
    }
  }

  /** What is refused: a character outside the alphabet before the `=` it ends with, or one character over a
      group of four there. Plain base64's `+` and `/` are outside it. */
  lemma DecodesExactly(value: string)
    ensures
      var n := |Unpadded(value)|;
      && n <= |value| && Padding(value[n..]) && (n > 0 ==> value[n - 1] != '=')
      && (Decode(value).Some? <==> n % 4 != 1 && forall k :: 0 <= k < n ==> Lookup(value[k]).Some?)
    ensures Lookup('+').None? && Lookup('/').None? && Lookup('=').None?
  {
    UnpaddedIsPrefix(value);
    ReadExactly(Unpadded(value));
  }

  // The encoder's loops.

  function Chunk(b0: Byte, b1: Byte, b2: Byte): nat {
    b0 * 65536 + b1 * 256 + b2
  }

  /** Character `j` of a chunk of three bytes, as `(chunk >> (18 - 6 * j)) & 63`. */
  function Sixth(chunk: nat, j: nat): Sextet
    requires j < 4
  {
    (if j == 0 then chunk / 262144 else if j == 1 then chunk / 4096 else if j == 2 then chunk / 64 else chunk) % 64
  }

  lemma UpperSixths(b0: Byte, b1: Byte, b2: Byte)
    ensures Sixth(Chunk(b0, b1, b2), 0) == b0 / 4
    ensures Sixth(Chunk(b0, b1, b2), 1) == b0 % 4 * 16 + b1 / 16
  {
    var chunk := Chunk(b0, b1, b2);
    assert chunk / 262144 == b0 / 4;
    assert chunk / 4096 == b0 * 16 + b1 / 16;
  }

  lemma LowerSixths(b0: Byte, b1: Byte, b2: Byte)
    ensures Sixth(Chunk(b0, b1, b2), 2) == b1 % 16 * 4 + b2 / 64
    ensures Sixth(Chunk(b0, b1, b2), 3) == b2 % 64
  {
    assert Chunk(b0, b1, b2) / 64 == b0 * 1024 + b1 * 4 + b2 / 64;
  }

  lemma {:induction false} SpelledAppends(v: seq<Sextet>, x: Sextet)
    ensures Spelled(v + [x]) == Spelled(v) + [Symbol(x)]
  {
    if v == [] {
      assert v + [x] == [x];
    } else {
      assert (v + [x])[1..] == v[1..] + [x];
      SpelledAppends(v[1..], x);
    }
  }

  lemma {:induction false} SextetsAppend(b: seq<Byte>, more: seq<Byte>)
    requires |b| % 3 == 0
    ensures Sextets(b + more) == Sextets(b) + Sextets(more)
  {
    if b == [] {
      assert b + more == more;
    } else {
      assert (b + more)[3..] == b[3..] + more;
      SextetsAppend(b[3..], more);
    }
  }

  lemma GroupSixths(b: seq<Byte>, b0: Byte, b1: Byte, b2: Byte)
    requires 1 <= |b| <= 3 && b0 == b[0] && b1 == (if |b| > 1 then b[1] else 0) && b2 == (if |b| > 2 then b[2] else 0)
    ensures |Sextets(b)| == |b| + 1
    ensures forall j :: 0 <= j <= |b| ==> Sextets(b)[j] == Sixth(Chunk(b0, b1, b2), j)
  {
    UpperSixths(b0, b1, b2);
    LowerSixths(b0, b1, b2);
    if |b| == 3 { assert Sextets(b[3..]) == []; }
  }

  /** The characters of the chunk that begins at `i`. */
  method ChunkText(bytes: seq<Byte>, i: nat) returns (out: string)
    requires i < |bytes|
    ensures out == Spelled(Sextets(bytes[i..if i + 3 < |bytes| then i + 3 else |bytes|]))
  {
    var b1 := if i + 1 < |bytes| then bytes[i + 1] else 0;
    var b2 := if i + 2 < |bytes| then bytes[i + 2] else 0;
    var chunk := Chunk(bytes[i], b1, b2);
    var chars := if i + 1 >= |bytes| then 2 else if i + 2 >= |bytes| then 3 else 4;
    ghost var group := Sextets(bytes[i..if i + 3 < |bytes| then i + 3 else |bytes|]);
    GroupSixths(bytes[i..if i + 3 < |bytes| then i + 3 else |bytes|], bytes[i], b1, b2);
    out := "";
    for j := 0 to chars
      invariant out == Spelled(group[..j])
    {
      SpelledAppends(group[..j], group[j]);
      assert group[..j + 1] == group[..j] + [group[j]];
      out := out + [Symbol(Sixth(chunk, j))];
    }
    assert group[..chars] == group;
  }

  lemma {:induction false} SpelledJoins(v: seq<Sextet>, w: seq<Sextet>)
    ensures Spelled(v + w) == Spelled(v) + Spelled(w)
  {
    if v == [] {
      assert v + w == w;
    } else {
      assert (v + w)[1..] == v[1..] + w;
      SpelledJoins(v[1..], w);
    }
  }

  lemma EncodeJoins(b: seq<Byte>, more: seq<Byte>)
    requires |b| % 3 == 0
    ensures Encode(b + more) == Encode(b) + Encode(more)
  {
    SextetsAppend(b, more);
    SpelledJoins(Sextets(b), Sextets(more));
  }

  lemma EncodeNext(bytes: seq<Byte>, i: nat, end: nat)
    requires i <= end <= |bytes| && i % 3 == 0
    ensures Encode(bytes[..end]) == Encode(bytes[..i]) + Encode(bytes[i..end])
  {
    EncodeJoins(bytes[..i], bytes[i..end]);
    assert bytes[..i] + bytes[i..end] == bytes[..end];
  }

  method EncodeBytes(bytes: seq<Byte>) returns (out: string)
    ensures out == Encode(bytes)
  {
    out := "";
    var i := 0;
    assert bytes[..0] == [];
    while i < |bytes|
      invariant 0 <= i && (i < |bytes| ==> i % 3 == 0)
      invariant out == Encode(if i < |bytes| then bytes[..i] else bytes)
    {
      var text := ChunkText(bytes, i);
      ghost var end := if i + 3 < |bytes| then i + 3 else |bytes|;
      EncodeNext(bytes, i, end);
      assert bytes[..|bytes|] == bytes;
      out := out + text;
      i := i + 3;
    }
  }

  // The decoder's loop, on a 32-bit buffer that is never masked.

  const TWO32 := 0x1_0000_0000

  /** What a 32-bit shift keeps of a number. */
  function Int32(x: int): int {
    (x + 0x8000_0000) % TWO32 - 0x8000_0000
  }

  /** The lowest `bits` bits. */
  function Low(x: int, bits: nat): int {
    if bits == 0 then 0 else if bits == 2 then x % 4 else if bits == 4 then x % 16 else x % 64
  }

  function ShiftRight(x: int, bits: nat): int {
    if bits == 0 then x else if bits == 2 then x / 4 else if bits == 4 then x / 16 else x / 64
  }

  /** The lowest fourteen bits hold every bit that is still to be used. */
  lemma LowDecides(x: int, bits: nat)
    requires bits in {0, 2, 4, 6}
    ensures ShiftRight(x, bits) % 256 == ShiftRight(x % 16384, bits) % 256
    ensures Low(x, bits) == Low(x % 16384, bits)
  {
    var q, r := x / 16384, x % 16384;
    assert x == 16384 * q + r;
    if bits == 0 { Multiple(r, 64 * q, 256); }
    if bits == 2 { assert x / 4 == 4096 * q + r / 4; Multiple(r / 4, 16 * q, 256); Multiple(r, 4096 * q, 4); }
    if bits == 4 { assert x / 16 == 1024 * q + r / 16; Multiple(r / 16, 4 * q, 256); Multiple(r, 1024 * q, 16); }
    if bits == 6 { assert x / 64 == 256 * q + r / 64; Multiple(r / 64, q, 256); Multiple(r, 256 * q, 64); }
  }

  lemma Multiple(r: int, q: int, d: nat)
    requires d in {4, 16, 64, 256, 16384}
    ensures (r + d * q) % d == r % d
  {
    var p := r / d + q;
    var k, m := (r + d * q) / d, (r + d * q) % d;
    assert d * k + m == d * p + r % d;
    Unique(d, k, m, p, r % d);
  }

  lemma Unique(d: nat, k: int, m: nat, p: int, r: nat)
    requires m < d && r < d && d * k + m == d * p + r
    ensures m == r
  {
    if k < p {
      NextMultiple(d, k, p);
    } else if p < k {
      NextMultiple(d, p, k);
    }
  }

  lemma {:induction false} NextMultiple(d: nat, k: int, p: int)
    requires k < p
    ensures d * k + d <= d * p
    decreases p - k
  {
    assert d * p == d * (p - 1) + d;
    if p > k + 1 { NextMultiple(d, k, p - 1); }
  }

  lemma WrapKeepsLow(x: int, bits: nat)
    requires bits in {0, 2, 4, 6}
    ensures ShiftRight(Int32(x), bits) % 256 == ShiftRight(x, bits) % 256
    ensures Low(Int32(x), bits) == Low(x, bits)
  {
    var k := (x + 0x8000_0000) / TWO32;
    assert x == Int32(x) + 16384 * (262144 * k);
    Multiple(Int32(x), 262144 * k, 16384);
    LowDecides(x, bits);
    LowDecides(Int32(x), bits);
  }

  /** What value `x` after the values `v` completes: a byte, but for the first value of a group. */
  function Pushed(v: seq<Sextet>, x: Sextet): seq<Byte> {
    if |v| >= 4 then Pushed(v[4..], x)
    else if |v| == 0 then []
    else if |v| == 1 then [First(v[0], x)]
    else if |v| == 2 then [Second(v[1], x)]
    else [Third(v[2], x)]
  }

  lemma {:induction false} BytesAppend(v: seq<Sextet>, x: Sextet)
    ensures Bytes(v + [x]) == Bytes(v) + Pushed(v, x)
  {
    var w := v + [x];
    if |v| >= 4 {
      assert w[4..] == v[4..] + [x];
      BytesAppend(v[4..], x);
    } else if |v| == 3 {
      assert w[4..] == [];
    }
  }

  lemma {:induction false} PushedIsLast(v: seq<Sextet>, x: Sextet)
    ensures |v| % 4 == 0 ==> Pushed(v, x) == []
    ensures |v| % 4 == 1 ==> Pushed(v, x) == [First(v[|v| - 1], x)]
    ensures |v| % 4 == 2 ==> Pushed(v, x) == [Second(v[|v| - 1], x)]
    ensures |v| % 4 == 3 ==> Pushed(v, x) == [Third(v[|v| - 1], x)]
  {
    if |v| >= 4 {
      PushedIsLast(v[4..], x);
      if |v| > 4 { assert v[4..][|v| - 5] == v[|v| - 1]; }
    }
  }

  /** Bits waiting after so many values: six, four, two, none. */
  function Waiting(count: nat): nat {
    if count % 4 == 0 then 0 else if count % 4 == 1 then 6 else if count % 4 == 2 then 4 else 2
  }

  /** Joining a value to a shifted buffer is one wrap of the whole sum. */
  lemma Absorbed(buffer: int, x: Sextet)
    ensures Int32(buffer * 64) + x == Int32(buffer * 64 + x)
  {
    var y := Int32(buffer * 64);
    var k := (buffer * 64 + 0x8000_0000) / TWO32;
    assert buffer * 64 == y + k * TWO32;
    assert y == 64 * (buffer - k * 0x400_0000);
    assert y + x < 0x8000_0000;
  }

  /** The pushed byte is the waiting bits of the buffer and the top of the new value. */
  lemma PushedByte(buffer: int, place: nat, previous: Sextet, x: Sextet)
    requires 1 <= place <= 3 && Low(buffer, Waiting(place)) == Low(previous, Waiting(place))
    ensures ShiftRight(Int32(buffer * 64) + x, Waiting(place) - 2) % 256 == if place == 1 then First(previous, x) else if place == 2 then Second(previous, x) else Third(previous, x)
  {
    var t := buffer * 64 + x;
    Absorbed(buffer, x);
    WrapKeepsLow(t, Waiting(place) - 2);
    if place == 1 {
      FirstByte(buffer, previous, x);
    } else if place == 2 {
      SecondByte(buffer, previous, x);
    } else {
      ThirdByte(buffer, previous, x);
    }
  }

  lemma FirstByte(buffer: int, previous: Sextet, x: Sextet)
    requires buffer % 64 == previous
    ensures (buffer * 64 + x) / 16 % 256 == previous * 4 + x / 16
  {
    assert buffer == 64 * (buffer / 64) + previous;
    assert (buffer * 64 + x) / 16 == 256 * (buffer / 64) + (previous * 4 + x / 16);
    Multiple(previous * 4 + x / 16, buffer / 64, 256);
  }

  lemma SecondByte(buffer: int, previous: Sextet, x: Sextet)
    requires buffer % 16 == previous % 16
    ensures (buffer * 64 + x) / 4 % 256 == previous % 16 * 16 + x / 4
  {
    assert buffer == 16 * (buffer / 16) + previous % 16;
    assert (buffer * 64 + x) / 4 == 256 * (buffer / 16) + (previous % 16 * 16 + x / 4);
    Multiple(previous % 16 * 16 + x / 4, buffer / 16, 256);
  }

  lemma ThirdByte(buffer: int, previous: Sextet, x: Sextet)
    requires buffer % 4 == previous % 4
    ensures (buffer * 64 + x) % 256 == previous % 4 * 64 + x
  {
    assert buffer == 4 * (buffer / 4) + previous % 4;
    Multiple(previous % 4 * 64 + x, buffer / 4, 256);
  }

  lemma LowAfter(buffer: int, x: Sextet, bits: nat)
    requires bits in {0, 2, 4, 6}
    ensures Low(Int32(buffer * 64) + x, bits) == Low(x, bits)
  {
    Absorbed(buffer, x);
    WrapKeepsLow(buffer * 64 + x, bits);
    if bits == 2 { Multiple(x, 16 * buffer, 4); }
    if bits == 4 { Multiple(x, 4 * buffer, 16); }
    if bits == 6 { Multiple(x, buffer, 64); }
  }

  lemma {:induction false} ReadJoins(s: string, t: string)
    ensures Read(s + t) == if Read(s).Some? && Read(t).Some? then Some(Read(s).value + Read(t).value) else None
  {
    if s == "" {
      assert s + t == t;
      if Read(t).Some? { assert Read(s).value + Read(t).value == Read(t).value; }
    } else {
      assert (s + t)[1..] == s[1..] + t;
      ReadJoins(s[1..], t);
      if Lookup(s[0]).Some? && Read(s[1..]).Some? && Read(t).Some? {
        var a, r, u := Lookup(s[0]).value, Read(s[1..]).value, Read(t).value;
        assert [a] + (r + u) == ([a] + r) + u;
      }
    }
  }

  lemma ReadPrefix(s: string, k: nat)
    requires k < |s| && Read(s[..k]).Some?
    ensures Lookup(s[k]).Some? ==> Read(s[..k + 1]) == Some(Read(s[..k]).value + [Lookup(s[k]).value])
    ensures Lookup(s[k]).None? ==> Read(s).None?
  {
    var one := [s[k]];
    assert one[1..] == "";
    assert Lookup(s[k]).Some? ==> Read(one) == Some([Lookup(s[k]).value]) by {
      if Lookup(s[k]).Some? { assert [Lookup(s[k]).value] + Read("").value == [Lookup(s[k]).value]; }
    }
    assert s[..k + 1] == s[..k] + one;
    assert s == s[..k + 1] + s[k + 1..];
    ReadJoins(s[..k], one);
    ReadJoins(s[..k + 1], s[k + 1..]);
  }

  /** One turn of the decoder pushes what the value completes. */
  lemma PushedIsByte(v: seq<Sextet>, buffer: int, x: Sextet)
    requires v != [] ==> Low(buffer, Waiting(|v|)) == Low(v[|v| - 1], Waiting(|v|))
    ensures Pushed(v, x) == if |v| % 4 == 0 then [] else [ShiftRight(Int32(buffer * 64) + x, Waiting(|v|) - 2) % 256]
  {
    PushedIsLast(v, x);
    var place := |v| % 4;
    assert Waiting(|v|) == Waiting(place);
    if place != 0 { PushedByte(buffer, place, v[|v| - 1], x); }
  }

  lemma WaitingNext(count: nat)
    ensures Waiting(count + 1) == if count % 4 == 0 then Waiting(count) + 6 else Waiting(count) - 2
    ensures count % 4 == 0 <==> Waiting(count) == 0
  {
  }

  method DecodeText(value: string) returns (r: Option<seq<Byte>>)
    ensures r == Decode(value)
  {
    var unpadded := Unpadded(value);
    if |unpadded| % 4 == 1 { return None; }
    var out: seq<Byte> := [];
    var buffer := 0;
    var bits := 0;
    ghost var v: seq<Sextet> := [];
    for i := 0 to |unpadded|
      invariant Read(unpadded[..i]) == Some(v) && |v| == i
      invariant out == Bytes(v)
      invariant bits == Waiting(i)
      invariant i > 0 ==> Low(buffer, bits) == Low(v[i - 1], bits)
    {
      ReadPrefix(unpadded, i);
      var index := Lookup(unpadded[i]);
      if index.None? { return None; }
      BytesAppend(v, index.value);
      LowAfter(buffer, index.value, Waiting(i + 1));
      PushedIsByte(v, buffer, index.value);
      WaitingNext(i);
      v := v + [index.value];
      buffer := Int32(buffer * 64) + index.value;
      bits := bits + 6;
      if bits >= 8 {
        bits := bits - 8;
        out := out + [ShiftRight(buffer, bits) % 256];
      }
    }
    assert unpadded[..|unpadded|] == unpadded;
    r := Some(out);
  }
}
