/** Base64 as section 4 of RFC 4648 defines it, bit by bit, and the three-byte loop that computes it. */
module Base64 {
  import opened Wrappers

  // ---------- The definition ----------

  /** Most significant bit first. */
  function BitsOf(b: bv8): (bits: seq<bool>)
    ensures |bits| == 8
  {
    [b & 128 != 0, b & 64 != 0, b & 32 != 0, b & 16 != 0, b & 8 != 0, b & 4 != 0, b & 2 != 0, b & 1 != 0]
  }

  function Bits(input: seq<bv8>): (bits: seq<bool>)
    ensures |bits| == 8 * |input|
  {
    if input == [] then [] else BitsOf(input[0]) + Bits(input[1..])
  }

  /** The number six bits stand for. */
  function Sextet(bits: seq<bool>): (n: nat)
    requires |bits| == 6
    ensures n < 64
  {
    (if bits[0] then 32 else 0) + (if bits[1] then 16 else 0) + (if bits[2] then 8 else 0)
    + (if bits[3] then 4 else 0) + (if bits[4] then 2 else 0) + (if bits[5] then 1 else 0)
  }

  function SextetBits(n: nat): (bits: seq<bool>)
    requires n < 64
    ensures |bits| == 6 && Sextet(bits) == n
  {
    var n4 := if n >= 32 then n - 32 else n;
    var n3 := if n4 >= 16 then n4 - 16 else n4;
    var n2 := if n3 >= 8 then n3 - 8 else n3;
    var n1 := if n2 >= 4 then n2 - 4 else n2;
    var n0 := if n1 >= 2 then n1 - 2 else n1;
    [n >= 32, n4 >= 16, n3 >= 8, n2 >= 4, n1 >= 2, n0 >= 1]
  }

  /** Table 1. */
  function Letter(n: nat): (c: char)
    requires n < 64
    ensures c != '=' && Value(c) == Some(n)
  {
    if n < 26 then 'A' + n as char
    else if n < 52 then 'a' + (n - 26) as char
    else if n < 62 then '0' + (n - 52) as char
    else if n == 62 then '+'
    else '/'
  }

  function Value(c: char): (value: Option<nat>)
    ensures value.Some? ==> value.value < 64
  {
    if 'A' <= c <= 'Z' then Some(c as nat - 'A' as nat)
    else if 'a' <= c <= 'z' then Some(c as nat - 'a' as nat + 26)
    else if '0' <= c <= '9' then Some(c as nat - '0' as nat + 52)
    else if c == '+' then Some(62)
    else if c == '/' then Some(63)
    else None
  }

  function Zeros(n: nat): (bits: seq<bool>)
    ensures |bits| == n
  {
    seq(n, _ => false)
  }

  type Six = bits: seq<bool> | |bits| == 6 witness [false, false, false, false, false, false]

  /** Groups of six bits, zero bits completing the last. */
  function Groups(bits: seq<bool>): seq<Six>
    decreases |bits|
  {
    if bits == [] then []
    else if |bits| < 6 then [bits + Zeros(6 - |bits|)]
    else [bits[..6]] + Groups(bits[6..])
  }

  function LetterOf(bits: Six): char {
    Letter(Sextet(bits))
  }

  function Spell(groups: seq<Six>): (s: string)
    ensures |s| == |groups|
  {
    seq(|groups|, i requires 0 <= i < |groups| => LetterOf(groups[i]))
  }

  function Letters(bits: seq<bool>): string {
    Spell(Groups(bits))
  }

  function Padding(n: nat): string {
    if n >= 3 then Padding(n - 3) else if n == 1 then "==" else if n == 2 then "=" else ""
  }

  function Encode(input: seq<bv8>): string {
    Letters(Bits(input)) + Padding(|input|)
  }

  // ---------- Decoding ----------

  function Unpadded(s: string): string {
    if s != "" && s[|s| - 1] == '=' then Unpadded(s[..|s| - 1]) else s
  }

  function LetterBits(s: string): Option<seq<bool>> {
    if s == "" then Some([])
    else match (Value(s[0]), LetterBits(s[1..]))
      case (Some(value), Some(bits)) => Some(SextetBits(value) + bits)
      case _ => None
  }

  function Octet(bits: seq<bool>): (b: bv8)
    requires |bits| == 8
  {
    (if bits[0] then 128 else 0) | (if bits[1] then 64 else 0) | (if bits[2] then 32 else 0)
    | (if bits[3] then 16 else 0) | (if bits[4] then 8 else 0) | (if bits[5] then 4 else 0)
    | (if bits[6] then 2 else 0) | (if bits[7] then 1 else 0)
  }

  /** The whole octets; bits that complete none are dropped. */
  function Octets(bits: seq<bool>): seq<bv8>
    decreases |bits|
  {
    if |bits| < 8 then [] else [Octet(bits[..8])] + Octets(bits[8..])
  }

  function Decode(s: string): Option<seq<bv8>> {
    match LetterBits(Unpadded(s))
    case Some(bits) => Some(Octets(bits))
    case None => None
  }

  lemma SextetRoundTrip(bits: seq<bool>)
    requires |bits| == 6
    ensures SextetBits(Sextet(bits)) == bits
  {
  }

  lemma OctetRoundTrip(b: bv8)
    ensures Octet(BitsOf(b)) == b
  {
  }

  function Flatten(groups: seq<Six>): seq<bool> {
    if groups == [] then [] else groups[0] + Flatten(groups[1..])
  }

  lemma {:induction false} FlattenGroups(bits: seq<bool>) returns (fill: seq<bool>)
    ensures |fill| < 6 && Flatten(Groups(bits)) == bits + fill
    decreases |bits|
  {
    if bits == [] {
      fill := [];
    } else if |bits| < 6 {
      fill := Zeros(6 - |bits|);
      assert Groups(bits)[1..] == [] && bits + fill + [] == bits + fill;
    } else {
      fill := FlattenGroups(bits[6..]);
      assert Groups(bits)[1..] == Groups(bits[6..]);
      assert bits[..6] + (bits[6..] + fill) == bits + fill;
    }
  }

  lemma {:induction false} SpellRoundTrip(groups: seq<Six>)
    ensures LetterBits(Spell(groups)) == Some(Flatten(groups))
  {
    if groups != [] {
      SextetRoundTrip(groups[0]);
      SpellRoundTrip(groups[1..]);
      assert Spell(groups)[0] == LetterOf(groups[0]) && Spell(groups)[1..] == Spell(groups[1..]);
    }
  }

  lemma {:induction false} OctetsRoundTrip(input: seq<bv8>, rest: seq<bool>)
    requires |rest| < 8
    ensures Octets(Bits(input) + rest) == input
  {
    if input != [] {
      var bits := Bits(input) + rest;
      OctetsRoundTrip(input[1..], rest);
      assert bits[..8] == BitsOf(input[0]);
      assert bits[8..] == Bits(input[1..]) + rest;
      OctetRoundTrip(input[0]);
    }
  }

  lemma UnpaddedEncoding(letters: string, n: nat)
    requires '=' !in letters
    ensures Unpadded(letters + Padding(n)) == letters
  {
    if n >= 3 {
      UnpaddedEncoding(letters, n - 3);
      return;
    }
    if letters != "" {
      assert letters[|letters| - 1] in letters;
    }
    assert Unpadded(letters) == letters;
    assert letters + "" == letters;
    assert (letters + "=")[..|letters|] == letters;
    assert (letters + "==")[..|letters| + 1] == letters + "=";
  }

  /** Decoding gives back every byte sequence; in particular two encodings never coincide. */
  lemma RoundTrip(input: seq<bv8>)
    ensures Decode(Encode(input)) == Some(input)
  {
    SpellIsPlain(Groups(Bits(input)));
    UnpaddedEncoding(Letters(Bits(input)), |input|);
    var fill := FlattenGroups(Bits(input));
    SpellRoundTrip(Groups(Bits(input)));
    OctetsRoundTrip(input, fill);
  }

  /** Four characters for every three bytes begun; `=` exactly in the last places. */
  lemma {:induction false} Shape(input: seq<bv8>)
    ensures |Encode(input)| == 4 * ((|input| + 2) / 3)
    ensures forall i :: 0 <= i < |Encode(input)| - (3 - |input| % 3) % 3 ==> Value(Encode(input)[i]).Some?
    ensures forall i :: |Encode(input)| - (3 - |input| % 3) % 3 <= i < |Encode(input)| ==> Encode(input)[i] == '='
  {
    var letters := Letters(Bits(input));
    GroupCount(Bits(input));
    SpellIsPlain(Groups(Bits(input)));
    PaddingLength(|input|);
    LengthFormula(|input|);
    forall i | |letters| <= i < |Encode(input)| ensures Encode(input)[i] == '=' {
      assert Padding(|input|)[i - |letters|] in Padding(|input|);
    }
  }

  lemma {:induction false} LengthFormula(n: nat)
    ensures (8 * n + 5) / 6 + (3 - n % 3) % 3 == 4 * ((n + 2) / 3)
  {
    var (q, r) := (n / 3, n % 3);
    assert n == 3 * q + r && 0 <= r < 3;
  }

  lemma PaddingLength(n: nat)
    ensures |Padding(n)| == (3 - n % 3) % 3 && forall c :: c in Padding(n) ==> c == '='
  {
  }

  lemma {:induction false} GroupCount(bits: seq<bool>)
    ensures |Groups(bits)| == (|bits| + 5) / 6
    decreases |bits|
  {
    if |bits| >= 6 {
      GroupCount(bits[6..]);
    }
  }

  lemma SpellIsPlain(groups: seq<Six>)
    ensures '=' !in Spell(groups)
    ensures forall i :: 0 <= i < |groups| ==> Value(Spell(groups)[i]).Some?
  {
  }

  // ---------- The loop over chunks of three bytes ----------

  lemma {:induction false} BitsAppend(left: seq<bv8>, right: seq<bv8>)
    ensures Bits(left + right) == Bits(left) + Bits(right)
  {
    if left == [] {
      assert left + right == right;
    } else {
      BitsAppend(left[1..], right);
      assert (left + right)[1..] == left[1..] + right && (left + right)[0] == left[0];
    }
  }

  lemma {:induction false} GroupsAppend(left: seq<bool>, right: seq<bool>, count: nat)
    requires |left| == 6 * count
    ensures Groups(left + right) == Groups(left) + Groups(right)
    decreases count
  {
    if left == [] {
      assert left + right == right;
    } else {
      GroupsAppend(left[6..], right, count - 1);
      assert (left + right)[6..] == left[6..] + right;
      assert (left + right)[..6] == left[..6];
    }
  }

  lemma LettersAppend(left: seq<bool>, right: seq<bool>, count: nat)
    requires |left| == 6 * count
    ensures Letters(left + right) == Letters(left) + Letters(right)
  {
    GroupsAppend(left, right, count);
    var (x, y) := (Groups(left), Groups(right));
    assert Spell(x + y) == Spell(x) + Spell(y);
  }

  lemma PaddingPeriod(chunks: nat, n: nat)
    ensures Padding(3 * chunks + n) == Padding(n)
  {
    if chunks > 0 {
      PaddingPeriod(chunks - 1, n);
      assert 3 * chunks + n - 3 == 3 * (chunks - 1) + n;
    }
  }

  lemma EncodeAppend(left: seq<bv8>, right: seq<bv8>, chunks: nat)
    requires |left| == 3 * chunks
    ensures Encode(left + right) == Encode(left) + Encode(right)
  {
    BitsAppend(left, right);
    LettersAppend(Bits(left), Bits(right), 4 * chunks);
    PaddingPeriod(chunks, 0);
    PaddingPeriod(chunks, |right|);
    assert |left + right| == 3 * chunks + |right|;
  }

  /** The 64 letters as a table. */
  function At(n: bv32): (c: char)
    requires n < 64
    ensures c == Letter(n as nat)
  {
    assert n as nat < 64;
    TableIsAlphabet(n as nat);
    TABLE[n as nat]
  }

  const TABLE: string := UPPER + LOWER + OTHER
  const UPPER: string := "ABCDEFGHIJKLMNOPQRSTUVWXYZ"
  const LOWER: string := "abcdefghijklmnopqrstuvwxyz"
  const OTHER: string := "0123456789+/"

  lemma TableIsAlphabet(n: nat)
    requires n < 64
    ensures |TABLE| == 64 && TABLE[n] == Letter(n)
  {
  }

  predicate HasBits(n: bv32, b5: bool, b4: bool, b3: bool, b2: bool, b1: bool, b0: bool) {
    && n < 64 && (n & 32 != 0) == b5 && (n & 16 != 0) == b4 && (n & 8 != 0) == b3
    && (n & 4 != 0) == b2 && (n & 2 != 0) == b1 && (n & 1 != 0) == b0
  }

  lemma AtBits(n: bv32, bits: seq<bool>)
    requires |bits| == 6 && HasBits(n, bits[0], bits[1], bits[2], bits[3], bits[4], bits[5])
    ensures At(n) == Letter(Sextet(bits))
  {
  }

  lemma TripleBits(b0: bv8, b1: bv8, b2: bv8, triple: bv32)
    requires triple == ((b0 as bv32) << 16) | ((b1 as bv32) << 8) | (b2 as bv32)
    ensures var (x, y, z) := (BitsOf(b0), BitsOf(b1), BitsOf(b2));
            && HasBits((triple >> 18) & 0x3f, x[0], x[1], x[2], x[3], x[4], x[5])
            && HasBits((triple >> 12) & 0x3f, x[6], x[7], y[0], y[1], y[2], y[3])
            && HasBits((triple >> 6) & 0x3f, y[4], y[5], y[6], y[7], z[0], z[1])
            && HasBits(triple & 0x3f, z[2], z[3], z[4], z[5], z[6], z[7])
  {
  }

  lemma TripleLetters(b0: bv8, b1: bv8, b2: bv8, triple: bv32)
    requires triple == ((b0 as bv32) << 16) | ((b1 as bv32) << 8) | (b2 as bv32)
    ensures var (x, y, z) := (BitsOf(b0), BitsOf(b1), BitsOf(b2));
            && At((triple >> 18) & 0x3f) == LetterOf(x[..6])
            && At((triple >> 12) & 0x3f) == LetterOf(x[6..] + y[..4])
            && At((triple >> 6) & 0x3f) == LetterOf(y[4..] + z[..2])
            && At(triple & 0x3f) == LetterOf(z[2..])
  {
    TripleBits(b0, b1, b2, triple);
    var (x, y, z) := (BitsOf(b0), BitsOf(b1), BitsOf(b2));
    AtBits((triple >> 18) & 0x3f, x[..6]);
    AtBits((triple >> 12) & 0x3f, x[6..] + y[..4]);
    AtBits((triple >> 6) & 0x3f, y[4..] + z[..2]);
    AtBits(triple & 0x3f, z[2..]);
  }

  lemma {:induction false} WholeLetter(bits: seq<bool>, rest: seq<bool>)
    requires |bits| == 6
    ensures Letters(bits + rest) == [LetterOf(bits)] + Letters(rest)
  {
  }

  lemma {:induction false} OneByte(x: seq<bool>)
    requires |x| == 8
    ensures Letters(x) == [LetterOf(x[..6]), LetterOf(x[6..] + Zeros(8)[..4])]
  {
    WholeLetter(x[..6], x[6..]);
    assert x[..6] + x[6..] == x && x[6..] + Zeros(8)[..4] == x[6..] + Zeros(4);
  }

  lemma {:induction false} TwoBytes(x: seq<bool>, y: seq<bool>)
    requires |x| == |y| == 8
    ensures Letters(x + y)
         == [LetterOf(x[..6]), LetterOf(x[6..] + y[..4]), LetterOf(y[4..] + Zeros(8)[..2])]
  {
    var s1 := x[6..] + y[..4];
    WholeLetter(x[..6], s1 + y[4..]);
    WholeLetter(s1, y[4..]);
    assert x[..6] + (s1 + y[4..]) == x + y;
    assert y[4..] + Zeros(8)[..2] == y[4..] + Zeros(2);
  }

  lemma {:induction false} ThreeBytes(x: seq<bool>, y: seq<bool>, z: seq<bool>)
    requires |x| == |y| == |z| == 8
    ensures Letters(x + (y + z))
         == [LetterOf(x[..6]), LetterOf(x[6..] + y[..4]), LetterOf(y[4..] + z[..2]), LetterOf(z[2..])]
  {
    var (s1, s2) := (x[6..] + y[..4], y[4..] + z[..2]);
    WholeLetter(x[..6], s1 + (s2 + z[2..]));
    WholeLetter(s1, s2 + z[2..]);
    WholeLetter(s2, z[2..]);
    WholeLetter(z[2..], []);
    assert z[2..] + [] == z[2..];
    assert x[..6] + (s1 + (s2 + z[2..])) == x + (y + z);
  }

  lemma {:induction false} BitsOfChunk(chunk: seq<bv8>)
    requires 1 <= |chunk| <= 3
    ensures |chunk| == 1 ==> Bits(chunk) == BitsOf(chunk[0])
    ensures |chunk| == 2 ==> Bits(chunk) == BitsOf(chunk[0]) + BitsOf(chunk[1])
    ensures |chunk| == 3 ==> Bits(chunk) == BitsOf(chunk[0]) + (BitsOf(chunk[1]) + BitsOf(chunk[2]))
  {
    if |chunk| > 1 {
      BitsOfChunk(chunk[1..]);
    } else {
      assert Bits(chunk[1..]) == [];
      assert BitsOf(chunk[0]) + [] == BitsOf(chunk[0]);
    }
  }

  lemma ZeroBits()
    ensures BitsOf(0) == Zeros(8)
  {
  }

  lemma {:induction false} ChunkEncoding(chunk: seq<bv8>, b1: bv8, b2: bv8)
    requires 1 <= |chunk| <= 3
    requires b1 == (if |chunk| > 1 then chunk[1] else 0) && b2 == if |chunk| > 2 then chunk[2] else 0
    ensures var (x, y, z) := (BitsOf(chunk[0]), BitsOf(b1), BitsOf(b2));
            Encode(chunk) == [LetterOf(x[..6]), LetterOf(x[6..] + y[..4])]
              + [if |chunk| > 1 then LetterOf(y[4..] + z[..2]) else '=']
              + [if |chunk| > 2 then LetterOf(z[2..]) else '=']
  {
    ZeroBits();
    BitsOfChunk(chunk);
    if |chunk| == 1 {
      OneByte(BitsOf(chunk[0]));
    } else if |chunk| == 2 {
      TwoBytes(BitsOf(chunk[0]), BitsOf(b1));
    } else {
      ThreeBytes(BitsOf(chunk[0]), BitsOf(b1), BitsOf(b2));
    }
  }

  /** One turn of the loop: four characters for the one, two or three bytes of a chunk. */
  method EncodeChunk(chunk: seq<bv8>) returns (quad: string)
    requires 1 <= |chunk| <= 3
    ensures quad == Encode(chunk)
  {
    var b0 := chunk[0];
    var b1 := if |chunk| > 1 then chunk[1] else 0;
    var b2 := if |chunk| > 2 then chunk[2] else 0;
    var triple := ((b0 as bv32) << 16) | ((b1 as bv32) << 8) | (b2 as bv32);
    var n0, n1, n2, n3 := (triple >> 18) & 0x3f, (triple >> 12) & 0x3f, (triple >> 6) & 0x3f, triple & 0x3f;
    quad := [At(n0), At(n1)];
    quad := quad + [if |chunk| > 1 then At(n2) else '='];
    quad := quad + [if |chunk| > 2 then At(n3) else '='];
    TripleLetters(b0, b1, b2, triple);
    ChunkEncoding(chunk, b1, b2);
  }

  /** The first test vectors of section 10 of RFC 4648. */
  lemma {:induction false} Vectors()
    ensures Encode([]) == "" && Encode([0x66]) == "Zg==" && Encode([0x66, 0x6F]) == "Zm8="
    ensures Encode([0x66, 0x6F, 0x6F]) == "Zm9v"
  {
    ChunkEncoding([0x66], 0, 0);
    ChunkEncoding([0x66, 0x6F], 0x6F, 0);
    ChunkEncoding([0x66, 0x6F, 0x6F], 0x6F, 0x6F);
    BitsOfLetters();
  }

  lemma {:induction false} BitsOfLetters()
    ensures BitsOf(0x66) == [false, true, true, false, false, true, true, false]
    ensures BitsOf(0x6F) == [false, true, true, false, true, true, true, true]
    ensures BitsOf(0) == Zeros(8)
  {
  }

  method Base64Standard(input: seq<bv8>) returns (out: string)
    ensures out == Encode(input)
  {
    out := "";
    var i := 0;
    ghost var chunks := 0;
    while i < |input|
      invariant 0 <= i <= |input| && (i < |input| ==> i == 3 * chunks)
      invariant out == Encode(input[..i])
    {
      var chunk := input[i..if i + 3 < |input| then i + 3 else |input|];
      var quad := EncodeChunk(chunk);
      EncodeAppend(input[..i], chunk, chunks);
      assert input[..i + |chunk|] == input[..i] + chunk;
      out := out + quad;
      i := i + |chunk|;
      chunks := chunks + 1;
    }
    assert input[..i] == input;
  }
}

/** Percent-encoding as sections 2.1 and 2.3 of RFC 3986 define it. */
module PercentEncoding {
  import opened Wrappers

  /** Section 2.3: letters, digits, `-`, `.`, `_` and `~`. */
  predicate Unreserved(c: char) {
    'A' <= c <= 'Z' || 'a' <= c <= 'z' || '0' <= c <= '9' || c in {'-', '_', '.', '~'}
  }

  function HexValue(c: char): (value: Option<nat>)
    ensures value.Some? ==> value.value < 16
  {
    if '0' <= c <= '9' then Some(c as nat - '0' as nat)
    else if 'A' <= c <= 'F' then Some(c as nat - 'A' as nat + 10)
    else None
  }

  /** Section 2.1: the octet an upper-case triplet stands for. */
  function Triplet(s: string): (octet: Option<nat>)
    ensures octet.Some? ==> octet.value < 256 && |s| >= 3
  {
    if |s| < 3 || s[0] != '%' then None
    else match (HexValue(s[1]), HexValue(s[2]))
      case (Some(high), Some(low)) => Some(16 * high + low)
      case _ => None
  }

  function PercentDecode(s: string): Option<seq<nat>> {
    if s == "" then Some([])
    else if s[0] != '%' then
      match PercentDecode(s[1..])
      case Some(rest) => Some([s[0] as nat] + rest)
      case None => None
    else match Triplet(s)
      case None => None
      case Some(octet) =>
        match PercentDecode(s[3..])
        case Some(rest) => Some([octet] + rest)
        case None => None
  }

  /** Only unreserved characters, and triplets for the octets that are not unreserved. */
  predicate Normal(s: string) {
    if s == "" then true
    else if s[0] != '%' then Unreserved(s[0]) && Normal(s[1..])
    else
      && Triplet(s).Some?
      && !Unreserved(Triplet(s).value as char)
      && Normal(s[3..])
  }

  lemma {:induction false} Append(left: string, right: string)
    requires Normal(left) && PercentDecode(left).Some? && PercentDecode(right).Some? && Normal(right)
    ensures Normal(left + right)
    ensures PercentDecode(left + right) == Some(PercentDecode(left).value + PercentDecode(right).value)
  {
    var (x, y) := (PercentDecode(left).value, PercentDecode(right).value);
    if left == "" {
      assert left + right == right && x + y == y;
    } else {
      var n := if left[0] == '%' then 3 else 1;
      Append(left[n..], right);
      assert (left + right)[n..] == left[n..] + right;
      assert x + y == [x[0]] + (x[1..] + y);
      assert Triplet(left + right) == Triplet(left);
    }
  }

  /** A byte sequence has only one normal spelling, so the encoding is injective and determined. */
  lemma {:induction false} NormalFormIsUnique(s: string, t: string)
    requires Normal(s) && Normal(t) && PercentDecode(s) == PercentDecode(t) != None
    ensures s == t
  {
    if s != "" && t != "" {
      var x := PercentDecode(s).value;
      FirstOctet(s);
      FirstOctet(t);
      var n := if s[0] == '%' then 3 else 1;
      NormalFormIsUnique(s[n..], t[n..]);
      assert s == s[..n] + s[n..] && t == t[..n] + t[n..];
    }
  }

  lemma FirstOctet(s: string)
    requires s != "" && Normal(s) && PercentDecode(s).Some?
    ensures var (n, x) := (if s[0] == '%' then 3 else 1, PercentDecode(s).value);
            && x != [] && x[0] < 256 && |s| >= n && PercentDecode(s[n..]) == Some(x[1..])
            && Normal(s[n..]) && s[..n] == Spelling(x[0])
  {
    if s[0] == '%' {
      TripletSpelling(s);
    }
  }

  lemma TripletSpelling(s: string)
    requires Triplet(s).Some?
    ensures var octet := Triplet(s).value; s[..3] == ['%', UpperHex(octet / 16), UpperHex(octet % 16)]
  {
  }

  function UpperHex(n: nat): (c: char)
    requires n < 16
    ensures HexValue(c) == Some(n) && forall d :: HexValue(d) == Some(n) ==> d == c
  {
    if n < 10 then '0' + n as char else 'A' + (n - 10) as char
  }

  /** `{byte:02X}` after a percent sign, for a byte that is not unreserved. */
  function Spelling(octet: nat): (s: string)
    requires octet < 256
  {
    if Unreserved(octet as char) then [octet as char]
    else ['%', UpperHex(octet / 16), UpperHex(octet % 16)]
  }

  method Urlencode(value: seq<nat>) returns (out: string)
    requires forall i :: 0 <= i < |value| ==> value[i] < 256
    ensures Normal(out) && PercentDecode(out) == Some(value)
  {
    out := "";
    var i := 0;
    while i < |value|
      invariant 0 <= i <= |value|
      invariant Normal(out) && PercentDecode(out) == Some(value[..i])
    {
      var spelling := Spelling(value[i]);
      SpellingIsNormal(value[i]);
      Append(out, spelling);
      assert value[..i + 1] == value[..i] + [value[i]];
      out := out + spelling;
      i := i + 1;
    }
    assert value[..i] == value;
  }

  lemma SpellingIsNormal(octet: nat)
    requires octet < 256
    ensures Normal(Spelling(octet)) && PercentDecode(Spelling(octet)) == Some([octet])
  {
    var s := Spelling(octet);
    assert s[|s|..] == "" && PercentDecode("") == Some([]) && Normal("");
    assert [octet] + [] == [octet];
    if !Unreserved(octet as char) {
      assert Triplet(s) == Some(octet);
      assert PercentDecode(s) == Some([octet] + []);
    }
  }

  /** What stays and what does not, by example. */
  lemma {:induction false} SpellingsByExample()
    ensures Spelling('A' as nat) == "A" && Spelling('z' as nat) == "z" && Spelling('7' as nat) == "7"
    ensures Spelling('-' as nat) == "-" && Spelling('.' as nat) == "." && Spelling('_' as nat) == "_"
    ensures Spelling('~' as nat) == "~" && Spelling(' ' as nat) == "%20" && Spelling('/' as nat) == "%2F"
    ensures Spelling('%' as nat) == "%25" && Spelling('+' as nat) == "%2B" && Spelling(0xE2) == "%E2"
  {
  }
}
