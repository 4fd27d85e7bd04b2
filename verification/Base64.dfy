/**
 Converter::to_base64 and from_base64: index loops over a result buffer, the encoder with
 24-bit groups, the decoder with a 32-bit accumulator that wraps around.
 */
module Base64 {
  import opened Types

  const WORD: int := 0x1_0000_0000

  /** The alphabet of section 4 of RFC 4648. */
  function Letter(k: int): (c: char)
    requires 0 <= k < 64
    ensures c != '=' && Sextet(c) == k
  {
    if k < 26 then 'A' + k as char
    else if k < 52 then 'a' + (k - 26) as char
    else if k < 62 then '0' + (k - 52) as char
    else if k == 62 then '+'
    else '/'
  }

  /** The decoding table; 64 for every character outside the alphabet. */
  function Sextet(c: char): (k: int)
    ensures 0 <= k <= 64
  {
    if 'A' <= c <= 'Z' then c as int - 'A' as int
    else if 'a' <= c <= 'z' then c as int - 'a' as int + 26
    else if '0' <= c <= '9' then c as int - '0' as int + 52
    else if c == '+' then 62
    else if c == '/' then 63
    else 64
  }

  const UPPER := "ABCDEFGHIJKLMNOPQRSTUVWXYZ"
  const LOWER := "abcdefghijklmnopqrstuvwxyz"
  const TABLE := UPPER + LOWER + "0123456789+/"

  /** Letter reads the encoding table, and Sextet inverts it on its characters and knows no others. */
  lemma LettersAreTable(k: int, c: char)
    ensures |TABLE| == 64
    ensures 0 <= k < 64 ==> Letter(k) == TABLE[k]
    ensures Sextet(c) < 64 ==> TABLE[Sextet(c)] == c
    ensures Sextet(c) == 64 <==> c !in TABLE
  {
    if 0 <= k < 64 {
      TableAt(k);
    }
    if Sextet(c) < 64 {
      TableAt(Sextet(c));
    } else {
      forall i | 0 <= i < 64
        ensures TABLE[i] != c
      {
        TableAt(i);
      }
    }
  }

  lemma TableAt(k: int)
    requires 0 <= k < 64
    ensures Letter(k) == TABLE[k]
  {
    if k < 26 {
      assert TABLE[k] == UPPER[k];
    } else if k < 52 {
      assert TABLE[k] == LOWER[k - 26];
    } else {
      assert TABLE[k] == "0123456789+/"[k - 52];
    }
  }

  // Shifts and masks of unsigned 32-bit words.

  /** (t >> s) & 0x3F, where weight is 2^s. */
  function Bits6(t: int, weight: int): (k: int)
    requires weight > 0
    ensures 0 <= k < 64
  {
    t / weight % 64
  }

  /** (b >> s) & 0xFF, where weight is 2^s. */
  function Bits8(b: int, weight: int): (k: int)
    requires weight > 0
    ensures 0 <= k < 256
  {
    b / weight % 256
  }

  /** (b << 6) | d, where d has six bits. */
  function ShiftedIn(b: int, d: int): (r: int)
    requires 0 <= b < WORD && 0 <= d < 64
    ensures 0 <= r < WORD
  {
    ShiftIn(b, d);
    b * 64 % WORD + d
  }

  // ---------------------------------------------------------------------------------------
  // Encoding
  // ---------------------------------------------------------------------------------------

  /** The four sextets of three octets. */
  function Sextet0(a: Byte): (k: int)
    ensures 0 <= k < 64
  {
    a / 4
  }

  function Sextet1(a: Byte, b: Byte): (k: int)
    ensures 0 <= k < 64
  {
    a % 4 * 16 + b / 16
  }

  function Sextet2(b: Byte, c: Byte): (k: int)
    ensures 0 <= k < 64
  {
    b % 16 * 4 + c / 64
  }

  function Sextet3(c: Byte): (k: int)
    ensures 0 <= k < 64
  {
    c % 64
  }

  function Quad(a: Byte, b: Byte, c: Byte): (q: string)
    ensures |q| == 4
  {
    [Letter(Sextet0(a)), Letter(Sextet1(a, b)), Letter(Sextet2(b, c)), Letter(Sextet3(c))]
  }

  function EncodedLength(n: nat): nat {
    4 * ((n + 2) / 3)
  }

  /** What section 4 of RFC 4648 asks for: 24-bit groups as four letters, a short last group padded. */
  function Encode(v: seq<Byte>): string {
    if v == [] then ""
    else if |v| == 1 then Quad(v[0], 0, 0)[..2] + "=="
    else if |v| == 2 then Quad(v[0], v[1], 0)[..3] + "="
    else Quad(v[0], v[1], v[2]) + Encode(v[3..])
  }

  /** The loop's own output: missing octets read as zero, nothing padded yet. */
  function Groups(v: seq<Byte>): string {
    if v == [] then ""
    else if |v| == 1 then Quad(v[0], 0, 0)
    else if |v| == 2 then Quad(v[0], v[1], 0)
    else Quad(v[0], v[1], v[2]) + Groups(v[3..])
  }

  lemma {:induction false} GroupsLength(v: seq<Byte>)
    ensures |Groups(v)| == EncodedLength(|v|)
  {
    hide Quad;
    if |v| > 2 {
      GroupsLength(v[3..]);
    }
  }

  function Padding(n: nat): nat {
    (3 - n % 3) % 3
  }

  function Equals(p: nat): (s: string)
    ensures |s| == p && forall i :: 0 <= i < p ==> s[i] == '='
  {
    seq(p, _ => '=')
  }

  /** Overwriting the last letters with padding gives the encoding. */
  lemma {:induction false} PaddedGroups(v: seq<Byte>)
    ensures var g, p := Groups(v), Padding(|v|); p <= |g| && Encode(v) == g[..|g| - p] + Equals(p)
  {
    hide Quad, Equals, Padding;
    PaddingShort(|v|);
    GroupsLength(v);
    if |v| > 2 {
      PaddedGroups(v[3..]);
      PadAfter(Quad(v[0], v[1], v[2]), Groups(v[3..]), Equals(Padding(|v|)), Padding(|v|));
    } else if v != [] {
      ShortGroupPadded(v);
    } else {
      assert Equals(0) == "";
    }
  }

  lemma PadAfter(q: string, g: string, t: string, p: nat)
    requires p <= |g|
    ensures (q + g)[..|q + g| - p] + t == q + (g[..|g| - p] + t)
  {
    assert (q + g)[..|q + g| - p] == q + g[..|g| - p];
  }

  lemma PaddingShort(n: nat)
    ensures Padding(n) <= 2 && Padding(0) == 0
    ensures n >= 3 ==> Padding(n) == Padding(n - 3)
  {
  }

  lemma ShortGroupPadded(v: seq<Byte>)
    requires 1 <= |v| <= 2
    ensures var g, p := Groups(v), Padding(|v|); |g| == 4 && Encode(v) == g[..4 - p] + Equals(p)
  {
    hide Quad;
    if |v| == 1 {
      assert Equals(2) == "==";
    } else {
      assert Equals(1) == "=";
    }
  }

  /** Output length 4*ceil(n/3), letters everywhere but for the padding at the end. */
  lemma EncodedShape(v: seq<Byte>)
    ensures |Encode(v)| == EncodedLength(|v|) && |Encode(v)| % 4 == 0
    ensures forall i :: 0 <= i < |Encode(v)| - Padding(|v|) ==> Encode(v)[i] != '=' && Sextet(Encode(v)[i]) < 64
    ensures forall i :: |Encode(v)| - Padding(|v|) <= i < |Encode(v)| ==> Encode(v)[i] == '='
  {
    hide Groups, Encode, Sextet, Padding;
    GroupsLength(v);
    PaddedGroups(v);
    GroupsAreLetters(v);
    var g, p := Groups(v), Padding(|v|);
    assert Encode(v) == g[..|g| - p] + Equals(p);
  }

  lemma {:induction false} GroupsAreLetters(v: seq<Byte>)
    ensures forall i :: 0 <= i < |Groups(v)| ==> Groups(v)[i] != '=' && Sextet(Groups(v)[i]) < 64
  {
    hide Letter, Sextet;
    if |v| > 2 {
      GroupsAreLetters(v[3..]);
    }
  }

  lemma AtLeastOne(k: int, d: int)
    requires k >= 1 && d >= 1
    ensures k * d >= d
  {
    assert k * d == (k - 1) * d + d;
  }

  lemma Quotient(x: int, d: int, q: int, r: int)
    requires 0 <= r < d && x == q * d + r
    ensures x / d == q && x % d == r
  {
    var k := x / d - q;
    assert k * d == r - x % d;
    if k > 0 {
      AtLeastOne(k, d);
    } else if k < 0 {
      AtLeastOne(-k, d);
    }
  }

  /** Shifting and masking the 24-bit group gives its four sextets. */
  lemma TripleSplits(a: Byte, b: Byte, c: Byte)
    ensures
      var t := a * 65536 + b * 256 + c;
      && Bits6(t, 262144) == Sextet0(a)
      && Bits6(t, 4096) == Sextet1(a, b)
      && Bits6(t, 64) == Sextet2(b, c)
      && Bits6(t, 1) == Sextet3(c)
  {
    var t := a * 65536 + b * 256 + c;
    Quotient(t, 262144, a / 4, a % 4 * 65536 + b * 256 + c);
    Quotient(t, 4096, a * 16 + b / 16, b % 16 * 256 + c);
    Quotient(a * 16 + b / 16, 64, a / 4, a % 4 * 16 + b / 16);
    Quotient(t, 64, a * 1024 + b * 4 + c / 64, c % 64);
    Quotient(a * 1024 + b * 4 + c / 64, 64, a * 16 + b / 16, b % 16 * 4 + c / 64);
  }

  /** One round of the loop: whatever octets are left, missing ones zero. */
  lemma GroupsStep(rest: seq<Byte>, a: Byte, b: Byte, c: Byte, next: seq<Byte>)
    requires rest != [] && a == rest[0]
    requires b == if |rest| > 1 then rest[1] else 0
    requires c == if |rest| > 2 then rest[2] else 0
    requires next == if |rest| > 2 then rest[3..] else []
    ensures Groups(rest) == Quad(a, b, c) + Groups(next) && |Groups(rest)| >= 4
  {
    hide Quad;
  }

  lemma GroupsNone(v: seq<Byte>)
    requires v == []
    ensures Groups(v) == ""
  {
  }

  /** The four writes of one round. */
  method PutQuad(result: array<char>, at: nat, triple: int)
    requires at + 4 <= result.Length
    modifies result
    ensures result[..at + 4] == old(result[..at]) +
      [Letter(Bits6(triple, 262144)), Letter(Bits6(triple, 4096)), Letter(Bits6(triple, 64)), Letter(Bits6(triple, 1))]
  {
    hide Letter, Bits6;
    var j := at;
    result[j] := Letter(Bits6(triple, 262144));
    j := j + 1;
    result[j] := Letter(Bits6(triple, 4096));
    j := j + 1;
    result[j] := Letter(Bits6(triple, 64));
    j := j + 1;
    result[j] := Letter(Bits6(triple, 1));
  }

  /** The next three octets, zero where the input has ended. */
  method TakeOctets(value: seq<Byte>, start: nat) returns (a: Byte, b: Byte, c: Byte, i: nat)
    requires start < |value|
    ensures start < i <= |value|
    ensures Groups(value[start..]) == Quad(a, b, c) + Groups(value[i..]) && |Groups(value[start..])| >= 4
  {
    hide Groups, Quad;
    i := start;
    a, b, c := value[i], 0, 0;
    i := i + 1;
    if i < |value| {
      b := value[i];
      i := i + 1;
    }
    if i < |value| {
      c := value[i];
      i := i + 1;
    }
    GroupsStep(value[start..], a, b, c, value[i..]);
  }

  /** The loop of to_base64. */
  method FillGroups(value: seq<Byte>) returns (result: array<char>)
    ensures fresh(result) && result[..] == Groups(value)
  {
    hide Groups, Quad, Letter, Sextet0, Sextet1, Sextet2, Sextet3, EncodedLength, Bits6;
    GroupsLength(value);
    var outputLength := EncodedLength(|value|);
    result := new char[outputLength](_ => '=');
    var i, j := 0, 0;
    while i < |value|
      invariant 0 <= i <= |value| && 0 <= j <= outputLength
      invariant result[..j] + Groups(value[i..]) == Groups(value)
    {
      ghost var rest := value[i..];
      var a, b, c;
      a, b, c, i := TakeOctets(value, i);
      assert Groups(rest) == Quad(a, b, c) + Groups(value[i..]);
      var triple: int := a as int * 65536 + b as int * 256 + c as int;
      QuadOfTriple(a, b, c);
      PutQuad(result, j, triple);
      j := j + 4;
    }
    assert value[i..] == [] && Groups([]) == "" by { GroupsNone([]); }
  }

  method ToBase64(value: seq<Byte>) returns (r: string)
    ensures r == Encode(value)
  {
    hide Groups, Encode, Equals;
    PaddedGroups(value);
    if value == [] {
      EncodedShape(value);
      return "";
    }
    var result := FillGroups(value);
    GroupsLength(value);
    var outputLength, mod := result.Length, |value| % 3;
    assert result[..] == Groups(value);
    if mod == 1 {
      result[outputLength - 1] := '=';
      result[outputLength - 2] := '=';
    } else if mod == 2 {
      result[outputLength - 1] := '=';
    }
    r := result[..];
    assert r == Groups(value)[..outputLength - Padding(|value|)] + Equals(Padding(|value|));
  }

  lemma QuadOfTriple(a: Byte, b: Byte, c: Byte)
    ensures
      var t := a * 65536 + b * 256 + c;
      Quad(a, b, c) == [Letter(Bits6(t, 262144)), Letter(Bits6(t, 4096)), Letter(Bits6(t, 64)), Letter(Bits6(t, 1))]
  {
    TripleSplits(a, b, c);
  }

  // ---------------------------------------------------------------------------------------
  // Decoding
  // ---------------------------------------------------------------------------------------

  function Pow2(bits: int): int
    requires bits in {0, 2, 4, 6}
  {
    if bits == 0 then 1 else if bits == 2 then 4 else if bits == 4 then 16 else 64
  }

  /** The exact bit stream: low holds the bits not yet put out. Other characters are skipped, '=' ends it. */
  function Emit(s: string, low: int, bits: int): (r: seq<Byte>)
    requires bits in {0, 2, 4, 6} && 0 <= low < Pow2(bits)
    ensures |r| == (6 * Letters(s) + bits) / 8
  {
    if s == "" || s[0] == '=' then []
    else if Sextet(s[0]) == 64 then Emit(s[1..], low, bits)
    else
      var word := low * 64 + Sextet(s[0]);
      if bits == 0 then Emit(s[1..], word, 6)
      else [word / Pow2(bits - 2)] + Emit(s[1..], word % Pow2(bits - 2), bits - 2)
  }

  /** Letters before the first '='. */
  function Letters(s: string): nat {
    if s == "" || s[0] == '=' then 0
    else (if Sextet(s[0]) == 64 then 0 else 1) + Letters(s[1..])
  }

  function Decode(s: string): seq<Byte> {
    Emit(s, 0, 0)
  }

  /** How many of the last two characters are '='. */
  function PaddingSeen(s: string): nat {
    (if |s| > 0 && s[|s| - 1] == '=' then 1 else 0) + (if |s| > 1 && s[|s| - 2] == '=' then 1 else 0)
  }

  /** The size the source computes for its buffer; negative where its unsigned subtraction wraps, so that
      the allocation is refused. */
  function BufferSize(s: string): int {
    |s| / 4 * 3 - PaddingSeen(s)
  }

  /** The number of bytes the loop puts out. */
  function OutputSize(s: string): nat {
    6 * Letters(s) / 8
  }

  /** The buffer has room for every byte the loop writes. */
  predicate Fits(s: string) {
    s == "" || OutputSize(s) <= BufferSize(s)
  }

  /** How a call of from_base64 may end. */
  datatype Decoding =
    | Decoded(bytes: seq<Byte>)
    | NoBuffer
    | Overrun(written: seq<Byte>)

  function Outcome(s: string): Decoding {
    if Fits(s) then Decoded(Decode(s))
    else if BufferSize(s) < 0 then NoBuffer
    else Overrun(Decode(s)[..BufferSize(s)])
  }

  /** Shifting in a sextet modulo 2^32 loses nothing of the low 26 bits. */
  lemma ShiftIn(buffer: int, d: int)
    requires 0 <= buffer < WORD && 0 <= d < 64
    ensures buffer * 64 % WORD + d == buffer % 0x400_0000 * 64 + d < WORD
  {
    Quotient(buffer * 64, WORD, buffer / 0x400_0000, buffer % 0x400_0000 * 64);
  }

  /** What is left of x after its low word w; p is the weight of the pending bits. */
  lemma LowBits(buffer: int, p: int, d: int)
    requires 0 <= buffer < WORD && 0 <= d < 64 && p in {4, 16, 64}
    ensures var next, w := ShiftedIn(buffer, d), buffer % p * 64 + d;
            Bits8(next, p / 4) == w / (p / 4) && next % (p / 4) == w % (p / 4)
  {
    ShiftIn(buffer, d);
    var m := buffer % 0x400_0000;
    var next, w, e := m * 64 + d, buffer % p * 64 + d, p / 4;
    var high := m / p;
    assert m % p == buffer % p by {
      var lift := 0x400_0000 / p;
      assert lift * p == 0x400_0000;
      Quotient(buffer, p, buffer / 0x400_0000 * lift + high, m % p);
    }
    assert next == high * 256 * e + w;
    Quotient(next, e, high * 256 + w / e, w % e);
    Quotient(high * 256 + w / e, 256, high, w / e);
  }

  lemma LastSextet(buffer: int, d: int)
    requires 0 <= buffer < WORD && 0 <= d < 64
    ensures ShiftedIn(buffer, d) % 64 == d
  {
    ShiftIn(buffer, d);
    Quotient(buffer % 0x400_0000 * 64 + d, 64, buffer % 0x400_0000, d);
  }

  /** One character of the decoding loop. */
  lemma EmitStep(s: string, low: int, bits: int)
    requires s != "" && s[0] != '=' && bits in {0, 2, 4, 6} && 0 <= low < Pow2(bits)
    ensures Sextet(s[0]) == 64 ==> Emit(s, low, bits) == Emit(s[1..], low, bits)
    ensures Sextet(s[0]) < 64 && bits == 0 ==> low == 0 && Emit(s, low, bits) == Emit(s[1..], Sextet(s[0]), 6)
    ensures Sextet(s[0]) < 64 && bits > 0 ==>
      var w, e := low * 64 + Sextet(s[0]), Pow2(bits - 2);
      0 <= w / e < 256 && Emit(s, low, bits) == [w / e] + Emit(s[1..], w % e, bits - 2)
  {
    hide Sextet, Letters;
  }

  /** The wrapping accumulator puts out the octets of the exact bit stream. */
  lemma AccumulatorIsExact(s: string, buffer: int, bits: int)
    requires s != "" && s[0] != '=' && Sextet(s[0]) < 64 && 0 <= buffer < WORD && bits in {0, 2, 4, 6}
    ensures
      var next := ShiftedIn(buffer, Sextet(s[0]));
      && (bits == 0 ==> Emit(s, buffer % Pow2(bits), bits) == Emit(s[1..], next % Pow2(6), 6))
      && (bits > 0 ==>
           Emit(s, buffer % Pow2(bits), bits) == [Bits8(next, Pow2(bits - 2))] +
             Emit(s[1..], next % Pow2(bits - 2), bits - 2))
  {
    hide Sextet, Letters, Emit, ShiftedIn, Bits8;
    EmitStep(s, buffer % Pow2(bits), bits);
    if bits == 0 {
      LastSextet(buffer, Sextet(s[0]));
    } else {
      LowBits(buffer, Pow2(bits), Sextet(s[0]));
    }
  }

  lemma DecodeLength(s: string)
    ensures Decode(s) == Emit(s, 0, 0) && |Decode(s)| == OutputSize(s)
  {
  }

  method SizeFor(value: string) returns (size: int)
    ensures size == BufferSize(value)
  {
    var padding := 0;
    if |value| > 0 && value[|value| - 1] == '=' {
      padding := padding + 1;
    }
    if |value| > 1 && value[|value| - 2] == '=' {
      padding := padding + 1;
    }
    size := |value| / 4 * 3 - padding;
  }

  /** Total: a buffer of negative size is refused, and the first write that would fall outside the buffer
      ends the run with the bytes written so far. */
  method FromBase64(value: string) returns (r: Decoding)
    ensures r == Outcome(value)
  {
    hide Sextet, Letters, Emit, Decode, OutputSize, BufferSize, ShiftedIn, Bits8;
    DecodeLength(value);
    if value == "" {
      EmitEnds(value, 0, 0);
      return Decoded([]);
    }
    var size := SizeFor(value);
    if size < 0 {
      return NoBuffer;
    }
    var result := new Byte[size];
    var i, j, buffer, bits := 0, 0, 0, 0;
    while i < |value|
      invariant 0 <= i <= |value| && 0 <= j <= result.Length == size
      invariant 0 <= buffer < WORD && bits in {0, 2, 4, 6}
      invariant result[..j] + Emit(value[i..], buffer % Pow2(bits), bits) == Decode(value)
    {
      var c := value[i];
      ghost var rest, before := value[i..], result[..j];
      assert rest[1..] == value[i + 1..];
      if c == '=' {
        EmitEnds(rest, buffer % Pow2(bits), bits);
        break;
      }
      i := i + 1;
      if Sextet(c) == 64 {
        EmitStep(rest, buffer % Pow2(bits), bits);
        continue;
      }
      AccumulatorIsExact(rest, buffer, bits);
      buffer := ShiftedIn(buffer, Sextet(c));
      bits := bits + 6;
      if bits >= 8 {
        bits := bits - 8;
        if j == result.Length {
          return Overrun(result[..]);
        }
        result[j] := Bits8(buffer, Pow2(bits));
        j := j + 1;
        assert result[..j] == before + [Bits8(buffer, Pow2(bits))];
      }
    }
    if i == |value| {
      EmitEnds(value[i..], buffer % Pow2(bits), bits);
    }
    r := Decoded(result[..j]);
  }

  /** Exactly when a write falls outside the allocated buffer, and exactly when all is well. */
  lemma OverrunIff(s: string)
    ensures Outcome(s).Overrun? <==> s != "" && 0 <= BufferSize(s) < OutputSize(s)
    ensures Outcome(s).Decoded? <==> Fits(s)
    ensures Outcome(s).Decoded? ==> Outcome(s) == Decoded(Decode(s)) && |Decode(s)| == OutputSize(s)
    ensures Outcome(s).Overrun? ==> |Outcome(s).written| == BufferSize(s) && Outcome(s).written < Decode(s)
  {
    hide Emit, Letters, BufferSize;
    DecodeLength(s);
  }

  /** Two letters without padding: room for no byte, and one is written. */
  lemma ShortTextOverruns()
    ensures Outcome("AA") == Overrun([])
    ensures Outcome("=") == NoBuffer
  {
    assert Letters("AA") == 2 by {
      assert "AA"[1..] == "A";
    }
  }

  // ---------------------------------------------------------------------------------------
  // Round trip
  // ---------------------------------------------------------------------------------------

  /** The test vectors of section 10 of RFC 4648: "f", "fo", "foo" and "foobar". */
  lemma TestVectors()
    ensures Encode([]) == ""
    ensures Encode([102]) == "Zg=="
    ensures Encode([102, 111]) == "Zm8="
    ensures Encode([102, 111, 111]) == "Zm9v"
    ensures Encode([102, 111, 111, 98, 97, 114]) == "Zm9vYmFy"
  {
    hide Quad;
    QuadExamples();
    var foo: seq<Byte>, foobar: seq<Byte> := [102, 111, 111], [102, 111, 111, 98, 97, 114];
    assert foo[3..] == [] && foobar[3..] == [98, 97, 114] && foobar[3..][3..] == [];
    assert Encode(foobar[3..]) == Quad(98, 97, 114) + Encode([]);
  }

  lemma QuadExamples()
    ensures Quad(102, 0, 0)[..2] == "Zg" && Quad(102, 111, 0)[..3] == "Zm8"
    ensures Quad(102, 111, 111) == "Zm9v" && Quad(98, 97, 114) == "YmFy"
  {
    hide Letter;
    LetterExamples();
  }

  lemma LetterExamples()
    ensures Letter(5) == 'F' && Letter(24) == 'Y' && Letter(25) == 'Z' && Letter(32) == 'g' && Letter(38) == 'm'
    ensures Letter(47) == 'v' && Letter(50) == 'y' && Letter(60) == '8' && Letter(61) == '9'
  {
  }

  /** Letters in, pending bits and finished octets out. */
  lemma EmitLetter(k: int, rest: string, low: int, bits: int)
    requires 0 <= k < 64 && bits in {0, 2, 4, 6} && 0 <= low < Pow2(bits)
    ensures bits == 0 ==> Emit([Letter(k)] + rest, low, bits) == Emit(rest, low * 64 + k, 6)
    ensures bits > 0 ==>
      var e, w := Pow2(bits - 2), low * 64 + k;
      0 <= w / e < 256 && Emit([Letter(k)] + rest, low, bits) == [w / e] + Emit(rest, w % e, bits - 2)
  {
    hide Letter, Sextet;
    assert ([Letter(k)] + rest)[1..] == rest;
  }

  lemma SextetsRejoin(a: Byte, b: Byte, c: Byte)
    ensures (Sextet0(a) * 64 + Sextet1(a, b)) / 16 == a && (Sextet0(a) * 64 + Sextet1(a, b)) % 16 == b / 16
    ensures (b / 16 * 64 + Sextet2(b, c)) / 4 == b && (b / 16 * 64 + Sextet2(b, c)) % 4 == c / 64
    ensures c / 64 * 64 + Sextet3(c) == c
  {
  }

  /** Four letters from a byte boundary give back their three bytes. */
  lemma QuadDecodes(a: Byte, b: Byte, c: Byte, rest: string)
    ensures Emit(Quad(a, b, c) + rest, 0, 0) == [a, b, c] + Emit(rest, 0, 0)
  {
    hide Emit, Letter, Sextet0, Sextet1, Sextet2, Sextet3;
    SextetsRejoin(a, b, c);
    var l0, l1, l2, l3 := Letter(Sextet0(a)), Letter(Sextet1(a, b)), Letter(Sextet2(b, c)), Letter(Sextet3(c));
    assert Quad(a, b, c) + rest == [l0] + ([l1] + ([l2] + ([l3] + rest)));
    EmitLetter(Sextet0(a), [l1] + ([l2] + ([l3] + rest)), 0, 0);
    EmitLetter(Sextet1(a, b), [l2] + ([l3] + rest), Sextet0(a), 6);
    EmitLetter(Sextet2(b, c), [l3] + rest, b / 16, 4);
    EmitLetter(Sextet3(c), rest, c / 64, 2);
  }

  lemma OneDecodes(a: Byte)
    ensures Decode(Encode([a])) == [a]
  {
    hide Emit, Letter, Sextet0, Sextet1;
    SextetsRejoin(a, 0, 0);
    var l0, l1 := Letter(Sextet0(a)), Letter(Sextet1(a, 0));
    assert Encode([a]) == [l0] + ([l1] + "==");
    EmitLetter(Sextet0(a), [l1] + "==", 0, 0);
    EmitLetter(Sextet1(a, 0), "==", Sextet0(a), 6);
    EmitEnds("==", 0, 4);
  }

  lemma TwoDecode(a: Byte, b: Byte)
    ensures Decode(Encode([a, b])) == [a, b]
  {
    hide Emit, Letter, Sextet0, Sextet1, Sextet2;
    SextetsRejoin(a, b, 0);
    var l0, l1, l2 := Letter(Sextet0(a)), Letter(Sextet1(a, b)), Letter(Sextet2(b, 0));
    assert Encode([a, b]) == [l0] + ([l1] + ([l2] + "="));
    EmitLetter(Sextet0(a), [l1] + ([l2] + "="), 0, 0);
    EmitLetter(Sextet1(a, b), [l2] + "=", Sextet0(a), 6);
    EmitLetter(Sextet2(b, 0), "=", b / 16, 4);
    EmitEnds("=", 0, 2);
  }

  lemma EmitEnds(s: string, low: int, bits: int)
    requires bits in {0, 2, 4, 6} && 0 <= low < Pow2(bits) && (s == "" || s[0] == '=')
    ensures Emit(s, low, bits) == []
  {
  }

  /** from_base64(to_base64(x)) == x for every byte sequence. */
  lemma {:induction false} RoundTrip(v: seq<Byte>)
    ensures Decode(Encode(v)) == v
  {
    if |v| > 2 {
      RoundTrip(v[3..]);
      QuadDecodes(v[0], v[1], v[2], Encode(v[3..]));
    } else if |v| == 1 {
      OneDecodes(v[0]);
      assert v == [v[0]];
    } else if |v| == 2 {
      TwoDecode(v[0], v[1]);
      assert v == [v[0], v[1]];
    }
  }

  lemma {:induction false} LettersOnly(s: string, n: nat)
    requires n <= |s| && forall i :: 0 <= i < n ==> s[i] != '=' && Sextet(s[i]) < 64
    requires n < |s| ==> s[n] == '='
    ensures Letters(s) == n
  {
    if n > 0 {
      LettersOnly(s[1..], n - 1);
    }
  }

  /** Whole quads of letters with at most two '=' at the end never write out of bounds; the encoder's
      output is of this kind. */
  lemma WellFormedFits(s: string, padding: nat)
    requires |s| % 4 == 0 && padding <= 2 && padding <= |s|
    requires forall i :: 0 <= i < |s| - padding ==> s[i] != '=' && Sextet(s[i]) < 64
    requires forall i :: |s| - padding <= i < |s| ==> s[i] == '='
    ensures Fits(s)
  {
    LettersOnly(s, |s| - padding);
  }

  /** What to_base64 returns, from_base64 takes, with every write in bounds, and gives back. */
  lemma EncodedFits(v: seq<Byte>)
    ensures Outcome(Encode(v)) == Decoded(v)
  {
    EncodedShape(v);
    WellFormedFits(Encode(v), Padding(|v|));
    RoundTrip(v);
  }

  /** Different data, different text. */
  lemma EncodeInjective(v: seq<Byte>, w: seq<Byte>)
    requires Encode(v) == Encode(w)
    ensures v == w
  {
    RoundTrip(v);
    RoundTrip(w);
  }
}
