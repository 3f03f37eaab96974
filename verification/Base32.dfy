/**
 The unpadded Base32 encoder (section 6 of RFC 4648, padding omitted as section 3.2
 allows), over a 32-bit signed accumulator that is shifted and never masked.

 Stale bits above those still held do no harm: shifting in a byte keeps the low bits right
 whatever wraps above them, and only held bits are taken out. So the letters are the five-bit
 groups of the input, as many as the buffer has room for, and a decoder recovers every input
 from them.
 */
module Base32 {
  import opened Bytes
  import opened Powers

  type Bit = b: int | 0 <= b < 2

  const ALPHABET: string := "ABCDEFGHIJKLMNOPQRSTUVWXYZ234567"

  const MAX_LENGTH: int := 0x1000_0000

  /** The v-th letter of the alphabet (see LetterTable). */
  function Letter(v: int): (c: char)
    requires 0 <= v < 32
  {
    if v < 26 then ('A' as int + v) as char else ('2' as int + v - 26) as char
  }

  // ---------------------------------------------------------------------------
  // Bit streams
  // ---------------------------------------------------------------------------

  /** The number a bit string spells, most significant bit first. */
  function Val(bits: seq<Bit>): (v: int)
    ensures 0 <= v < Pow2(|bits|)
  {
    if bits == [] then 0 else 2 * Val(bits[..|bits| - 1]) + bits[|bits| - 1]
  }

  /** The n low bits of a number, most significant first. */
  function BitsOf(v: int, n: nat): (bits: seq<Bit>)
    ensures |bits| == n
    decreases n, v
  {
    if n == 0 then [] else BitsOf(v / 2, n - 1) + [v % 2]
  }

  function ByteBits(b: Byte): (bits: seq<Bit>)
    ensures |bits| == 8
  {
    BitsOf(b, 8)
  }

  /** The input as one bit stream. */
  function Stream(data: seq<Byte>): (bits: seq<Bit>)
    ensures |bits| == 8 * |data|
  {
    if data == [] then [] else Stream(data[..|data| - 1]) + ByteBits(data[|data| - 1])
  }

  /** The stream with enough zero bits behind it to complete the last group. */
  function Padded(data: seq<Byte>): (bits: seq<Bit>)
    ensures |bits| == 8 * |data| + 4
  {
    Stream(data) + [0, 0, 0, 0]
  }

  /** How many five-bit groups cover the stream. */
  function GroupCount(n: nat): nat {
    (8 * n + 4) / 5
  }

  function Group(data: seq<Byte>, i: nat): (v: int)
    requires i < GroupCount(|data|)
    ensures 0 <= v < 32
  {
    assert Pow2(5) == 32;
    Val(Padded(data)[5 * i..5 * i + 5])
  }

  /** The letters of the first k five-bit groups of the zero-padded stream. */
  function Letters(data: seq<Byte>, k: nat): (text: string)
    requires k <= GroupCount(|data|)
    ensures |text| == k
  {
    if k == 0 then "" else Letters(data, k - 1) + [Letter(Group(data, k - 1))]
  }

  /** The whole encoding. */
  function Encode(data: seq<Byte>): (text: string)
    ensures |text| == GroupCount(|data|)
  {
    Letters(data, GroupCount(|data|))
  }

  lemma {:induction false} LettersPrefix(data: seq<Byte>, j: nat, k: nat)
    requires j <= k <= GroupCount(|data|)
    ensures Letters(data, k)[..j] == Letters(data, j)
  {
    if j < k {
      LettersPrefix(data, j, k - 1);
    }
  }

  lemma ValSnoc(s: seq<Bit>, x: Bit)
    ensures Val(s + [x]) == 2 * Val(s) + x
  {
  }

  lemma {:induction false} ValConcat(a: seq<Bit>, b: seq<Bit>)
    ensures Val(a + b) == Val(a) * Pow2(|b|) + Val(b)
  {
    if b == [] {
      assert a + b == a;
    } else {
      var c, x := b[..|b| - 1], b[|b| - 1];
      assert b == c + [x] && a + b == (a + c) + [x];
      ValConcat(a, c);
      ValSnoc(a + c, x);
      ValSnoc(c, x);
      MulTwice(Val(a), Pow2(|c|));
    }
  }

  /** Spelling and reading bits are inverse. */
  lemma {:induction false} ValBitsOf(v: int, n: nat)
    requires 0 <= v < Pow2(n)
    ensures Val(BitsOf(v, n)) == v
  {
    if n > 0 {
      ValBitsOf(v / 2, n - 1);
      ValSnoc(BitsOf(v / 2, n - 1), v % 2);
    }
  }

  lemma {:induction false} BitsOfVal(bits: seq<Bit>)
    ensures BitsOf(Val(bits), |bits|) == bits
  {
    if bits != [] {
      BitsOfVal(bits[..|bits| - 1]);
    }
  }

  lemma ValByteBits(b: Byte)
    ensures Val(ByteBits(b)) == b
  {
    PowTable();
    ValBitsOf(b, 8);
  }

  lemma {:induction false} StreamByte(data: seq<Byte>, i: nat)
    requires i < |data|
    ensures Padded(data)[8 * i..8 * i + 8] == ByteBits(data[i])
  {
    var front := data[..|data| - 1];
    if i == |data| - 1 {
      assert Padded(data)[8 * i..8 * i + 8] == ByteBits(data[i]);
    } else {
      StreamByte(front, i);
      assert Padded(data)[8 * i..8 * i + 8] == Stream(front)[8 * i..8 * i + 8];
      assert Padded(front)[8 * i..8 * i + 8] == Stream(front)[8 * i..8 * i + 8];
    }
  }

  // ---------------------------------------------------------------------------
  // The 32-bit accumulator
  // ---------------------------------------------------------------------------

  /** Two's-complement wrap-around of a 32-bit int. */
  function Wrap32(x: int): (w: int)
    ensures -0x8000_0000 <= w < 0x8000_0000
    ensures (x - w) % 0x1_0000_0000 == 0
  {
    (x + 0x8000_0000) % 0x1_0000_0000 - 0x8000_0000
  }

  /** buffer << 8 | byte: the shift clears the low eight bits, so the or is a sum. */
  function ShiftInByte(buffer: int, b: Byte): int {
    Wrap32(buffer * 256) + b
  }

  function ShiftInZeros(buffer: int, pad: nat): int {
    Wrap32(buffer * Pow2(pad))
  }

  /** 0x1F & (buffer >> k), an arithmetic shift. */
  function FiveBits(buffer: int, k: nat): (v: int)
    ensures 0 <= v < 32
  {
    buffer / Pow2(k) % 32
  }

  /** The accumulator's low `bits.length` bits spell `bits`; nothing is said of the others. */
  ghost predicate Holds(buffer: int, bits: seq<Bit>) {
    buffer % Pow2(|bits|) == Val(bits)
  }

  /** The accumulator's low bits are bits from..to of the padded input. */
  ghost predicate Tracks(data: seq<Byte>, buffer: int, from: nat, to: nat)
    requires from <= to <= 8 * |data| + 4
  {
    Holds(buffer, Padded(data)[from..to])
  }

  lemma PowTable()
    ensures Pow2(0) == 1 && Pow2(1) == 2 && Pow2(2) == 4 && Pow2(3) == 8 && Pow2(4) == 16
    ensures Pow2(5) == 32 && Pow2(6) == 64 && Pow2(7) == 128 && Pow2(8) == 256
    ensures Pow2(9) == 512 && Pow2(10) == 1024 && Pow2(11) == 2048 && Pow2(12) == 4096
  {
  }

  /** Dropping a multiple of 2^32 does not change a residue modulo a smaller power of two. */
  lemma WrapResidue(x: int, t: int, m: int, c: int)
    requires m > 0 && m * c == 0x1_0000_0000
    ensures (Wrap32(x) + t) % m == (x + t) % m
  {
    var q := (x + 0x8000_0000) / 0x1_0000_0000;
    assert Wrap32(x) == x - 0x1_0000_0000 * q;
    assert m * (c * q) == (m * c) * q;
    assert m * -(c * q) == -(m * (c * q));
    ResidueShift(x + t, m, -(c * q));
  }

  /** Scaling by s and adding t < s keeps the low residue in place above t. */
  lemma ResidueScale(x: int, m: int, s: int, t: int)
    requires m > 0 && s > 0 && 0 <= t < s
    ensures m * s > 0 && (x * s + t) % (m * s) == (x % m) * s + t
  {
    var q, r := x / m, x % m;
    Associate(m, q, s);
    Scale(r + 1, m, s);
    Scale(0, r, s);
    ResidueUnique(x * s + t, m * s, q, r * s + t);
  }

  lemma Associate(a: int, b: int, c: int)
    ensures (a * b) * c == (a * c) * b
  {
  }

  lemma Scale(a: int, b: int, c: int)
    requires a <= b && c >= 0
    ensures a * c <= b * c
  {
  }

  lemma TakeResidue(x: int, p: int, f: int, r: int)
    requires p > 0 && 0 <= r < p && 0 <= f < 32 && x % (32 * p) == f * p + r
    ensures x / p % 32 == f && x % p == r
  {
    var q := x / (32 * p);
    assert x == (32 * p) * q + (f * p + r);
    assert p * (32 * q + f) == (32 * p) * q + f * p;
    ResidueUnique(x, p, 32 * q + f, r);
  }

  /** Shifting bits in keeps the low bits right, whatever the wrap-around does above them. */
  lemma {:induction false} HoldsShift(buffer: int, bits: seq<Bit>, more: seq<Bit>)
    requires Holds(buffer, bits) && |bits| + |more| <= 32
    ensures Holds(Wrap32(buffer * Pow2(|more|)) + Val(more), bits + more)
  {
    var n := |bits| + |more|;
    ValConcat(bits, more);
    PowSum(|bits|, |more|);
    PowSum(n, 32 - n);
    Pow32();
    ResidueScale(buffer, Pow2(|bits|), Pow2(|more|), Val(more));
    WrapResidue(buffer * Pow2(|more|), Val(more), Pow2(n), Pow2(32 - n));
  }

  /** The five bits taken are the first five held, and the rest stay held. */
  lemma HoldsTake(buffer: int, first: seq<Bit>, rest: seq<Bit>)
    requires Holds(buffer, first + rest) && |first| == 5
    ensures FiveBits(buffer, |rest|) == Val(first)
    ensures Holds(buffer, rest)
  {
    ValConcat(first, rest);
    PowSum(5, |rest|);
    assert Pow2(5) == 32;
    TakeResidue(buffer, Pow2(|rest|), Val(first), Val(rest));
  }

  /** The letter written next is the next letter of the encoding. */
  lemma NextLetter(data: seq<Byte>, buffer: int, count: nat, from: nat, to: nat)
    requires from == 5 * count && from + 5 <= to <= 8 * |data| + 4
    requires Tracks(data, buffer, from, to)
    ensures count < GroupCount(|data|)
    ensures Letter(FiveBits(buffer, to - from - 5)) == Letter(Group(data, count))
    ensures Tracks(data, buffer, from + 5, to)
  {
    var s := Padded(data);
    assert s[from..to] == s[from..from + 5] + s[from + 5..to];
    HoldsTake(buffer, s[from..from + 5], s[from + 5..to]);
  }

  lemma HoldsByte(buffer: int, held: seq<Bit>, b: Byte)
    requires Holds(buffer, held) && |held| <= 24
    ensures Holds(ShiftInByte(buffer, b), held + ByteBits(b))
  {
    ValByteBits(b);
    HoldsShift(buffer, held, ByteBits(b));
  }

  /** Shifting in the next input byte extends the held bits by that byte. */
  lemma NextByte(data: seq<Byte>, buffer: int, next: nat, from: nat, to: nat)
    requires next < |data| && to == 8 * next && from <= to < from + 5
    requires Tracks(data, buffer, from, to)
    ensures Tracks(data, ShiftInByte(buffer, data[next]), from, to + 8)
  {
    var held := Padded(data)[from..to];
    StreamByte(data, next);
    HoldsByte(buffer, held, data[next]);
    assert held + ByteBits(data[next]) == Padded(data)[from..to + 8];
  }

  /** Shifting in zeros completes the last group. */
  lemma LastBits(data: seq<Byte>, buffer: int, from: nat, to: nat)
    requires to == 8 * |data| && from < to < from + 5
    requires Tracks(data, buffer, from, to)
    ensures Tracks(data, ShiftInZeros(buffer, from + 5 - to), from, from + 5)
  {
    var held, zeros := Padded(data)[from..to], Padded(data)[to..from + 5];
    ZerosAreZero(data, to, |zeros|);
    HoldsShift(buffer, held, zeros);
    assert held + zeros == Padded(data)[from..from + 5];
  }

  // ---------------------------------------------------------------------------
  // The encoder
  // ---------------------------------------------------------------------------

  function Min(a: int, b: int): int {
    if a < b then a else b
  }

  /** Between letters: the bits read and not yet written, after `count` letters. */
  ghost predicate Between(input: seq<Byte>, buffer: int, next: int, bitsLeft: int, count: nat) {
    && 1 <= next <= |input| && 0 <= bitsLeft <= 8 && count <= GroupCount(|input|)
    && (5 * count + bitsLeft == 8 * next
        || (next == |input| && bitsLeft == 0 && 8 * |input| <= 5 * count <= 8 * |input| + 4))
    && Tracks(input, buffer, 5 * count, 5 * count + bitsLeft)
  }

  /** A letter is ready: at least five bits are held. */
  ghost predicate LetterReady(input: seq<Byte>, buffer: int, next: int, bitsLeft: int, count: nat) {
    && 1 <= next <= |input| && 5 <= bitsLeft <= 12
    && (5 * count + bitsLeft == 8 * next
        || (next == |input| && bitsLeft == 5 && 8 * |input| <= 5 * count + 5 <= 8 * |input| + 4))
    && Tracks(input, buffer, 5 * count, 5 * count + bitsLeft)
  }

  /** Makes five bits available: the next byte, or zeros behind the last one. */
  method Refill(input: seq<Byte>, buffer: int, next: nat, bitsLeft: nat, ghost count: nat)
    returns (buffer': int, next': nat, bitsLeft': nat)
    requires Between(input, buffer, next, bitsLeft, count) && (bitsLeft > 0 || next < |input|)
    ensures LetterReady(input, buffer', next', bitsLeft', count)
  {
    buffer', next', bitsLeft' := buffer, next, bitsLeft;
    if bitsLeft < 5 {
      if next < |input| {
        NextByte(input, buffer, next, 5 * count, 5 * count + bitsLeft);
        buffer' := ShiftInByte(buffer, input[next]);
        next' := next + 1;
        bitsLeft' := bitsLeft + 8;
      } else {
        LastBits(input, buffer, 5 * count, 5 * count + bitsLeft);
        var pad := 5 - bitsLeft;
        buffer' := ShiftInZeros(buffer, pad);
        bitsLeft' := bitsLeft + pad;
      }
    }
  }

  /** Takes the next letter out of the accumulator. */
  method TakeLetter(input: seq<Byte>, buffer: int, ghost next: nat, bitsLeft: nat, ghost count: nat)
    returns (letter: char, bitsLeft': nat)
    requires LetterReady(input, buffer, next, bitsLeft, count)
    ensures count < GroupCount(|input|) && letter == Letter(Group(input, count))
    ensures bitsLeft' == bitsLeft - 5 && Between(input, buffer, next, bitsLeft', count + 1)
  {
    NextLetter(input, buffer, count, 5 * count, 5 * count + bitsLeft);
    var index := FiveBits(buffer, bitsLeft - 5);
    bitsLeft' := bitsLeft - 5;
    letter := Letter(index);
  }

  /** result[count++] = letter */
  method WriteLetter(result: array<char>, count: nat, letter: char) returns (count': nat)
    requires count < result.Length
    modifies result
    ensures count' == count + 1
    ensures result[..count'] == old(result[..count]) + [letter]
    ensures result[count'..] == old(result[..])[count'..]
  {
    result[count] := letter;
    count' := count + 1;
  }

  /** The loop of the encoder, for a non-empty input. */
  method EncodeLetters(input: seq<Byte>, result: array<char>, bufSize: int) returns (count: nat)
    requires |input| > 0 && bufSize <= result.Length
    modifies result
    ensures count == Min(if bufSize < 0 then 0 else bufSize, GroupCount(|input|))
    ensures result[..count] == Letters(input, count)
    ensures result[count..] == old(result[count..])
  {
    count := 0;
    var buffer: int := input[0];
    var next, bitsLeft := 1, 8;
    FirstByte(input);
    while count < bufSize && (bitsLeft > 0 || next < |input|)
      invariant count == 0 || count <= bufSize
      invariant Between(input, buffer, next, bitsLeft, count)
      invariant result[..count] == Letters(input, count)
      invariant result[count..] == old(result[..])[count..]
      decreases GroupCount(|input|) - count
    {
      buffer, next, bitsLeft := Refill(input, buffer, next, bitsLeft, count);
      var letter;
      letter, bitsLeft := TakeLetter(input, buffer, next, bitsLeft, count);
      count := WriteLetter(result, count, letter);
    }
  }

  /**
   Encodes the first `length` bytes into at most `bufSize` letters: a prefix of the full
   encoding, followed by a NUL when there is room for one, and nothing else is written.
   */
  method Base32Encode(data: seq<Byte>, length: int, result: array<char>, bufSize: int) returns (count: int)
    requires 0 <= length <= MAX_LENGTH ==> length <= |data| && bufSize <= result.Length
    modifies result
    ensures !(0 <= length <= MAX_LENGTH) ==> count == -1 && result[..] == old(result[..])
    ensures 0 <= length <= MAX_LENGTH ==>
      && count == Min(if bufSize < 0 then 0 else bufSize, GroupCount(length))
      && result[..count] == Encode(data[..length])[..count]
      && result[count..] == Terminated(old(result[..])[count..], count < bufSize)
  {
    if length < 0 || length > MAX_LENGTH {
      return -1;
    }
    count := 0;
    if length > 0 {
      count := EncodeLetters(data[..length], result, bufSize);
      LettersPrefix(data[..length], count, GroupCount(length));
    }
    ghost var rest := result[count..];
    if count < bufSize {
      result[count] := '\0';
    }
    assert result[count..] == Terminated(rest, count < bufSize);
  }

  /** What follows the letters: a NUL first when there is room, then the old contents. */
  function Terminated(rest: seq<char>, room: bool): seq<char>
    requires room ==> rest != []
  {
    if room then rest[0 := '\0'] else rest
  }

  lemma FirstByte(data: seq<Byte>)
    requires |data| > 0
    ensures Tracks(data, data[0], 0, 8)
  {
    ValByteBits(data[0]);
    StreamByte(data, 0);
    PowTable();
  }

  /** Past the end of the input the padded stream spells zero. */
  lemma {:induction false} ZerosAreZero(data: seq<Byte>, from: nat, pad: nat)
    requires from == 8 * |data| && pad <= 4
    ensures Val(Padded(data)[from..from + pad]) == 0
  {
    if pad > 0 {
      ZerosAreZero(data, from, pad - 1);
      assert Padded(data)[from..from + pad][..pad - 1] == Padded(data)[from..from + pad - 1];
    }
  }

  // ---------------------------------------------------------------------------
  // Decoding, as RFC 4648 defines it: the partner of the encoder
  // ---------------------------------------------------------------------------

  function LetterValue(c: char): int {
    if 'A' <= c <= 'Z' then c as int - 'A' as int
    else if '2' <= c <= '7' then c as int - '2' as int + 26
    else -1
  }

  predicate IsBase32(text: string) {
    forall i :: 0 <= i < |text| ==> 0 <= LetterValue(text[i]) < 32
  }

  /** The bits of the first k letters. */
  function TextBits(text: string, k: nat): (bits: seq<Bit>)
    requires IsBase32(text) && k <= |text|
    ensures |bits| == 5 * k
  {
    if k == 0 then [] else TextBits(text, k - 1) + BitsOf(LetterValue(text[k - 1]), 5)
  }

  /** The complete bytes spelled by a text; left-over bits are discarded. */
  function DecodeText(text: string): (data: seq<Byte>)
    requires IsBase32(text)
  {
    var bits := TextBits(text, |text|);
    assert Pow2(8) == 256;
    seq(|bits| / 8, i requires 0 <= i < |bits| / 8 => Val(bits[8 * i..8 * i + 8]))
  }

  /** Letter reads the alphabet, and the alphabet's letters are told apart. */
  lemma LetterTable(v: int)
    requires 0 <= v < 32
    ensures Letter(v) == ALPHABET[v] && LetterValue(Letter(v)) == v
  {
  }

  lemma GroupBits(data: seq<Byte>, i: nat, from: nat)
    requires i < GroupCount(|data|) && from == 5 * i
    ensures BitsOf(Group(data, i), 5) == Padded(data)[from..from + 5]
  {
    BitsOfVal(Padded(data)[from..from + 5]);
  }

  lemma EncodedLetter(data: seq<Byte>, i: nat)
    requires i < GroupCount(|data|)
    ensures LetterValue(Encode(data)[i]) == Group(data, i)
  {
    LettersPrefix(data, i + 1, GroupCount(|data|));
    LetterTable(Group(data, i));
    assert Encode(data)[i] == Letters(data, i + 1)[i];
  }

  lemma EncodeIsBase32(data: seq<Byte>)
    ensures IsBase32(Encode(data))
  {
    forall i | 0 <= i < GroupCount(|data|) ensures 0 <= LetterValue(Encode(data)[i]) < 32 {
      EncodedLetter(data, i);
    }
  }

  lemma {:induction false} EncodedBits(data: seq<Byte>, k: nat, to: nat)
    requires IsBase32(Encode(data)) && k <= GroupCount(|data|) && to == 5 * k
    ensures TextBits(Encode(data), k) == Padded(data)[..to]
  {
    hide Encode, Padded, Group, BitsOf, LetterValue;
    if k > 0 {
      EncodedBits(data, k - 1, to - 5);
      EncodedLetter(data, k - 1);
      GroupBits(data, k - 1, to - 5);
    }
  }

  /** Every input is recovered from its encoding. */
  lemma RoundTrip(data: seq<Byte>)
    ensures IsBase32(Encode(data)) && DecodeText(Encode(data)) == data
  {
    var n := GroupCount(|data|);
    EncodeIsBase32(data);
    EncodedBits(data, n, 5 * n);
    var bits := TextBits(Encode(data), n);
    assert |bits| / 8 == |data|;
    forall i | 0 <= i < |data| ensures Val(bits[8 * i..8 * i + 8]) == data[i] {
      StreamByte(data, i);
      ValByteBits(data[i]);
      assert bits[8 * i..8 * i + 8] == Padded(data)[8 * i..8 * i + 8];
    }
  }
}
