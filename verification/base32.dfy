/**
  Unpadded lowercase base-32 of section 6 of RFC 4648, as `encodeBase32` in
  src/mapping.ts produces it: the input is read as one big-endian bit stream
  (most significant bit of each byte first), cut into 5-bit groups, and each
  group is replaced by its symbol; a final partial group is filled with zero
  bits on the right, and no `=` padding is appended.
*/
module Base32 {
  import opened Binary

  /** The symbol table `BASE32_ALPHABET`. */
  const Alphabet: string := "abcdefghijklmnopqrstuvwxyz234567"

  /** Bit `t` of the 8-bit value `b`, counting from the most significant bit (`t == 0`). */
  function ByteBit(b: nat, t: nat): (bit: nat)
    requires t < 8
    ensures bit < 2
    decreases 7 - t
  {
    if t == 7 then b % 2 else ByteBit(b / 2, t + 1)
  }

  /** Bit `j` of the big-endian bit stream of `data`; zero past the end, which is the right padding of the last group. */
  function BitAt(data: Bytes, j: nat): (b: nat)
    ensures b < 2
  {
    if j < 8 * |data| then ByteBit(data[j / 8], j % 8) else 0
  }

  /** The number whose binary digits, most significant first, are stream bits `lo .. lo + len - 1`. */
  function Window(data: Bytes, lo: nat, len: nat): (w: nat)
    ensures w < Pow2(len)
  {
    if len == 0 then 0 else 2 * Window(data, lo, len - 1) + BitAt(data, lo + len - 1)
  }

  /** The value of 5-bit group `k`: stream bits `5k .. 5k + 4`. */
  function Group(data: Bytes, k: nat): (g: nat)
    ensures g < |Alphabet|
  {
    Pow2Small();
    Window(data, 5 * k, 5)
  }

  /** Number of output symbols for `n` input bytes: the ceiling of 8n/5. */
  function GroupCount(n: nat): nat {
    (8 * n + 4) / 5
  }

  /** The reference encoding, one symbol per 5-bit group. */
  function Encode(data: Bytes): (s: string)
    ensures 8 * |data| <= 5 * |s| < 8 * |data| + 5
    ensures forall k :: 0 <= k < |s| ==> s[k] in Alphabet
  {
    seq(GroupCount(|data|), k requires 0 <= k < GroupCount(|data|) => Alphabet[Group(data, k)])
  }

  /** 2^32: `value` is a 32-bit integer, and shifts left drop the bits above bit 31. */
  const Word: nat := 0x1_0000_0000

  /**
    The encoder loop of the source. `value` accumulates input bytes (the
    source's `(value << 8) | data[i]`, which wraps at 32 bits; `>>>` reads
    the 32 bits unsigned) and `bits` counts how many of its low bits are not
    yet emitted; a symbol is emitted whenever five are pending. The wrap
    never loses a pending bit, because at most twelve are pending.
  */
  method EncodeBase32(data: Bytes) returns (output: string)
    ensures output == Encode(data)
  {
    output := "";
    var bits: nat := 0;
    var value: nat := 0;
    var i := 0;
    while i < |data|
      invariant 0 <= i <= |data|
      invariant bits < 5
      invariant 5 * |output| + bits == 8 * i
      invariant value % Pow2(bits) == Window(data, 5 * |output|, bits)
      invariant |output| <= GroupCount(|data|)
      invariant output == Encode(data)[..|output|]
    {
      ReadByte(data, i, value, bits, 5 * |output|);
      WrapKeepsPending(value * 256 + data[i], bits + 8);
      value := (value * 256 + data[i]) % Word;
      bits := bits + 8;
      output, bits := EmitGroups(data, output, value, bits);
      i := i + 1;
    }
    output := EmitRest(data, output, value, bits);
  }

  /** The inner loop of the encoder: emit a symbol while five or more bits are pending. */
  method EmitGroups(data: Bytes, output0: string, value: nat, bits0: nat) returns (output: string, bits: nat)
    requires bits0 <= 12 && 5 * |output0| + bits0 <= 8 * |data|
    requires value % Pow2(bits0) == Window(data, 5 * |output0|, bits0)
    requires |output0| <= GroupCount(|data|) && output0 == Encode(data)[..|output0|]
    ensures bits < 5 && 5 * |output| + bits == 5 * |output0| + bits0
    ensures value % Pow2(bits) == Window(data, 5 * |output|, bits)
    ensures |output| <= GroupCount(|data|) && output == Encode(data)[..|output|]
  {
    output, bits := output0, bits0;
    while bits >= 5
      invariant bits <= 12
      invariant 5 * |output| + bits == 5 * |output0| + bits0
      invariant value % Pow2(bits) == Window(data, 5 * |output|, bits)
      invariant |output| <= GroupCount(|data|)
      invariant output == Encode(data)[..|output|]
      decreases bits
    {
      EmitGroup(data, value, bits, |output|);
      var c := Alphabet[(value / Pow2(bits - 5)) % 32];
      ExtendPrefix(data, output, c);
      output := output + [c];
      bits := bits - 5;
    }
  }

  /** After the last byte: the one to four bits still pending, shifted left to five, give the last symbol. */
  method EmitRest(data: Bytes, output0: string, value: nat, bits: nat) returns (output: string)
    requires bits < 5 && 5 * |output0| + bits == 8 * |data|
    requires value % Pow2(bits) == Window(data, 5 * |output0|, bits)
    requires |output0| <= GroupCount(|data|) && output0 == Encode(data)[..|output0|]
    ensures output == Encode(data)
  {
    output := output0;
    if bits > 0 {
      EmitLast(data, value, bits, |output|);
      WrapKeepsPending(value * Pow2(5 - bits), 5);
      var c := Alphabet[((value * Pow2(5 - bits)) % Word) % 32];
      ExtendPrefix(data, output, c);
      output := output + [c];
    }
  }

  /** Wrapping at 32 bits keeps the low `bits` bits when at most twelve are asked for. */
  lemma WrapKeepsPending(x: int, bits: nat)
    requires bits <= 12
    ensures (x % Word) % Pow2(bits) == x % Pow2(bits)
  {
    Pow2Add(bits, 32 - bits);
    Pow2Word();
    ModMod(x, Pow2(bits), Pow2(32 - bits));
  }

  lemma Pow2Word()
    ensures Pow2(32) == Word
  {
    Pow2Small();
    Pow2Add(8, 8);
    Pow2Add(16, 16);
  }

  /** Appending the symbol of the next group keeps the output a prefix of the reference encoding. */
  lemma ExtendPrefix(data: Bytes, output: string, c: char)
    requires |output| < GroupCount(|data|) && output == Encode(data)[..|output|]
    requires c == Alphabet[Group(data, |output|)]
    ensures output + [c] == Encode(data)[..|output| + 1]
  {
  }

  /** Shifting byte `i` in below the `bits` pending bits extends the pending window by that byte. */
  lemma ReadByte(data: Bytes, i: nat, value: int, bits: nat, lo: nat)
    requires i < |data| && lo + bits == 8 * i
    requires value % Pow2(bits) == Window(data, lo, bits)
    ensures (value * 256 + data[i]) % Pow2(bits + 8) == Window(data, lo, bits + 8)
  {
    Pow2Small();
    Pow2Add(bits, 8);
    ShiftInByte(value, Pow2(bits), data[i]);
    WindowConcat(data, lo, bits, 8);
    WindowByte(data, i);
  }

  /** With at least five bits pending, the top five are group `k` and the rest stay pending. */
  lemma EmitGroup(data: Bytes, value: int, bits: nat, k: nat)
    requires 5 <= bits && 5 * k + bits <= 8 * |data|
    requires value % Pow2(bits) == Window(data, 5 * k, bits)
    ensures k < GroupCount(|data|)
    ensures (value / Pow2(bits - 5)) % 32 == Group(data, k)
    ensures value % Pow2(bits - 5) == Window(data, 5 * k + 5, bits - 5)
  {
    Pow2Small();
    Pow2Add(5, bits - 5);
    WindowConcat(data, 5 * k, 5, bits - 5);
    TopFive(value, Pow2(bits - 5), Window(data, 5 * k, 5), Window(data, 5 * k + 5, bits - 5));
  }

  /** The last one to four pending bits, padded with zeros on the right, are the final group. */
  lemma EmitLast(data: Bytes, value: int, bits: nat, k: nat)
    requires 0 < bits < 5 && 5 * k + bits == 8 * |data|
    requires value % Pow2(bits) == Window(data, 5 * k, bits)
    ensures k + 1 == GroupCount(|data|)
    ensures (value * Pow2(5 - bits)) % 32 == Group(data, k)
  {
    Pow2Small();
    Pow2Add(bits, 5 - bits);
    PadRight(value, Pow2(bits), Pow2(5 - bits));
    WindowConcat(data, 5 * k, bits, 5 - bits);
    WindowPastEnd(data, 5 * k + bits, 5 - bits);
  }

  /** `x` shifted left by `n` bits, written without multiplication. */
  function Shl(x: int, n: nat): int {
    if n == 0 then x else 2 * Shl(x, n - 1)
  }

  lemma {:induction false} ShlIsMul(x: int, n: nat)
    ensures Shl(x, n) == x * Pow2(n)
  {
    if n > 0 {
      ShlIsMul(x, n - 1);
      assert x * Pow2(n) == 2 * (x * Pow2(n - 1));
    }
  }

  /** A window splits into a high part and a low part. */
  lemma WindowConcat(data: Bytes, lo: nat, a: nat, b: nat)
    ensures Window(data, lo, a + b) == Window(data, lo, a) * Pow2(b) + Window(data, lo + a, b)
  {
    WindowSplit(data, lo, a, b);
    ShlIsMul(Window(data, lo, a), b);
  }

  lemma {:induction false} WindowSplit(data: Bytes, lo: nat, a: nat, b: nat)
    ensures Window(data, lo, a + b) == Shl(Window(data, lo, a), b) + Window(data, lo + a, b)
  {
    if b > 0 {
      WindowSplit(data, lo, a, b - 1);
      assert Window(data, lo, a + b) == 2 * Window(data, lo, a + (b - 1)) + BitAt(data, lo + a + b - 1);
    }
  }

  /** Bits past the end of the input read as zero. */
  lemma {:induction false} WindowPastEnd(data: Bytes, lo: nat, len: nat)
    requires lo >= 8 * |data|
    ensures Window(data, lo, len) == 0
  {
    if len > 0 {
      WindowPastEnd(data, lo, len - 1);
    }
  }

  /** The first `k` bits of byte `i` in the stream are its top `k` bits. */
  lemma {:induction false} WindowByteTop(data: Bytes, i: nat, k: nat)
    requires i < |data| && k <= 8
    ensures Window(data, 8 * i, k) == data[i] / Pow2(8 - k)
  {
    Pow2Small();
    if k > 0 {
      WindowByteTop(data, i, k - 1);
      var d := data[i];
      assert (8 * i + k - 1) / 8 == i && (8 * i + k - 1) % 8 == k - 1;
      assert BitAt(data, 8 * i + k - 1) == ByteBit(d, k - 1);
      ByteBitShift(d, k - 1);
      assert Pow2(9 - k) == 2 * Pow2(8 - k);
      DivDiv(d, Pow2(8 - k), 2);
      var e := d / Pow2(8 - k);
      assert e == 2 * (e / 2) + e % 2;
    }
  }

  /** Bit `t` of a byte is the low bit of the byte shifted right by `7 - t`. */
  lemma {:induction false} ByteBitShift(b: nat, t: nat)
    requires t < 8
    ensures ByteBit(b, t) == (b / Pow2(7 - t)) % 2
    decreases 7 - t
  {
    if t < 7 {
      ByteBitShift(b / 2, t + 1);
      assert Pow2(7 - t) == 2 * Pow2(6 - t);
      DivDiv(b, 2, Pow2(6 - t));
    }
  }

  /** Eight consecutive stream bits starting at a byte boundary are that byte. */
  lemma WindowByte(data: Bytes, i: nat)
    requires i < |data|
    ensures Window(data, 8 * i, 8) == data[i]
  {
    WindowByteTop(data, i, 8);
    Pow2Small();
  }

  /** The big-endian value of a byte string. */
  function BigEndian(s: Bytes): nat {
    if |s| == 0 then 0 else BigEndian(s[..|s| - 1]) * 256 + s[|s| - 1]
  }

  /** The first `8m` stream bits, read as one number, are the big-endian value of the first `m` bytes. */
  lemma {:induction false} WindowBigEndian(data: Bytes, m: nat)
    requires m <= |data|
    ensures Window(data, 0, 8 * m) == BigEndian(data[..m])
  {
    if m > 0 {
      WindowBigEndian(data, m - 1);
      assert data[..m][..m - 1] == data[..m - 1];
      WindowNextByte(data, m - 1);
      assert 8 * (m - 1) + 8 == 8 * m;
    }
  }

  /** The stream bits up to the end of byte `i` are those before it followed by the byte. */
  lemma WindowNextByte(data: Bytes, i: nat)
    requires i < |data|
    ensures Window(data, 0, 8 * i + 8) == Window(data, 0, 8 * i) * 256 + data[i]
  {
    WindowSplit(data, 0, 8 * i, 8);
    WindowByte(data, i);
    ShlByte(Window(data, 0, 8 * i));
  }

  /** Shifting left by eight bits multiplies by 256. */
  lemma ShlByte(x: int)
    ensures Shl(x, 8) == x * 256
  {
    assert Shl(x, 8) == 2 * Shl(x, 7) && Shl(x, 7) == 2 * Shl(x, 6);
    assert Shl(x, 6) == 2 * Shl(x, 5) && Shl(x, 5) == 2 * Shl(x, 4);
    assert Shl(x, 4) == 2 * Shl(x, 3) && Shl(x, 3) == 2 * Shl(x, 2);
    assert Shl(x, 2) == 2 * Shl(x, 1) && Shl(x, 1) == 2 * Shl(x, 0);
  }

  /** Dropping the low `b` bits of a window leaves its high part. */
  lemma WindowHigh(data: Bytes, lo: nat, a: nat, b: nat)
    ensures Window(data, lo, a + b) / Pow2(b) == Window(data, lo, a)
  {
    WindowConcat(data, lo, a, b);
    DivModUnique(Window(data, lo, a + b), Pow2(b), Window(data, lo, a), Window(data, lo + a, b));
  }

  /** The low `b` bits of a window are its low part. */
  lemma WindowLow(data: Bytes, lo: nat, a: nat, b: nat)
    ensures Window(data, lo, a + b) % Pow2(b) == Window(data, lo + a, b)
  {
    WindowConcat(data, lo, a, b);
    DivModUnique(Window(data, lo, a + b), Pow2(b), Window(data, lo, a), Window(data, lo + a, b));
  }

  /** Any window inside the first `t` bits is a digit group of their combined value. */
  lemma WindowOfPrefix(data: Bytes, lo: nat, len: nat, t: nat)
    requires lo + len <= t
    ensures Window(data, lo, len) == (Window(data, 0, t) / Pow2(t - lo - len)) % Pow2(len)
  {
    var r := t - lo - len;
    assert (lo + len) + r == t;
    WindowHigh(data, 0, lo + len, r);
    WindowLow(data, 0, lo, len);
  }

  /** The whole stream, read as one number, is the big-endian value of the input. */
  lemma WindowWhole(data: Bytes)
    ensures Window(data, 0, 8 * |data|) == BigEndian(data)
  {
    WindowBigEndian(data, |data|);
    assert data[..|data|] == data;
  }

  /** Reading `pad` bits past the end shifts the value left by `pad` zero bits. */
  lemma WindowPadded(data: Bytes, pad: nat)
    ensures Window(data, 0, 8 * |data| + pad) == Shl(BigEndian(data), pad)
  {
    WindowWhole(data);
    WindowSplit(data, 0, 8 * |data|, pad);
    WindowPastEnd(data, 8 * |data|, pad);
  }

  lemma GroupOfPrefix(data: Bytes, k: nat, total: nat, shift: nat)
    requires 5 * k + 5 + shift == total
    ensures Group(data, k) == (Window(data, 0, total) / Pow2(shift)) % 32
  {
    WindowOfPrefix(data, 5 * k, 5, total);
    Pow2Small();
  }

  /** Group `k` read off the zero-padded big-endian value of the whole input. */
  lemma GroupOfValue(data: Bytes, k: nat, pad: nat, shift: nat)
    requires k < GroupCount(|data|)
    requires pad == 5 * GroupCount(|data|) - 8 * |data|
    requires shift == 5 * GroupCount(|data|) - 5 * k - 5
    ensures Group(data, k) == (Shl(BigEndian(data), pad) / Pow2(shift)) % 32
  {
    WindowPadded(data, pad);
    GroupOfPrefix(data, k, 8 * |data| + pad, shift);
  }

  /** The encoding starts with `p` when the first `|p|` groups spell it. */
  lemma PrefixOfEncode(data: Bytes, p: string)
    requires |p| <= GroupCount(|data|)
    requires forall k :: 0 <= k < |p| ==> Alphabet[Group(data, k)] == p[k]
    ensures Encode(data)[..|p|] == p
  {
  }

  /** Symbol `g` of the alphabet by character arithmetic: `a`..`z`, then `2`..`7`. */
  function Symbol(g: nat): char
    requires g < 32
  {
    if g < 26 then ('a' as int + g) as char else ('2' as int + (g - 26)) as char
  }

  lemma AlphabetIsSymbol()
    ensures forall g :: 0 <= g < 32 ==> Alphabet[g] == Symbol(g)
  {
  }

  /** Symbol `k` of an encoding, by character arithmetic. */
  lemma EncodeAt(data: Bytes, k: nat)
    requires k < GroupCount(|data|)
    ensures Encode(data)[k] == Symbol(Group(data, k))
  {
    AlphabetIsSymbol();
  }

  /** Distinct group values have distinct symbols. */
  lemma AlphabetDistinct(x: nat, y: nat)
    requires x < 32 && y < 32 && Alphabet[x] == Alphabet[y]
    ensures x == y
  {
    AlphabetIsSymbol();
  }

  /** Equal windows have equal bits. */
  lemma {:induction false} WindowBits(a: Bytes, b: Bytes, lo: nat, len: nat)
    requires Window(a, lo, len) == Window(b, lo, len)
    ensures forall j :: lo <= j < lo + len ==> BitAt(a, j) == BitAt(b, j)
  {
    if len > 0 {
      var wa, wb := Window(a, lo, len - 1), Window(b, lo, len - 1);
      var ba, bb := BitAt(a, lo + len - 1), BitAt(b, lo + len - 1);
      assert 2 * wa + ba == 2 * wb + bb;
      assert ba == bb && wa == wb;
      WindowBits(a, b, lo, len - 1);
    }
  }

  /** Windows over equal bits are equal. */
  lemma {:induction false} BitsWindow(a: Bytes, b: Bytes, lo: nat, len: nat)
    requires forall j :: lo <= j < lo + len ==> BitAt(a, j) == BitAt(b, j)
    ensures Window(a, lo, len) == Window(b, lo, len)
  {
    if len > 0 {
      BitsWindow(a, b, lo, len - 1);
      assert BitAt(a, lo + len - 1) == BitAt(b, lo + len - 1);
    }
  }

  /** The encoding loses nothing: equal encodings come from equal inputs. */
  lemma EncodeInjective(a: Bytes, b: Bytes)
    requires Encode(a) == Encode(b)
    ensures a == b
  {
    var s := Encode(a);
    assert |a| == |b|;
    forall j | 0 <= j < 5 * |s|
      ensures BitAt(a, j) == BitAt(b, j)
    {
      var k := j / 5;
      assert Alphabet[Group(a, k)] == Alphabet[Group(b, k)] by {
        assert s[k] == Encode(b)[k];
      }
      AlphabetDistinct(Group(a, k), Group(b, k));
      WindowBits(a, b, 5 * k, 5);
    }
    forall i | 0 <= i < |a|
      ensures a[i] == b[i]
    {
      BitsWindow(a, b, 8 * i, 8);
      WindowByte(a, i);
      WindowByte(b, i);
    }
  }
}
