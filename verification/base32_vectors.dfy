/**
  The reference base-32 encoding checked against the test vectors of
  section 10 of RFC 4648 ("", "f", "fo", "foo", "foob", "fooba", "foobar"),
  in the lowercase, unpadded form the content-identifier code uses.
*/
module Base32Vectors {
  import opened Binary
  import opened Base32

  lemma Pow2Fives()
    ensures Pow2(0) == 1 && Pow2(5) == 32
    ensures Pow2(10) == 1024 && Pow2(15) == 32768 && Pow2(20) == 1048576
    ensures Pow2(25) == 33554432 && Pow2(30) == 1073741824 && Pow2(35) == 34359738368
    ensures Pow2(40) == 1099511627776 && Pow2(45) == 35184372088832
  {
    Pow2Small();
    Pow2Add(5, 5);
    Pow2Add(10, 5);
    Pow2Add(15, 5);
    Pow2Add(20, 5);
    Pow2Add(25, 5);
    Pow2Add(30, 5);
    Pow2Add(35, 5);
    Pow2Add(40, 5);
  }

  /** Appending a byte appends its eight bits to the big-endian value. */
  lemma BigEndianSnoc(s: Bytes, b: byte)
    ensures BigEndian(s + [b]) == BigEndian(s) * 256 + b
  {
    assert (s + [b])[..|s|] == s;
  }

  lemma Spell2(e: string)
    requires |e| == 2
    ensures e == [e[0], e[1]]
  {
  }

  lemma Spell4(e: string)
    requires |e| == 4
    ensures e == [e[0], e[1], e[2], e[3]]
  {
  }

  lemma Spell5(e: string)
    requires |e| == 5
    ensures e == [e[0], e[1], e[2], e[3], e[4]]
  {
  }

  lemma Spell7(e: string)
    requires |e| == 7
    ensures e == [e[0], e[1], e[2], e[3], e[4], e[5], e[6]]
  {
  }

  lemma Spell8(e: string)
    requires |e| == 8
    ensures e == [e[0], e[1], e[2], e[3], e[4], e[5], e[6], e[7]]
  {
  }

  lemma Spell10(e: string)
    requires |e| == 10
    ensures e == [e[0], e[1], e[2], e[3], e[4], e[5], e[6], e[7], e[8], e[9]]
  {
  }

  /**
    Group `k` of an input of `n` bytes and `c` groups whose big-endian
    value is `value`, padded to `padded`, with `p` the divisor that drops
    the later groups. The quotient `q` and remainder `rem` of that division,
    and `q` split as `h * 32 + g`, are given so that no literal division is
    left to evaluate.
  */
  lemma GroupIs(d: Bytes, n: nat, c: nat, k: nat, pad: nat, shift: nat, value: nat, padded: nat, p: nat,
                q: nat, rem: nat, h: nat, g: nat)
    requires |d| == n && 5 * c <= 8 * n + 4 < 5 * c + 5
    requires k < c && pad == 5 * c - 8 * n && shift == 5 * c - 5 * k - 5
    requires BigEndian(d) == value && Shl(value, pad) == padded && Pow2(shift) == p
    requires padded == q * p + rem && rem < p && q == h * 32 + g && g < 32
    ensures Group(d, k) == g
  {
    DivModUnique(8 * n + 4, 5, c, 8 * n + 4 - 5 * c);
    DivModUnique(padded, p, q, rem);
    DivModUnique(q, 32, h, g);
    GroupOfValue(d, k, pad, shift);
  }

  /** The five-bit groups of "f": its value 102 padded to 408. */
  lemma FGroups(d: Bytes)
    requires |d| == 1 && BigEndian(d) == 102
    ensures Group(d, 0) == 12 && Group(d, 1) == 24
  {
    assert Shl(102, 2) == 408;
    Pow2Small();
    GroupIs(d, 1, 2, 0, 2, 5, 102, 408, 32, 12, 24, 0, 12);
    GroupIs(d, 1, 2, 1, 2, 0, 102, 408, 1, 408, 0, 12, 24);
  }

  lemma EncodeF(d: Bytes)
    requires |d| == 1 && BigEndian(d) == 102
    ensures Encode(d) == "my"
  {
    FGroups(d);
    var e := Encode(d);
    assert |e| == 2;
    EncodeAt(d, 0);
    EncodeAt(d, 1);
    Spell2(e);
  }

  /** The five-bit groups of "fo": its value 26223 padded to 419568. */
  lemma FoGroupsA(d: Bytes)
    requires |d| == 2 && BigEndian(d) == 26223
    ensures Group(d, 0) == 12 && Group(d, 1) == 25 && Group(d, 2) == 23
  {
    assert Shl(26223, 4) == 419568;
    Pow2Fives();
    GroupIs(d, 2, 4, 0, 4, 15, 26223, 419568, 32768, 12, 26352, 0, 12);
    GroupIs(d, 2, 4, 1, 4, 10, 26223, 419568, 1024, 409, 752, 12, 25);
    GroupIs(d, 2, 4, 2, 4, 5, 26223, 419568, 32, 13111, 16, 409, 23);
  }

  lemma FoGroupsB(d: Bytes)
    requires |d| == 2 && BigEndian(d) == 26223
    ensures Group(d, 3) == 16
  {
    assert Shl(26223, 4) == 419568;
    Pow2Small();
    GroupIs(d, 2, 4, 3, 4, 0, 26223, 419568, 1, 419568, 0, 13111, 16);
  }

  lemma EncodeFo(d: Bytes)
    requires |d| == 2 && BigEndian(d) == 26223
    ensures Encode(d) == "mzxq"
  {
    FoGroupsA(d);
    FoGroupsB(d);
    var e := Encode(d);
    assert |e| == 4;
    EncodeAt(d, 0);
    EncodeAt(d, 1);
    EncodeAt(d, 2);
    EncodeAt(d, 3);
    Spell4(e);
  }

  /** The five-bit groups of "foo": its value 6713199 padded to 13426398. */
  lemma FooGroupsA(d: Bytes)
    requires |d| == 3 && BigEndian(d) == 6713199
    ensures Group(d, 0) == 12 && Group(d, 1) == 25 && Group(d, 2) == 23
  {
    assert Shl(6713199, 1) == 13426398;
    Pow2Fives();
    GroupIs(d, 3, 5, 0, 1, 20, 6713199, 13426398, 1048576, 12, 843486, 0, 12);
    GroupIs(d, 3, 5, 1, 1, 15, 6713199, 13426398, 32768, 409, 24286, 12, 25);
    GroupIs(d, 3, 5, 2, 1, 10, 6713199, 13426398, 1024, 13111, 734, 409, 23);
  }

  lemma FooGroupsB(d: Bytes)
    requires |d| == 3 && BigEndian(d) == 6713199
    ensures Group(d, 3) == 22 && Group(d, 4) == 30
  {
    assert Shl(6713199, 1) == 13426398;
    Pow2Small();
    GroupIs(d, 3, 5, 3, 1, 5, 6713199, 13426398, 32, 419574, 30, 13111, 22);
    GroupIs(d, 3, 5, 4, 1, 0, 6713199, 13426398, 1, 13426398, 0, 419574, 30);
  }

  lemma EncodeFoo(d: Bytes)
    requires |d| == 3 && BigEndian(d) == 6713199
    ensures Encode(d) == "mzxw6"
  {
    FooGroupsA(d);
    FooGroupsB(d);
    var e := Encode(d);
    assert |e| == 5;
    EncodeAt(d, 0);
    EncodeAt(d, 1);
    EncodeAt(d, 2);
    EncodeAt(d, 3);
    EncodeAt(d, 4);
    Spell5(e);
  }

  /** The five-bit groups of "foob": its value 1718579042 padded to 13748632336. */
  lemma FoobGroupsA(d: Bytes)
    requires |d| == 4 && BigEndian(d) == 1718579042
    ensures Group(d, 0) == 12 && Group(d, 1) == 25 && Group(d, 2) == 23
  {
    assert Shl(1718579042, 3) == 13748632336;
    Pow2Fives();
    GroupIs(d, 4, 7, 0, 3, 30, 1718579042, 13748632336, 1073741824, 12, 863730448, 0, 12);
    GroupIs(d, 4, 7, 1, 3, 25, 1718579042, 13748632336, 33554432, 409, 24869648, 12, 25);
    GroupIs(d, 4, 7, 2, 3, 20, 1718579042, 13748632336, 1048576, 13111, 752400, 409, 23);
  }

  lemma FoobGroupsB(d: Bytes)
    requires |d| == 4 && BigEndian(d) == 1718579042
    ensures Group(d, 3) == 22 && Group(d, 4) == 30 && Group(d, 5) == 24
  {
    assert Shl(1718579042, 3) == 13748632336;
    Pow2Fives();
    GroupIs(d, 4, 7, 3, 3, 15, 1718579042, 13748632336, 32768, 419574, 31504, 13111, 22);
    GroupIs(d, 4, 7, 4, 3, 10, 1718579042, 13748632336, 1024, 13426398, 784, 419574, 30);
    GroupIs(d, 4, 7, 5, 3, 5, 1718579042, 13748632336, 32, 429644760, 16, 13426398, 24);
  }

  lemma FoobGroupsC(d: Bytes)
    requires |d| == 4 && BigEndian(d) == 1718579042
    ensures Group(d, 6) == 16
  {
    assert Shl(1718579042, 3) == 13748632336;
    Pow2Small();
    GroupIs(d, 4, 7, 6, 3, 0, 1718579042, 13748632336, 1, 13748632336, 0, 429644760, 16);
  }

  lemma EncodeFoob(d: Bytes)
    requires |d| == 4 && BigEndian(d) == 1718579042
    ensures Encode(d) == "mzxw6yq"
  {
    FoobGroupsA(d);
    FoobGroupsB(d);
    FoobGroupsC(d);
    var e := Encode(d);
    assert |e| == 7;
    EncodeAt(d, 0);
    EncodeAt(d, 1);
    EncodeAt(d, 2);
    EncodeAt(d, 3);
    EncodeAt(d, 4);
    EncodeAt(d, 5);
    EncodeAt(d, 6);
    Spell7(e);
  }

  /** The five-bit groups of "fooba": its value 439956234849 padded to 439956234849. */
  lemma FoobaGroupsA(d: Bytes)
    requires |d| == 5 && BigEndian(d) == 439956234849
    ensures Group(d, 0) == 12 && Group(d, 1) == 25 && Group(d, 2) == 23
  {
    assert Shl(439956234849, 0) == 439956234849;
    Pow2Fives();
    GroupIs(d, 5, 8, 0, 0, 35, 439956234849, 439956234849, 34359738368, 12, 27639374433, 0, 12);
    GroupIs(d, 5, 8, 1, 0, 30, 439956234849, 439956234849, 1073741824, 409, 795828833, 12, 25);
    GroupIs(d, 5, 8, 2, 0, 25, 439956234849, 439956234849, 33554432, 13111, 24076897, 409, 23);
  }

  lemma FoobaGroupsB(d: Bytes)
    requires |d| == 5 && BigEndian(d) == 439956234849
    ensures Group(d, 3) == 22 && Group(d, 4) == 30 && Group(d, 5) == 24
  {
    assert Shl(439956234849, 0) == 439956234849;
    Pow2Fives();
    GroupIs(d, 5, 8, 3, 0, 20, 439956234849, 439956234849, 1048576, 419574, 1008225, 13111, 22);
    GroupIs(d, 5, 8, 4, 0, 15, 439956234849, 439956234849, 32768, 13426398, 25185, 419574, 30);
    GroupIs(d, 5, 8, 5, 0, 10, 439956234849, 439956234849, 1024, 429644760, 609, 13426398, 24);
  }

  lemma FoobaGroupsC(d: Bytes)
    requires |d| == 5 && BigEndian(d) == 439956234849
    ensures Group(d, 6) == 19 && Group(d, 7) == 1
  {
    assert Shl(439956234849, 0) == 439956234849;
    Pow2Small();
    GroupIs(d, 5, 8, 6, 0, 5, 439956234849, 439956234849, 32, 13748632339, 1, 429644760, 19);
    GroupIs(d, 5, 8, 7, 0, 0, 439956234849, 439956234849, 1, 439956234849, 0, 13748632339, 1);
  }

  lemma EncodeFooba(d: Bytes)
    requires |d| == 5 && BigEndian(d) == 439956234849
    ensures Encode(d) == "mzxw6ytb"
  {
    FoobaGroupsA(d);
    FoobaGroupsB(d);
    FoobaGroupsC(d);
    var e := Encode(d);
    assert |e| == 8;
    EncodeAt(d, 0);
    EncodeAt(d, 1);
    EncodeAt(d, 2);
    EncodeAt(d, 3);
    EncodeAt(d, 4);
    EncodeAt(d, 5);
    EncodeAt(d, 6);
    EncodeAt(d, 7);
    Spell8(e);
  }

  /** The five-bit groups of "foobar": its value 112628796121458 padded to 450515184485832. */
  lemma FoobarGroupsA(d: Bytes)
    requires |d| == 6 && BigEndian(d) == 112628796121458
    ensures Group(d, 0) == 12 && Group(d, 1) == 25 && Group(d, 2) == 23
  {
    assert Shl(112628796121458, 2) == 450515184485832;
    Pow2Fives();
    GroupIs(d, 6, 10, 0, 2, 45, 112628796121458, 450515184485832, 35184372088832, 12, 28302719419848, 0, 12);
    GroupIs(d, 6, 10, 1, 2, 40, 112628796121458, 450515184485832, 1099511627776, 409, 814928725448, 12, 25);
    GroupIs(d, 6, 10, 2, 2, 35, 112628796121458, 450515184485832, 34359738368, 13111, 24654742984, 409, 23);
  }

  lemma FoobarGroupsB(d: Bytes)
    requires |d| == 6 && BigEndian(d) == 112628796121458
    ensures Group(d, 3) == 22 && Group(d, 4) == 30 && Group(d, 5) == 24
  {
    assert Shl(112628796121458, 2) == 450515184485832;
    Pow2Fives();
    GroupIs(d, 6, 10, 3, 2, 30, 112628796121458, 450515184485832, 1073741824, 419574, 1032422856, 13111, 22);
    GroupIs(d, 6, 10, 4, 2, 25, 112628796121458, 450515184485832, 33554432, 13426398, 25789896, 419574, 30);
    GroupIs(d, 6, 10, 5, 2, 20, 112628796121458, 450515184485832, 1048576, 429644760, 624072, 13426398, 24);
  }

  lemma FoobarGroupsC(d: Bytes)
    requires |d| == 6 && BigEndian(d) == 112628796121458
    ensures Group(d, 6) == 19 && Group(d, 7) == 1 && Group(d, 8) == 14
  {
    assert Shl(112628796121458, 2) == 450515184485832;
    Pow2Fives();
    GroupIs(d, 6, 10, 6, 2, 15, 112628796121458, 450515184485832, 32768, 13748632339, 1480, 429644760, 19);
    GroupIs(d, 6, 10, 7, 2, 10, 112628796121458, 450515184485832, 1024, 439956234849, 456, 13748632339, 1);
    GroupIs(d, 6, 10, 8, 2, 5, 112628796121458, 450515184485832, 32, 14078599515182, 8, 439956234849, 14);
  }

  lemma FoobarGroupsD(d: Bytes)
    requires |d| == 6 && BigEndian(d) == 112628796121458
    ensures Group(d, 9) == 8
  {
    assert Shl(112628796121458, 2) == 450515184485832;
    Pow2Small();
    GroupIs(d, 6, 10, 9, 2, 0, 112628796121458, 450515184485832, 1, 450515184485832, 0, 14078599515182, 8);
  }

  lemma EncodeFoobar(d: Bytes)
    requires |d| == 6 && BigEndian(d) == 112628796121458
    ensures Encode(d) == "mzxw6ytboi"
  {
    FoobarGroupsA(d);
    FoobarGroupsB(d);
    FoobarGroupsC(d);
    FoobarGroupsD(d);
    var e := Encode(d);
    assert |e| == 10;
    EncodeAt(d, 0);
    EncodeAt(d, 1);
    EncodeAt(d, 2);
    EncodeAt(d, 3);
    EncodeAt(d, 4);
    EncodeAt(d, 5);
    EncodeAt(d, 6);
    EncodeAt(d, 7);
    EncodeAt(d, 8);
    EncodeAt(d, 9);
    Spell10(e);
  }

  lemma Rfc4648Vectors()
    ensures Encode([]) == ""
    ensures Encode([102]) == "my"
    ensures Encode([102, 111]) == "mzxq"
    ensures Encode([102, 111, 111]) == "mzxw6"
    ensures Encode([102, 111, 111, 98]) == "mzxw6yq"
    ensures Encode([102, 111, 111, 98, 97]) == "mzxw6ytb"
    ensures Encode([102, 111, 111, 98, 97, 114]) == "mzxw6ytboi"
  {
    BigEndianSnoc([], 102);
    assert [] + [102] == [102];
    EncodeF([102]);
    BigEndianSnoc([102], 111);
    assert [102] + [111] == [102, 111];
    EncodeFo([102, 111]);
    BigEndianSnoc([102, 111], 111);
    assert [102, 111] + [111] == [102, 111, 111];
    EncodeFoo([102, 111, 111]);
    BigEndianSnoc([102, 111, 111], 98);
    assert [102, 111, 111] + [98] == [102, 111, 111, 98];
    EncodeFoob([102, 111, 111, 98]);
    BigEndianSnoc([102, 111, 111, 98], 97);
    assert [102, 111, 111, 98] + [97] == [102, 111, 111, 98, 97];
    EncodeFooba([102, 111, 111, 98, 97]);
    BigEndianSnoc([102, 111, 111, 98, 97], 114);
    assert [102, 111, 111, 98, 97] + [114] == [102, 111, 111, 98, 97, 114];
    EncodeFoobar([102, 111, 111, 98, 97, 114]);
  }
}
