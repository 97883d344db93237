/**
  Content identifiers for the 32-byte digests the contract emits
  (`bytes32ToCID`): a CID version 1 with the raw codec around a SHA-256
  multihash, written in the lowercase base-32 multibase form, whose
  multibase prefix is `b`.
*/
module Cid {
  import opened Binary
  import opened Base32

  /** Multihash code of SHA-256. */
  const Sha256Code: byte := 0x12
  /** Length of a SHA-256 digest in bytes. */
  const DigestLength: byte := 0x20
  const CidVersion: byte := 0x01
  /** Multicodec code of raw binary content. */
  const RawCodec: byte := 0x55

  /** The four header bytes that precede the digest in every identifier. */
  const Header: Bytes := [CidVersion, RawCodec, Sha256Code, DigestLength]

  /** Length of every identifier: the prefix `b` and 58 symbols for 36 bytes. */
  const CidLength: nat := 59

  /** The 36 bytes of the identifier: header, then the first 32 bytes of the digest. */
  function CidBytes(hash: Bytes): (buf: Bytes)
    requires |hash| >= 32
  {
    Header + hash[..32]
  }

  /** The identifier of `hash`, as a string. */
  function CidOf(hash: Bytes): (cid: string)
    requires |hash| >= 32
    ensures |cid| == CidLength && cid[0] == 'b'
    ensures forall k :: 1 <= k < |cid| ==> cid[k] in Alphabet
  {
    "b" + Encode(CidBytes(hash))
  }

  /**
    The source's construction: a 34-byte multihash array filled with the
    code, the length and the digest, copied after version and codec into a
    36-byte array, which is base-32 encoded and prefixed with `b`. Only the
    first 32 bytes of `dataHash` are read.
  */
  method Bytes32ToCid(dataHash: Bytes) returns (cid: string)
    requires |dataHash| >= 32
    ensures cid == CidOf(dataHash)
    ensures |cid| == CidLength
  {
    var multihash: Bytes := seq(34, _ => 0);
    multihash := multihash[0 := Sha256Code][1 := DigestLength];
    for i := 0 to 32
      invariant |multihash| == 34
      invariant multihash[0] == Sha256Code && multihash[1] == DigestLength
      invariant forall j :: 0 <= j < i ==> multihash[j + 2] == dataHash[j]
    {
      multihash := multihash[i + 2 := dataHash[i]];
    }
    var cidData: Bytes := seq(36, _ => 0);
    cidData := cidData[0 := CidVersion][1 := RawCodec];
    for i := 0 to 34
      invariant |cidData| == 36
      invariant cidData[0] == CidVersion && cidData[1] == RawCodec
      invariant forall j :: 0 <= j < i ==> cidData[j + 2] == multihash[j]
    {
      cidData := cidData[i + 2 := multihash[i]];
    }
    assert cidData == CidBytes(dataHash) by {
      forall j | 4 <= j < 36
        ensures cidData[j] == CidBytes(dataHash)[j]
      {
        assert cidData[j] == multihash[j - 2] == dataHash[j - 4];
      }
    }
    var base32String := EncodeBase32(cidData);
    cid := "b" + base32String;
  }

  /** The digest sits unchanged in bytes 4 to 35, after the fixed header. */
  lemma CidLayout(hash: Bytes)
    requires |hash| >= 32
    ensures |CidBytes(hash)| == 36
    ensures CidBytes(hash)[..4] == [0x01, 0x55, 0x12, 0x20]
    ensures forall i :: 0 <= i < 32 ==> CidBytes(hash)[4 + i] == hash[i]
  {
  }

  /** The header, read as one big-endian number. */
  lemma HeaderValue()
    ensures BigEndian(Header) == 0x01551220
  {
    assert BigEndian([0x01]) == 0x01 by { assert [0x01][..0] == []; }
    assert BigEndian([0x01, 0x55]) == 0x0155 by { assert [0x01, 0x55][..1] == [0x01]; }
    assert BigEndian([0x01, 0x55, 0x12]) == 0x015512 by { assert [0x01, 0x55, 0x12][..2] == [0x01, 0x55]; }
    assert Header[..3] == [0x01, 0x55, 0x12];
  }

  /** The first six five-bit groups of the header value 0x01551220. */
  lemma HeaderDigits()
    ensures (0x01551220 / Pow2(27)) % 32 == 0 && (0x01551220 / Pow2(22)) % 32 == 5
    ensures (0x01551220 / Pow2(17)) % 32 == 10 && (0x01551220 / Pow2(12)) % 32 == 17
    ensures (0x01551220 / Pow2(7)) % 32 == 4 && (0x01551220 / Pow2(2)) % 32 == 8
  {
    Pow2Small();
    Pow2Add(7, 5);
    Pow2Add(12, 5);
    Pow2Add(17, 5);
    Pow2Add(22, 5);
  }

  /** The first thirty bits of any buffer that starts with the header. */
  lemma HeaderGroups(buf: Bytes)
    requires |buf| >= 4 && buf[..4] == Header
    ensures Group(buf, 0) == 0 && Group(buf, 1) == 5 && Group(buf, 2) == 10
    ensures Group(buf, 3) == 17 && Group(buf, 4) == 4 && Group(buf, 5) == 8
  {
    WindowBigEndian(buf, 4);
    HeaderValue();
    HeaderDigits();
    GroupOfPrefix(buf, 0, 32, 27);
    GroupOfPrefix(buf, 1, 32, 22);
    GroupOfPrefix(buf, 2, 32, 17);
    GroupOfPrefix(buf, 3, 32, 12);
    GroupOfPrefix(buf, 4, 32, 7);
    GroupOfPrefix(buf, 5, 32, 2);
  }

  /** The symbols of the header groups. */
  lemma HeaderSymbols(buf: Bytes)
    requires |buf| == 36
    requires Group(buf, 0) == 0 && Group(buf, 1) == 5 && Group(buf, 2) == 10
    requires Group(buf, 3) == 17 && Group(buf, 4) == 4 && Group(buf, 5) == 8
    ensures Encode(buf)[..6] == "afkrei"
  {
    var p := "afkrei";
    forall k | 0 <= k < 6
      ensures Alphabet[Group(buf, k)] == p[k]
    {
      if k == 0 {} else if k == 1 {} else if k == 2 {} else if k == 3 {} else if k == 4 {} else {}
    }
    PrefixOfEncode(buf, p);
  }

  /**
    Every identifier starts with `bafkrei`: the multibase prefix, then the
    thirty bits of the header that fill the first six symbols.
  */
  lemma CidPrefix(hash: Bytes)
    requires |hash| >= 32
    ensures CidOf(hash)[..7] == "bafkrei"
  {
    var buf := CidBytes(hash);
    assert buf[..4] == Header;
    HeaderGroups(buf);
    HeaderSymbols(buf);
    assert CidOf(hash)[..7] == "b" + Encode(buf)[..6];
  }

  /** Two digests get the same identifier exactly when their first 32 bytes agree. */
  lemma CidInjective(h1: Bytes, h2: Bytes)
    requires |h1| >= 32 && |h2| >= 32
    ensures CidOf(h1) == CidOf(h2) <==> h1[..32] == h2[..32]
  {
    if CidOf(h1) == CidOf(h2) {
      assert Encode(CidBytes(h1)) == CidOf(h1)[1..];
      assert Encode(CidBytes(h2)) == CidOf(h2)[1..];
      EncodeInjective(CidBytes(h1), CidBytes(h2));
      assert h1[..32] == CidBytes(h1)[4..];
      assert h2[..32] == CidBytes(h2)[4..];
    }
  }
}
