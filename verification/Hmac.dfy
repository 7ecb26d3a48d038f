/** wmail/libhmac/hmac.c with the MD5 hooks of wmail/md5/hmac.c: a key is turned once into two
    saved chaining values, and every text is then hashed from those. */
module Hmac {
  import opened Bytes
  import opened Md5
  import opened CourierMd5

  const B := 64
  const L := 16

  // ----- HMAC as section 2 of RFC 2104 defines it

  /** The key, hashed if it is longer than a block, then filled up with zeros. */
  function KeyBlock(key: seq<Byte>): (k: seq<Byte>)
    ensures |k| == B
  {
    var k := if |key| > B then Digest(key) else key;
    k + Zeros(B - |k|)
  }

  function XorPad(k: seq<Byte>, pad: Byte): (r: seq<Byte>)
    ensures |r| == |k|
  {
    seq(|k|, i requires 0 <= i < |k| => XorByte(k[i], pad))
  }

  function HmacMd5(key: seq<Byte>, text: seq<Byte>): (h: seq<Byte>)
    ensures |h| == L
  {
    var k := KeyBlock(key);
    Digest(XorPad(k, 0x5C) + Digest(XorPad(k, 0x36) + text))
  }

  /** Section 2 of RFC 2104, for a key of one block. */
  lemma HmacOfBlock(key: seq<Byte>, inner: seq<Byte>, outer: seq<Byte>, text: seq<Byte>)
    requires |key| == |inner| == |outer| == 64
    requires forall i :: 0 <= i < 64 ==> inner[i] == ((key[i] as bv8) ^ 0x36) as int
    requires forall i :: 0 <= i < 64 ==> outer[i] == ((key[i] as bv8) ^ 0x5C) as int
    ensures HmacMd5(key, text) == Digest(outer + Digest(inner + text))
  {
    hide Digest;
    assert KeyBlock(key) == key;
    assert XorPad(key, 0x36) == inner && XorPad(key, 0x5C) == outer;
  }

  /** A shorter key is filled up with zeros, so one more changes nothing. */
  lemma ShortKey(key: seq<Byte>, text: seq<Byte>)
    requires |key| < 64
    ensures HmacMd5(key + [0], text) == HmacMd5(key, text)
  {
    hide Digest, XorPad;
    assert KeyBlock(key + [0]) == KeyBlock(key);
  }

  /** A longer key is hashed first. */
  lemma LongKey(key: seq<Byte>, text: seq<Byte>)
    requires |key| > 64
    ensures HmacMd5(key, text) == HmacMd5(Digest(key), text)
  {
    hide Digest, XorPad;
    assert KeyBlock(key) == KeyBlock(Digest(key));
  }

  // ----- the saved values

  /** The chaining value after one padded key block, as saved by hmac_hashkey. */
  function KeyState(key: seq<Byte>, pad: Byte): (d: seq<Byte>)
    ensures |d| == L
  {
    Encode(Compress(INITIAL, XorPad(KeyBlock(key), pad)))
  }

  /** What comes out of hashing `text` from a saved value, with the length the code appends. */
  function Resume(saved: seq<Byte>, text: seq<Byte>): (h: seq<Byte>)
    requires |saved| == L
    ensures |h| == L
  {
    Encode(Absorb(Decode(saved), text + Tail(|text|)))
  }

  /** What follows the text in hmac_hashtext. */
  function Tail(n: nat): (t: seq<Byte>)
    ensures (n + |t|) % B == 0
  {
    PaddingFits(n);
    [0x80] + Zeros((55 - n) % 64) + LengthBytes(n + B)
  }

  /** The code pads a text as if the key block stood before it. */
  lemma TailIsPadding(n: nat)
    requires n + B < WORD
    ensures Tail(n) == Padding(n + B)
  {
    hide LengthBytes, LengthField;
    LengthExactFor(n);
    SameResidue(55 - n);
  }

  /** Restoring a value saved at a block boundary resumes the hash of the block and the text. */
  lemma ResumeIsDigest(block: seq<Byte>, text: seq<Byte>)
    requires |block| == B && |text| + B < WORD
    ensures Resume(Encode(Compress(INITIAL, block)), text) == Digest(block + text)
  {
    hide Compress, Encode, Decode, Tail, Padding;
    DecodeEncode(Compress(INITIAL, block));
    AbsorbBlock(INITIAL, block);
    TailIsPadding(|text|);
    AbsorbConcat(INITIAL, block, text + Tail(|text|));
    assert block + (text + Tail(|text|)) == block + text + Padding(|block + text|);
  }

  lemma SameResidue(n: int)
    ensures (n - 64) % 64 == n % 64
  {}

  lemma HmacFromStates(key: seq<Byte>, text: seq<Byte>)
    requires |text| + B < WORD
    ensures Resume(KeyState(key, 0x5C), Resume(KeyState(key, 0x36), text)) == HmacMd5(key, text)
  {
    hide Compress, Digest, Resume, XorPad, KeyBlock, XorByte;
    var k := KeyBlock(key);
    ResumeIsDigest(XorPad(k, 0x36), text);
    ResumeIsDigest(XorPad(k, 0x5C), Digest(XorPad(k, 0x36) + text));
  }

  /** The length appended to a text of fewer than 2^32 octets is the one RFC 1321 asks for
      unless the 64 octets of the key block carry it past 2^32. */
  lemma LengthExactFor(n: nat)
    requires n < WORD
    ensures LengthBytes(n + B) == LengthField(n + B) <==> n + B < WORD
  {
    hide LengthBytes, LengthField;
    LengthBytesExact(n + B);
    SmallCount(n + B);
  }

  lemma SmallCount(n: nat)
    requires n < 2 * WORD
    ensures n % 0x2000_0000_0000_0000 == n
  {}

  // ----- the code

  /** The half of dokeycalc for one pad, with its 64-octet working buffer. */
  method SaveKeyState(c: Context, k: seq<Byte>, pad: Byte) returns (saved: seq<Byte>)
    requires c.blk.Length == 64 && |k| <= B
    modifies c, c.blk
    ensures c.blk == old(c.blk)
    ensures saved == Encode(Compress(INITIAL, XorPad(k + Zeros(B - |k|), pad)))
  {
    hide Compress, Represents, XorByte;
    ghost var padded := XorPad(k + Zeros(B - |k|), pad);
    c.Init();
    var buf: seq<Byte> := [];
    for l := 0 to B
      invariant c.Valid() && c.blk == old(c.blk) && c.origin == INITIAL && |buf| < 64
      invariant c.fed + buf == padded[..l]
    {
      buf := buf + [XorByte(if l < |k| then k[l] else 0, pad)];
      assert c.fed + buf == padded[..l + 1];
      if |buf| >= 64 {
        c.HashStream(buf);
        buf := [];
      }
    }
    if |buf| > 0 {
      c.HashStream(buf);
    }
    assert c.fed == padded;
    c.BlkPtrIs();
    AbsorbBlock(INITIAL, padded);
    saved := c.GetDigest();
  }

  /** hmac_hashkey, with docalcc, dohashkey and dokeycalc. */
  method HashKey(key: seq<Byte>) returns (kxopad: seq<Byte>, kxipad: seq<Byte>)
    ensures |kxopad| == |kxipad| == L
    ensures |key| < WORD ==> kxopad == KeyState(key, 0x5C) && kxipad == KeyState(key, 0x36)
  {
    hide Compress, Represents, Absorb, XorPad, LengthField, LengthBytes, Encode;
    var c := new Context();
    var k := key;
    if |k| > B {
      c.Init();
      c.HashStream(k[..|k| % WORD]);
      c.EndStream(|k|);
      k := c.GetDigest();
      assert |key| < WORD ==> k == Digest(key) by {
        LengthBytesExact(|key|);
        if |key| < WORD {
          assert key[..|key| % WORD] == key;
          assert c.fed == key + Padding(|key|);
        }
      }
    }
    kxopad := SaveKeyState(c, k, 0x5C);
    kxipad := SaveKeyState(c, k, 0x36);
  }

  /** One of the two halves of docalch, with the length it announces. */
  method ResumeHash(c: Context, saved: seq<Byte>, text: seq<Byte>) returns (hash: seq<Byte>)
    requires c.blk.Length == 64 && |saved| == L
    modifies c, c.blk
    ensures c.blk == old(c.blk) && |hash| == L
    ensures |text| < WORD ==> hash == Resume(saved, text)
  {
    hide Compress, Represents, Absorb, LengthBytes, Encode, Decode;
    c.Restore(saved);
    c.HashStream(text[..|text| % WORD]);
    c.EndStream(|text| + B);
    if |text| < WORD {
      assert text[..|text| % WORD] == text;
      assert c.fed == text + Tail(|text|);
    }
    hash := c.GetDigest();
  }

  /** hmac_hashtext, with docalch. */
  method HashText(text: seq<Byte>, kxopad: seq<Byte>, kxipad: seq<Byte>) returns (hash: seq<Byte>)
    requires |kxopad| == |kxipad| == L
    ensures |hash| == L
    ensures |text| < WORD ==> hash == Resume(kxopad, Resume(kxipad, text))
  {
    hide Resume, Represents;
    var c := new Context();
    hash := ResumeHash(c, kxipad, text);
    hash := ResumeHash(c, kxopad, hash);
  }

  /** The two phases together: HMAC-MD5 as RFC 2104 has it. */
  method Authenticate(key: seq<Byte>, text: seq<Byte>) returns (hash: seq<Byte>)
    ensures |key| < WORD && |text| + B < WORD ==> hash == HmacMd5(key, text)
  {
    hide HmacMd5, Resume, KeyState;
    var kxopad, kxipad := HashKey(key);
    hash := HashText(text, kxopad, kxipad);
    if |key| < WORD && |text| + B < WORD {
      HmacFromStates(key, text);
    }
  }
}
