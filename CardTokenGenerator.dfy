/** `CardTokenGenerator.Generate`: the card token is the lower-case hexadecimal
    SHA-256 digest of the UTF-8 bytes of `first6 + last4 + cardType`, where
    first6 and last4 come from the mask with its `*`, `X` and `x` removed.
    SHA-256 applied to UTF-8 is a library call; it is a parameter here, known
    only to give 32 bytes. */
module CardTokenGenerator {
  import opened Common
  import opened Text
  import CardValidator

  newtype byte = x: int | 0 <= x < 256

  /** The output of `SHA256.HashData`: 32 bytes. */
  type Digest = d: seq<byte> | |d| == 32 witness seq(32, i => 0 as byte)

  const UpperHexDigits: string := "0123456789ABCDEF"
  const LowerHexDigits: string := "0123456789abcdef"

  const TooFewDigits: string := "Card mask must contain at least first 6 and last 4 digits"

  /** `cardMask.Replace("*", "").Replace("X", "").Replace("x", "")`: spaces are kept. */
  function StripFiller(mask: string): (r: string)
    ensures |r| <= |mask|
  {
    Without(Without(Without(mask, '*'), 'X'), 'x')
  }

  /** The string that is hashed: the first six and the last four characters of
      the stripped mask followed by the card type, or the argument error when
      fewer than ten characters are left. */
  function HashInput(mask: string, cardType: string): (r: Result<string>)
    ensures r.Err? <==> |StripFiller(mask)| < 10
    ensures r.Err? ==> r.error == ArgumentError(TooFewDigits, Some("cardMask"))
    ensures r.Ok? ==>
      var clean := StripFiller(mask);
      && |r.value| == 10 + |cardType|
      && r.value[..6] == clean[..6]
      && r.value[6..10] == clean[|clean| - 4..]
      && r.value[10..] == cardType
  {
    var clean := StripFiller(mask);
    if |clean| >= 10 then
      var first6 := clean[..6];
      var last4 := clean[|clean| - 4..];
      Ok(first6 + last4 + cardType)
    else
      Err(ArgumentError(TooFewDigits, Some("cardMask")))
  }

  /** The high (k == 0) or low (k == 1) four bits of a byte. */
  function Nibble(b: byte, k: int): (r: int)
    ensures 0 <= r < 16
  {
    if k == 0 then b as int / 16 else b as int % 16
  }

  /** `Convert.ToHexString`: two upper-case hexadecimal digits per byte, high digit first. */
  function ToHexString(bytes: seq<byte>): (r: string)
    ensures |r| == 2 * |bytes|
  {
    seq(2 * |bytes|, i requires 0 <= i < 2 * |bytes| => UpperHexDigits[Nibble(bytes[i / 2], i % 2)])
  }

  /** `Convert.ToHexString(hash).ToLowerInvariant()`. */
  function Render(digest: seq<byte>): (r: string)
    ensures |r| == 2 * |digest|
    ensures forall i :: 0 <= i < |r| ==> !IsAsciiUpper(r[i])
  {
    Lower(ToHexString(digest))
  }

  /** The value of a hexadecimal digit of either case (0 for anything else). */
  function HexValue(c: char): (r: int)
    ensures 0 <= r < 16
  {
    if '0' <= c <= '9' then c as int - '0' as int
    else if 'a' <= c <= 'f' then c as int - 'a' as int + 10
    else if 'A' <= c <= 'F' then c as int - 'A' as int + 10
    else 0
  }

  /** Reads a hexadecimal string back as bytes, two digits per byte. */
  function ParseHex(s: string): (r: seq<byte>)
    ensures |r| == |s| / 2
  {
    seq(|s| / 2, k requires 0 <= k < |s| / 2 => (16 * HexValue(s[2 * k]) + HexValue(s[2 * k + 1])) as byte)
  }

  /** Byte `k` of the parse is read from digits `2k` and `2k + 1`. */
  lemma ParseHexAt(s: string, k: int)
    requires 0 <= k < |s| / 2
    ensures 2 * k + 1 < |s|
    ensures ParseHex(s)[k] as int == 16 * HexValue(s[2 * k]) + HexValue(s[2 * k + 1])
  {
  }

  /** Lower-casing an upper-case hexadecimal digit gives the lower-case digit of the same value. */
  lemma LowerHexDigit(n: int)
    requires 0 <= n < 16
    ensures LowerChar(UpperHexDigits[n]) == LowerHexDigits[n]
    ensures HexValue(LowerHexDigits[n]) == n
  {
  }

  /** The rendering uses lower-case hexadecimal digits only, two per byte. */
  lemma RenderShape(digest: seq<byte>)
    ensures |Render(digest)| == 2 * |digest|
    ensures forall i :: 0 <= i < |Render(digest)| ==> Render(digest)[i] in LowerHexDigits
  {
    var r := Render(digest);
    forall i | 0 <= i < |r|
      ensures r[i] in LowerHexDigits
    {
      LowerHexDigit(Nibble(digest[i / 2], i % 2));
    }
  }

  /** The rendering loses nothing: reading it back gives the digest. */
  lemma RenderRoundTrip(digest: seq<byte>)
    ensures ParseHex(Render(digest)) == digest
  {
    var r := Render(digest);
    var back := ParseHex(r);
    assert |back| == |digest|;
    forall k | 0 <= k < |digest|
      ensures back[k] == digest[k]
    {
      RenderPair(digest, k);
      ParseHexAt(r, k);
    }
  }

  /** The two digits rendered for byte `k` hold its high and its low four bits. */
  lemma RenderPair(digest: seq<byte>, k: int)
    requires 0 <= k < |digest|
    ensures 2 * k + 1 < |Render(digest)|
    ensures 16 * HexValue(Render(digest)[2 * k]) + HexValue(Render(digest)[2 * k + 1]) == digest[k] as int
  {
    var b := digest[k] as int;
    assert (2 * k) / 2 == k && (2 * k) % 2 == 0;
    assert (2 * k + 1) / 2 == k && (2 * k + 1) % 2 == 1;
    RenderDigit(digest, 2 * k);
    RenderDigit(digest, 2 * k + 1);
    assert 16 * (b / 16) + b % 16 == b;
  }

  /** Rendered digit `i` is the lower-case digit of nibble `i % 2` of byte `i / 2`. */
  lemma RenderDigit(digest: seq<byte>, i: int)
    requires 0 <= i < 2 * |digest|
    ensures HexValue(Render(digest)[i]) == Nibble(digest[i / 2], i % 2)
  {
    var n := Nibble(digest[i / 2], i % 2);
    assert ToHexString(digest)[i] == UpperHexDigits[n];
    LowerHexDigit(n);
  }

  /** `Generate(cardMask, cardType)`, with SHA-256 over UTF-8 given as `sha256`.
      A token is 64 lower-case hexadecimal digits. */
  function Generate(mask: string, cardType: string, sha256: string -> Digest): (r: Result<string>)
    ensures r.Err? <==> |StripFiller(mask)| < 10
    ensures r.Err? ==> r.error == ArgumentError(TooFewDigits, Some("cardMask"))
    ensures r.Ok? ==> |r.value| == 64 && forall i :: 0 <= i < 64 ==> r.value[i] in LowerHexDigits
    ensures r.Ok? ==> HashInput(mask, cardType).Ok? && ParseHex(r.value) == sha256(HashInput(mask, cardType).value)
  {
    match HashInput(mask, cardType)
    case Err(e) => Err(e)
    case Ok(input) =>
      var digest := sha256(input);
      RenderShape(digest);
      RenderRoundTrip(digest);
      Ok(Render(digest))
  }

  /** With the mask fixed, two card types give two different tokens whenever
      the hash tells their hash inputs apart. */
  lemma CardTypeChangesToken(mask: string, type1: string, type2: string, sha256: string -> Digest)
    requires |StripFiller(mask)| >= 10
    requires sha256(HashInput(mask, type1).value) != sha256(HashInput(mask, type2).value)
    ensures type1 != type2
    ensures Generate(mask, type1, sha256).Ok? && Generate(mask, type2, sha256).Ok?
    ensures Generate(mask, type1, sha256) != Generate(mask, type2, sha256)
  {
  }

  /** Two tokens are equal exactly when the digests they render are equal. */
  lemma TokenDeterminesDigest(d1: Digest, d2: Digest)
    ensures Render(d1) == Render(d2) <==> d1 == d2
  {
    if Render(d1) == Render(d2) {
      RenderRoundTrip(d1);
      RenderRoundTrip(d2);
    }
  }

  /** The token depends only on the first six and the last four stripped
      characters and on the card type: which filler hides the middle, and how
      long the middle is, make no difference. */
  lemma TokenDependsOnlyOnEnds(mask1: string, mask2: string, cardType: string, sha256: string -> Digest)
    requires |StripFiller(mask1)| >= 10 && |StripFiller(mask2)| >= 10
    requires StripFiller(mask1)[..6] == StripFiller(mask2)[..6]
    requires StripFiller(mask1)[|StripFiller(mask1)| - 4..] == StripFiller(mask2)[|StripFiller(mask2)| - 4..]
    ensures HashInput(mask1, cardType) == HashInput(mask2, cardType)
    ensures Generate(mask1, cardType, sha256) == Generate(mask2, cardType, sha256)
  {
    var c1, c2 := StripFiller(mask1), StripFiller(mask2);
    assert c1[..6] + c1[|c1| - 4..] + cardType == c2[..6] + c2[|c2| - 4..] + cardType;
  }

  /** With exactly ten stripped characters the two slices do not overlap: the
      hash input is the whole stripped mask followed by the card type. */
  lemma TenCharacterMaskHashedWhole(mask: string, cardType: string)
    requires |StripFiller(mask)| == 10
    ensures HashInput(mask, cardType) == Ok(StripFiller(mask) + cardType)
  {
    var clean := StripFiller(mask);
    assert clean[..6] + clean[6..] == clean;
  }

  /** With the mask fixed, different card types give different hash inputs,
      because the prefix before the type always has ten characters. */
  lemma CardTypeChangesHashInput(mask: string, type1: string, type2: string)
    requires |StripFiller(mask)| >= 10
    requires type1 != type2
    ensures HashInput(mask, type1).value != HashInput(mask, type2).value
  {
  }

  /** The validator strips everything the generator strips and spaces too, so
      a mask the validator accepts always yields a token. */
  lemma ValidMaskYieldsToken(mask: string, cardType: string, sha256: string -> Digest)
    requires CardValidator.IsValidCardMask(mask).Pass?
    ensures |StripFiller(mask)| >= 10
    ensures Generate(mask, cardType, sha256).Ok?
  {
    assert CardValidator.StripMask(mask) == Without(StripFiller(mask), ' ');
  }

  /** Stripping the generator's filler distributes over concatenation. */
  lemma StripFillerAppend(a: string, b: string)
    ensures StripFiller(a + b) == StripFiller(a) + StripFiller(b)
  {
    var a1, b1 := Without(a, '*'), Without(b, '*');
    var a2, b2 := Without(a1, 'X'), Without(b1, 'X');
    WithoutAppend(a, b, '*');
    WithoutAppend(a1, b1, 'X');
    WithoutAppend(a2, b2, 'x');
  }

  /** A mask of six digits, a middle of `*`, `X` and `x`, and four digits strips to its ten digits. */
  lemma StripFillerOfMaskedNumber(first6: string, middle: string, last4: string)
    requires |first6| == 6 && |last4| == 4
    requires forall i :: 0 <= i < 6 ==> '0' <= first6[i] <= '9'
    requires forall i :: 0 <= i < 4 ==> '0' <= last4[i] <= '9'
    requires forall i :: 0 <= i < |middle| ==> middle[i] in "*Xx"
    ensures StripFiller(first6 + middle + last4) == first6 + last4
  {
    StripFillerKeeps(first6);
    StripFillerDrops(middle);
    StripFillerAppend(first6, middle);
    assert StripFiller(first6 + middle) == first6;
    StripFillerKeeps(last4);
    StripFillerAppend(first6 + middle, last4);
  }

  lemma StripFillerKeeps(s: string)
    requires forall i :: 0 <= i < |s| ==> s[i] !in "*Xx"
    ensures StripFiller(s) == s
  {
    WithoutAbsent(s, '*');
    WithoutAbsent(s, 'X');
    WithoutAbsent(s, 'x');
  }

  lemma {:induction false} StripFillerDrops(s: string)
    requires forall i :: 0 <= i < |s| ==> s[i] in "*Xx"
    ensures StripFiller(s) == []
  {
    if s != [] {
      assert s == [s[0]] + s[1..];
      StripFillerAppend([s[0]], s[1..]);
      StripFillerDrops(s[1..]);
    }
  }

  /** Masks made of the same six leading and four trailing digits around any
      middle of `*`, `X` and `x` give the same token for the same card type:
      "411111******1111" and "411111XXXXXX1111" with "Visa" are an instance,
      both hashing "4111111111Visa". */
  lemma SameTokenForAnyFiller(first6: string, middle1: string, middle2: string, last4: string,
                              cardType: string, sha256: string -> Digest)
    requires |first6| == 6 && |last4| == 4
    requires forall i :: 0 <= i < 6 ==> '0' <= first6[i] <= '9'
    requires forall i :: 0 <= i < 4 ==> '0' <= last4[i] <= '9'
    requires forall i :: 0 <= i < |middle1| ==> middle1[i] in "*Xx"
    requires forall i :: 0 <= i < |middle2| ==> middle2[i] in "*Xx"
    ensures HashInput(first6 + middle1 + last4, cardType) == Ok(first6 + last4 + cardType)
    ensures Generate(first6 + middle1 + last4, cardType, sha256) == Generate(first6 + middle2 + last4, cardType, sha256)
  {
    StripFillerOfMaskedNumber(first6, middle1, last4);
    StripFillerOfMaskedNumber(first6, middle2, last4);
    assert (first6 + last4)[..6] == first6;
    assert (first6 + last4)[6..] == last4;
  }

  /** "4111" is refused with the argument error. */
  lemma ShortMaskRejected(cardType: string, sha256: string -> Digest)
    ensures Generate("4111", cardType, sha256) == Err(ArgumentError(TooFewDigits, Some("cardMask")))
  {
  }
}
