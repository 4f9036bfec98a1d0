/** `CardValidator`: the two static checks run on a card before it is stored.
    Each C# method returns a bool and an `out` error message that is null exactly
    when the bool is true; here both travel in one `Check` value. */
module CardValidator {
  import opened Text

  const MinYear: int := 20  // 2020
  const MaxYear: int := 35  // 2035
  const MinMonth: int := 1
  const MaxMonth: int := 12

  const MonthOutOfRange: string := "Expiration month must be between 1 and 12"
  const UnsupportedYear: string := "Hey, man, we don't support such cards"
  const EmptyMask: string := "Card mask cannot be empty"
  const TooFewDigits: string := "Card mask must contain at least first 6 and last 4 digits"

  /** `Pass` is (true, null); `Fail(m)` is (false, m). */
  datatype Check = Pass | Fail(errorMessage: string)

  predicate IsValidDate(year: int, month: int)
  {
    MinYear <= year <= MaxYear && MinMonth <= month <= MaxMonth
  }

  /** `IsValidExpirationDate`: the month is checked before the year. */
  function IsValidExpirationDate(year: int, month: int): (r: Check)
    ensures r.Pass? <==> IsValidDate(year, month)
    ensures !(MinMonth <= month <= MaxMonth) ==> r == Fail(MonthOutOfRange)
    ensures MinMonth <= month <= MaxMonth && !(MinYear <= year <= MaxYear) ==> r == Fail(UnsupportedYear)
  {
    if month < MinMonth || month > MaxMonth then Fail(MonthOutOfRange)
    else if year < MinYear || year > MaxYear then Fail(UnsupportedYear)
    else Pass
  }

  /** The characters the validator strips from a mask before counting: `*`, `X`, `x` and space. */
  predicate IsMaskFiller(c: char)
  {
    c == '*' || c == 'X' || c == 'x' || c == ' '
  }

  /** `cardMask.Replace("*", "").Replace("X", "").Replace("x", "").Replace(" ", "")`. */
  function StripMask(mask: string): (r: string)
    ensures |r| <= |mask|
  {
    Without(Without(Without(Without(mask, '*'), 'X'), 'x'), ' ')
  }

  /** `IsValidCardMask`: blank masks are refused first, then masks with fewer
      than ten characters left once the filler is stripped. Any remaining
      character counts, digit or not. */
  function IsValidCardMask(mask: string): (r: Check)
    ensures IsNullOrWhiteSpace(mask) ==> r == Fail(EmptyMask)
    ensures !IsNullOrWhiteSpace(mask) && |StripMask(mask)| < 10 ==> r == Fail(TooFewDigits)
    ensures r.Pass? <==> !IsNullOrWhiteSpace(mask) && |StripMask(mask)| >= 10
  {
    if IsNullOrWhiteSpace(mask) then Fail(EmptyMask)
    else if |StripMask(mask)| < 10 then Fail(TooFewDigits)
    else Pass
  }

  /** Stripping distributes over concatenation. */
  lemma StripMaskAppend(a: string, b: string)
    ensures StripMask(a + b) == StripMask(a) + StripMask(b)
  {
    var a1, b1 := Without(a, '*'), Without(b, '*');
    var a2, b2 := Without(a1, 'X'), Without(b1, 'X');
    var a3, b3 := Without(a2, 'x'), Without(b2, 'x');
    WithoutAppend(a, b, '*');
    WithoutAppend(a1, b1, 'X');
    WithoutAppend(a2, b2, 'x');
    WithoutAppend(a3, b3, ' ');
  }

  /** A single filler character leaves nothing behind. */
  lemma StripMaskFiller(c: char)
    requires IsMaskFiller(c)
    ensures StripMask([c]) == []
  {
  }

  /** Inserting one filler character anywhere does not change the stripped mask. */
  lemma StripMaskIgnoresFiller(a: string, c: char, b: string)
    requires IsMaskFiller(c)
    ensures StripMask(a + [c] + b) == StripMask(a + b)
  {
    StripMaskAppend(a + [c], b);
    StripMaskAppend(a, [c]);
    StripMaskFiller(c);
    StripMaskAppend(a, b);
  }

  /** Two non-blank masks that differ only in which filler character stands at
      one position get the same verdict ("411111******1111" and "411111XXXXXX1111"). */
  lemma VerdictIgnoresFillerChoice(a: string, c1: char, c2: char, b: string)
    requires IsMaskFiller(c1) && IsMaskFiller(c2)
    requires !IsNullOrWhiteSpace(a + [c1] + b) && !IsNullOrWhiteSpace(a + [c2] + b)
    ensures IsValidCardMask(a + [c1] + b) == IsValidCardMask(a + [c2] + b)
  {
    StripMaskIgnoresFiller(a, c1, b);
    StripMaskIgnoresFiller(a, c2, b);
  }

  /** Where the filler stands does not matter either: a non-blank mask keeps its
      verdict when one filler character is added to it or removed from it. */
  lemma VerdictIgnoresFillerPosition(a: string, c: char, b: string)
    requires IsMaskFiller(c)
    requires !IsNullOrWhiteSpace(a + [c] + b) && !IsNullOrWhiteSpace(a + b)
    ensures IsValidCardMask(a + [c] + b) == IsValidCardMask(a + b)
  {
    StripMaskIgnoresFiller(a, c, b);
  }

  /** The boundary dates (20, 1) and (35, 12) are accepted; (19, 12), (36, 1),
      (25, 0) and (25, 13) are refused with the reasons the unit tests expect. */
  lemma ExpirationDateExamples()
    ensures IsValidExpirationDate(20, 1) == Pass && IsValidExpirationDate(35, 12) == Pass
    ensures IsValidExpirationDate(25, 6) == Pass
    ensures IsValidExpirationDate(19, 12) == Fail(UnsupportedYear)
    ensures IsValidExpirationDate(36, 1) == Fail(UnsupportedYear)
    ensures IsValidExpirationDate(25, 0) == Fail(MonthOutOfRange)
    ensures IsValidExpirationDate(25, 13) == Fail(MonthOutOfRange)
  {
  }

  /** A mask without filler is kept whole. */
  lemma StripMaskKeepsDigits(s: string)
    requires forall i :: 0 <= i < |s| ==> !IsMaskFiller(s[i])
    ensures StripMask(s) == s
  {
    WithoutAbsent(s, '*');
    WithoutAbsent(s, 'X');
    WithoutAbsent(s, 'x');
    WithoutAbsent(s, ' ');
  }

  /** A mask made only of filler strips to nothing. */
  lemma {:induction false} StripMaskDropsFiller(s: string)
    requires forall i :: 0 <= i < |s| ==> IsMaskFiller(s[i])
    ensures StripMask(s) == []
  {
    if s != [] {
      assert s == [s[0]] + s[1..];
      StripMaskAppend([s[0]], s[1..]);
      StripMaskFiller(s[0]);
      StripMaskDropsFiller(s[1..]);
    }
  }

  /** Six leading digits, a filler middle and four trailing digits make a valid
      mask, whatever the filler: "411111******1111", "411111XXXXXX1111",
      "522222******2222" are instances. */
  lemma MaskedNumberIsValid(first6: string, middle: string, last4: string)
    requires |first6| == 6 && |last4| == 4
    requires forall i :: 0 <= i < 6 ==> '0' <= first6[i] <= '9'
    requires forall i :: 0 <= i < 4 ==> '0' <= last4[i] <= '9'
    requires forall i :: 0 <= i < |middle| ==> IsMaskFiller(middle[i])
    ensures StripMask(first6 + middle + last4) == first6 + last4
    ensures IsValidCardMask(first6 + middle + last4) == Pass
  {
    MaskedNumberStrips(first6, middle, last4);
    var m := first6 + middle + last4;
    assert m[0] == first6[0];
    assert !IsWhiteSpace(m[0]);
  }

  lemma MaskedNumberStrips(first6: string, middle: string, last4: string)
    requires forall i :: 0 <= i < |first6| ==> !IsMaskFiller(first6[i])
    requires forall i :: 0 <= i < |last4| ==> !IsMaskFiller(last4[i])
    requires forall i :: 0 <= i < |middle| ==> IsMaskFiller(middle[i])
    ensures StripMask(first6 + middle + last4) == first6 + last4
  {
    StripMaskKeepsDigits(first6);
    StripMaskDropsFiller(middle);
    StripMaskAppend(first6, middle);
    assert StripMask(first6 + middle) == first6;
    StripMaskKeepsDigits(last4);
    StripMaskAppend(first6 + middle, last4);
  }

  /** The short and the blank masks of the unit tests are refused, each with its reason. */
  lemma InvalidMaskExamples()
    ensures IsValidCardMask("4111") == Fail(TooFewDigits)
    ensures IsValidCardMask("") == Fail(EmptyMask)
    ensures IsValidCardMask("   ") == Fail(EmptyMask)
  {
    assert !IsWhiteSpace("4111"[0]);
    var blank := "   ";
    assert IsNullOrWhiteSpace(blank) by {
      forall i | 0 <= i < |blank| ensures IsWhiteSpace(blank[i]) {
        assert blank[i] == ' ';
      }
    }
  }
}
