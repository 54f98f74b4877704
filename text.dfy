/**
 * The string operations the analysis borrows from Python: `str.lower()` for the
 * case-insensitive environment comparison, `str.title()` for the item names of
 * the report, and the decimal rendering of an `int` inside an f-string.
 * Only the ASCII letters have a case here.
 */
module Text {

  predicate IsUpper(c: char) { 'A' <= c <= 'Z' }

  predicate IsLower(c: char) { 'a' <= c <= 'z' }

  /** A cased character in the sense of `str.title()`: a letter. */
  predicate IsCased(c: char) { IsUpper(c) || IsLower(c) }

  function LowerChar(c: char): char
  {
    if IsUpper(c) then (c as int + 32) as char else c
  }

  function UpperChar(c: char): char
  {
    if IsLower(c) then (c as int - 32) as char else c
  }

  /** `s.lower()` */
  function Lower(s: string): string
  {
    if s == [] then [] else [LowerChar(s[0])] + Lower(s[1..])
  }

  /** Lower-casing maps every character on its own and keeps the length. */
  lemma {:induction false} LowerAt(s: string)
    ensures |Lower(s)| == |s|
    ensures forall i :: 0 <= i < |s| ==> Lower(s)[i] == LowerChar(s[i])
  {
    if s != [] {
      LowerAt(s[1..]);
      assert forall i :: 1 <= i < |s| ==> Lower(s)[i] == Lower(s[1..])[i - 1];
    }
  }

  /** Lower-casing twice is lower-casing once. */
  lemma {:induction false} LowerIdempotent(s: string)
    ensures Lower(Lower(s)) == Lower(s)
  {
    if s != [] {
      LowerIdempotent(s[1..]);
      assert Lower(s)[1..] == Lower(s[1..]);
    }
  }

  /**
   * `str.title()`: a letter that follows a letter is lower-cased, every other
   * letter is upper-cased. `afterCased` says whether the previous character
   * was a letter.
   */
  function TitleFrom(s: string, afterCased: bool): string
  {
    if s == [] then []
    else
      var c := if afterCased then LowerChar(s[0]) else UpperChar(s[0]);
      [c] + TitleFrom(s[1..], IsCased(s[0]))
  }

  /** `s.title()` */
  function Title(s: string): string
  {
    TitleFrom(s, false)
  }

  lemma {:induction false} TitleFromAt(s: string, afterCased: bool)
    ensures |TitleFrom(s, afterCased)| == |s|
    ensures forall i :: 0 <= i < |s| ==>
      TitleFrom(s, afterCased)[i] ==
        if (if i == 0 then afterCased else IsCased(s[i - 1])) then LowerChar(s[i]) else UpperChar(s[i])
  {
    if s != [] {
      TitleFromAt(s[1..], IsCased(s[0]));
      assert forall i :: 1 <= i < |s| ==> TitleFrom(s, afterCased)[i] == TitleFrom(s[1..], IsCased(s[0]))[i - 1];
    }
  }

  /**
   * Title case, character by character: the first letter of every word is
   * upper case and the rest of the word lower case; other characters stay.
   */
  lemma TitleAt(s: string)
    ensures |Title(s)| == |s|
    ensures forall i :: 0 <= i < |s| ==>
      Title(s)[i] == if i > 0 && IsCased(s[i - 1]) then LowerChar(s[i]) else UpperChar(s[i])
  {
    TitleFromAt(s, false);
  }

  /** A word in lower case is title-cased by capitalising its first letter. */
  lemma TitleOfLowerWord(s: string)
    requires s != [] && forall i :: 0 <= i < |s| ==> IsLower(s[i])
    ensures Title(s) == [UpperChar(s[0])] + s[1..]
  {
    TitleAt(s);
    forall i | 0 < i < |s| ensures Title(s)[i] == s[i] {
      assert IsLower(s[i - 1]) && IsLower(s[i]);
    }
  }

  /** Title-casing changes nothing but case: the item name equals the label ignoring case. */
  lemma {:induction false} LowerOfTitle(s: string)
    ensures Lower(Title(s)) == Lower(s)
  {
    LowerOfTitleFrom(s, false);
  }

  lemma {:induction false} LowerOfTitleFrom(s: string, afterCased: bool)
    ensures Lower(TitleFrom(s, afterCased)) == Lower(s)
  {
    if s != [] {
      LowerOfTitleFrom(s[1..], IsCased(s[0]));
      assert TitleFrom(s, afterCased)[1..] == TitleFrom(s[1..], IsCased(s[0]));
    }
  }

  function DigitChar(d: nat): char
    requires d < 10
  {
    "0123456789"[d]
  }

  /** Decimal digits of a natural number, most significant first, no leading zeros. */
  function NatToString(n: nat): string
  {
    if n < 10 then [DigitChar(n)] else NatToString(n / 10) + [DigitChar(n % 10)]
  }

  /** How an `int` is written inside an f-string: `str(n)`. */
  function IntToString(n: int): string
  {
    if n < 0 then "-" + NatToString(-n) else NatToString(n)
  }

  function DigitValue(c: char): int
  {
    c as int - '0' as int
  }

  /** Reads a string of decimal digits back. */
  function ParseNat(s: string): int
  {
    if s == [] then 0 else ParseNat(s[..|s| - 1]) * 10 + DigitValue(s[|s| - 1])
  }

  /** Reads an optionally negative decimal number back. */
  function ParseInt(s: string): int
  {
    if |s| > 0 && s[0] == '-' then -ParseNat(s[1..]) else ParseNat(s)
  }

  lemma {:induction false} ParseNatToString(n: nat)
    ensures ParseNat(NatToString(n)) == n
    ensures NatToString(n) != [] && '0' <= NatToString(n)[0] <= '9'
  {
    if n >= 10 {
      ParseNatToString(n / 10);
      var s := NatToString(n);
      assert s[..|s| - 1] == NatToString(n / 10);
    }
  }

  /** The number written into a mismatch message is exactly the number compared. */
  lemma ParseIntToString(n: int)
    ensures ParseInt(IntToString(n)) == n
  {
    if n < 0 {
      var digits := NatToString(-n);
      ParseNatToString(-n);
      assert IntToString(n) == "-" + digits;
      assert ("-" + digits)[0] == '-' && ("-" + digits)[1..] == digits;
    } else {
      var digits := NatToString(n);
      ParseNatToString(n);
      assert IntToString(n) == digits && digits[0] != '-';
    }
  }

  /** A character that can be part of a written `int`: a digit or the minus sign. */
  predicate IsNumberChar(c: char) { c == '-' || '0' <= c <= '9' }

  /** The longest run of number characters at the start of `s`. */
  function NumberPrefix(s: string): string
  {
    if s != [] && IsNumberChar(s[0]) then [s[0]] + NumberPrefix(s[1..]) else []
  }

  /** The longest run of number characters at the end of `s`. */
  function NumberSuffix(s: string): string
  {
    if s != [] && IsNumberChar(s[|s| - 1]) then NumberSuffix(s[..|s| - 1]) + [s[|s| - 1]] else []
  }

  lemma {:induction false} NatToStringChars(n: nat)
    ensures forall i :: 0 <= i < |NatToString(n)| ==> '0' <= NatToString(n)[i] <= '9'
  {
    if n >= 10 {
      NatToStringChars(n / 10);
    }
  }

  /** `str(n)` is a non-empty run of number characters. */
  lemma IntToStringChars(n: int)
    ensures IntToString(n) != []
    ensures forall i :: 0 <= i < |IntToString(n)| ==> IsNumberChar(IntToString(n)[i])
  {
    if n < 0 {
      NatToStringChars(-n);
      assert forall i :: 1 <= i < |IntToString(n)| ==> IntToString(n)[i] == NatToString(-n)[i - 1];
    } else {
      NatToStringChars(n);
    }
  }

  /** A run of number characters followed by anything else is read off the front. */
  lemma {:induction false} NumberPrefixOf(xs: string, rest: string)
    requires forall i :: 0 <= i < |xs| ==> IsNumberChar(xs[i])
    requires rest == [] || !IsNumberChar(rest[0])
    ensures NumberPrefix(xs + rest) == xs
  {
    if xs == [] {
      assert xs + rest == rest;
    } else {
      NumberPrefixOf(xs[1..], rest);
      assert (xs + rest)[1..] == xs[1..] + rest;
    }
  }

  /** A run of number characters after anything else is read off the back. */
  lemma {:induction false} NumberSuffixOf(front: string, xs: string)
    requires forall i :: 0 <= i < |xs| ==> IsNumberChar(xs[i])
    requires front == [] || !IsNumberChar(front[|front| - 1])
    ensures NumberSuffix(front + xs) == xs
  {
    if xs == [] {
      assert front + xs == front;
    } else {
      var init := xs[..|xs| - 1];
      NumberSuffixOf(front, init);
      assert (front + xs)[..|front + xs| - 1] == front + init;
      assert init + [xs[|xs| - 1]] == xs;
    }
  }
}
