/** The two string primitives the validator relies on: JavaScript's
    `String.prototype.trim` and the decimal rendering of an integer by
    `Number.prototype.toString`. */
module Text {

  import opened Options

  /** The characters ECMAScript `trim` removes: WhiteSpace (TAB, VT, FF,
      SPACE, NBSP, ZWNBSP and the other Unicode space separators) and
      LineTerminator (LF, CR, LS, PS). */
  predicate IsWhitespace(c: char) {
    || '\t' <= c <= '\r'                 // TAB, LF, VT, FF, CR
    || c == ' ' || c == '\U{00A0}' || c == '\U{1680}'
    || '\U{2000}' <= c <= '\U{200A}'     // EN QUAD .. HAIR SPACE
    || c == '\U{2028}' || c == '\U{2029}' // LS, PS
    || c == '\U{202F}' || c == '\U{205F}' || c == '\U{3000}' || c == '\U{FEFF}'
  }

  predicate AllWhitespace(s: string) {
    forall k :: 0 <= k < |s| ==> IsWhitespace(s[k])
  }

  /** Drops the leading whitespace: the result is a suffix of `s` that does
      not start with whitespace, and everything dropped was whitespace. */
  function TrimStart(s: string): (r: string)
    ensures |r| <= |s| && r == s[|s| - |r|..]
    ensures forall k :: 0 <= k < |s| - |r| ==> IsWhitespace(s[k])
    ensures r == [] || !IsWhitespace(r[0])
  {
    if |s| > 0 && IsWhitespace(s[0]) then TrimStart(s[1..]) else s
  }

  /** Drops the trailing whitespace: the result is a prefix of `s` that does
      not end with whitespace, and everything dropped was whitespace. */
  function TrimEnd(s: string): (r: string)
    ensures |r| <= |s| && r == s[..|r|]
    ensures forall k :: |r| <= k < |s| ==> IsWhitespace(s[k])
    ensures r == [] || !IsWhitespace(r[|r| - 1])
  {
    if |s| > 0 && IsWhitespace(s[|s| - 1]) then TrimEnd(s[..|s| - 1]) else s
  }

  /** `s.trim()`: `s` with a whitespace prefix and a whitespace suffix cut
      off. The result is empty exactly when `s` consists of whitespace only,
      and otherwise starts and ends with a non-whitespace character, so no
      more whitespace could have been cut. */
  function Trim(s: string): (r: string)
    ensures |r| <= |s|
    ensures exists i :: TrimmedAt(s, r, i)
    ensures r == [] <==> AllWhitespace(s)
    ensures r != [] ==> !IsWhitespace(r[0]) && !IsWhitespace(r[|r| - 1])
  {
    TrimStartEndFacts(s);
    TrimIsInfix(s);
    TrimEnd(TrimStart(s))
  }

  /** `r` is `s` with the whitespace before position `i` and the
      whitespace after `r` cut off. */
  predicate TrimmedAt(s: string, r: string, i: int) {
    && 0 <= i && i + |r| <= |s| && r == s[i..i + |r|]
    && AllWhitespace(s[..i]) && AllWhitespace(s[i + |r|..])
  }

  /** The trim is the infix of `s` left between the cut whitespace. */
  lemma TrimIsInfix(s: string)
    ensures exists i :: TrimmedAt(s, TrimEnd(TrimStart(s)), i)
  {
    var t := TrimStart(s);
    var r := TrimEnd(t);
    var i := |s| - |t|;
    LeadingCutIsWhitespace(s);
    TrailingCutIsWhitespace(t);
    assert s[i..i + |r|] == t[..|r|];
    assert s[i + |r|..] == t[|r|..];
    assert TrimmedAt(s, r, i);
  }

  lemma LeadingCutIsWhitespace(s: string)
    ensures AllWhitespace(s[..|s| - |TrimStart(s)|])
  {
    var i := |s| - |TrimStart(s)|;
    forall k | 0 <= k < i
      ensures IsWhitespace(s[..i][k])
    {
      assert s[..i][k] == s[k];
    }
  }

  lemma TrailingCutIsWhitespace(t: string)
    ensures AllWhitespace(t[|TrimEnd(t)|..])
  {
    var j := |TrimEnd(t)|;
    forall k | 0 <= k < |t| - j
      ensures IsWhitespace(t[j..][k])
    {
      assert t[j..][k] == t[j + k];
    }
  }

  lemma TrimStartEndFacts(s: string)
    ensures var r := TrimEnd(TrimStart(s));
      && (r == [] <==> AllWhitespace(s))
      && (r != [] ==> !IsWhitespace(r[0]))
  {
    var t := TrimStart(s);
    var r := TrimEnd(t);
    if r != [] {
      assert r[0] == t[0];
    }
    if AllWhitespace(s) {
      TrimStartOfWhitespace(s);
    } else {
      var k :| 0 <= k < |s| && !IsWhitespace(s[k]);
      TrimKeepsNonWhitespace(s, k);
    }
  }

  /** A non-whitespace character of `s` survives both halves of the trim. */
  lemma TrimKeepsNonWhitespace(s: string, k: int)
    requires 0 <= k < |s| && !IsWhitespace(s[k])
    ensures TrimEnd(TrimStart(s)) != []
  {
    var t := TrimStart(s);
    var off := |s| - |t|;
    assert k >= off;
    assert t[k - off] == s[k];
    var r := TrimEnd(t);
    assert k - off < |r|;
  }

  lemma TrimStartOfWhitespace(s: string)
    requires AllWhitespace(s)
    ensures TrimStart(s) == []
  {
  }

  /** Trimming twice is trimming once. */
  lemma TrimIdempotent(s: string)
    ensures Trim(Trim(s)) == Trim(s)
  {
    var r := Trim(s);
    if r != [] {
      assert TrimStart(r) == r;
      assert TrimEnd(r) == r;
    }
  }

  /** A string without whitespace at either end is left as it is. */
  lemma TrimKeepsInnerString(s: string)
    requires s != [] ==> !IsWhitespace(s[0]) && !IsWhitespace(s[|s| - 1])
    ensures Trim(s) == s
  {
    if s != [] {
      assert TrimStart(s) == s;
      assert TrimEnd(s) == s;
    }
  }

  // ---- UTF-16 length ----

  /** The number of UTF-16 code units `c` takes: two for a character outside
      the Basic Multilingual Plane (a surrogate pair), one otherwise. */
  function CodeUnits(c: char): nat {
    if c as int >= 0x1_0000 then 2 else 1
  }

  predicate InBasicPlane(c: char) {
    c as int < 0x1_0000
  }

  /** JavaScript's `length` of a string: its number of UTF-16 code units.
      It is at least the number of characters and at most twice that, and
      equals it exactly when every character is in the Basic Multilingual
      Plane. */
  function Utf16Length(s: string): (n: nat)
    ensures |s| <= n <= 2 * |s|
    ensures n == |s| <==> forall k :: 0 <= k < |s| ==> InBasicPlane(s[k])
  {
    if s == [] then 0
    else
      var n := CodeUnits(s[0]) + Utf16Length(s[1..]);
      assert n == |s| ==> forall k :: 0 <= k < |s| ==> InBasicPlane(s[k]) by {
        if n == |s| {
          forall k | 0 <= k < |s|
            ensures InBasicPlane(s[k])
          {
            if k > 0 {
              assert s[1..][k - 1] == s[k];
            }
          }
        }
      }
      n
  }

  /** Code units add up over concatenation, so a string's length is the sum
      of its characters' code units. */
  lemma {:induction false} Utf16LengthAppend(a: string, b: string)
    ensures Utf16Length(a + b) == Utf16Length(a) + Utf16Length(b)
  {
    if a != [] {
      var ab := a + b;
      assert ab[0] == a[0] && ab[1..] == a[1..] + b;
      Utf16LengthAppend(a[1..], b);
      assert Utf16Length(ab) == CodeUnits(ab[0]) + Utf16Length(ab[1..]);
      assert Utf16Length(a) == CodeUnits(a[0]) + Utf16Length(a[1..]);
    } else {
      assert a + b == b;
    }
  }

  /** The length of one character is its number of code units. */
  lemma Utf16LengthOfChar(c: char)
    ensures Utf16Length([c]) == if InBasicPlane(c) then 1 else 2
  {
    assert [c][1..] == [];
  }

  /** A string made only of characters outside the Basic Multilingual Plane
      is twice as long in code units as in characters. */
  lemma {:induction false} AstralLength(s: string)
    requires forall k :: 0 <= k < |s| ==> !InBasicPlane(s[k])
    ensures Utf16Length(s) == 2 * |s|
  {
    if s != [] {
      assert forall k :: 0 <= k < |s[1..]| ==> s[1..][k] == s[k + 1];
      AstralLength(s[1..]);
    }
  }

  // ---- decimal rendering of integers ----

  predicate IsDigit(c: char) {
    '0' <= c <= '9'
  }

  predicate AllDigits(s: string) {
    forall k :: 0 <= k < |s| ==> IsDigit(s[k])
  }

  function DigitChar(d: int): (c: char)
    requires 0 <= d < 10
    ensures IsDigit(c)
  {
    ['0', '1', '2', '3', '4', '5', '6', '7', '8', '9'][d]
  }

  function DigitValue(c: char): (d: int)
    requires IsDigit(c)
  {
    c as int - '0' as int
  }

  /** The decimal digits of a natural number, most significant first, with no
      leading zero (except for the number 0 itself). */
  function NatToString(n: nat): (s: string)
    ensures s != [] && AllDigits(s)
    ensures s[0] == '0' ==> n == 0 && s == "0"
  {
    if n < 10 then [DigitChar(n)] else NatToString(n / 10) + [DigitChar(n % 10)]
  }

  /** The shape of a number's decimal text: no leading zero except in "0"
      itself, and no "-0". */
  predicate CanonicalDecimal(s: string) {
    && s != []
    && (s[0] == '0' ==> s == "0")
    && (s[0] == '-' ==> |s| > 1 && s[1] != '0')
  }

  /** `Number.prototype.toString` on an integral number: an optional minus
      sign followed by the decimal digits, in canonical form. */
  function IntToString(n: int): (s: string)
    ensures s != [] && (s[0] == '-' || IsDigit(s[0])) && IsDigit(s[|s| - 1])
    ensures s[0] == '-' <==> n < 0
    ensures CanonicalDecimal(s)
  {
    if n < 0 then "-" + NatToString(-n) else NatToString(n)
  }

  /** The text of a number is never blank: it neither starts nor ends with
      whitespace. */
  lemma IntToStringNotBlank(n: int)
    ensures !AllWhitespace(IntToString(n))
    ensures Trim(IntToString(n)) == IntToString(n)
  {
    var s := IntToString(n);
    assert !IsWhitespace(s[0]) && !IsWhitespace(s[|s| - 1]);
    TrimKeepsInnerString(s);
  }

  /** Reads back a string of decimal digits. */
  function ParseDigits(s: string): nat
    requires AllDigits(s)
  {
    if s == [] then 0
    else 10 * ParseDigits(s[..|s| - 1]) + DigitValue(s[|s| - 1])
  }

  /** Reads back an optionally signed decimal integer; anything else is
      rejected. */
  function ParseInt(s: string): Option<int> {
    if |s| > 1 && s[0] == '-' && AllDigits(s[1..]) then Some(-(ParseDigits(s[1..]) as int))
    else if s != [] && AllDigits(s) then Some(ParseDigits(s))
    else None
  }

  lemma {:induction false} NatToStringRoundTrip(n: nat)
    ensures ParseDigits(NatToString(n)) == n
  {
    if n >= 10 {
      var a := NatToString(n / 10);
      var s := a + [DigitChar(n % 10)];
      assert s[..|s| - 1] == a;
      NatToStringRoundTrip(n / 10);
    }
  }

  /** A digit string without a leading zero has a positive value. */
  lemma {:induction false} LeadingDigitPositive(s: string)
    requires s != [] && AllDigits(s) && s[0] != '0'
    ensures ParseDigits(s) >= 1
  {
    if |s| > 1 {
      var front := s[..|s| - 1];
      assert front[0] == s[0];
      LeadingDigitPositive(front);
    } else {
      assert s[..0] == [];
    }
  }

  /** A digit string without a leading zero is the rendering of its own
      value. */
  lemma {:induction false} NatToStringOfDigits(s: string)
    requires s != [] && AllDigits(s) && (s[0] == '0' ==> s == "0")
    ensures NatToString(ParseDigits(s)) == s
  {
    var front, d := s[..|s| - 1], s[|s| - 1];
    if |s| == 1 {
      assert front == [];
      assert s == [d];
    } else {
      assert front[0] == s[0] && s[0] != '0';
      NatToStringOfDigits(front);
      LeadingDigitPositive(front);
      var n := ParseDigits(s);
      assert n == 10 * ParseDigits(front) + DigitValue(d);
      assert n / 10 == ParseDigits(front) && n % 10 == DigitValue(d);
      assert DigitChar(DigitValue(d)) == d;
      assert s == front + [d];
    }
  }

  /** Decimal text in canonical form is determined by its value: the only
      canonical text that reads back as `n` is `IntToString(n)`. */
  lemma CanonicalDecimalUnique(s: string, n: int)
    requires CanonicalDecimal(s) && ParseInt(s) == Some(n)
    ensures s == IntToString(n)
  {
    if |s| > 1 && s[0] == '-' && AllDigits(s[1..]) {
      var digits := s[1..];
      assert digits[0] == s[1];
      LeadingDigitPositive(digits);
      NatToStringOfDigits(digits);
      assert s == "-" + digits;
    } else {
      NatToStringOfDigits(s);
    }
  }

  /** The rendering of an integer reads back as the same integer. */
  lemma IntToStringRoundTrip(n: int)
    ensures ParseInt(IntToString(n)) == Some(n)
  {
    var s := IntToString(n);
    if n < 0 {
      var d := NatToString(-n);
      assert s == "-" + d;
      assert s[1..] == d;
      NatToStringRoundTrip(-n);
    } else {
      NatToStringRoundTrip(n);
    }
  }
}
