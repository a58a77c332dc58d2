/** The global `parseInt(string, 10)` of ECMA-262 (section 19.2.5, "parseInt ( string,
    radix )"), restricted to radix 10: leading white space is trimmed, one optional
    sign is taken, then the longest prefix of decimal digits; with no digit the
    result is NaN, modelled as `None`. The routing decisions of the categories API
    only ask whether the result is NaN, zero or some other number, so the exact
    integer stands in for the IEEE double (a non-empty digit string that is not all
    zeros never rounds to zero). */
module EcmaParseInt {
  import opened Wrappers

  /** StrWhiteSpaceChar of ECMA-262: WhiteSpace (TAB, VT, FF, ZWNBSP and the
      Unicode "Zs" space separators) or LineTerminator (LF, CR, LS, PS). */
  predicate IsStrWhiteSpace(c: char) {
    var n := c as int;
    || n == 0x09 || n == 0x0B || n == 0x0C || n == 0xFEFF
    || n == 0x20 || n == 0xA0 || n == 0x1680 || (0x2000 <= n <= 0x200A)
    || n == 0x202F || n == 0x205F || n == 0x3000
    || n == 0x0A || n == 0x0D || n == 0x2028 || n == 0x2029
  }

  predicate IsDigit(c: char) {
    '0' <= c <= '9'
  }

  predicate AllDigits(s: string) {
    forall i :: 0 <= i < |s| ==> IsDigit(s[i])
  }

  function DigitValue(c: char): (d: nat)
    requires IsDigit(c)
    ensures d < 10
  {
    c as int - '0' as int
  }

  function DigitChar(d: nat): (c: char)
    requires d < 10
    ensures IsDigit(c) && DigitValue(c) == d
  {
    ('0' as int + d) as char
  }

  /** TrimString(s, start): drops the maximal white-space prefix. */
  function TrimStart(s: string): (r: string)
    ensures |r| <= |s| && r == s[|s| - |r|..]
    ensures forall i :: 0 <= i < |s| - |r| ==> IsStrWhiteSpace(s[i])
    ensures |r| == 0 || !IsStrWhiteSpace(r[0])
  {
    if |s| > 0 && IsStrWhiteSpace(s[0]) then TrimStart(s[1..]) else s
  }

  /** The longest prefix of `s` made of decimal digits. */
  function DigitPrefix(s: string): (r: string)
    ensures |r| <= |s| && r == s[..|r|]
    ensures AllDigits(r)
    ensures |r| == |s| || !IsDigit(s[|r|])
  {
    if |s| > 0 && IsDigit(s[0]) then [s[0]] + DigitPrefix(s[1..]) else []
  }

  /** The mathematical value of a decimal digit string, most significant digit first. */
  function DigitsValue(ds: string): nat
    requires AllDigits(ds)
  {
    if |ds| == 0 then 0 else 10 * DigitsValue(ds[..|ds| - 1]) + DigitValue(ds[|ds| - 1])
  }

  /** The sign factor of the trimmed input. */
  function SignOf(t: string): int {
    if |t| > 0 && t[0] == '-' then -1 else 1
  }

  /** The trimmed input with one leading `+` or `-` removed. */
  function Unsigned(t: string): string {
    if |t| > 0 && (t[0] == '-' || t[0] == '+') then t[1..] else t
  }

  /** The digits `parseInt` reads from `s`. */
  function ParsedDigits(s: string): string {
    DigitPrefix(Unsigned(TrimStart(s)))
  }

  /** `parseInt(s, 10)`: NaN (`None`) when no digit follows the white space and the
      optional sign, otherwise the signed value of the digits read. */
  function ParseInt(s: string): (r: Option<int>)
    ensures |s| == 0 ==> r.None?
    ensures |s| > 0 && IsDigit(s[0]) ==> r.Some? && r.value >= 0
  {
    var ds := ParsedDigits(s);
    LeadingDigitIsRead(s);
    if |ds| == 0 then None else Some(SignOf(TrimStart(s)) * DigitsValue(ds))
  }

  /** A string that starts with a digit is neither trimmed nor unsigned, and its
      leading digit is read. */
  lemma LeadingDigitIsRead(s: string)
    ensures |s| > 0 && IsDigit(s[0]) ==>
              TrimStart(s) == s && SignOf(s) == 1 && |ParsedDigits(s)| > 0
  {
    if |s| > 0 && IsDigit(s[0]) {
      assert !IsStrWhiteSpace(s[0]);
      assert Unsigned(s) == s;
    }
  }

  /** A number is read only from a string holding a digit; a string that starts
      with a digit is never NaN and never negative; a negative result needs a `-`. */
  lemma ParseIntShape(s: string)
    ensures ParseInt(s).Some? ==> exists i :: 0 <= i < |s| && IsDigit(s[i])
    ensures |s| > 0 && IsDigit(s[0]) ==> ParseInt(s).Some? && ParseInt(s).value >= 0
    ensures ParseInt(s).Some? && ParseInt(s).value < 0 ==> '-' in s
  {
    ReadDigitsComeFromInput(s);
    NegativeNeedsMinus(s);
  }

  /** The digits read start at a position of the input. */
  lemma ReadDigitsComeFromInput(s: string)
    ensures |ParsedDigits(s)| > 0 ==> IsDigit(s[|s| - |Unsigned(TrimStart(s))|])
  {
    var t := TrimStart(s);
    var u := Unsigned(t);
    var ds := DigitPrefix(u);
    if |ds| > 0 {
      var k := |s| - |t|;
      assert t == s[k..];
      if |t| > 0 && (t[0] == '-' || t[0] == '+') {
        assert u == t[1..] == s[k + 1..];
      } else {
        assert u == t;
      }
      assert u[0] == ds[0];
    }
  }

  lemma NegativeNeedsMinus(s: string)
    ensures ParseInt(s).Some? && ParseInt(s).value < 0 ==> '-' in s
  {
    var t := TrimStart(s);
    if SignOf(t) == -1 {
      assert t[0] == s[|s| - |t|];
    }
  }

  /** Decimal rendering of a natural number, without leading zeros. */
  function FormatNat(n: nat): (r: string)
    ensures |r| > 0 && AllDigits(r)
    ensures |r| > 1 ==> r[0] != '0'
  {
    if n < 10 then [DigitChar(n)] else FormatNat(n / 10) + [DigitChar(n % 10)]
  }

  /** Decimal rendering of an integer, with a `-` for negative numbers. */
  function FormatInt(i: int): (r: string)
    ensures |r| > 0 && (r[0] == '-' || IsDigit(r[0]))
  {
    if i < 0 then "-" + FormatNat(-i) else FormatNat(i)
  }

  /** Reading back the digits of a rendered number gives the number. */
  lemma {:induction false} DigitsValueOfFormat(n: nat)
    ensures DigitsValue(FormatNat(n)) == n
  {
    if n >= 10 {
      DigitsValueOfFormat(n / 10);
      var ds := FormatNat(n);
      assert ds[..|ds| - 1] == FormatNat(n / 10);
    }
  }

  /** A digit string followed by something that is not a digit is read exactly. */
  lemma {:induction false} DigitPrefixOfDigits(ds: string, rest: string)
    requires AllDigits(ds)
    requires |rest| == 0 || !IsDigit(rest[0])
    ensures DigitPrefix(ds + rest) == ds
  {
    if |ds| == 0 {
      assert ds + rest == rest;
    } else {
      assert ds + rest == [ds[0]] + (ds[1..] + rest);
      DigitPrefixOfDigits(ds[1..], rest);
      assert ds == [ds[0]] + ds[1..];
    }
  }

  /** Trimming white space in front of a non-white-space string exposes that string. */
  lemma {:induction false} TrimStartOfPadded(ws: string, t: string)
    requires forall i :: 0 <= i < |ws| ==> IsStrWhiteSpace(ws[i])
    requires |t| == 0 || !IsStrWhiteSpace(t[0])
    ensures TrimStart(ws + t) == t
  {
    if |ws| == 0 {
      assert ws + t == t;
    } else {
      assert (ws + t)[1..] == ws[1..] + t;
      assert IsStrWhiteSpace((ws + t)[0]);
      TrimStartOfPadded(ws[1..], t);
    }
  }

  /** The sign of a rendered integer is read back, and what follows it is the
      rendering of the magnitude. */
  lemma SignOfFormat(i: int, rest: string)
    ensures var t := FormatInt(i) + rest;
            && SignOf(t) == (if i < 0 then -1 else 1)
            && Unsigned(t) == FormatNat(if i < 0 then -i else i) + rest
  {
    var t := FormatInt(i) + rest;
    if i < 0 {
      assert t == "-" + (FormatNat(-i) + rest);
    } else {
      assert IsDigit(t[0]);
    }
  }

  /** Round trip: `parseInt` reads back any rendered integer, whatever white space
      precedes it and whatever non-digit text follows it. */
  lemma ParseIntOfFormat(ws: string, i: int, rest: string)
    requires forall k :: 0 <= k < |ws| ==> IsStrWhiteSpace(ws[k])
    requires |rest| == 0 || !IsDigit(rest[0])
    ensures ParseInt(ws + FormatInt(i) + rest) == Some(i)
  {
    var f := FormatInt(i);
    var t := f + rest;
    var s := ws + f + rest;
    var n: nat := if i < 0 then -i else i;
    assert s == ws + t;
    assert t[0] == f[0];
    TrimStartOfPadded(ws, t);
    SignOfFormat(i, rest);
    DigitPrefixOfDigits(FormatNat(n), rest);
    assert ParsedDigits(s) == FormatNat(n);
    DigitsValueOfFormat(n);
    assert SignOf(TrimStart(s)) * n == i;
  }

  /** A digit string has value zero exactly when every digit is `0`. */
  lemma {:induction false} DigitsValueZeroIff(ds: string)
    requires AllDigits(ds)
    ensures DigitsValue(ds) == 0 <==> forall i :: 0 <= i < |ds| ==> ds[i] == '0'
  {
    if |ds| > 0 {
      var init := ds[..|ds| - 1];
      DigitsValueZeroIff(init);
      assert DigitsValue(ds) == 0 <==> DigitsValue(init) == 0 && ds[|ds| - 1] == '0';
      assert (forall i :: 0 <= i < |ds| ==> ds[i] == '0')
          <==> (forall i :: 0 <= i < |init| ==> init[i] == '0') && ds[|ds| - 1] == '0' by {
        forall i | 0 <= i < |init| ensures init[i] == ds[i] {}
      }
    }
  }

  /** `parseInt(s, 10) === 0` holds exactly when some digits are read and all of them
      are `0`, whatever the sign (`-0 === 0` in JavaScript). */
  lemma ParseIntZeroIff(s: string)
    ensures ParseInt(s) == Some(0) <==>
              |ParsedDigits(s)| > 0 && forall i :: 0 <= i < |ParsedDigits(s)| ==> ParsedDigits(s)[i] == '0'
  {
    DigitsValueZeroIff(ParsedDigits(s));
  }

  /** Input whose first character is neither white space, a sign nor a digit — a word
      such as `admin` — is NaN. */
  lemma ParseIntOfWord(s: string)
    requires |s| > 0 && !IsStrWhiteSpace(s[0]) && !IsDigit(s[0]) && s[0] != '-' && s[0] != '+'
    ensures ParseInt(s) == None
  {
    assert TrimStart(s) == s;
  }

  /** The scope identifier `admin` is NaN, and so is the empty string. */
  lemma ParseIntOfAdmin()
    ensures ParseInt("admin") == None
    ensures ParseInt("") == None
  {
    ParseIntOfWord("admin");
  }

  /** Zero padded and followed by non-decimal text is zero: radix 10 does not read
      a `0x` prefix. */
  lemma ParseIntOfPaddedZero()
    ensures ParseInt(" 0x1A") == Some(0)
  {
    assert " 0x1A" == " " + "0" + "x1A";
    ParseIntOfZeroThen(" ", "x1A");
  }

  /** A single `0` after white space and before non-digit text reads as zero. */
  lemma ParseIntOfZeroThen(ws: string, rest: string)
    requires forall k :: 0 <= k < |ws| ==> IsStrWhiteSpace(ws[k])
    requires |rest| == 0 || !IsDigit(rest[0])
    ensures ParseInt(ws + "0" + rest) == Some(0)
  {
    assert FormatInt(0) == [DigitChar(0)];
    assert DigitChar(0) == '0';
    ParseIntOfFormat(ws, 0, rest);
  }

  /** `parseInt("-0", 10)` is negative zero, which is `=== 0` and falsy. */
  lemma ParseIntOfNegativeZero()
    ensures ParseInt("-0") == Some(0)
  {
    assert TrimStart("-0") == "-0";
    assert Unsigned("-0") == "0";
    DigitPrefixOfDigits("0", "");
    assert "0" + "" == "0";
  }

  /** Only the leading digits are read: `parseInt("12abc", 10)` is 12. */
  lemma ParseIntReadsPrefix()
    ensures ParseInt("12abc") == Some(12)
  {
    assert "12abc" == "" + "12" + "abc";
    FormatTwelve();
    ParseIntOfFormat("", 12, "abc");
  }

  lemma FormatTwelve()
    ensures FormatInt(12) == "12"
  {
    assert DigitChar(1) == '1' && DigitChar(2) == '2';
    assert FormatNat(12) == FormatNat(1) + [DigitChar(2)];
  }

  /** A lone decimal digit reads as its value. */
  lemma ParseIntOfDigit(d: nat)
    requires d < 10
    ensures ParseInt([DigitChar(d)]) == Some(d)
  {
    assert FormatInt(d) == [DigitChar(d)];
    ParseIntOfFormat("", d, "");
    assert [DigitChar(d)] == "" + [DigitChar(d)] + "";
  }
}
