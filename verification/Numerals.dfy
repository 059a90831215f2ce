/** Bounded decimal parsing and printing: `constexprParse` and `constexprToString`. */
module Numerals {
  import opened Wrappers
  import Words

  /** An integral type: its size in bytes and whether it is signed. */
  datatype IntType = IntType(bytes: nat, signed: bool)

  predicate Known(t: IntType) { t.bytes == 1 || t.bytes == 2 || t.bytes == 4 || t.bytes == 8 }

  /** The number of values of the type. */
  function Span(t: IntType): (n: nat)
    requires Known(t)
    ensures n >= 256 && n % 2 == 0
  {
    match t.bytes
    case 1 => 0x100
    case 2 => 0x1_0000
    case 4 => 0x1_0000_0000
    case _ => 0x1_0000_0000_0000_0000
  }

  function Min(t: IntType): int
    requires Known(t)
  {
    if t.signed then -(Span(t) / 2) else 0
  }

  function Max(t: IntType): int
    requires Known(t)
  {
    if t.signed then Span(t) / 2 - 1 else Span(t) - 1
  }

  predicate InRange(t: IntType, v: int)
    requires Known(t)
  {
    Min(t) <= v <= Max(t)
  }

  /** Every bit counts: a type of so many bytes has two to the power of eight times as many values. */
  lemma SpanIsPower(t: IntType)
    requires Known(t)
    ensures Span(t) == Words.Pow(8 * t.bytes)
    ensures t.signed ==> Min(t) == 0 - Words.Pow(8 * t.bytes - 1) && Max(t) == Words.Pow(8 * t.bytes - 1) - 1
    ensures !t.signed ==> Min(t) == 0 && Max(t) == Words.Pow(8 * t.bytes) - 1
  {
    Words.PowerOfByte();
    hide Words.Pow;
    Words.PowSum(8, 8);
    Words.PowSum(16, 16);
    Words.PowSum(32, 32);
    HalfOf(8 * t.bytes);
  }

  lemma HalfOf(k: nat)
    requires k > 0
    ensures Words.Pow(k) == 2 * Words.Pow(k - 1)
  {
  }

  /** Negation in the type, which maps the minimum to itself. */
  function Negated(t: IntType, v: int): (r: int)
    requires Known(t) && t.signed && InRange(t, v)
    ensures InRange(t, r)
  {
    if v == Min(t) then v else -v
  }

  /** The text that the parser takes for the minimum; the one for eight bytes is not its decimal. */
  function MinText(bytes: nat): string {
    match bytes
    case 1 => "-128"
    case 2 => "-32768"
    case 4 => "-2147483648"
    case _ => "-18446744073709551616"
  }

  // ----------------------------------------------------------------------------- decimal numerals

  predicate IsDigit(c: char) { '0' <= c <= '9' }

  function DigitValue(c: char): (d: nat)
    requires IsDigit(c)
    ensures d <= 9
  {
    (c - '0') as int
  }

  function DigitChar(d: nat): (c: char)
    requires d <= 9
    ensures IsDigit(c) && DigitValue(c) == d
  {
    '0' + d as char
  }

  ghost predicate AllDigits(s: string) { forall i :: 0 <= i < |s| ==> IsDigit(s[i]) }

  ghost function Value(s: string): (n: int)
    requires AllDigits(s)
    ensures n >= 0
  {
    if s == "" then 0 else 10 * Value(s[..|s| - 1]) + DigitValue(s[|s| - 1])
  }

  /** The digits of a positive number, none for zero. */
  function Digits(n: nat): string {
    if n == 0 then "" else Digits(n / 10) + [DigitChar(n % 10)]
  }

  function Decimal(v: int): string {
    if v == 0 then "0" else if v < 0 then "-" + Digits(-v) else Digits(v)
  }

  function Dashes(s: string): (k: nat)
    ensures k <= |s|
  {
    if s != "" && s[0] == '-' then 1 + Dashes(s[1..]) else 0
  }

  lemma {:induction false} DashesAre(s: string, k: nat)
    requires k <= |s| && (forall i :: 0 <= i < k ==> s[i] == '-') && (k < |s| ==> s[k] != '-')
    ensures Dashes(s) == k
  {
    if k > 0 {
      DashesAre(s[1..], k - 1);
    }
  }

  lemma {:induction false} PrefixValue(s: string, i: nat)
    requires AllDigits(s) && i <= |s|
    ensures Value(s[..i]) <= Value(s)
    decreases |s|
  {
    if i < |s| {
      PrefixValue(s[..|s| - 1], i);
      assert s[..|s| - 1][..i] == s[..i];
    } else {
      assert s[..i] == s;
    }
  }

  // ------------------------------------------------------------------------------------ parsing

  /** What the parser accepts, and as what; `None` is a failed assertion.  Apart from the text it
      takes for the minimum, that is a numeral within the type, for a signed type after any number
      of minus signs (and the empty numeral then counts as zero). */
  ghost function Parsed(t: IntType, txt: string): Option<int>
    requires Known(t)
  {
    if t.signed && txt == MinText(t.bytes) then Some(Min(t)) else
    var k := if t.signed then Dashes(txt) else 0;
    if txt != "" && AllDigits(txt[k..]) && Value(txt[k..]) <= Max(t)
    then Some(if k > 0 then -Value(txt[k..]) else Value(txt[k..]))
    else None
  }

  /** After `i` characters: `k` signs, then digits worth `result`. */
  ghost predicate Scanned(t: IntType, txt: string, k: nat, i: nat, result: int)
    requires Known(t)
  {
    k <= i <= |txt| && (k > 0 ==> t.signed && txt != MinText(t.bytes)) && (forall j :: 0 <= j < k ==> txt[j] == '-') &&
    AllDigits(txt[k..i]) && result == Value(txt[k..i]) && result <= Max(t)
  }

  method Parse(t: IntType, txt: string) returns (r: Option<int>)
    requires Known(t)
    ensures r == Parsed(t, txt)
    ensures r.Some? ==> InRange(t, r.value)
  {
    hide Parsed, Scanned, MinText;
    if txt == "" {
      EmptyText(t);
      return None;
    }
    var result, neg, idx := 0, false, 0;
    ScanStart(t, txt);
    for i := 0 to |txt|
      invariant 0 <= idx <= i && neg == (idx < i) && Scanned(t, txt, i - idx, i, result)
    {
      var c := txt[i];
      if c == '-' {
        if !t.signed {
          ScanMisplaced(t, txt, i - idx, i, result);
          return None;
        } else if txt == MinText(t.bytes) {
          MinimumText(t);
          return Some(Min(t));
        }
        if idx == 0 {
          neg := true;
          ScanSign(t, txt, i, result);
          continue;
        } else {
          ScanMisplaced(t, txt, i - idx, i, result);
          return None;
        }
      }
      if c < '0' || c > '9' {
        ScanMisplaced(t, txt, i - idx, i, result);
        return None;
      }
      ScanDigit(t, txt, i - idx, i, result);
      if result > (Max(t) - DigitValue(c)) / 10 {
        return None;
      }
      result := result * 10 + DigitValue(c);
      idx := idx + 1;
    }
    ScanEnd(t, txt, |txt| - idx, result);
    if neg {
      result := -result;
    }
    return Some(result);
  }

  lemma EmptyText(t: IntType)
    requires Known(t)
    ensures Parsed(t, "") == None
  {
  }

  lemma MinimumText(t: IntType)
    requires Known(t) && t.signed
    ensures Parsed(t, MinText(t.bytes)) == Some(Min(t))
  {
  }

  lemma ScanStart(t: IntType, txt: string)
    requires Known(t)
    ensures Scanned(t, txt, 0, 0, 0)
  {
  }

  lemma ScanSign(t: IntType, txt: string, i: nat, result: int)
    requires Known(t) && t.signed && txt != MinText(t.bytes)
    requires i < |txt| && txt[i] == '-' && Scanned(t, txt, i, i, result)
    ensures Scanned(t, txt, i + 1, i + 1, result)
  {
    hide MinText;
    assert txt[i + 1..i + 1] == txt[i..i] == "";
  }

  /** A text the scan has got into is not the one taken for the minimum: that one is recognised at its first sign. */
  lemma NotMinimum(t: IntType, txt: string, k: nat, i: nat, result: int)
    requires Known(t) && t.signed && i < |txt| && Scanned(t, txt, k, i, result)
    requires txt[i] == '-' ==> txt != MinText(t.bytes)
    ensures txt != MinText(t.bytes)
  {
    if k == 0 && txt[0] == '-' && i > 0 {
      assert txt[0..i][0] == txt[0];
    }
  }

  lemma ScanMisplaced(t: IntType, txt: string, k: nat, i: nat, result: int)
    requires Known(t) && i < |txt| && Scanned(t, txt, k, i, result)
    requires !IsDigit(txt[i]) && (txt[i] == '-' ==> !t.signed || (k < i && txt != MinText(t.bytes)))
    ensures Parsed(t, txt) == None
  {
    if t.signed {
      NotMinimum(t, txt, k, i, result);
      assert k < i ==> txt[k..i][0] == txt[k];
      DashesAre(txt, k);
    }
    assert txt[k..][i - k] == txt[i];
  }

  /** The test before the multiplication is exact. */
  lemma ScanDigit(t: IntType, txt: string, k: nat, i: nat, result: int)
    requires Known(t) && i < |txt| && Scanned(t, txt, k, i, result) && IsDigit(txt[i])
    ensures result > (Max(t) - DigitValue(txt[i])) / 10 ==> Parsed(t, txt) == None
    ensures result <= (Max(t) - DigitValue(txt[i])) / 10 ==>
              Scanned(t, txt, k, i + 1, result * 10 + DigitValue(txt[i]))
  {
    hide MinText, Dashes, Max, Parsed;
    var s := txt[k..i + 1];
    assert s == txt[k..i] + [txt[i]];
    assert s[..|s| - 1] == txt[k..i];
    assert Value(s) == result * 10 + DigitValue(txt[i]);
    if result > (Max(t) - DigitValue(txt[i])) / 10 {
      NotMinimumIfSigned(t, txt, k, i, result);
      ScanOverflow(t, txt, k, i);
    }
  }

  lemma NotMinimumIfSigned(t: IntType, txt: string, k: nat, i: nat, result: int)
    requires Known(t) && i < |txt| && Scanned(t, txt, k, i, result) && txt[i] != '-'
    ensures t.signed ==> txt != MinText(t.bytes)
    ensures k > 0 ==> t.signed
  {
    if t.signed {
      NotMinimum(t, txt, k, i, result);
    }
  }

  lemma ScanOverflow(t: IntType, txt: string, k: nat, i: nat)
    requires Known(t) && k <= i < |txt| && (k > 0 ==> t.signed) && (t.signed ==> txt != MinText(t.bytes))
    requires (forall j :: 0 <= j < k ==> txt[j] == '-') && AllDigits(txt[k..i + 1]) && Value(txt[k..i + 1]) > Max(t)
    ensures Parsed(t, txt) == None
  {
    hide MinText, Value, Max;
    assert txt[k..i + 1][0] == txt[k];
    if t.signed {
      DashesAre(txt, k);
    }
    if AllDigits(txt[k..]) {
      PrefixValue(txt[k..], i + 1 - k);
      assert txt[k..][..i + 1 - k] == txt[k..i + 1];
    }
  }

  lemma ScanEnd(t: IntType, txt: string, k: nat, result: int)
    requires Known(t) && txt != "" && Scanned(t, txt, k, |txt|, result)
    ensures Parsed(t, txt) == Some(if k > 0 then -result else result)
    ensures InRange(t, if k > 0 then -result else result)
  {
    hide Value;
    assert txt[k..|txt|] == txt[k..];
    assert k < |txt| ==> IsDigit(txt[k..][0]);
    if t.signed {
      DashesAre(txt, k);
      assert MinText(t.bytes)[0] == '-';
    }
  }

  /** The decimal of a positive number is its digits, the first of them not a zero, and worth that number. */
  lemma {:induction false} DigitsAreExact(n: nat)
    ensures AllDigits(Digits(n)) && Value(Digits(n)) == n
    ensures n > 0 ==> Digits(n) != "" && Digits(n)[0] != '0'
  {
    if n > 0 {
      DigitsAreExact(n / 10);
      ValueExtends(Digits(n / 10), DigitChar(n % 10));
      assert n < 10 ==> Digits(n / 10) == "";
      assert Digits(n) == Digits(n / 10) + [DigitChar(n % 10)];
      hide Digits;
      hide Value;
    }
  }

  lemma ValueExtends(s: string, c: char)
    requires AllDigits(s) && IsDigit(c)
    ensures AllDigits(s + [c]) && Value(s + [c]) == 10 * Value(s) + DigitValue(c)
  {
    assert (s + [c])[..|s|] == s;
  }

  /** Conversely, a numeral without superfluous zeros in front is the decimal of its value. */
  lemma {:induction false} DigitsOfValue(s: string)
    requires AllDigits(s) && s != "" && s[0] != '0'
    ensures Value(s) > 0 && Digits(Value(s)) == s
  {
    var tail, d := s[..|s| - 1], DigitValue(s[|s| - 1]);
    if tail == "" {
      assert s == [DigitChar(d)] && Value(tail) == 0;
      assert Digits(0) == "";
    } else {
      DigitsOfValue(tail);
      assert Value(s) / 10 == Value(tail) && Value(s) % 10 == d;
    }
    assert s == tail + [DigitChar(d)];
  }

  /** For an unsigned type the parser accepts exactly the digit strings whose value fits. */
  lemma UnsignedAcceptsNumerals(t: IntType, txt: string)
    requires Known(t) && !t.signed
    ensures Parsed(t, txt).Some? <==> txt != "" && AllDigits(txt) && Value(txt) <= Max(t)
    ensures Parsed(t, txt).Some? ==> Parsed(t, txt).value == Value(txt)
  {
    assert txt[0..] == txt;
  }

  /** For a signed type one more minus sign in front of another changes nothing. */
  lemma RepeatedSign(t: IntType, txt: string)
    requires Known(t) && t.signed && txt != "" && txt[0] == '-' && txt != MinText(t.bytes)
    ensures Parsed(t, "-" + txt) == Parsed(t, txt)
  {
    var more := "-" + txt;
    assert more[1..] == txt && more[1] == '-';
    assert MinText(t.bytes)[1] != '-';
    var k := Dashes(txt);
    assert Dashes(more) == k + 1 && more[k + 1..] == txt[k..];
  }

  /** For a signed type, apart from the text taken for the minimum, the parser accepts exactly the texts
      that are minus signs and then digits, not both none, if the value of the digits fits. */
  lemma SignedAcceptsExactly(t: IntType, txt: string)
    requires Known(t) && t.signed && txt != MinText(t.bytes)
    ensures Parsed(t, txt).Some? <==>
              txt != "" && exists k: nat :: SignsAndDigits(txt, k) && Value(txt[k..]) <= Max(t)
    ensures forall k: nat :: Parsed(t, txt).Some? && SignsAndDigits(txt, k) ==>
              Parsed(t, txt).value == if k > 0 then -Value(txt[k..]) else Value(txt[k..])
  {
    hide MinText, Value, Max;
    forall k: nat | SignsAndDigits(txt, k)
      ensures k == Dashes(txt)
    {
      SignsThenDigits(txt, k);
    }
    DashesCounted(txt);
    if Parsed(t, txt).Some? {
      assert SignsAndDigits(txt, Dashes(txt));
    }
  }

  lemma SignsThenDigits(txt: string, k: nat)
    requires SignsAndDigits(txt, k)
    ensures Dashes(txt) == k
  {
    assert k < |txt| ==> IsDigit(txt[k..][0]);
    DashesAre(txt, k);
  }

  ghost predicate SignsAndDigits(txt: string, k: nat) {
    k <= |txt| && (forall j :: 0 <= j < k ==> txt[j] == '-') && AllDigits(txt[k..])
  }

  lemma {:induction false} DashesCounted(txt: string)
    ensures forall j :: 0 <= j < Dashes(txt) ==> txt[j] == '-'
  {
    if txt != "" && txt[0] == '-' {
      DashesCounted(txt[1..]);
    }
  }

  // ----------------------------------------------------------------------------------- printing

  /** What the printer writes.  It has no case for the minimum of a one-byte type. */
  ghost function Printed(t: IntType, v: int): string
    requires Known(t) && InRange(t, v)
  {
    if t.signed && v == Min(t) then (if t.bytes == 1 then "-" else MinText(t.bytes)) else Decimal(v)
  }

  function Reversed(s: string): (r: string)
    ensures |r| == |s|
  {
    if s == "" then "" else Reversed(s[1..]) + [s[0]]
  }

  lemma {:induction false} ReversedPush(s: string, c: char)
    ensures Reversed(s + [c]) == [c] + Reversed(s)
  {
    if s != "" {
      ReversedPush(s[1..], c);
      assert (s + [c])[1..] == s[1..] + [c];
    } else {
      assert (s + [c])[1..] == "";
    }
  }

  lemma {:induction false} ReversedAt(s: string, k: nat)
    requires k < |s|
    ensures Reversed(s)[k] == s[|s| - 1 - k]
  {
    if k < |s| - 1 {
      ReversedAt(s[1..], k);
    }
  }

  method Reverse(s: string) returns (r: string)
    ensures r == Reversed(s)
  {
    r := s;
    var first, last := 0, |s|;
    while first < last
      invariant 0 <= first && first + last == |s| && |r| == |s| && last >= first - 1
      invariant forall k :: 0 <= k < first ==> r[k] == s[|s| - 1 - k] && r[|s| - 1 - k] == s[k]
      invariant forall k :: first <= k < last ==> r[k] == s[k]
      decreases last - first
    {
      r := r[first := r[last - 1]][last - 1 := r[first]];
      first, last := first + 1, last - 1;
    }
    forall k | 0 <= k < |s|
      ensures r[k] == Reversed(s)[k]
    {
      ReversedAt(s, k);
    }
  }

  method ToString(t: IntType, val: int) returns (str: string)
    requires Known(t) && InRange(t, val)
    ensures str == Printed(t, val)
  {
    var v, doAddSign := val, false;
    str := "";
    if t.signed && v < 0 {
      if v == Min(t) && t.bytes != 1 {
        return MinText(t.bytes);
      }
      doAddSign := true;
      v := Negated(t, v);
    }
    if v == 0 {
      return "0";
    }
    var tmp := v;
    assert Digits(if v < 0 then 0 else v) + Reversed("") == Digits(if v < 0 then 0 else v);
    while tmp > 0
      invariant tmp <= v && (v > 0 ==> tmp >= 0)
      invariant Digits(if tmp < 0 then 0 else tmp) + Reversed(str) == Digits(if v < 0 then 0 else v)
    {
      ReversedPush(str, DigitChar(tmp % 10));
      assert Digits(tmp) + Reversed(str) == Digits(tmp / 10) + ([DigitChar(tmp % 10)] + Reversed(str));
      str := str + [DigitChar(tmp % 10)];
      tmp := tmp / 10;
    }
    assert Digits(0) == "";
    assert Reversed(str) == Digits(if v < 0 then 0 else v);
    if doAddSign {
      ReversedPush(str, '-');
      str := str + ['-'];
    }
    str := Reverse(str);
  }

  lemma DigitsPush(n: nat, d: nat)
    requires d <= 9 && n + d > 0
    ensures Digits(10 * n + d) == Digits(n) + [DigitChar(d)]
    ensures Digits(0) == ""
  {
  }

  lemma ShortMinimumText()
    ensures Digits(128) == "128" && Digits(32768) == "32768"
  {
    hide Digits;
    DigitsPush(0, 1);
    DigitsPush(1, 2);
    DigitsPush(12, 8);
    DigitsPush(0, 3);
    DigitsPush(3, 2);
    DigitsPush(32, 7);
    DigitsPush(327, 6);
    DigitsPush(3276, 8);
  }

  lemma IntMinimumText()
    ensures Digits(2147483648) == "2147483648"
  {
    hide Digits;
    DigitsPush(0, 2);
    DigitsPush(2, 1);
    DigitsPush(21, 4);
    DigitsPush(214, 7);
    DigitsPush(2147, 4);
    DigitsPush(21474, 8);
    DigitsPush(214748, 3);
    DigitsPush(2147483, 6);
    DigitsPush(21474836, 4);
    DigitsPush(214748364, 8);
  }

  function TenTo(k: nat): (n: nat) {
    if k == 0 then 1 else 10 * TenTo(k - 1)
  }

  lemma {:induction false} DigitsAreShort(n: nat, k: nat)
    requires n < TenTo(k)
    ensures |Digits(n)| <= k
  {
    if n > 0 {
      DigitsAreShort(n / 10, k - 1);
    }
  }

  /** `MinText` is the decimal of the minimum, except for eight bytes, where it is too long to be that of any value. */
  lemma MinTextIs(t: IntType)
    requires Known(t) && t.signed
    ensures t.bytes != 8 ==> MinText(t.bytes) == Decimal(Min(t))
  {
    hide Digits;
    ShortMinimumText();
    IntMinimumText();
  }

  /** So it is the decimal of no value but the minimum. */
  lemma MinTextIsNot(t: IntType, v: int)
    requires Known(t) && t.signed && InRange(t, v) && (v == Min(t) ==> t.bytes == 8)
    ensures Decimal(v) != MinText(t.bytes)
  {
    hide Digits;
    DigitsAreExact(if v < 0 then -v else v);
    if t.bytes == 8 {
      assert TenTo(7) == 10000000 && TenTo(13) == 10000000000000 && TenTo(19) == 10000000000000000000;
      DigitsAreShort(if v < 0 then -v else v, 19);
      assert |Decimal(v)| <= 20;
    } else if Decimal(v) == MinText(t.bytes) {
      MinTextIs(t);
      DecimalIsInjective(v, Min(t));
    }
  }

  lemma DecimalIsInjective(v: int, w: int)
    requires Decimal(v) == Decimal(w)
    ensures v == w
  {
    hide Digits;
    DigitsAreExact(if v < 0 then -v else v);
    DigitsAreExact(if w < 0 then -w else w);
    assert v < 0 ==> Decimal(v)[0] == '-' && Decimal(v)[1..] == Digits(-v);
    assert w < 0 ==> Decimal(w)[0] == '-' && Decimal(w)[1..] == Digits(-w);
    assert v > 0 ==> Decimal(v)[0] != '-';
    assert w > 0 ==> Decimal(w)[0] != '-';
  }

  /** The printed text is the canonical decimal, except for the minimum of one and of eight bytes. */
  lemma PrintsDecimal(t: IntType, v: int)
    requires Known(t) && InRange(t, v)
    ensures Printed(t, v) == Decimal(v) <==> !(t.signed && v == Min(t) && (t.bytes == 1 || t.bytes == 8))
  {
    hide Digits, MinText;
    if t.signed && v == Min(t) {
      DigitsAreExact(-v);
      if t.bytes == 8 {
        MinTextIsNot(t, v);
      } else {
        MinTextIs(t);
      }
    }
  }

  /** The two texts that are not the decimal, and what they are read back as. */
  lemma OddMinimums(t: IntType)
    requires Known(t) && t.signed
    ensures t.bytes == 1 ==> Printed(t, -128) == "-" && Parsed(t, "-") == Some(0) && Parsed(t, "-128") == Some(-128)
    ensures t.bytes == 8 ==> Printed(t, Min(t)) == "-18446744073709551616"
                             && Parsed(t, "-18446744073709551616") == Some(Min(t))
  {
    assert "-"[1..] == "";
    assert t.bytes == 1 ==> MinText(1) == "-128" != "-";
  }

  /** Decimals are read back as the number they stand for, except that of the minimum of eight bytes. */
  lemma ReadsDecimal(t: IntType, v: int)
    requires Known(t) && InRange(t, v)
    ensures Parsed(t, Decimal(v)) == Some(v) <==> !(t.signed && t.bytes == 8 && v == Min(t))
  {
    hide Digits, MinText, Value;
    if t.signed && v == Min(t) && t.bytes != 8 {
      MinTextIs(t);
      return;
    }
    if t.signed {
      MinTextIsNot(t, v);
    }
    if v < 0 {
      ParsedSigned(t, v);
    } else {
      ParsedUnsigned(t, v);
    }
  }

  lemma ParsedSigned(t: IntType, v: int)
    requires Known(t) && InRange(t, v) && v < 0 && MinText(t.bytes) != Decimal(v)
    ensures Parsed(t, Decimal(v)) == if -v <= Max(t) then Some(v) else None
  {
    hide Digits, MinText, Value, Max;
    DigitsAreExact(-v);
    assert Decimal(v)[1..] == Digits(-v);
    DashesAre(Decimal(v), 1);
  }

  lemma ParsedUnsigned(t: IntType, v: int)
    requires Known(t) && InRange(t, v) && v >= 0 && (t.signed ==> MinText(t.bytes) != Decimal(v))
    ensures Parsed(t, Decimal(v)) == Some(v)
  {
    hide Digits, MinText;
    DigitsAreExact(v);
    assert Decimal(v)[0..] == Decimal(v);
    assert Value("0") == 0;
    DashesAre(Decimal(v), 0);
  }

  /** Parsing undoes printing at every width and every value but one: the minimum of one byte. */
  lemma RoundTrip(t: IntType, v: int)
    requires Known(t) && InRange(t, v)
    ensures Parsed(t, Printed(t, v)) == Some(v) <==> !(t.signed && t.bytes == 1 && v == Min(t))
  {
    hide Digits;
    if t.signed && v == Min(t) {
      assert t.bytes == 1 ==> Parsed(t, "-") == Some(0) && MinText(1) != "-";
    } else {
      ReadsDecimal(t, v);
    }
  }

  /** A numeral without a sign is accepted exactly if it fits, whether or not the type is signed. */
  lemma ParsedNumeral(t: IntType, txt: string)
    requires Known(t) && AllDigits(txt) && txt != ""
    ensures Parsed(t, txt) == if Value(txt) <= Max(t) then Some(Value(txt)) else None
  {
    hide Max, Value;
    assert txt[0..] == txt && IsDigit(txt[0]);
    assert MinText(t.bytes)[0] == '-';
  }

  lemma DecimalOfValue(txt: string)
    requires AllDigits(txt) && txt != "" && (txt[0] == '0' ==> txt == "0")
    ensures Decimal(Value(txt)) == txt
  {
    if txt[0] != '0' {
      DigitsOfValue(txt);
    } else {
      assert Value("0") == 0;
    }
  }

  /** Printing undoes parsing on a numeral without superfluous zeros in front. */
  lemma PrintsWhatItRead(t: IntType, txt: string)
    requires Known(t) && AllDigits(txt) && txt != "" && (txt[0] == '0' ==> txt == "0")
    ensures Parsed(t, txt).Some? ==> InRange(t, Parsed(t, txt).value) && Printed(t, Parsed(t, txt).value) == txt
  {
    hide Parsed, Decimal, Value;
    ParsedNumeral(t, txt);
    DecimalOfValue(txt);
  }
}
