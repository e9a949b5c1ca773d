/** Base62 numerals (`tracecat/base62.py`) and the short identifiers built on them. */
module Base62 {
  import opened Wrappers

  const DECIMAL: string := "0123456789"
  const LOWER: string := "abcdefghijklmnopqrstuvwxyz"
  const UPPER: string := "ABCDEFGHIJKLMNOPQRSTUVWXYZ"
  const ALPHABET: string := DECIMAL + LOWER + UPPER
  const SHORT_WIDTH: nat := 22
  const UUID_LIMIT: nat := 0x1_0000_0000_0000_0000_0000_0000_0000_0000

  datatype Error = NegativeNumber | InvalidCharacter(c: char) | BadPrefix | OutOfRange

  function DigitChar(d: nat): char
    requires d < 62
  {
    if d < 10 then ('0' as int + d) as char
    else if d < 36 then ('a' as int + (d - 10)) as char
    else ('A' as int + (d - 36)) as char
  }

  function DigitValue(c: char): Option<nat> {
    if '0' <= c <= '9' then Some(c as int - '0' as int)
    else if 'a' <= c <= 'z' then Some(c as int - 'a' as int + 10)
    else if 'A' <= c <= 'Z' then Some(c as int - 'A' as int + 36)
    else None
  }

  predicate IsDigit(c: char) {
    DigitValue(c).Some?
  }

  predicate IsNumeral(s: string) {
    forall i :: 0 <= i < |s| ==> IsDigit(s[i])
  }

  lemma DigitCharValue(d: nat)
    ensures d < 62 ==> DigitValue(DigitChar(d)) == Some(d)
  {}

  lemma ValueDigitChar(c: char)
    requires IsDigit(c)
    ensures DigitValue(c).value < 62 && DigitChar(DigitValue(c).value) == c
  {}

  /** The two digit tables are the alphabet string and its inverse. */
  lemma DigitTablesAgree(c: char, d: nat)
    ensures ALPHABET == "0123456789" + "abcdefghijklmnopqrstuvwxyz" + "ABCDEFGHIJKLMNOPQRSTUVWXYZ"
    ensures DigitValue(c) == Some(d) <==> d < |ALPHABET| && ALPHABET[d] == c
    ensures d < 62 ==> DigitChar(d) == ALPHABET[d]
  {
    assert forall i :: 0 <= i < 10 ==> DECIMAL[i] == DigitChar(i);
    assert forall i :: 0 <= i < 26 ==> LOWER[i] == DigitChar(i + 10);
    assert forall i :: 0 <= i < 26 ==> UPPER[i] == DigitChar(i + 36);
    assert forall i :: 0 <= i < 62 ==> ALPHABET[i] == DigitChar(i);
    DigitCharValue(d);
    if DigitValue(c) == Some(d) {
      ValueDigitChar(c);
    }
  }

  /** Positional value of a numeral, most significant digit first. */
  function Value(s: string): nat
    requires IsNumeral(s)
  {
    if s == "" then 0 else Value(s[..|s| - 1]) * 62 + DigitValue(s[|s| - 1]).value
  }

  /** Digits of a number without leading zeros; nothing for zero. */
  function Digits(n: nat): string {
    if n == 0 then "" else Digits(n / 62) + [DigitChar(n % 62)]
  }

  function Text(n: nat): string {
    if n == 0 then "0" else Digits(n)
  }

  function Reversed(s: string): string {
    if s == "" then "" else Reversed(s[1..]) + [s[0]]
  }

  method Encode(num: int) returns (r: Result<string, Error>)
    ensures num < 0 ==> r == Err(NegativeNumber)
    ensures num >= 0 ==> r == Ok(Text(num))
  {
    if num < 0 {
      return Err(NegativeNumber);
    }
    if num == 0 {
      return Ok([DigitChar(0)]);
    }
    var rest: nat := num;
    assert Digits(rest) + "" == Digits(rest);
    var encoded: string := "";
    while rest != 0
      invariant Digits(rest) + Reversed(encoded) == Digits(num)
    {
      ReversedSnoc(encoded, DigitChar(rest % 62));
      encoded := encoded + [DigitChar(rest % 62)];
      rest := rest / 62;
    }
    assert Digits(0) + Reversed(encoded) == Reversed(encoded);
    r := Ok(Reversed(encoded));
  }

  /** The error names the first character that is no digit. */
  ghost predicate NamesFirstForeign(encoded: string, e: Error) {
    exists i :: 0 <= i < |encoded| && IsNumeral(encoded[..i]) && !IsDigit(encoded[i]) && e == InvalidCharacter(encoded[i])
  }

  method Decode(encoded: string) returns (r: Result<nat, Error>)
    ensures IsNumeral(encoded) ==> r == Ok(Value(encoded))
    ensures !IsNumeral(encoded) ==> r.Err? && NamesFirstForeign(encoded, r.error)
  {
    var num: nat := 0;
    for i := 0 to |encoded|
      invariant IsNumeral(encoded[..i])
      invariant num == Value(encoded[..i])
    {
      if !IsDigit(encoded[i]) {
        return Err(InvalidCharacter(encoded[i]));
      }
      assert encoded[..i + 1][..i] == encoded[..i];
      num := num * 62 + DigitValue(encoded[i]).value;
    }
    assert encoded[..|encoded|] == encoded;
    r := Ok(num);
  }

  lemma {:induction false} ReversedSnoc(s: string, c: char)
    ensures Reversed(s + [c]) == [c] + Reversed(s)
  {
    if s != "" {
      assert (s + [c])[1..] == s[1..] + [c];
      ReversedSnoc(s[1..], c);
    }
  }

  // ---------------------------------------------------------------- round trips

  lemma {:induction false} ValueSnoc(front: string, c: char)
    requires IsNumeral(front) && IsDigit(c)
    ensures IsNumeral(front + [c]) && Value(front + [c]) == Value(front) * 62 + DigitValue(c).value
  {
    assert (front + [c])[..|front|] == front;
  }

  lemma {:induction false} DigitsValue(n: nat)
    ensures IsNumeral(Digits(n)) && Value(Digits(n)) == n
  {
    if n > 0 {
      DigitsValue(n / 62);
      DigitCharValue(n % 62);
      ValueSnoc(Digits(n / 62), DigitChar(n % 62));
    }
  }

  /** Decoding an encoding gives the number back. */
  lemma DecodeEncode(n: nat)
    ensures IsNumeral(Text(n)) && Value(Text(n)) == n
  {
    DigitsValue(n);
  }

  function StripZeros(s: string): string {
    if s != "" && s[0] == '0' then StripZeros(s[1..]) else s
  }

  lemma {:induction false} LeadingZero(s: string)
    requires IsNumeral(s)
    ensures Value("0" + s) == Value(s)
  {
    if s != "" {
      var front := s[..|s| - 1];
      assert ("0" + s)[..|s|] == "0" + front;
      LeadingZero(front);
    }
  }

  lemma DigitsSnoc(q: nat, d: nat)
    requires d < 62 && (q > 0 || d > 0)
    ensures Digits(q * 62 + d) == Digits(q) + [DigitChar(d)]
  {
    var n := q * 62 + d;
    assert n / 62 == q && n % 62 == d;
  }

  /** One more digit after a numeral that already has this property. */
  lemma {:induction false} DigitsOfMore(front: string, last: char)
    requires IsNumeral(front) && IsDigit(last) && Digits(Value(front)) == front
    requires front == "" ==> last != '0'
    requires front != "" ==> Value(front) > 0
    ensures IsNumeral(front + [last])
    ensures Digits(Value(front + [last])) == front + [last] && Value(front + [last]) > 0
  {
    ValueDigitChar(last);
    ValueSnoc(front, last);
    DigitsSnoc(Value(front), DigitValue(last).value);
  }

  lemma {:induction false} DigitsOfValue(s: string)
    requires IsNumeral(s)
    requires s != "" ==> s[0] != '0'
    ensures Digits(Value(s)) == s
    ensures s != "" ==> Value(s) > 0
  {
    if s != "" {
      var front, last := s[..|s| - 1], s[|s| - 1];
      assert s == front + [last];
      DigitsOfValue(front);
      DigitsOfMore(front, last);
    }
  }

  lemma {:induction false} StripKeepsValue(s: string)
    requires IsNumeral(s)
    ensures IsNumeral(StripZeros(s)) && Value(StripZeros(s)) == Value(s)
    ensures StripZeros(s) != "" ==> StripZeros(s)[0] != '0'
  {
    if s != "" && s[0] == '0' {
      StripKeepsValue(s[1..]);
      LeadingZero(s[1..]);
      assert s == "0" + s[1..];
    }
  }

  /** Encoding a decoded numeral strips exactly its leading zeros. */
  lemma {:induction false} EncodeDecode(s: string)
    requires IsNumeral(s)
    ensures Text(Value(s)) == if StripZeros(s) == "" then "0" else StripZeros(s)
  {
    StripKeepsValue(s);
    DigitsOfValue(StripZeros(s));
  }

  function Pow62(k: nat): nat {
    if k == 0 then 1 else 62 * Pow62(k - 1)
  }

  lemma {:induction false} DigitsLength(n: nat)
    requires n > 0
    ensures |Digits(n)| > 0 && Pow62(|Digits(n)| - 1) <= n < Pow62(|Digits(n)|)
  {
    if n >= 62 {
      DigitsLength(n / 62);
    } else {
      assert Digits(n / 62) == "";
    }
  }

  lemma {:induction false} PowMonotone(i: nat, j: nat)
    requires i <= j
    ensures Pow62(i) <= Pow62(j)
  {
    if i < j {
      PowMonotone(i, j - 1);
    }
  }

  /** A positive number takes k digits exactly when it lies in the k-digit range. */
  lemma LengthExact(n: nat, k: nat)
    requires n >= 1 && k >= 1
    ensures |Text(n)| == k <==> Pow62(k - 1) <= n < Pow62(k)
  {
    DigitsLength(n);
    var len := |Digits(n)|;
    if len < k {
      PowMonotone(len, k - 1);
    } else if k < len {
      PowMonotone(k, len - 1);
    }
  }

  // ------------------------------------------------------------ short identifiers

  function ZeroFill(s: string, width: nat): string
    decreases width - |s|
  {
    if |s| >= width then s else ZeroFill("0" + s, width)
  }

  /** `id_to_short`: prefix plus the encoding padded to 22 characters. */
  function Short(id: nat, prefix: string): string {
    prefix + ZeroFill(Text(id), SHORT_WIDTH)
  }

  /** `id_from_short`, which rejects a foreign prefix, a bad digit, and a value that is no UUID. */
  method FromShort(shortId: string, prefix: string) returns (r: Result<nat, Error>)
    ensures !(prefix <= shortId) ==> r == Err(BadPrefix)
    ensures prefix <= shortId && IsNumeral(shortId[|prefix|..]) ==>
              var n := Value(shortId[|prefix|..]);
              r == if n < 0x1_0000_0000_0000_0000_0000_0000_0000_0000 then Ok(n) else Err(OutOfRange)
    ensures prefix <= shortId && !IsNumeral(shortId[|prefix|..]) ==>
              r.Err? && NamesFirstForeign(shortId[|prefix|..], r.error)
  {
    if !(prefix <= shortId) {
      return Err(BadPrefix);
    }
    r := Decode(shortId[|prefix|..]);
    if r.Ok? && r.value >= UUID_LIMIT {
      r := Err(OutOfRange);
    }
  }

  lemma {:induction false} ZeroFillKeepsValue(s: string, width: nat)
    requires IsNumeral(s)
    ensures IsNumeral(ZeroFill(s, width)) && Value(ZeroFill(s, width)) == Value(s)
    ensures |ZeroFill(s, width)| == if |s| >= width then |s| else width
    decreases width - |s|
  {
    if |s| < width {
      LeadingZero(s);
      ZeroFillKeepsValue("0" + s, width);
    }
  }

  lemma {:induction false} Pow62Sum(a: nat, b: nat)
    ensures Pow62(a + b) == Pow62(a) * Pow62(b)
  {
    if a > 0 {
      Pow62Sum(a - 1, b);
    }
  }

  /** 22 digits are enough for 128 bits. */
  lemma ShortRange()
    ensures UUID_LIMIT <= Pow62(SHORT_WIDTH)
  {
    Pow62Sum(11, 11);
  }

  lemma TextFitsShortWidth(id: nat)
    requires id < UUID_LIMIT
    ensures |Text(id)| <= SHORT_WIDTH
  {
    if id > 0 && |Text(id)| > SHORT_WIDTH {
      DigitsLength(id);
      ShortRange();
      PowMonotone(SHORT_WIDTH, |Digits(id)| - 1);
    }
  }

  /** Every 128-bit identifier has a short form of one fixed length, which decodes to it. */
  lemma ShortRoundTrip(id: nat, prefix: string)
    requires id < 0x1_0000_0000_0000_0000_0000_0000_0000_0000
    ensures |Short(id, prefix)| == |prefix| + 22
    ensures prefix <= Short(id, prefix)
    ensures var suffix := Short(id, prefix)[|prefix|..];
            IsNumeral(suffix) && Value(suffix) == id
  {
    DecodeEncode(id);
    TextFitsShortWidth(id);
    ZeroFillKeepsValue(Text(id), SHORT_WIDTH);
    assert Short(id, prefix)[|prefix|..] == ZeroFill(Text(id), SHORT_WIDTH);
  }

  /** Hence distinct identifiers have distinct short forms. */
  lemma ShortInjective(a: nat, b: nat, prefix: string)
    requires a < 0x1_0000_0000_0000_0000_0000_0000_0000_0000
    requires b < 0x1_0000_0000_0000_0000_0000_0000_0000_0000
    ensures Short(a, prefix) == Short(b, prefix) <==> a == b
  {
    ShortRoundTrip(a, prefix);
    ShortRoundTrip(b, prefix);
  }
}
