/** Exactly which texts PostgreSQL casts to a UUID, and which Python's `uuid.UUID` reads as one. */
module UuidTexts {
  import opened Uuids
  import opened Wrappers

  // ---------------------------------------------------------------- digits

  ghost predicate HexDigit(c: char) {
    '0' <= c <= '9' || 'a' <= c <= 'f' || 'A' <= c <= 'F'
  }

  /** The digit in lower case. */
  ghost predicate SameDigit(c: char, d: char) {
    if 'A' <= c <= 'F' then d as int == c as int + 32 else d == c
  }

  /** The digits read as the UUID: its digits up to case. */
  ghost predicate DigitsOf(digits: string, u: string) {
    && |u| == |digits|
    && forall i :: 0 <= i < |digits| ==> HexDigit(digits[i]) && SameDigit(digits[i], u[i])
  }

  lemma LowerExactly(digits: string, u: string)
    requires forall i :: 0 <= i < |digits| ==> IsHex(digits[i])
    ensures Lower(digits) == u <==> DigitsOf(digits, u)
  {
    if Lower(digits) == u {
      assert forall i :: 0 <= i < |digits| ==> u[i] == LowerChar(digits[i]);
    }
    if DigitsOf(digits, u) {
      assert forall i :: 0 <= i < |digits| ==> u[i] == LowerChar(digits[i]);
    }
  }

  // ---------------------------------------------------------------- PostgreSQL's cast

  /** The digits, each after a hyphen where one is set. */
  ghost function Spell(digits: string, hyphens: seq<bool>): string
    requires |hyphens| == |digits|
    decreases |digits|
  {
    if digits == "" then ""
    else (if hyphens[0] then "-" else "") + [digits[0]] + Spell(digits[1..], hyphens[1..])
  }

  /** Hyphens stand only between groups of four digits; the first digit is the n-th of all. */
  ghost predicate BetweenGroups(hyphens: seq<bool>, n: nat) {
    forall i :: 0 <= i < |hyphens| && hyphens[i] ==> n + i > 0 && (n + i) % 4 == 0
  }

  ghost predicate Spells(s: string, n: nat, u: string, digits: string, hyphens: seq<bool>) {
    && |digits| == |hyphens| && |digits| + n == 32 && DigitsOf(digits, u)
    && BetweenGroups(hyphens, n) && s == Spell(digits, hyphens)
  }

  lemma {:induction false} SpelledIsCast(s: string, n: nat, u: string, digits: string, hyphens: seq<bool>)
    requires n <= 32 && Spells(s, n, u, digits, hyphens)
    ensures CastDigits(s, n) == Some(u)
    decreases |digits|
  {
    if n < 32 {
      var rest := Spell(digits[1..], hyphens[1..]);
      forall i | 0 <= i < |hyphens[1..]| && hyphens[1..][i] ensures n + 1 + i > 0 && (n + 1 + i) % 4 == 0 {
        assert hyphens[i + 1];
      }
      SpelledIsCast(rest, n + 1, u[1..], digits[1..], hyphens[1..]);
      assert u == [u[0]] + u[1..];
      CastOneMore(s, n, digits[0], u[0], rest, u[1..], hyphens[0]);
    }
  }

  lemma CastOneMore(s: string, n: nat, first: char, low: char, rest: string, u: string, hyphen: bool)
    requires n < 32 && HexDigit(first) && SameDigit(first, low) && CastDigits(rest, n + 1) == Some(u)
    requires hyphen ==> n > 0 && n % 4 == 0
    requires s == (if hyphen then "-" else "") + [first] + rest
    ensures CastDigits(s, n) == Some([low] + u)
  {
    var bare := [first] + rest;
    assert bare[1..] == rest;
    if hyphen {
      assert s == "-" + bare && s[1..] == bare;
    } else {
      assert s == bare;
    }
  }

  lemma SpellsOneMore(s: string, n: nat, u: string, first: char, rest: string, low: string, hyphen: bool,
                      digits: string, hyphens: seq<bool>)
    requires n < 32 && Spells(rest, n + 1, low, digits, hyphens)
    requires IsHex(first) && u == [LowerChar(first)] + low && (hyphen ==> n > 0 && n % 4 == 0)
    requires s == (if hyphen then "-" else "") + [first] + rest
    ensures Spells(s, n, u, [first] + digits, [hyphen] + hyphens)
  {
    var digits', hyphens' := [first] + digits, [hyphen] + hyphens;
    assert digits'[1..] == digits && hyphens'[1..] == hyphens;
    forall i | 0 <= i < |hyphens'| && hyphens'[i] ensures n + i > 0 && (n + i) % 4 == 0 {
      assert i > 0 ==> hyphens[i - 1];
    }
  }

  /** The cast's next digit, with the hyphen before it. */
  lemma NextDigit(s: string, n: nat, u: string) returns (hyphen: bool, first: char, rest: string, low: string)
    requires n < 32 && CastDigits(s, n) == Some(u)
    ensures IsHex(first) && u == [LowerChar(first)] + low && (hyphen ==> n > 0 && n % 4 == 0)
    ensures s == (if hyphen then "-" else "") + [first] + rest && CastDigits(rest, n + 1) == Some(low)
  {
    hyphen := s[0] == '-' && n % 4 == 0 && n > 0;
    var bare := if hyphen then s[1..] else s;
    first, rest := bare[0], bare[1..];
    low := CastDigits(rest, n + 1).value;
  }

  lemma {:induction false} CastIsSpelled(s: string, n: nat, u: string) returns (digits: string, hyphens: seq<bool>)
    requires n <= 32 && CastDigits(s, n) == Some(u)
    ensures Spells(s, n, u, digits, hyphens)
    decreases 32 - n
  {
    digits, hyphens := "", [];
    if n < 32 {
      var hyphen, first, rest, low := NextDigit(s, n, u);
      digits, hyphens := CastIsSpelled(rest, n + 1, low);
      SpellsOneMore(s, n, u, first, rest, low, hyphen, digits, hyphens);
      digits, hyphens := [first] + digits, [hyphen] + hyphens;
    }
  }

  /** 32 hex digits, with a hyphen or none between groups of four. */
  ghost predicate IsSpelling(s: string, u: string) {
    exists digits, hyphens :: Spells(s, 0, u, digits, hyphens)
  }

  lemma BareIsCast(s: string, u: string)
    requires IsSpelling(s, u)
    ensures CastUuid(s) == Some(u)
  {
    var digits, hyphens :| Spells(s, 0, u, digits, hyphens);
    SpelledIsCast(s, 0, u, digits, hyphens);
    assert s[0] == digits[0];
  }

  lemma BracedIsCast(s: string, body: string, u: string)
    requires s == "{" + body + "}" && IsSpelling(body, u)
    ensures CastUuid(s) == Some(u)
  {
    var digits, hyphens :| Spells(body, 0, u, digits, hyphens);
    SpelledIsCast(body, 0, u, digits, hyphens);
    assert s[1..|s| - 1] == body;
  }

  lemma CastIsSpelling(s: string, u: string)
    requires CastUuid(s) == Some(u)
    ensures IsSpelling(s, u) || exists body :: s == "{" + body + "}" && IsSpelling(body, u)
  {
    if |s| >= 2 && s[0] == '{' && s[|s| - 1] == '}' {
      var body := s[1..|s| - 1];
      var digits, hyphens := CastIsSpelled(body, 0, u);
      assert s == "{" + body + "}";
    } else {
      var digits, hyphens := CastIsSpelled(s, 0, u);
    }
  }

  /** PostgreSQL casts exactly the spellings of a UUID, bare or in one pair of braces. */
  lemma CastExactly(s: string, u: string)
    ensures CastUuid(s) == Some(u) <==> IsSpelling(s, u) || exists body :: s == "{" + body + "}" && IsSpelling(body, u)
  {
    if CastUuid(s) == Some(u) {
      CastIsSpelling(s, u);
    }
    if IsSpelling(s, u) {
      BareIsCast(s, u);
    }
    if exists body :: s == "{" + body + "}" && IsSpelling(body, u) {
      var body :| s == "{" + body + "}" && IsSpelling(body, u);
      BracedIsCast(s, body, u);
    }
  }

  // ---------------------------------------------------------------- Python's reader

  /** The digits in order, with hyphens anywhere among them. */
  ghost predicate Hyphenated(s: string, digits: string)
    decreases |s|
  {
    if s == "" then digits == ""
    else if s[0] == '-' then Hyphenated(s[1..], digits)
    else digits != "" && s[0] == digits[0] && Hyphenated(s[1..], digits[1..])
  }

  lemma {:induction false} HyphenatedExactly(s: string, digits: string)
    requires '-' !in digits
    ensures RemoveAll(s, '-') == digits <==> Hyphenated(s, digits)
    decreases |s|
  {
    if s != "" {
      if s[0] == '-' {
        HyphenatedExactly(s[1..], digits);
      } else if digits != "" {
        HyphenatedExactly(s[1..], digits[1..]);
        assert digits == [digits[0]] + digits[1..];
      }
    }
  }

  lemma {:induction false} NoHyphenLeft(s: string)
    ensures '-' !in RemoveAll(s, '-')
    decreases |s|
  {
    if s != "" {
      NoHyphenLeft(s[1..]);
    }
  }

  ghost predicate AllBraces(s: string) {
    forall i :: 0 <= i < |s| ==> s[i] == '{' || s[i] == '}'
  }

  ghost predicate BareInside(s: string, open: string, body: string, close: string) {
    && s == open + body + close && AllBraces(open) && AllBraces(close)
    && (body != "" ==> body[0] !in "{}" && body[|body| - 1] !in "{}")
  }

  /** Stripping takes away all braces at both ends and no more. */
  lemma {:induction false} StripExactly(s: string, open: string, body: string, close: string)
    requires BareInside(s, open, body, close) && body != ""
    ensures StripBraces(s) == body
    decreases |s|
  {
    if open != "" {
      assert s[0] == open[0] && s[1..] == open[1..] + body + close;
      StripExactly(s[1..], open[1..], body, close);
    } else if close != "" {
      assert s[0] == body[0] && s[|s| - 1] == close[|close| - 1];
      assert s[..|s| - 1] == open + body + close[..|close| - 1];
      StripExactly(s[..|s| - 1], open, body, close[..|close| - 1]);
    } else {
      assert s == body;
    }
  }

  lemma OpenMore(s: string, first: char, rest: string, open: string, body: string, close: string)
    requires s == [first] + rest && (first == '{' || first == '}') && BareInside(rest, open, body, close)
    ensures BareInside(s, [first] + open, body, close)
  {}

  lemma CloseMore(s: string, front: string, last: char, open: string, body: string, close: string)
    requires s == front + [last] && (last == '{' || last == '}') && BareInside(front, open, body, close)
    ensures BareInside(s, open, body, close + [last])
  {}

  lemma {:induction false} StripParts(s: string) returns (open: string, close: string)
    ensures BareInside(s, open, StripBraces(s), close)
    decreases |s|
  {
    open, close := "", "";
    if s != "" && s[0] in "{}" {
      open, close := StripParts(s[1..]);
      OpenMore(s, s[0], s[1..], open, StripBraces(s[1..]), close);
      open := [s[0]] + open;
    } else if s != "" && s[|s| - 1] in "{}" {
      var front, last := Unsnoc(s);
      assert s[..|s| - 1] == front;
      open, close := StripParts(front);
      CloseMore(s, front, last, open, StripBraces(front), close);
      close := close + [last];
    }
  }

  lemma TailSlice(s: string, first: char, rest: string, i: nat)
    requires s == [first] + rest && i <= |rest|
    ensures s[i + 1..] == rest[i..]
  {}

  lemma ReplaceLater(s: string, first: char, rest: string, pat: string)
    requires pat != "" && s == [first] + rest && !(pat <= s)
    ensures Without(s, pat) == [first] + Without(rest, pat)
  {
    assert s[1..] == rest;
  }

  /** No match leaves a text as it is; the leftmost match goes, and then those behind it. */
  lemma {:induction false} ReplaceExactly(s: string, pat: string, i: nat)
    requires pat != "" && i <= |s| && forall j :: 0 <= j < i ==> !(pat <= s[j..])
    ensures pat <= s[i..] ==> Without(s, pat) == s[..i] + Without(s[i..][|pat|..], pat)
    ensures i == |s| ==> Without(s, pat) == s
    decreases i
  {
    assert s[0..] == s;
    if i > 0 {
      var first, rest := s[0], s[1..];
      forall j | 0 <= j < i - 1 ensures !(pat <= rest[j..]) {
        TailSlice(s, first, rest, j);
      }
      TailSlice(s, first, rest, i - 1);
      ReplaceLater(s, first, rest, pat);
      ReplaceExactly(rest, pat, i - 1);
      assert s[..i] == [first] + rest[..i - 1];
    }
  }

  /** What is left without `urn:` and then `uuid:` is braces, 32 hex digits with hyphens anywhere, and braces. */
  ghost predicate IsReadable(s: string, u: string) {
    exists open, body, close, digits ::
      && Without(Without(s, "urn:"), "uuid:") == open + body + close && AllBraces(open) && AllBraces(close)
      && Hyphenated(body, digits) && |digits| == 32 && DigitsOf(digits, u)
  }

  lemma BodyHasNoBraces(body: string, digits: string, u: string)
    requires Hyphenated(body, digits) && DigitsOf(digits, u)
    ensures forall i :: 0 <= i < |body| ==> body[i] !in "{}"
    decreases |body|
  {
    if body != "" {
      if body[0] == '-' {
        BodyHasNoBraces(body[1..], digits, u);
      } else {
        BodyHasNoBraces(body[1..], digits[1..], u[1..]);
      }
    }
  }

  /** `uuid.UUID` reads exactly the readable texts. */
  lemma ReadExactly(s: string, u: string)
    ensures ReadUuid(s) == Some(u) <==> IsReadable(s, u)
  {
    var text := Without(Without(s, "urn:"), "uuid:");
    if ReadUuid(s) == Some(u) {
      var body := StripBraces(text);
      var open, close := StripParts(text);
      var digits := RemoveAll(body, '-');
      NoHyphenLeft(body);
      HyphenatedExactly(body, digits);
      LowerExactly(digits, u);
    }
    if IsReadable(s, u) {
      var open, body, close, digits :|
        && text == open + body + close && AllBraces(open) && AllBraces(close)
        && Hyphenated(body, digits) && |digits| == 32 && DigitsOf(digits, u);
      BodyHasNoBraces(body, digits, u);
      StripExactly(text, open, body, close);
      HyphenatedExactly(body, digits);
      LowerExactly(digits, u);
    }
  }

  // ---------------------------------------------------------------- both ways

  /** The printed form has hyphens behind 8, 12, 16 and 20 digits and nothing else. */
  lemma PrintedExactly(u: string)
    requires |u| == 32
    ensures |UuidText(u)| == 36
    ensures forall i :: 0 <= i < 36 ==>
              UuidText(u)[i] == if i in {8, 13, 18, 23} then '-'
                                else u[i - (if i < 8 then 0 else if i < 13 then 1 else if i < 18 then 2
                                            else if i < 23 then 3 else 4)]
  {}

  /** An action id is `act-` and 32 hex digits, and any other text is read as `uuid.UUID` reads it. */
  lemma CoerceExactly(value: Option<string>, u: string)
    ensures Coerce(value) == Some(u) <==>
            && value.Some?
            && if "act-" <= value.value && |value.value| == 36 &&
                  (forall i :: 4 <= i < 36 ==> HexDigit(value.value[i]))
               then DigitsOf(value.value[4..], u)
               else IsReadable(value.value, u)
  {
    if value.Some? {
      var s := value.value;
      ReadExactly(s, u);
      if IsLegacyAction(s) {
        LowerExactly(s[4..], u);
      }
      assert "act-" <= s && |s| == 36 ==> forall i :: 4 <= i < 36 ==> s[i] == s[4..][i - 4];
    }
  }
}
