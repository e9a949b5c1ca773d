/**
 * UUIDs as text. A UUID is kept as its 32 lower-case hex digits; around it are the formats that
 * PostgreSQL casts and that Python's `uuid.UUID` reads and prints.
 */
module Uuids {
  import opened Wrappers

  predicate IsLowerHex(c: char) {
    '0' <= c <= '9' || 'a' <= c <= 'f'
  }

  predicate IsHex(c: char) {
    IsLowerHex(c) || 'A' <= c <= 'F'
  }

  function LowerChar(c: char): char {
    if 'A' <= c <= 'Z' then (c as int + 32) as char else c
  }

  function Lower(s: string): string {
    seq(|s|, i requires 0 <= i < |s| => LowerChar(s[i]))
  }

  /** 32 hex digits in any case. */
  predicate Hex32(s: string) {
    |s| == 32 && forall i :: 0 <= i < |s| ==> IsHex(s[i])
  }

  /** The canonical form. */
  predicate IsUuid(s: string) {
    |s| == 32 && forall i :: 0 <= i < |s| ==> IsLowerHex(s[i])
  }

  lemma LowerIsUuid(s: string)
    requires Hex32(s)
    ensures IsUuid(Lower(s))
    ensures Lower(s) == s <==> IsUuid(s)
  {
    if IsUuid(s) {
      assert Lower(s) == s;
    } else {
      var i :| 0 <= i < |s| && !IsLowerHex(s[i]);
      assert Lower(s)[i] != s[i];
    }
  }

  /** `str(u)` and `u::text`: groups of 8, 4, 4, 4 and 12 digits. */
  function UuidText(u: string): string
    requires |u| == 32
  {
    u[..8] + ("-" + (u[8..12] + ("-" + (u[12..16] + ("-" + (u[16..20] + ("-" + u[20..])))))))
  }

  function RemoveAll(s: string, c: char): string {
    if s == "" then "" else if s[0] == c then RemoveAll(s[1..], c) else [s[0]] + RemoveAll(s[1..], c)
  }

  lemma {:induction false} RemoveAllConcat(a: string, b: string, c: char)
    ensures RemoveAll(a + b, c) == RemoveAll(a, c) + RemoveAll(b, c)
  {
    if a == "" {
      assert a + b == b;
    } else {
      assert (a + b)[1..] == a[1..] + b;
      RemoveAllConcat(a[1..], b, c);
    }
  }

  lemma {:induction false} RemoveNothing(s: string, c: char)
    requires c !in s
    ensures RemoveAll(s, c) == s
  {
    if s != "" {
      RemoveNothing(s[1..], c);
    }
  }

  lemma {:induction false} DashOut(group: string, rest: string)
    requires forall i :: 0 <= i < |group| ==> IsLowerHex(group[i])
    ensures RemoveAll(group + ("-" + rest), '-') == group + RemoveAll(rest, '-')
  {
    RemoveNothing(group, '-');
    RemoveAllConcat(group, "-" + rest, '-');
    assert ("-" + rest)[1..] == rest;
  }

  /** Taking the dashes out of the printed form gives the digits back. */
  lemma DashesOut(u: string)
    requires IsUuid(u)
    ensures RemoveAll(UuidText(u), '-') == u
  {
    var a, b, d, e, f := u[..8], u[8..12], u[12..16], u[16..20], u[20..];
    DashOut(a, b + ("-" + (d + ("-" + (e + ("-" + f))))));
    DashOut(b, d + ("-" + (e + ("-" + f))));
    DashOut(d, e + ("-" + f));
    DashOut(e, f);
    RemoveNothing(f, '-');
    assert u == a + (b + (d + (e + f)));
  }

  lemma UuidTextInjective(u: string, v: string)
    requires IsUuid(u) && IsUuid(v)
    ensures UuidText(u) == UuidText(v) <==> u == v
  {
    DashesOut(u);
    DashesOut(v);
  }

  // ---------------------------------------------------------------- Python's reader

  /** `s.replace(pat, "")` */
  function Without(s: string, pat: string): string
    requires pat != ""
    decreases |s|
  {
    if s == "" then ""
    else if pat <= s then Without(s[|pat|..], pat)
    else [s[0]] + Without(s[1..], pat)
  }

  lemma {:induction false} WithoutNothing(s: string, pat: string)
    requires pat != "" && pat[0] !in s
    ensures Without(s, pat) == s
  {
    if s != "" {
      WithoutNothing(s[1..], pat);
    }
  }

  /** `s.strip("{}")` */
  function StripBraces(s: string): string
    decreases |s|
  {
    if s != "" && s[0] in "{}" then StripBraces(s[1..])
    else if s != "" && s[|s| - 1] in "{}" then StripBraces(s[..|s| - 1])
    else s
  }

  /** `uuid.UUID(s)`, or nothing where it raises `ValueError`. */
  function ReadUuid(s: string): Option<string> {
    var digits := RemoveAll(StripBraces(Without(Without(s, "urn:"), "uuid:")), '-');
    if Hex32(digits) then Some(Lower(digits)) else None
  }

  lemma ReadPrinted(u: string)
    requires IsUuid(u)
    ensures ReadUuid(UuidText(u)) == Some(u)
  {
    var s := UuidText(u);
    forall i | 0 <= i < |s| ensures s[i] == '-' || IsLowerHex(s[i]) {}
    assert 'u' !in s;
    WithoutNothing(s, "urn:");
    WithoutNothing(s, "uuid:");
    assert StripBraces(s) == s;
    DashesOut(u);
    LowerIsUuid(u);
  }

  // ---------------------------------------------------------------- PostgreSQL's cast

  /** Digits still to read after n of them; a hyphen may follow every fourth digit. */
  function CastDigits(s: string, n: nat): Option<string>
    requires n <= 32
    decreases |s|, 32 - n
  {
    if n == 32 then (if s == "" then Some("") else None)
    else if s == "" then None
    else if s[0] == '-' && n % 4 == 0 && n > 0 then CastHex(s[1..], n)
    else CastHex(s, n)
  }

  function CastHex(s: string, n: nat): Option<string>
    requires n < 32
    decreases |s|, 0
  {
    if s == "" || !IsHex(s[0]) then None
    else
      var rest := CastDigits(s[1..], n + 1);
      if rest.Some? then Some([LowerChar(s[0])] + rest.value) else None
  }

  /** `CAST(s AS uuid)`, or nothing where it fails. */
  function CastUuid(s: string): Option<string> {
    if |s| >= 2 && s[0] == '{' && s[|s| - 1] == '}' then CastDigits(s[1..|s| - 1], 0) else CastDigits(s, 0)
  }

  lemma {:induction false} CastBare(s: string, n: nat)
    requires |s| + n == 32 && forall i :: 0 <= i < |s| ==> IsHex(s[i])
    ensures CastDigits(s, n) == Some(Lower(s))
    decreases |s|
  {
    if s != "" {
      CastBare(s[1..], n + 1);
      assert Lower(s) == [LowerChar(s[0])] + Lower(s[1..]);
    }
  }

  lemma CastHex32(s: string)
    requires Hex32(s)
    ensures CastUuid(s) == Some(Lower(s))
  {
    CastBare(s, 0);
  }

  /** What the cast accepts consists of hex digits and hyphens, and gives a canonical UUID. */
  lemma {:induction false} CastChars(s: string, n: nat)
    requires n <= 32
    ensures CastDigits(s, n).Some? ==>
              (forall i :: 0 <= i < |s| ==> IsHex(s[i]) || s[i] == '-') &&
              |CastDigits(s, n).value| == 32 - n &&
              (forall i :: 0 <= i < 32 - n ==> IsLowerHex(CastDigits(s, n).value[i]))
    decreases |s|, 32 - n
  {
    if n < 32 && s != "" && CastDigits(s, n).Some? {
      var rest := if s[0] == '-' && n % 4 == 0 && n > 0 then s[1..] else s;
      CastChars(rest[1..], n + 1);
    }
  }

  lemma CastIsUuid(s: string)
    ensures CastUuid(s).Some? ==> IsUuid(CastUuid(s).value)
  {
    CastChars(s, 0);
    if |s| >= 2 {
      CastChars(s[1..|s| - 1], 0);
    }
  }

  /** The cast leaves bare digits as they are up to case, and changes any other text it accepts. */
  lemma CastOfOther(s: string)
    requires CastUuid(s).Some?
    ensures Hex32(s) <==> |s| == 32 && '-' !in s && '{' !in s
    ensures Hex32(s) ==> CastUuid(s).value == Lower(s)
    ensures forall i :: 0 <= i < |s| ==> IsHex(s[i]) || s[i] in "-{}"
  {
    CastChars(s, 0);
    if |s| >= 2 && s[0] == '{' && s[|s| - 1] == '}' {
      CastChars(s[1..|s| - 1], 0);
      assert forall i :: 0 < i < |s| - 1 ==> s[i] == s[1..|s| - 1][i - 1];
    }
    if Hex32(s) {
      CastHex32(s);
    }
  }

  // ---------------------------------------------------------------- action identifiers

  /** `act-` and 32 hex digits. */
  predicate IsLegacyAction(s: string) {
    "act-" <= s && Hex32(s[4..])
  }

  /** `_coerce_action_uuid` on a JSON value that is absent or a string. */
  function Coerce(value: Option<string>): Option<string> {
    if value == None then None
    else if IsLegacyAction(value.value) then Some(Lower(value.value[4..]))
    else ReadUuid(value.value)
  }

  lemma CoercePrinted(u: string)
    requires IsUuid(u)
    ensures Coerce(Some(UuidText(u))) == Some(u)
  {
    assert UuidText(u)[2] == u[2];
    ReadPrinted(u);
  }

  lemma CoerceIsUuid(value: Option<string>)
    ensures Coerce(value).Some? ==> IsUuid(Coerce(value).value)
  {
    if Coerce(value).Some? {
      if IsLegacyAction(value.value) {
        LowerIsUuid(value.value[4..]);
      } else {
        LowerIsUuid(RemoveAll(StripBraces(Without(Without(value.value, "urn:"), "uuid:")), '-'));
      }
    }
  }

  lemma {:induction false} RemoveAllMember(s: string, c: char, d: char)
    requires d in s && d != c
    ensures d in RemoveAll(s, c)
  {
    if s[0] != d {
      RemoveAllMember(s[1..], c, d);
    }
  }

  lemma {:induction false} StripMember(s: string, d: char)
    requires d in s && d !in "{}"
    ensures d in StripBraces(s)
    decreases |s|
  {
    if s[0] in "{}" {
      StripMember(s[1..], d);
    } else if s[|s| - 1] in "{}" {
      assert d in s[..|s| - 1];
      StripMember(s[..|s| - 1], d);
    }
  }

  /** A text that keeps a non-hex letter is no UUID for Python. */
  lemma ReadRejects(s: string, d: char)
    requires 'u' !in s && d in s && d !in "{}-" && !IsHex(d)
    ensures ReadUuid(s) == None
  {
    WithoutNothing(s, "urn:");
    WithoutNothing(s, "uuid:");
    StripMember(s, d);
    RemoveAllMember(StripBraces(s), '-', d);
  }

  /**
   * For an action id that the cast accepts after its four-character prefix `act-`, the coercion
   * finds the same UUID exactly when the rest is 32 bare hex digits.
   */
  lemma CoerceAgreesWithCast(s: string)
    requires "act-" <= s && CastUuid(s[4..]).Some?
    ensures Coerce(Some(s)) == CastUuid(s[4..]) <==> Hex32(s[4..])
  {
    var rest := s[4..];
    CastOfOther(rest);
    if !Hex32(rest) {
      assert s == "act-" + rest;
      assert forall i :: 0 <= i < |rest| ==> rest[i] != 'u';
      assert s[2] == 't';
      ReadRejects(s, 't');
    }
  }

  // ---------------------------------------------------------------- texts behind any four characters

  predicate IsBrace(c: char) {
    c == '{' || c == '}'
  }

  function DropBraces(s: string): string {
    if s != "" && IsBrace(s[0]) then DropBraces(s[1..]) else s
  }

  predicate AllHyphens(s: string) {
    forall i :: 0 <= i < |s| ==> s[i] == '-'
  }

  /**
   * The texts that the coercion reads as what is behind their first four characters: `act-` before bare hex
   * digits, `urn:`, four braces, or braces and then hyphens before a text without braces.
   */
  predicate ReadsBehindPrefix(s: string)
    requires |s| > 4
  {
    var prefix, rest := s[..4], s[4..];
    if prefix == "act-" then Hex32(rest)
    else
      || prefix == "urn:"
      || DropBraces(prefix) == ""
      || (AllHyphens(DropBraces(prefix)) && rest[0] != '{')
  }

  /** What the cast accepts between braces: its digits are what is left without hyphens. */
  lemma {:induction false} CastDigitsShape(s: string, n: nat)
    requires n <= 32 && CastDigits(s, n).Some?
    ensures var digits := RemoveAll(s, '-');
            |digits| == 32 - n && (forall i :: 0 <= i < |digits| ==> IsHex(digits[i])) &&
            Lower(digits) == CastDigits(s, n).value
    ensures n < 32 ==> s != "" && IsHex(s[|s| - 1])
    ensures n == 0 ==> IsHex(s[0])
    decreases |s|, 32 - n
  {
    if n < 32 {
      var rest := if s[0] == '-' && n % 4 == 0 && n > 0 then s[1..] else s;
      CastDigitsShape(rest[1..], n + 1);
      assert rest == [rest[0]] + rest[1..];
      HexStays(rest[0], rest[1..], RemoveAll(rest[1..], '-'));
    }
  }

  lemma {:induction false} HexStays(c: char, rest: string, digits: string)
    requires IsHex(c) && digits == RemoveAll(rest, '-')
    ensures RemoveAll([c] + rest, '-') == [c] + digits
    ensures Lower([c] + digits) == [LowerChar(c)] + Lower(digits)
  {
    assert ([c] + rest)[1..] == rest;
  }

  /** A text that the cast accepts, taken apart: its braces, if it has them, and the part between. */
  lemma CastParts(rest: string) returns (open: string, body: string, close: string)
    requires CastUuid(rest).Some?
    ensures rest == open + body + close && body != ""
    ensures (open == "" && close == "") || (open == "{" && close == "}")
    ensures open == "{" <==> rest[0] == '{'
    ensures CastDigits(body, 0) == CastUuid(rest)
    ensures IsHex(body[0]) && IsHex(body[|body| - 1])
  {
    if |rest| >= 2 && rest[0] == '{' && rest[|rest| - 1] == '}' {
      open, body, close := "{", rest[1..|rest| - 1], "}";
    } else {
      open, body, close := "", rest, "";
    }
    CastDigitsShape(body, 0);
  }

  lemma {:induction false} WithoutUnmatched(s: string, pat: string)
    requires pat != "" && forall i :: 0 <= i <= |s| ==> !(pat <= s[i..])
    ensures Without(s, pat) == s
  {
    if s != "" {
      assert !(pat <= s[0..]) && s[0..] == s;
      forall i | 0 <= i <= |s[1..]| ensures !(pat <= s[1..][i..]) {
        assert s[1..][i..] == s[i + 1..];
      }
      WithoutUnmatched(s[1..], pat);
    }
  }

  lemma UrnIsPrefix(prefix: string, rest: string, i: nat)
    requires |prefix| == 4 && i <= 4 + |rest| && "urn:" <= (prefix + rest)[i..]
    ensures prefix == "urn:" || ':' in rest
  {
    var s, urn := prefix + rest, "urn:";
    assert forall j :: 0 <= j < 4 ==> s[i + j] == s[i..][j] == urn[j];
    assert s[i + 3] == ':';
    assert i > 0 ==> s[i + 3] == rest[i - 1];
  }

  lemma UuidReachesRest(prefix: string, rest: string, i: nat)
    requires |prefix| == 4 && i <= 4 + |rest| && "uuid:" <= (prefix + rest)[i..]
    ensures ':' in rest
  {
    var s, uuid := prefix + rest, "uuid:";
    assert s[i + 4] == s[i..][4] == uuid[4] == ':';
    assert s[i + 4] == rest[i];
  }

  /** Of the texts that `uuid.UUID` removes, only `urn:` fits in front of a text without colon. */
  lemma {:induction false} ReplacementsOf(prefix: string, rest: string)
    requires |prefix| == 4 && ':' !in rest && 'u' !in rest
    ensures Without(Without(prefix + rest, "urn:"), "uuid:") == if prefix == "urn:" then rest else prefix + rest
  {
    var s := prefix + rest;
    if prefix == "urn:" {
      assert "urn:" <= s && s[4..] == rest;
      WithoutNothing(rest, "urn:");
      WithoutNothing(rest, "uuid:");
    } else {
      forall i | 0 <= i <= |s| ensures !("urn:" <= s[i..]) && !("uuid:" <= s[i..]) {
        if "urn:" <= s[i..] {
          UrnIsPrefix(prefix, rest, i);
        }
        if "uuid:" <= s[i..] {
          UuidReachesRest(prefix, rest, i);
        }
      }
      WithoutUnmatched(s, "urn:");
      WithoutUnmatched(s, "uuid:");
    }
  }

  lemma {:induction false} StripLeft(s: string)
    ensures StripBraces(s) == StripBraces(DropBraces(s))
    ensures |DropBraces(s)| <= |s| && (DropBraces(s) != "" ==> !IsBrace(DropBraces(s)[0]))
  {
    if s != "" && IsBrace(s[0]) {
      StripLeft(s[1..]);
    }
  }

  lemma {:induction false} DropBracesConcat(a: string, b: string)
    ensures DropBraces(a + b) == if DropBraces(a) == "" then DropBraces(b) else DropBraces(a) + b
  {
    if a == "" {
      assert a + b == b;
    } else if IsBrace(a[0]) {
      assert (a + b)[1..] == a[1..] + b;
      DropBracesConcat(a[1..], b);
    }
  }

  lemma {:induction false} StripRight(s: string, close: string)
    requires s != "" && !IsBrace(s[0]) && !IsBrace(s[|s| - 1]) && (close == "" || close == "}")
    ensures StripBraces(s + close) == s
  {
    if close == "" {
      assert s + close == s;
    } else {
      assert (s + close)[..|s|] == s;
    }
  }

  lemma {:induction false} HyphensVanish(s: string)
    ensures RemoveAll(s, '-') == "" <==> AllHyphens(s)
  {
    if s != "" {
      HyphensVanish(s[1..]);
      assert AllHyphens(s) <==> s[0] == '-' && AllHyphens(s[1..]);
    }
  }

  lemma {:induction false} OpenBraceDrops(open: string, text: string)
    requires (open == "" || open == "{") && text != "" && !IsBrace(text[0])
    ensures DropBraces(open + text) == text
  {
    if open == "" {
      assert open + text == text;
    } else {
      assert (open + text)[1..] == text;
    }
  }

  /** Braces on both sides of a text vanish. */
  lemma {:induction false} StripOfBraces(braces: string, open: string, body: string, close: string)
    requires DropBraces(braces) == "" && body != "" && IsHex(body[0]) && IsHex(body[|body| - 1])
    requires (open == "" && close == "") || (open == "{" && close == "}")
    ensures StripBraces(braces + (open + body + close)) == body
  {
    var inner := body + close;
    assert inner[0] == body[0];
    assert open + body + close == open + inner;
    StripLeft(braces + (open + inner));
    DropBracesConcat(braces, open + inner);
    OpenBraceDrops(open, inner);
    StripRight(body, close);
  }

  /** A prefix that is not all braces keeps its other characters, and what stands behind them an opening brace. */
  lemma {:induction false} StripOfOther(prefix: string, q: string, open: string, body: string, close: string)
    requires q == DropBraces(prefix) && q != "" && body != "" && IsHex(body[|body| - 1])
    requires close == "" || close == "}"
    ensures StripBraces(prefix + (open + body + close)) == q + open + body
  {
    StripLeft(prefix);
    StripLeft(prefix + (open + body + close));
    DropBracesConcat(prefix, open + body + close);
    var kept := q + open + body;
    assert q + (open + body + close) == kept + close;
    assert kept[0] == q[0] && kept[|kept| - 1] == body[|body| - 1];
    StripRight(kept, close);
  }

  /** Digits behind other characters read as a UUID exactly when those are hyphens and no brace follows. */
  lemma {:induction false} DigitsBehind(q: string, open: string, body: string, digits: string)
    requires digits == RemoveAll(body, '-') && Hex32(digits) && (open == "" || open == "{")
    ensures var read := RemoveAll(q + open + body, '-');
            if AllHyphens(q) && open == "" then read == digits else !Hex32(read)
  {
    RemoveAllConcat(q + open, body, '-');
    RemoveAllConcat(q, open, '-');
    HyphensVanish(q);
    var kept := RemoveAll(q, '-');
    assert RemoveAll(open, '-') == open by {
      assert open == "{" ==> open[1..] == "";
    }
    assert |kept + open + digits| == |kept| + |open| + 32;
  }

  /** What the reader is left with before it removes the hyphens. */
  lemma {:induction false} StripOfPrefixed(prefix: string, rest: string, open: string, body: string, close: string)
    requires |prefix| == 4 && ':' !in rest && 'u' !in rest && rest == open + body + close
    requires body != "" && IsHex(body[0]) && IsHex(body[|body| - 1])
    requires (open == "" && close == "") || (open == "{" && close == "}")
    ensures StripBraces(Without(Without(prefix + rest, "urn:"), "uuid:")) ==
            if prefix == "urn:" || DropBraces(prefix) == "" then body else DropBraces(prefix) + open + body
  {
    ReplacementsOf(prefix, rest);
    if prefix == "urn:" {
      StripOfBraces("", open, body, close);
      assert "" + rest == rest;
    } else if DropBraces(prefix) == "" {
      StripOfBraces(prefix, open, body, close);
    } else {
      StripOfOther(prefix, DropBraces(prefix), open, body, close);
    }
  }

  /** What the reader makes of a prefix before the parts of a text that the cast accepts. */
  lemma ReadOfParts(prefix: string, rest: string, open: string, body: string, close: string)
    requires |prefix| == 4 && ':' !in rest && 'u' !in rest && rest == open + body + close
    requires body != "" && IsHex(body[0]) && IsHex(body[|body| - 1]) && CastDigits(body, 0).Some?
    requires (open == "" && close == "") || (open == "{" && close == "}")
    ensures ReadUuid(prefix + rest) == CastDigits(body, 0) <==>
            prefix == "urn:" || DropBraces(prefix) == "" || (AllHyphens(DropBraces(prefix)) && open == "")
  {
    CastDigitsShape(body, 0);
    StripOfPrefixed(prefix, rest, open, body, close);
    DigitsBehind(DropBraces(prefix), open, body, RemoveAll(body, '-'));
  }

  /** The reader finds the cast's UUID behind a prefix other than `act-` exactly where that prefix vanishes. */
  lemma ReadAgreesWithCast(s: string, prefix: string, rest: string)
    requires s == prefix + rest && |prefix| == 4 && CastUuid(rest).Some?
    requires prefix != "act-" && rest != ""
    ensures ReadUuid(s) == CastUuid(rest) <==> ReadsBehindPrefix(s)
  {
    assert s[..4] == prefix && s[4..] == rest;
    CastOfOther(rest);
    var open, body, close := CastParts(rest);
    ReadOfParts(prefix, rest, open, body, close);
  }

  /**
   * For any text that the cast accepts after its first four characters, the coercion finds the same UUID
   * exactly when it reads behind those characters.
   */
  lemma CoerceAgreesExactly(s: string)
    requires |s| > 4 && CastUuid(s[4..]).Some?
    ensures Coerce(Some(s)) == CastUuid(s[4..]) <==> ReadsBehindPrefix(s)
  {
    if s[..4] == "act-" {
      assert s == "act-" + s[4..];
      CoerceAgreesWithCast(s);
    } else {
      assert s == s[..4] + s[4..];
      ReadAgreesWithCast(s, s[..4], s[4..]);
    }
  }
}
