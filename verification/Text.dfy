/**
 Strings as the Rust sources see them: Unicode scalar values, lengths in UTF-8
 bytes, `trim`, and the pre-v0.0.4 normal form of a PIN.
 */
module Text {

  /** Unicode White_Space, the set behind `char::is_whitespace`. */
  predicate IsWhitespace(c: char) {
    || '\U{9}' <= c <= '\U{D}'
    || c == ' ' || c == '\U{85}' || c == '\U{A0}' || c == '\U{1680}'
    || '\U{2000}' <= c <= '\U{200A}'
    || c == '\U{2028}' || c == '\U{2029}' || c == '\U{202F}' || c == '\U{205F}' || c == '\U{3000}'
  }

  /** The 25 code points of the property White_Space (Unicode Character Database, PropList.txt). */
  lemma WhiteSpaceIsListed(c: char)
    ensures IsWhitespace(c) <==>
              c as int in [0x9, 0xA, 0xB, 0xC, 0xD, 0x20, 0x85, 0xA0, 0x1680,
                           0x2000, 0x2001, 0x2002, 0x2003, 0x2004, 0x2005, 0x2006, 0x2007, 0x2008, 0x2009, 0x200A,
                           0x2028, 0x2029, 0x202F, 0x205F, 0x3000]
  {
  }

  function Utf8Len(c: char): nat {
    if c < '\U{80}' then 1 else if c < '\U{800}' then 2 else if c < '\U{10000}' then 3 else 4
  }

  /** `str::len`: the length in bytes. */
  function ByteLen(s: string): nat {
    if s == "" then 0 else Utf8Len(s[0]) + ByteLen(s[1..])
  }

  /** The UTF-8 encoding of a character (RFC 3629, section 3). */
  function Utf8(c: char): seq<nat> {
    var n := c as int;
    if n < 0x80 then [n]
    else if n < 0x800 then [0xC0 + n / 64, 0x80 + n % 64]
    else if n < 0x1_0000 then [0xE0 + n / 64 / 64, 0x80 + n / 64 % 64, 0x80 + n % 64]
    else [0xF0 + n / 64 / 64 / 64, 0x80 + n / 64 / 64 % 64, 0x80 + n / 64 % 64, 0x80 + n % 64]
  }

  function Bytes(s: string): (b: seq<nat>)
    ensures |b| == ByteLen(s)
  {
    if s == "" then [] else Utf8(s[0]) + Bytes(s[1..])
  }

  /** The first byte tells how many belong to the character, and the bytes tell which it is. */
  lemma Utf8IsPrefixFree(c: char, d: char, left: seq<nat>, right: seq<nat>)
    requires Utf8(c) + left == Utf8(d) + right
    ensures c == d && left == right
  {
    var whole := Utf8(c) + left;
    assert whole[0] == Utf8(c)[0] == Utf8(d)[0];
    assert |Utf8(c)| == |Utf8(d)|;
    assert Utf8(c) == whole[..|Utf8(c)|] == Utf8(d);
    assert left == whole[|Utf8(c)|..] == right;
    SameUtf8(c, d);
  }

  lemma SameUtf8(c: char, d: char)
    requires Utf8(c) == Utf8(d)
    ensures c == d
  {
    var m, n, b := c as int, d as int, Utf8(c);
    assert b == Utf8(d);
    if |b| == 2 {
      LastSixBits(m, n);
    } else if |b| == 3 {
      LastSixBits(m / 64, n / 64);
      LastSixBits(m, n);
    } else if |b| == 4 {
      LastSixBits(m / 64 / 64, n / 64 / 64);
      LastSixBits(m / 64, n / 64);
      LastSixBits(m, n);
    }
  }

  lemma LastSixBits(m: nat, n: nat)
    requires m / 64 == n / 64 && m % 64 == n % 64
    ensures m == n
  {
  }

  /** PINs may be compared as texts: their bytes are equal only if the texts are. */
  lemma {:induction false} BytesAreUnique(s: string, t: string)
    requires Bytes(s) == Bytes(t)
    ensures s == t
  {
    assert s != "" ==> Bytes(s) != [];
    assert t != "" ==> Bytes(t) != [];
    if s != "" {
      Utf8IsPrefixFree(s[0], t[0], Bytes(s[1..]), Bytes(t[1..]));
      BytesAreUnique(s[1..], t[1..]);
      assert s == [s[0]] + s[1..] && t == [t[0]] + t[1..];
    }
  }

  function TrimStart(s: string): string {
    if s != "" && IsWhitespace(s[0]) then TrimStart(s[1..]) else s
  }

  function TrimEnd(s: string): string {
    if s != "" && IsWhitespace(s[|s| - 1]) then TrimEnd(s[..|s| - 1]) else s
  }

  function Trim(s: string): string {
    TrimEnd(TrimStart(s))
  }

  /** Neither end is white space. */
  predicate Trimmed(s: string) {
    s != "" ==> !IsWhitespace(s[0]) && !IsWhitespace(s[|s| - 1])
  }

  predicate AllWhitespace(s: string) {
    forall i :: 0 <= i < |s| ==> IsWhitespace(s[i])
  }

  lemma {:induction false} TrimStartSplits(s: string) returns (front: string)
    ensures s == front + TrimStart(s) && AllWhitespace(front)
    ensures TrimStart(s) != "" ==> !IsWhitespace(TrimStart(s)[0])
  {
    if s != "" && IsWhitespace(s[0]) {
      front := TrimStartSplits(s[1..]);
      front := [s[0]] + front;
    } else {
      front := "";
    }
  }

  lemma {:induction false} TrimEndSplits(s: string) returns (back: string)
    ensures s == TrimEnd(s) + back && AllWhitespace(back)
    ensures TrimEnd(s) != "" ==> !IsWhitespace(TrimEnd(s)[|TrimEnd(s)| - 1])
  {
    if s != "" && IsWhitespace(s[|s| - 1]) {
      back := TrimEndSplits(s[..|s| - 1]);
      back := back + [s[|s| - 1]];
    } else {
      back := "";
    }
  }

  /** What `trim` removes is white space on both sides, and what it keeps has none at its ends. */
  lemma TrimSplits(s: string) returns (front: string, back: string)
    ensures s == front + Trim(s) + back
    ensures AllWhitespace(front) && AllWhitespace(back) && Trimmed(Trim(s))
  {
    front := TrimStartSplits(s);
    back := TrimEndSplits(TrimStart(s));
    if Trim(s) != "" {
      assert TrimStart(s)[0] == Trim(s)[0];
    }
  }

  /** White space around a trimmed text is all that `trim` takes away. */
  lemma {:induction false} TrimIsUnique(front: string, s: string, back: string)
    requires AllWhitespace(front) && AllWhitespace(back) && Trimmed(s)
    ensures Trim(front + s + back) == s
    decreases |front| + |back|
  {
    if s == "" {
      TrimOfWhitespace(front + back);
      assert front + s + back == front + back;
    } else if front != "" {
      TrimIsUnique(front[1..], s, back);
      assert (front + s + back)[1..] == front[1..] + s + back;
    } else {
      assert front + s + back == s + back;
      TrimEndOfSuffix(s, back);
    }
  }

  lemma {:induction false} TrimOfWhitespace(s: string)
    requires AllWhitespace(s)
    ensures Trim(s) == ""
  {
    if s != "" {
      TrimOfWhitespace(s[1..]);
    }
  }

  lemma {:induction false} TrimEndOfSuffix(s: string, back: string)
    requires AllWhitespace(back) && s != "" && Trimmed(s)
    ensures TrimEnd(s + back) == s
  {
    if back == "" {
      assert s + back == s;
    } else {
      TrimEndOfSuffix(s, back[..|back| - 1]);
      assert (s + back)[..|s + back| - 1] == s + back[..|back| - 1];
    }
  }

  // ---- The legacy normal form ----

  function TrimStartZeros(s: string): string {
    if s != "" && s[0] == '0' then TrimStartZeros(s[1..]) else s
  }

  /** `normalize_legacy_pin`: the spelling a PIN had before leading zeros were kept. */
  function NormalizeLegacyPin(pin: string): string {
    var normalized := TrimStartZeros(pin);
    if normalized == "" then "0" else normalized
  }

  predicate AllZeros(s: string) {
    forall i :: 0 <= i < |s| ==> s[i] == '0'
  }

  /** Deleting some leading zeros on each side makes the two texts equal. */
  predicate SameUpToLeadingZeros(s: string, t: string) {
    exists m, n | 0 <= m <= |s| && 0 <= n <= |t| ::
      AllZeros(s[..m]) && AllZeros(t[..n]) && s[m..] == t[n..]
  }

  lemma {:induction false} TrimStartZerosSplits(s: string) returns (m: nat)
    ensures m <= |s| && AllZeros(s[..m]) && s[m..] == TrimStartZeros(s)
    ensures m < |s| ==> s[m] != '0'
  {
    if s != "" && s[0] == '0' {
      m := TrimStartZerosSplits(s[1..]);
      assert forall i :: 0 < i < m + 1 ==> s[i] == s[1..][i - 1];
      m := m + 1;
    } else {
      m := 0;
    }
  }

  lemma {:induction false} TrimStartZerosSkips(s: string, m: nat)
    requires m <= |s| && AllZeros(s[..m])
    ensures TrimStartZeros(s) == TrimStartZeros(s[m..])
  {
    if m > 0 {
      assert s[..m][0] == '0';
      assert s[1..][..m - 1] == s[..m][1..];
      TrimStartZerosSkips(s[1..], m - 1);
      assert s[1..][m - 1..] == s[m..];
    }
  }

  /**
   The normal form: never empty, a leading '0' only in "0", unchanged by a second pass, never longer than a non-empty
   PIN.
   */
  lemma NormalFormIsCanonical(s: string)
    ensures NormalizeLegacyPin(s) != ""
    ensures NormalizeLegacyPin(s)[0] == '0' ==> NormalizeLegacyPin(s) == "0"
    ensures NormalizeLegacyPin(NormalizeLegacyPin(s)) == NormalizeLegacyPin(s)
    ensures s != "" ==> |NormalizeLegacyPin(s)| <= |s|
  {
    var m := TrimStartZerosSplits(s);
    if m < |s| {
      assert NormalizeLegacyPin(s) == s[m..];
    } else {
      assert TrimStartZeros("0"[1..]) == "";
    }
  }

  lemma {:induction false} TailIsShorter(s: string, m: nat)
    requires m <= |s|
    ensures ByteLen(s[m..]) <= ByteLen(s)
  {
    if m > 0 {
      assert s[m..] == s[1..][m - 1..];
      TailIsShorter(s[1..], m - 1);
    }
  }

  /** Nor is it longer in bytes, but for the one byte that stands for an empty text. */
  lemma NormalFormIsNotLonger(s: string)
    ensures ByteLen(NormalizeLegacyPin(s)) <= if s == "" then 1 else ByteLen(s)
  {
    var m := TrimStartZerosSplits(s);
    if m < |s| {
      assert NormalizeLegacyPin(s) == s[m..];
      TailIsShorter(s, m);
    } else {
      assert "0"[1..] == "";
    }
  }

  /** Two PINs share a normal form exactly when they differ only in leading zeros. */
  lemma NormalFormsAgree(s: string, t: string)
    ensures NormalizeLegacyPin(s) == NormalizeLegacyPin(t) <==> SameUpToLeadingZeros(s, t)
  {
    var m := TrimStartZerosSplits(s);
    var n := TrimStartZerosSplits(t);
    if NormalizeLegacyPin(s) == NormalizeLegacyPin(t) {
      assert s[m..] == t[n..];
    }
    if SameUpToLeadingZeros(s, t) {
      var m', n' :| 0 <= m' <= |s| && 0 <= n' <= |t| && AllZeros(s[..m']) && AllZeros(t[..n']) && s[m'..] == t[n'..];
      TrimStartZerosSkips(s, m');
      TrimStartZerosSkips(t, n');
    }
  }

  // ---- Decimal numerals ----

  predicate IsDigit(c: char) {
    '0' <= c <= '9'
  }

  predicate AllDigits(s: string) {
    forall i :: 0 <= i < |s| ==> IsDigit(s[i])
  }

  function DigitValue(c: char): nat
    requires IsDigit(c)
  {
    c as int - '0' as int
  }

  /** The number a digit string denotes; the empty string denotes 0. */
  function Value(s: string): nat
    requires AllDigits(s)
  {
    if s == "" then 0 else 10 * Value(s[..|s| - 1]) + DigitValue(s[|s| - 1])
  }

  lemma {:induction false} ValueSkipsZeros(s: string, m: nat)
    requires AllDigits(s) && m <= |s| && AllZeros(s[..m])
    ensures Value(s) == Value(s[m..])
  {
    if s == "" || m == 0 {
      assert s[m..] == s;
    } else if m == |s| {
      assert s[..m][m - 1] == '0';
      assert AllZeros(s[..|s| - 1][..m - 1]) by {
        assert s[..|s| - 1][..m - 1] == s[..m][..m - 1];
      }
      ValueSkipsZeros(s[..|s| - 1], m - 1);
    } else {
      assert s[..|s| - 1][..m] == s[..m];
      ValueSkipsZeros(s[..|s| - 1], m);
      assert s[m..][..|s[m..]| - 1] == s[..|s| - 1][m..];
    }
  }

  lemma {:induction false} ValueOfLeadingDigit(s: string)
    requires AllDigits(s) && s != "" && s[0] != '0'
    ensures Value(s) >= 1 && (|s| > 1 ==> Value(s) >= 10)
  {
    if |s| > 1 {
      ValueOfLeadingDigit(s[..|s| - 1]);
    } else {
      assert s[..|s| - 1] == "";
    }
  }

  lemma {:induction false} NumeralIsUnique(s: string, t: string)
    requires AllDigits(s) && AllDigits(t) && Value(s) == Value(t)
    requires (s != "" ==> s[0] != '0') && (t != "" ==> t[0] != '0')
    ensures s == t
  {
    if s == "" || t == "" {
      if s != "" { ValueOfLeadingDigit(s); }
      if t != "" { ValueOfLeadingDigit(t); }
    } else {
      var s', t' := s[..|s| - 1], t[..|t| - 1];
      assert Value(s') == Value(t') && DigitValue(s[|s| - 1]) == DigitValue(t[|t| - 1]);
      NumeralIsUnique(s', t');
      assert s == s' + [s[|s| - 1]] && t == t' + [t[|t| - 1]];
    }
  }

  /** For digit strings the legacy form keeps exactly the numeric value. */
  lemma NormalFormIsTheNumber(s: string, t: string)
    requires AllDigits(s) && AllDigits(t)
    ensures NormalizeLegacyPin(s) == NormalizeLegacyPin(t) <==> Value(s) == Value(t)
  {
    var m := TrimStartZerosSplits(s);
    var n := TrimStartZerosSplits(t);
    ValueSkipsZeros(s, m);
    ValueSkipsZeros(t, n);
    if Value(s) == Value(t) {
      NumeralIsUnique(s[m..], t[n..]);
    } else if s[m..] == "" || t[n..] == "" {
      assert s[m..] != t[n..];
    }
  }
}
