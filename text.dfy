/** Ordinal string operations the controller relies on: decimal rendering of
    integers (`Int32.ToString`, `UInt64.ToString`), ASCII upper-casing
    (`String.ToUpper`), and the prefix / substring tests (`StartsWith`,
    `Contains`). */
module Text {

  predicate IsDigit(c: char) {
    '0' <= c <= '9'
  }

  predicate AllDigits(s: string) {
    forall i :: 0 <= i < |s| ==> IsDigit(s[i])
  }

  /** The character of decimal digit `d`. */
  function DigitChar(d: nat): (c: char)
    requires d < 10
    ensures IsDigit(c) && c as int - '0' as int == d
  {
    (('0' as int) + d) as char
  }

  /** Decimal rendering of a non-negative integer, without leading zeros. */
  function NatToString(n: nat): (s: string)
    ensures 1 <= |s|
    ensures s[0] == '0' <==> n == 0
    ensures n < 10 <==> |s| == 1
    decreases n
  {
    if n < 10 then [DigitChar(n)] else NatToString(n / 10) + [DigitChar(n % 10)]
  }

  /** The rendering is made of decimal digits only. */
  lemma {:induction false} NatToStringDigits(n: nat)
    ensures AllDigits(NatToString(n))
    decreases n
  {
    if n >= 10 {
      NatToStringDigits(n / 10);
    }
  }

  /** Decimal rendering of any integer: a '-' before the magnitude when negative. */
  function IntToString(i: int): (s: string)
    ensures 1 <= |s|
    ensures s[0] == '-' <==> i < 0
    ensures s[0] == '0' <==> i == 0
    ensures AllDigits(if i < 0 then s[1..] else s)
  {
    NatToStringDigits(if i < 0 then -i else i);
    if i < 0 then "-" + NatToString(-i) else NatToString(i)
  }

  /** The value of a string read as decimal digits, most significant first;
      the reading used to state round trips. */
  function DigitsValue(s: string): int
  {
    if s == [] then 0 else DigitsValue(s[..|s| - 1]) * 10 + (s[|s| - 1] as int - '0' as int)
  }

  lemma {:induction false} NatToStringRoundTrip(n: nat)
    ensures DigitsValue(NatToString(n)) == n
    decreases n
  {
    if n >= 10 {
      var s := NatToString(n / 10) + [DigitChar(n % 10)];
      assert s[..|s| - 1] == NatToString(n / 10);
      NatToStringRoundTrip(n / 10);
    }
  }

  /** A leading '0' does not change the value read. */
  lemma {:induction false} LeadingZero(s: string)
    ensures DigitsValue("0" + s) == DigitsValue(s)
    decreases |s|
  {
    if s != [] {
      var t := "0" + s;
      assert t[..|t| - 1] == "0" + s[..|s| - 1];
      LeadingZero(s[..|s| - 1]);
    }
  }

  /** `Char.ToUpper` restricted to ASCII letters. */
  function UpperChar(c: char): (u: char)
    ensures !('a' <= u <= 'z')
    ensures 'a' <= c <= 'z' ==> u as int == c as int - 32
    ensures !('a' <= c <= 'z') ==> u == c
  {
    if 'a' <= c <= 'z' then (c as int - 32) as char else c
  }

  /** `String.ToUpper`: every lower-case ASCII letter replaced by its capital. */
  function ToUpper(s: string): (r: string)
    ensures |r| == |s|
    ensures forall i :: 0 <= i < |r| ==> !('a' <= r[i] <= 'z')
    ensures forall i :: 0 <= i < |s| && !('a' <= s[i] <= 'z') ==> r[i] == s[i]
    ensures forall i :: 0 <= i < |s| && 'a' <= s[i] <= 'z' ==> r[i] as int == s[i] as int - 32
  {
    seq(|s|, i requires 0 <= i < |s| => UpperChar(s[i]))
  }

  /** `String.StartsWith` with ordinal comparison. */
  predicate StartsWith(s: string, prefix: string) {
    |prefix| <= |s| && s[..|prefix|] == prefix
  }

  /** `needle` occurs in `s` at offset `i`. */
  predicate OccursAt(s: string, needle: string, i: int) {
    0 <= i && i + |needle| <= |s| && s[i..i + |needle|] == needle
  }

  /** `String.Contains` with ordinal comparison, by scanning offsets left to right. */
  function Contains(s: string, needle: string): bool
    decreases |s|
  {
    StartsWith(s, needle) || (s != [] && Contains(s[1..], needle))
  }

  /** `Contains` holds exactly when some offset carries an occurrence. */
  lemma {:induction false} ContainsIff(s: string, needle: string)
    ensures Contains(s, needle) <==> exists i :: OccursAt(s, needle, i)
    decreases |s|
  {
    if s != [] {
      ContainsIff(s[1..], needle);
      if StartsWith(s, needle) {
        assert OccursAt(s, needle, 0);
      }
      if Contains(s[1..], needle) {
        var i :| OccursAt(s[1..], needle, i);
        assert s[1..][i..i + |needle|] == s[i + 1..i + 1 + |needle|];
        assert OccursAt(s, needle, i + 1);
      }
      if i :| OccursAt(s, needle, i) {
        if i > 0 {
          assert s[1..][i - 1..i - 1 + |needle|] == s[i..i + |needle|];
          assert OccursAt(s[1..], needle, i - 1);
        } else {
          assert StartsWith(s, needle);
        }
      }
    } else if Contains(s, needle) {
      assert OccursAt(s, needle, 0);
    }
  }

  /** A prefix is in particular an occurrence. */
  lemma StartsWithContains(s: string, needle: string)
    requires StartsWith(s, needle)
    ensures Contains(s, needle)
  {
  }

  /** `n` in decimal, left-padded with '0' to at least `width` characters
      (the `yyyy`, `MM`, `dd`, ... fields of a custom date format). */
  function Padded(n: nat, width: nat): (r: string)
    ensures |r| == if |NatToString(n)| >= width then |NatToString(n)| else width
    decreases width
  {
    if |NatToString(n)| >= width then NatToString(n) else "0" + Padded(n, width - 1)
  }

  /** The padded rendering is made of decimal digits and reads back as `n`. */
  lemma {:induction false} PaddedDigits(n: nat, width: nat)
    ensures AllDigits(Padded(n, width)) && DigitsValue(Padded(n, width)) == n
    decreases width
  {
    if |NatToString(n)| >= width {
      NatToStringDigits(n);
      NatToStringRoundTrip(n);
    } else {
      var p := Padded(n, width - 1);
      assert Padded(n, width) == "0" + p;
      PaddedDigits(n, width - 1);
      LeadingZero(p);
    }
  }

  /** `s.Replace("%2F", "/")`: every occurrence, scanning left to right
      without overlap, becomes a slash. */
  function UnescapeSlash(s: string): (r: string)
    ensures |r| <= |s|
    ensures !Contains(s, "%2F") ==> r == s
  {
    if |s| < 3 then s
    else if s[..3] == "%2F" then "/" + UnescapeSlash(s[3..])
    else [s[0]] + UnescapeSlash(s[1..])
  }

  /** An escaped tag turns back into the tag with its slash, and the
      replacement is a single pass: an escape that only appears once the
      inner one is replaced stays. */
  lemma UnescapeSlashExamples()
    ensures UnescapeSlash("A%2F)-") == "A/)-"
    ensures UnescapeSlash("%%2F2F") == "%/2F"
  {
    assert UnescapeSlash(")-") == ")-";
    assert "%2F)-"[..3] == "%2F" && "%2F)-"[3..] == ")-";
    assert UnescapeSlash("%2F)-") == "/)-";
    assert "A%2F)-"[..3][0] != "%2F"[0] && "A%2F)-"[1..] == "%2F)-";
    assert UnescapeSlash("2F") == "2F";
    assert "%2F2F"[..3] == "%2F" && "%2F2F"[3..] == "2F";
    assert UnescapeSlash("%2F2F") == "/2F";
    assert "%%2F2F"[..3][1] != "%2F"[1] && "%%2F2F"[1..] == "%2F2F";
  }
}
