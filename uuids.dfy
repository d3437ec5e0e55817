/**
 * Session identifiers: `uuid.UUID(text)` as the database helpers use it to
 * turn a string id into a UUID, and `str(uuid)` as they use it to report one.
 * A UUID is held as its 32 lower-case hexadecimal digits.
 */
module Uuids {
  import opened Wrappers
  import opened Text

  predicate IsHexDigit(c: char) {
    '0' <= c <= '9' || 'a' <= c <= 'f' || 'A' <= c <= 'F'
  }

  predicate IsLowerHexDigit(c: char) {
    '0' <= c <= '9' || 'a' <= c <= 'f'
  }

  /** Thirty-two lower-case hexadecimal digits. */
  predicate IsUuidHex(s: string) {
    |s| == 32 && forall i :: 0 <= i < |s| ==> IsLowerHexDigit(s[i])
  }

  type Uuid = s: string | IsUuidHex(s) witness "00000000000000000000000000000000"

  /** `str(uuid)`: the digits in groups of 8-4-4-4-12, joined by hyphens. */
  function UuidText(u: Uuid): (t: string)
    ensures |t| == 36
  {
    u[..8] + "-" + u[8..12] + "-" + u[12..16] + "-" + u[16..20] + "-" + u[20..]
  }

  /**
   * What `UUID(text)` keeps before reading the digits: `urn:` and `uuid:`
   * removed wherever they occur, braces stripped from both ends, hyphens
   * removed.
   */
  function UuidDigits(text: string): string {
    var bare := Replace(Replace(text, "urn:", ""), "uuid:", "");
    Replace(StripChars(bare, "{}"), "-", "")
  }

  /**
   * `uuid.UUID(text)`: the UUID when exactly 32 hexadecimal digits, of either
   * case, remain; `None` where the constructor raises `ValueError`.
   */
  function ParseUuid(text: string): (r: Option<Uuid>)
    ensures r.Some? <==>
      (|UuidDigits(text)| == 32 && forall i :: 0 <= i < 32 ==> IsHexDigit(UuidDigits(text)[i]))
  {
    var digits := UuidDigits(text);
    if |digits| == 32 && forall i :: 0 <= i < 32 ==> IsHexDigit(digits[i]) then
      var lowered := Lower(digits);
      assert IsUuidHex(lowered);
      Some(lowered)
    else None
  }

  /** The digits of a UUID, however grouped, contain no colon, brace or hyphen. */
  lemma UuidTextChars(u: Uuid)
    ensures forall i :: 0 <= i < 36 ==> (UuidText(u)[i] == '-' <==> i in {8, 13, 18, 23})
    ensures forall i :: 0 <= i < 36 ==> UuidText(u)[i] == '-' || IsLowerHexDigit(UuidText(u)[i])
  {
  }

  /** Removing the hyphens of the canonical text gives back the digits. */
  lemma UuidTextDigits(u: Uuid)
    ensures Without(UuidText(u), '-') == u
  {
    var a, b, c, d, e := u[..8], u[8..12], u[12..16], u[16..20], u[20..];
    assert forall i :: 0 <= i < 32 ==> u[i] != '-';
    var x1 := a + "-" + b;
    var x2 := x1 + "-" + c;
    var x3 := x2 + "-" + d;
    assert UuidText(u) == x3 + "-" + e;
    WithoutAbsent(a, '-');
    WithoutGlue(a, b, '-');
    WithoutGlue(x1, c, '-');
    WithoutGlue(x2, d, '-');
    WithoutGlue(x3, e, '-');
    assert a + b + c + d + e == u;
  }

  /** Lower-casing lower-case digits changes nothing. */
  lemma LowerDigits(u: Uuid)
    ensures Lower(u) == u
  {
  }

  /** Without a colon there is no `urn:` or `uuid:` to remove. */
  lemma NoPrefixes(t: string)
    requires ':' !in t
    ensures Replace(Replace(t, "urn:", ""), "uuid:", "") == t
  {
    ReplaceMissing(t, "urn:", "", ':');
    ReplaceMissing(t, "uuid:", "", ':');
  }

  /** Lower-case digits and hyphens only. */
  predicate Hyphenated(t: string) {
    forall i :: 0 <= i < |t| ==> t[i] == '-' || IsLowerHexDigit(t[i])
  }

  /** A text made of lower-case digits and hyphens, with a digit at each end, reads as its digits. */
  lemma DigitsOfHyphenated(t: string)
    requires t != [] && IsLowerHexDigit(t[0]) && IsLowerHexDigit(t[|t| - 1])
    requires Hyphenated(t)
    ensures UuidDigits(t) == Without(t, '-')
  {
    assert ':' !in t by {
      forall i | 0 <= i < |t| ensures t[i] != ':' {
        assert t[i] == '-' || IsLowerHexDigit(t[i]);
      }
    }
    calc {
      UuidDigits(t);
      Replace(StripChars(Replace(Replace(t, "urn:", ""), "uuid:", ""), "{}"), "-", "");
      { NoPrefixes(t); }
      Replace(StripChars(t, "{}"), "-", "");
      { StripCharsKept(t, "{}"); }
      Replace(t, ['-'], "");
      { ReplaceDelete(t, '-'); }
      Without(t, '-');
    }
  }

  /** `UUID(str(u)) == u`: the canonical text of a UUID reads back as that UUID. */
  lemma ParseUuidText(u: Uuid)
    ensures ParseUuid(UuidText(u)) == Some(u)
  {
    var t := UuidText(u);
    UuidTextChars(u);
    DigitsOfHyphenated(t);
    UuidTextDigits(u);
    LowerDigits(u);
  }

  /** `UUID(u.hex) == u`: the 32 bare digits read back as the same UUID. */
  lemma ParseUuidHex(u: Uuid)
    ensures ParseUuid(u) == Some(u)
  {
    DigitsOfHyphenated(u);
    WithoutAbsent(u, '-');
    LowerDigits(u);
  }
}
