/**
 * The handful of Python `str` operations the agents rely on: `strip`, `split`,
 * `join`, `replace`, `lower` and `title`. Strings are sequences of characters;
 * case mapping covers the ASCII letters only.
 */
module Text {

  /** Python's `str.isspace()`: the characters stripped by a bare `strip()`. */
  predicate IsSpace(c: char) {
    || c == ' '
    || ('\t' <= c <= '\r')
    || ('\U{1C}' <= c <= '\U{1F}')
    || c == '\U{85}' || c == '\U{A0}' || c == '\U{1680}'
    || ('\U{2000}' <= c <= '\U{200A}')
    || c == '\U{2028}' || c == '\U{2029}' || c == '\U{202F}' || c == '\U{205F}' || c == '\U{3000}'
  }

  /** True when `s` holds only whitespace (so `s.strip()` is empty). */
  predicate IsBlank(s: string) {
    forall i :: 0 <= i < |s| ==> IsSpace(s[i])
  }

  /** Drops the longest prefix of characters satisfying `drop`. */
  function StripStart(s: string, drop: char -> bool): (r: string)
    ensures |r| <= |s|
    ensures r != [] ==> !drop(r[0])
  {
    if s != [] && drop(s[0]) then StripStart(s[1..], drop) else s
  }

  /** Drops the longest suffix of characters satisfying `drop`. */
  function StripEnd(s: string, drop: char -> bool): (r: string)
    ensures |r| <= |s|
    ensures r != [] ==> !drop(r[|r| - 1])
  {
    if s != [] && drop(s[|s| - 1]) then StripEnd(s[..|s| - 1], drop) else s
  }

  /** `StripStart` keeps a suffix of its input. */
  lemma {:induction false} StripStartSuffix(s: string, drop: char -> bool)
    ensures StripStart(s, drop) == s[|s| - |StripStart(s, drop)|..]
    decreases |s|
  {
    if s != [] && drop(s[0]) {
      StripStartSuffix(s[1..], drop);
    }
  }

  /** `StripEnd` keeps a prefix of its input. */
  lemma {:induction false} StripEndPrefix(s: string, drop: char -> bool)
    ensures StripEnd(s, drop) == s[..|StripEnd(s, drop)|]
    decreases |s|
  {
    if s != [] && drop(s[|s| - 1]) {
      StripEndPrefix(s[..|s| - 1], drop);
    }
  }

  /** Every character `StripStart` drops satisfies `drop`. */
  lemma {:induction false} StripStartDropped(s: string, drop: char -> bool)
    ensures forall i :: 0 <= i < |s| - |StripStart(s, drop)| ==> drop(s[i])
    decreases |s|
  {
    if s != [] && drop(s[0]) {
      StripStartDropped(s[1..], drop);
    }
  }

  /** Every character `StripEnd` drops satisfies `drop`. */
  lemma {:induction false} StripEndDropped(s: string, drop: char -> bool)
    ensures forall i :: |StripEnd(s, drop)| <= i < |s| ==> drop(s[i])
    decreases |s|
  {
    if s != [] && drop(s[|s| - 1]) {
      StripEndDropped(s[..|s| - 1], drop);
    }
  }

  /** Drops, from both ends, every character satisfying `drop`. */
  function StripBy(s: string, drop: char -> bool): (r: string)
    ensures r != [] ==> !drop(r[0]) && !drop(r[|r| - 1])
  {
    var t := StripStart(s, drop);
    var r := StripEnd(t, drop);
    StripEndPrefix(t, drop);
    assert r != [] ==> r[0] == t[0];
    r
  }

  /** Stripping leaves nothing exactly when every character is droppable. */
  lemma StripByEmpty(s: string, drop: char -> bool)
    ensures StripBy(s, drop) == [] <==> forall i :: 0 <= i < |s| ==> drop(s[i])
  {
    var t := StripStart(s, drop);
    StripStartSuffix(s, drop);
    StripEndPrefix(t, drop);
    StripStartDropped(s, drop);
    StripEndDropped(t, drop);
    assert t != [] ==> StripEnd(t, drop) != [];
  }

  /** Python's `s.strip()`. */
  function Strip(s: string): (r: string)
    ensures r != [] ==> !IsSpace(r[0]) && !IsSpace(r[|r| - 1])
  {
    StripBy(s, IsSpace)
  }

  /** `s.strip()` is empty exactly when `s` is blank. */
  lemma StripEmpty(s: string)
    ensures Strip(s) == [] <==> IsBlank(s)
  {
    StripByEmpty(s, IsSpace);
  }

  /** Python's `s.strip(chars)`. */
  function StripChars(s: string, chars: string): (r: string)
    ensures r != [] ==> r[0] !in chars && r[|r| - 1] !in chars
  {
    StripBy(s, c => c in chars)
  }

  /**
   * Python's `s.split(sep)` for a non-empty separator: occurrences of `sep`
   * are found left to right without overlapping.
   */
  function Split(s: string, sep: string): (r: seq<string>)
    requires sep != []
    ensures |r| >= 1
    decreases |s|
  {
    if |s| < |sep| then [s]
    else if s[..|sep|] == sep then [""] + Split(s[|sep|..], sep)
    else
      var rest := Split(s[1..], sep);
      [[s[0]] + rest[0]] + rest[1..]
  }

  /** Python's `sep.join(parts)`. */
  function Join(parts: seq<string>, sep: string): string
  {
    if parts == [] then ""
    else if |parts| == 1 then parts[0]
    else parts[0] + sep + Join(parts[1..], sep)
  }

  /** Python's `s.replace(old, new)`, which equals `new.join(s.split(old))`. */
  function Replace(s: string, target: string, replacement: string): string
    requires target != []
  {
    Join(Split(s, target), replacement)
  }

  predicate IsUpper(c: char) { 'A' <= c <= 'Z' }
  predicate IsLower(c: char) { 'a' <= c <= 'z' }
  /** A cased character: one that has an upper- and a lower-case form. */
  predicate IsCased(c: char) { IsUpper(c) || IsLower(c) }

  function LowerChar(c: char): (r: char)
    ensures !IsUpper(r)
    ensures IsCased(r) <==> IsCased(c)
  {
    if IsUpper(c) then (c as int + 32) as char else c
  }

  function UpperChar(c: char): (r: char)
    ensures !IsLower(r)
    ensures IsCased(r) <==> IsCased(c)
  {
    if IsLower(c) then (c as int - 32) as char else c
  }

  /** Python's `s.lower()` and JavaScript's `s.toLowerCase()` on ASCII letters. */
  function Lower(s: string): (r: string)
    ensures |r| == |s|
    ensures forall i :: 0 <= i < |s| ==> r[i] == LowerChar(s[i])
  {
    seq(|s|, i requires 0 <= i < |s| => LowerChar(s[i]))
  }

  /**
   * Python's `s.title()`: a cased character is upper-cased when the
   * character before it is not cased, lower-cased otherwise.
   */
  function TitleFrom(s: string, previousCased: bool): (r: string)
    ensures |r| == |s|
  {
    if s == [] then "" else [TitleChar(s[0], previousCased)] + TitleFrom(s[1..], IsCased(s[0]))
  }

  /** How `title()` maps one character, given whether the character before it is cased. */
  function TitleChar(c: char, previousCased: bool): char {
    if !IsCased(c) then c else if previousCased then LowerChar(c) else UpperChar(c)
  }

  function Title(s: string): (r: string)
    ensures |r| == |s|
  {
    TitleFrom(s, false)
  }

  // ---------------------------------------------------------------------
  // Properties
  // ---------------------------------------------------------------------

  /** `lower` is idempotent, so comparing lower-cased strings is case-insensitive. */
  lemma LowerIdempotent(s: string)
    ensures Lower(Lower(s)) == Lower(s)
  {
  }

  /** `join` undoes `split`: no segment of the input is lost or reordered. */
  lemma {:induction false} JoinSplit(s: string, sep: string)
    requires sep != []
    ensures Join(Split(s, sep), sep) == s
    decreases |s|
  {
    if |s| < |sep| {
    } else if s[..|sep|] == sep {
      var rest := Split(s[|sep|..], sep);
      JoinSplit(s[|sep|..], sep);
      assert Split(s, sep) == [""] + rest;
      assert Join([""] + rest, sep) == "" + sep + Join(rest, sep);
      assert s == s[..|sep|] + s[|sep|..];
    } else {
      var rest := Split(s[1..], sep);
      JoinSplit(s[1..], sep);
      var r := [[s[0]] + rest[0]] + rest[1..];
      assert Split(s, sep) == r;
      if |rest| == 1 {
        assert Join(r, sep) == [s[0]] + rest[0];
      } else {
        assert r[1..] == rest[1..];
        assert Join(r, sep) == ([s[0]] + rest[0]) + sep + Join(rest[1..], sep);
        assert Join(rest, sep) == rest[0] + sep + Join(rest[1..], sep);
      }
      assert s == [s[0]] + s[1..];
    }
  }

  /** How a one-character separator splits a string, one character at a time. */
  lemma SplitCons(h: char, t: string, c: char)
    ensures var r := Split(t, [c]);
      Split([h] + t, [c]) == if h == c then [""] + r else [[h] + r[0]] + r[1..]
  {
    var s := [h] + t;
    assert s[..1] == [h];
    assert s[1..] == t;
  }

  /** A prefix free of the separator character stays glued to the first segment. */
  lemma {:induction false} SplitCharPrefix(a: string, t: string, c: char)
    requires c !in a
    ensures Split(a + t, [c]) == [a + Split(t, [c])[0]] + Split(t, [c])[1..]
    decreases |a|
  {
    var r := Split(t, [c]);
    if a == [] {
      assert a + t == t;
      assert a + r[0] == r[0];
      assert r == [r[0]] + r[1..];
    } else {
      SplitCharPrefix(a[1..], t, c);
      assert (a + t)[..1] == [a[0]] != [c];
      assert (a + t)[1..] == a[1..] + t;
      var rest := Split(a[1..] + t, [c]);
      assert Split(a + t, [c]) == [[a[0]] + rest[0]] + rest[1..];
      assert rest[0] == a[1..] + r[0];
      assert rest[1..] == r[1..];
      assert [a[0]] + (a[1..] + r[0]) == a + r[0];
    }
  }

  /**
   * Splitting on a one-character separator undoes joining on it, when no part
   * contains that character.
   */
  lemma {:induction false} SplitJoinChar(parts: seq<string>, c: char)
    requires parts != []
    requires forall i :: 0 <= i < |parts| ==> c !in parts[i]
    ensures Split(Join(parts, [c]), [c]) == parts
    decreases |parts|
  {
    if |parts| == 1 {
      SplitCharPrefix(parts[0], "", c);
      assert parts[0] + "" == parts[0];
    } else {
      var tail := Join(parts[1..], [c]);
      SplitJoinChar(parts[1..], c);
      assert Join(parts, [c]) == parts[0] + ([c] + tail);
      SplitCharPrefix(parts[0], [c] + tail, c);
      assert ([c] + tail)[..1] == [c];
      assert ([c] + tail)[1..] == tail;
      assert Split([c] + tail, [c]) == [""] + parts[1..];
      assert parts[0] + "" == parts[0];
      assert parts == [parts[0]] + parts[1..];
    }
  }

  /** Stripping twice strips nothing more. */
  lemma StripIdempotent(s: string)
    ensures Strip(Strip(s)) == Strip(s)
  {
    var r := Strip(s);
    if r != [] {
      assert StripStart(r, IsSpace) == r;
      assert StripEnd(r, IsSpace) == r;
    }
  }

  /** A leading or trailing whitespace character does not change `strip()`. */
  lemma StripSpaceEnds(c: char, x: string)
    requires IsSpace(c)
    ensures Strip([c] + x) == Strip(x)
    ensures Strip(x + [c]) == Strip(x)
  {
    assert ([c] + x)[1..] == x;
    var t := StripStart(x + [c], IsSpace);
    if StripStart(x, IsSpace) == [] {
      StripStartAllSpace(x, [c]);
    } else {
      StripStartKeepsTail(x, [c]);
      assert t[..|t| - 1] == StripStart(x, IsSpace);
    }
  }

  lemma {:induction false} StripStartAllSpace(x: string, y: string)
    requires StripStart(x, IsSpace) == []
    ensures StripStart(x + y, IsSpace) == StripStart(y, IsSpace)
    decreases |x|
  {
    if x == [] {
      assert x + y == y;
    } else {
      assert (x + y)[1..] == x[1..] + y;
      StripStartAllSpace(x[1..], y);
    }
  }

  lemma {:induction false} StripStartKeepsTail(x: string, y: string)
    requires StripStart(x, IsSpace) != []
    ensures StripStart(x + y, IsSpace) == StripStart(x, IsSpace) + y
    decreases |x|
  {
    if IsSpace(x[0]) {
      assert (x + y)[1..] == x[1..] + y;
      StripStartKeepsTail(x[1..], y);
    }
  }

  /** Splitting at a separator character splits the two sides independently. */
  lemma {:induction false} SplitAtSep(x: string, y: string, c: char)
    ensures Split(x + [c] + y, [c]) == Split(x, [c]) + Split(y, [c])
    decreases |x|
  {
    var s := x + [c] + y;
    if x == [] {
      assert s == [c] + y;
      assert s[..1] == [c] && s[1..] == y;
    } else if x[0] == c {
      assert s[..1] == [c];
      assert s[1..] == x[1..] + [c] + y;
      SplitAtSep(x[1..], y, c);
      assert x[..1] == [c];
    } else {
      assert s[0] == x[0];
      assert s[..1] != [c];
      assert s[1..] == x[1..] + [c] + y;
      SplitAtSep(x[1..], y, c);
      var p, q := Split(x[1..], [c]), Split(y, [c]);
      var rest := Split(s[1..], [c]);
      assert rest == p + q;
      assert rest[0] == p[0];
      assert rest[1..] == p[1..] + q;
      assert x[..1] != [c];
      assert Split(x, [c]) == [[x[0]] + p[0]] + p[1..];
    }
  }

  /** A suffix free of the separator character is glued to the last segment. */
  lemma {:induction false} SplitCharSuffix(x: string, y: string, c: char)
    requires c !in y
    ensures var p := Split(x, [c]);
      Split(x + y, [c]) == p[..|p| - 1] + [p[|p| - 1] + y]
    decreases |x|
  {
    if x == [] {
      SplitCharPrefix(y, "", c);
      assert y + "" == y && x + y == y;
    } else {
      SplitCharSuffix(x[1..], y, c);
      assert x + y == [x[0]] + (x[1..] + y);
      assert x == [x[0]] + x[1..];
      SplitCons(x[0], x[1..] + y, c);
      SplitCons(x[0], x[1..], c);
      var q := Split(x[1..], [c]);
      if x[0] == c {
        var p := [""] + q;
        assert p[..|p| - 1] == [""] + q[..|q| - 1];
      } else {
        GlueThenAppend(x[0], q, y);
      }
    }
  }

  /**
   * Gluing a character onto the first segment commutes with appending to the
   * last one.
   */
  lemma GlueThenAppend(h: char, q: seq<string>, y: string)
    requires q != []
    ensures var p := [[h] + q[0]] + q[1..];
      var rest := q[..|q| - 1] + [q[|q| - 1] + y];
      [[h] + rest[0]] + rest[1..] == p[..|p| - 1] + [p[|p| - 1] + y]
  {
    var p := [[h] + q[0]] + q[1..];
    var rest := q[..|q| - 1] + [q[|q| - 1] + y];
    if |q| == 1 {
      assert [h] + (q[0] + y) == ([h] + q[0]) + y;
    } else {
      assert rest[0] == q[0];
      assert rest[1..] == q[1..|q| - 1] + [q[|q| - 1] + y];
      assert p[..|p| - 1] == [[h] + q[0]] + q[1..|q| - 1];
    }
  }

  /** Each character of a title-cased string depends only on itself and the character before it. */
  lemma {:induction false} TitleFromChars(s: string, previousCased: bool)
    ensures forall i :: 0 <= i < |s| ==>
      TitleFrom(s, previousCased)[i] == TitleChar(s[i], if i == 0 then previousCased else IsCased(s[i - 1]))
    decreases |s|
  {
    if s != [] {
      TitleFromChars(s[1..], IsCased(s[0]));
      var r := TitleFrom(s, previousCased);
      forall i | 1 <= i < |s|
        ensures r[i] == TitleChar(s[i], IsCased(s[i - 1]))
      {
        assert r[i] == TitleFrom(s[1..], IsCased(s[0]))[i - 1];
        assert s[1..][i - 1] == s[i];
      }
    }
  }

  /** A join whose first part is not empty is not empty. */
  lemma JoinNonEmpty(parts: seq<string>, sep: string)
    requires parts != [] && parts[0] != ""
    ensures Join(parts, sep) != ""
  {
    if |parts| > 1 {
      assert Join(parts, sep)[0] == parts[0][0];
    }
  }

  /** Gluing a prefix onto the first part glues it onto the join. */
  lemma JoinGlue(x: string, parts: seq<string>, sep: string)
    requires parts != []
    ensures Join([x + parts[0]] + parts[1..], sep) == x + Join(parts, sep)
  {
    var glued := [x + parts[0]] + parts[1..];
    assert glued[1..] == parts[1..];
  }

  /** The character-by-character replacement of `a` by `b`. */
  function MapChar(s: string, a: char, b: char): (r: string)
    ensures |r| == |s|
    ensures forall i :: 0 <= i < |s| ==> r[i] == if s[i] == a then b else s[i]
  {
    seq(|s|, i requires 0 <= i < |s| => if s[i] == a then b else s[i])
  }

  /** Replacing one character by another is a per-character map. */
  lemma {:induction false} ReplaceChar(s: string, a: char, b: char)
    ensures Replace(s, [a], [b]) == MapChar(s, a, b)
    decreases |s|
  {
    if s != [] {
      ReplaceChar(s[1..], a, b);
      var rest := Split(s[1..], [a]);
      assert s[..1] == [s[0]];
      assert MapChar(s, a, b) == MapChar([s[0]], a, b) + MapChar(s[1..], a, b);
      if s[0] == a {
        assert Split(s, [a]) == [""] + rest;
        assert Join([""] + rest, [b]) == "" + [b] + Join(rest, [b]);
      } else {
        assert Split(s, [a]) == [[s[0]] + rest[0]] + rest[1..];
        JoinGlue([s[0]], rest, [b]);
      }
    }
  }

  /** `strip()` keeps a contiguous piece of its input. */
  lemma StripSlice(s: string)
    ensures exists i, j :: 0 <= i <= j <= |s| && Strip(s) == s[i..j]
  {
    var t := StripStart(s, IsSpace);
    StripStartSuffix(s, IsSpace);
    StripEndPrefix(t, IsSpace);
    var i := |s| - |t|;
    var j := i + |StripEnd(t, IsSpace)|;
    assert Strip(s) == s[i..j];
  }

  /** Splitting on a separator that cannot occur (one of its characters is absent) gives the whole input. */
  lemma {:induction false} SplitMissing(s: string, sep: string, c: char)
    requires c in sep && c !in s
    ensures Split(s, sep) == [s]
    decreases |s|
  {
    if |s| >= |sep| {
      assert s[..|sep|] != sep by {
        var k :| 0 <= k < |sep| && sep[k] == c;
        assert s[..|sep|][k] == s[k];
      }
      SplitMissing(s[1..], sep, c);
      assert [s[0]] + s[1..] == s;
    }
  }

  /** Replacing a separator that cannot occur changes nothing. */
  lemma ReplaceMissing(s: string, target: string, replacement: string, c: char)
    requires c in target && c !in s
    ensures Replace(s, target, replacement) == s
  {
    SplitMissing(s, target, c);
  }

  /** Stripping a string whose two ends are kept changes nothing. */
  lemma StripByKept(s: string, drop: char -> bool)
    requires s != [] ==> !drop(s[0]) && !drop(s[|s| - 1])
    ensures StripBy(s, drop) == s
  {
  }

  /** `s` without any occurrence of `a`. */
  function Without(s: string, a: char): (r: string)
    ensures a !in r
    decreases |s|
  {
    if s == [] then "" else (if s[0] == a then "" else [s[0]]) + Without(s[1..], a)
  }

  /** Removal works piece by piece. */
  lemma {:induction false} WithoutAppend(x: string, y: string, a: char)
    ensures Without(x + y, a) == Without(x, a) + Without(y, a)
    decreases |x|
  {
    if x == [] {
      assert x + y == y;
    } else {
      var head := if x[0] == a then "" else [x[0]];
      assert (x + y)[0] == x[0];
      assert (x + y)[1..] == x[1..] + y;
      assert Without(x + y, a) == head + Without(x[1..] + y, a);
      WithoutAppend(x[1..], y, a);
    }
  }

  /** Removing a character that does not occur changes nothing. */
  lemma {:induction false} WithoutAbsent(s: string, a: char)
    requires a !in s
    ensures Without(s, a) == s
    decreases |s|
  {
    if s != [] {
      WithoutAbsent(s[1..], a);
      assert [s[0]] + s[1..] == s;
    }
  }

  /** Replacing a character by nothing removes every occurrence of it. */
  lemma {:induction false} ReplaceDelete(s: string, a: char)
    ensures Replace(s, [a], "") == Without(s, a)
    decreases |s|
  {
    if s != [] {
      ReplaceDelete(s[1..], a);
      var rest := Split(s[1..], [a]);
      assert s[..1] == [s[0]];
      if s[0] == a {
        assert Split(s, [a]) == [""] + rest;
        assert Join([""] + rest, "") == "" + "" + Join(rest, "");
      } else {
        assert Split(s, [a]) == [[s[0]] + rest[0]] + rest[1..];
        JoinGlue([s[0]], rest, "");
      }
    }
  }

  /** Stripping characters from a string whose two ends are not among them changes nothing. */
  lemma StripCharsKept(s: string, chars: string)
    requires s != [] ==> s[0] !in chars && s[|s| - 1] !in chars
    ensures StripChars(s, chars) == s
  {
  }

  /** Removing a character across one occurrence of it glues the two sides. */
  lemma WithoutGlue(x: string, y: string, a: char)
    requires a !in y
    ensures Without(x + [a] + y, a) == Without(x, a) + y
  {
    WithoutAppend(x + [a], y, a);
    WithoutAppend(x, [a], a);
    WithoutAbsent(y, a);
  }
}

