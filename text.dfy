/** Character handling used by the option menus: C's `tolower()` and
    `isspace()`, and Python's `str.lower()`, `str.isspace()` and two-sided
    `str.strip()`. */
module Text {

  /** ASCII lower-casing: C `tolower()` in the "C" locale, where a `char`
      is one byte and only 'A' to 'Z' change. */
  function LowerChar(c: char): (r: char)
    ensures 'A' <= c <= 'Z' ==> 'a' <= r <= 'z' && r as int == c as int + 32
    ensures !('A' <= c <= 'Z') ==> r == c
  {
    if 'A' <= c <= 'Z' then (c as int + 32) as char else c
  }

  /** Python's `str.lower()` on one character, which yields one character
      or, for the dotted capital I (U+0130), two: 'i' and the combining dot
      above (U+0307). Modelled: ASCII, the capitals of Latin-1 (U+00C0 to
      U+00DE without the multiplication sign U+00D7), U+0130 and the Kelvin
      sign U+212A, which lowers to an ASCII 'k'. */
  function PyLowerChar(c: char): (r: string)
    ensures |r| == (if c == '\U{130}' then 2 else 1)
    ensures c as int < 128 ==> r == [LowerChar(c)]
    ensures c == '\U{130}' ==> r == ['i', '\U{307}']
    ensures c == '\U{212A}' ==> r == ['k']
    // only the ASCII letters, U+0130 and U+212A lower onto an ASCII letter
    ensures 'a' <= r[0] <= 'z' <==> 'A' <= c <= 'Z' || 'a' <= c <= 'z' || c == '\U{130}' || c == '\U{212A}'
    ensures !PySpace(c) ==> forall k :: 0 <= k < |r| ==> !PySpace(r[k])
  {
    if 'A' <= c <= 'Z' then [LowerChar(c)]
    else if c == '\U{130}' then ['i', '\U{307}']
    else if c == '\U{212A}' then ['k']
    else if 0xC0 <= c as int <= 0xDE && c as int != 0xD7 then [(c as int + 32) as char]
    else [c]
  }

  function Last(s: string): char
    requires s != []
  {
    s[|s| - 1]
  }

  /** Python `s.lower()`: each character is lowered in turn, so the result
      starts with the lowered first character and ends with the lowered
      last one, and only U+0130 makes it longer. */
  function Lower(s: string): (r: string)
    ensures |s| <= |r| <= 2 * |s|
    ensures s != [] ==> r != [] && r[0] == PyLowerChar(s[0])[0]
    ensures s != [] ==> Last(r) == Last(PyLowerChar(Last(s)))
  {
    if s == [] then [] else PyLowerChar(s[0]) + Lower(s[1..])
  }

  predicate Ascii(s: string) {
    forall k :: 0 <= k < |s| ==> s[k] as int < 128
  }

  /** On ASCII text Python's `lower()` keeps the length and agrees with C's
      `tolower()` character by character. */
  lemma {:induction false} LowerAscii(s: string)
    requires Ascii(s)
    ensures |Lower(s)| == |s|
    ensures forall k :: 0 <= k < |s| ==> Lower(s)[k] == LowerChar(s[k])
  {
    if s != [] {
      assert PyLowerChar(s[0]) == [LowerChar(s[0])];
      assert Ascii(s[1..]) by {
        forall k | 0 <= k < |s[1..]| ensures s[1..][k] as int < 128 {
          assert s[1..][k] == s[k + 1];
        }
      }
      LowerAscii(s[1..]);
      assert Lower(s) == [LowerChar(s[0])] + Lower(s[1..]);
      forall k | 1 <= k < |s| ensures Lower(s)[k] == LowerChar(s[k]) {
        assert Lower(s)[k] == Lower(s[1..])[k - 1];
        assert s[1..][k - 1] == s[k];
      }
    }
  }

  /** The characters for which Python's `str.isspace()` holds and which
      `str.strip()` removes: tab, line feed, vertical tab, form feed,
      carriage return, the separators U+001C to U+001F, space, next line
      U+0085, no-break space U+00A0, the Ogham space mark U+1680, the
      spaces U+2000 to U+200A, the line and paragraph separators U+2028 and
      U+2029, the narrow no-break space U+202F, the medium mathematical
      space U+205F and the ideographic space U+3000. */
  predicate PySpace(c: char) {
    || 9 <= c as int <= 13
    || 28 <= c as int <= 32
    || c as int == 0x85 || c as int == 0xA0 || c as int == 0x1680
    || 0x2000 <= c as int <= 0x200A
    || c as int == 0x2028 || c as int == 0x2029 || c as int == 0x202F
    || c as int == 0x205F || c as int == 0x3000
  }

  /** C `isspace()` in the "C" locale: space, tab, line feed, vertical tab,
      form feed and carriage return. */
  predicate CSpace(c: char) {
    c == ' ' || 9 <= c as int <= 13
  }

  /** Python `s.strip()`: drops leading and trailing whitespace. */
  function Strip(s: string): (r: string)
    ensures |r| <= |s|
    ensures r == [] || (!PySpace(r[0]) && !PySpace(r[|r| - 1]))
  {
    var t := StripLeft(s);
    StripRight(t)
  }

  /** Stripping leaves nothing exactly when the line is all whitespace. */
  lemma StripBlank(s: string)
    ensures Strip(s) == [] <==> forall k :: 0 <= k < |s| ==> PySpace(s[k])
  {
  }

  function StripLeft(s: string): (r: string)
    ensures |r| <= |s| && r == s[|s| - |r|..]
    ensures r == [] || !PySpace(r[0])
    ensures forall k :: 0 <= k < |s| - |r| ==> PySpace(s[k])
  {
    if s != [] && PySpace(s[0]) then
      var r := StripLeft(s[1..]);
      assert forall k :: 1 <= k < |s| - |r| ==> s[k] == s[1..][k - 1];
      r
    else s
  }

  function StripRight(s: string): (r: string)
    ensures |r| <= |s| && r == s[..|r|]
    ensures r == [] || (!PySpace(r[|r| - 1]))
    ensures forall k :: |r| <= k < |s| ==> PySpace(s[k])
    ensures r != [] && s != [] && !PySpace(s[0]) ==> !PySpace(r[0])
    ensures s != [] && !PySpace(s[0]) ==> r != []
  {
    if s != [] && PySpace(s[|s| - 1]) then
      var r := StripRight(s[..|s| - 1]);
      assert forall k :: |r| <= k < |s| - 1 ==> s[k] == s[..|s| - 1][k];
      r
    else s
  }

  /** A word of lower-case ASCII letters is its own lower-case form. */
  lemma {:induction false} LowerLetters(s: string)
    requires forall k :: 0 <= k < |s| ==> 'a' <= s[k] <= 'z'
    ensures Lower(s) == s
  {
    if s != [] {
      assert PyLowerChar(s[0]) == [s[0]];
      assert forall k :: 0 <= k < |s[1..]| ==> s[1..][k] == s[k + 1];
      LowerLetters(s[1..]);
      assert s == [s[0]] + s[1..];
    }
  }

  /** Nor does stripping change it. */
  lemma StripLetters(s: string)
    requires forall k :: 0 <= k < |s| ==> 'a' <= s[k] <= 'z'
    ensures Strip(s) == s
  {
    if s != [] {
      assert !PySpace(s[0]) && !PySpace(s[|s| - 1]);
    }
    assert StripLeft(s) == s;
  }
}
