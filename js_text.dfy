/**
 * JavaScript strings as the upload server sees them.
 *
 * A JavaScript string is a sequence of UTF-16 code units, and the string
 * methods the handlers use (`replace` with a regular expression without the
 * `u` flag, `split`) work on code units, not on Unicode characters. Dafny's
 * `char` is a Unicode scalar value and cannot hold a lone surrogate, so a
 * string here is a `seq<CodeUnit>`; `Utf16` turns a Dafny string literal (or
 * the text of a JSON string) into the code units JavaScript stores for it.
 */
module JsText {

  /** One UTF-16 code unit. */
  newtype CodeUnit = x: int | 0 <= x < 0x1_0000

  /** A JavaScript string value. */
  type JsString = seq<CodeUnit>

  predicate IsHighSurrogate(u: CodeUnit) { 0xD800 <= u <= 0xDBFF }

  predicate IsLowSurrogate(u: CodeUnit) { 0xDC00 <= u <= 0xDFFF }

  /** The UTF-16 encoding of one character: one code unit for a character of
      the Basic Multilingual Plane, otherwise a high and a low surrogate from
      which the character is recovered. */
  function EncodeChar(c: char): (r: JsString)
    ensures |r| == (if (c as int) < 0x1_0000 then 1 else 2)
    ensures |r| == 1 ==> r[0] as int == c as int
    ensures |r| == 2 ==>
              && IsHighSurrogate(r[0]) && IsLowSurrogate(r[1])
              && 0x1_0000 + (r[0] as int - 0xD800) * 0x400 + (r[1] as int - 0xDC00) == c as int
  {
    if (c as int) < 0x1_0000 then [(c as int) as CodeUnit]
    else
      var v := c as int - 0x1_0000;
      [(0xD800 + v / 0x400) as CodeUnit, (0xDC00 + v % 0x400) as CodeUnit]
  }

  /** The JavaScript string holding the text `s`: at least one code unit per
      character, and exactly one per character when no character lies
      outside the Basic Multilingual Plane. */
  function Utf16(s: string): (r: JsString)
    ensures |r| >= |s|
    ensures IsBmp(s) ==> |r| == |s|
  {
    if s == [] then [] else EncodeChar(s[0]) + Utf16(s[1..])
  }

  /** True when every character of `s` is in the Basic Multilingual Plane. */
  predicate IsBmp(s: string) {
    forall i :: 0 <= i < |s| ==> (s[i] as int) < 0x1_0000
  }

  /** One code unit per character, the replacement character U+FFFD
      standing in for any character outside the Basic Multilingual Plane: for
      a text of that plane (every literal of this model) these are its UTF-16
      code units, as `Utf16Bmp` shows. */
  function Bmp(s: string): (r: JsString)
    ensures |r| == |s|
  {
    seq(|s|, i requires 0 <= i < |s| => if (s[i] as int) < 0x1_0000 then (s[i] as int) as CodeUnit else 0xFFFD)
  }

  /** A text without characters outside the Basic Multilingual Plane has
      exactly one code unit per character, with the character's value. */
  lemma {:induction false} Utf16Bmp(s: string)
    requires IsBmp(s)
    ensures Utf16(s) == Bmp(s)
  {
    if s != [] {
      Utf16Bmp(s[1..]);
      assert Utf16(s) == [Bmp(s)[0]] + Bmp(s[1..]);
    }
  }

  /** The code units of a concatenated text are those of its parts. */
  lemma BmpConcat(a: string, b: string)
    ensures Bmp(a + b) == Bmp(a) + Bmp(b)
  {
  }

  /** `s.split(sep)[0]` for a one-unit separator: the longest prefix of `s`
      that does not contain `sep`, which is all of `s` when `sep` does not
      occur in it. */
  function PrefixBefore(s: JsString, sep: CodeUnit): (r: JsString)
    ensures sep !in r
    ensures r <= s
    ensures |r| < |s| ==> s[|r|] == sep
  {
    if s == [] || s[0] == sep then [] else [s[0]] + PrefixBefore(s[1..], sep)
  }

  /** The first field of `d + sep + rest` is `d` when `d` holds no `sep`. */
  lemma {:induction false} PrefixBeforeFirstField(d: JsString, sep: CodeUnit, rest: JsString)
    requires sep !in d
    ensures PrefixBefore(d + [sep] + rest, sep) == d
  {
    var s := d + [sep] + rest;
    if d != [] {
      assert s[0] == d[0] && s[1..] == d[1..] + [sep] + rest;
      PrefixBeforeFirstField(d[1..], sep, rest);
    }
  }

  /** Taking the first field twice is taking it once. */
  lemma PrefixBeforeIdempotent(s: JsString, sep: CodeUnit)
    ensures PrefixBefore(PrefixBefore(s, sep), sep) == PrefixBefore(s, sep)
  {
  }

  /** The part of `s` after the final `sep`, which is all of `s` when `sep`
      does not occur in it. */
  function SuffixAfterLast(s: JsString, sep: CodeUnit): (r: JsString)
    ensures sep !in r
    ensures |r| <= |s| && s[|s| - |r|..] == r
    ensures |r| < |s| ==> s[|s| - |r| - 1] == sep
  {
    if s == [] || s[|s| - 1] == sep then []
    else SuffixAfterLast(s[..|s| - 1], sep) + [s[|s| - 1]]
  }

  /** The last field of `a + sep + b` is `b` when `b` holds no `sep`. */
  lemma {:induction false} SuffixAfterLastField(a: JsString, sep: CodeUnit, b: JsString)
    requires sep !in b
    ensures SuffixAfterLast(a + [sep] + b, sep) == b
  {
    var s := a + [sep] + b;
    if b == [] {
      assert s == a + [sep];
    } else {
      var b' := b[..|b| - 1];
      assert s[|s| - 1] == b[|b| - 1] && s[..|s| - 1] == a + [sep] + b';
      SuffixAfterLastField(a, sep, b');
      assert b == b' + [b[|b| - 1]];
    }
  }
}
