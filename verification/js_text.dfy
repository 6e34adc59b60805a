/** The two JavaScript string operations the form handlers rely on:
    `String.prototype.trim` and `.length`, which counts UTF-16 code units. */
module JsText {

  /** The characters `trim` removes: ECMAScript's WhiteSpace (tab, vertical
      tab, form feed, the byte-order mark and the Unicode space separators)
      and LineTerminator (line feed, carriage return, U+2028, U+2029). */
  predicate IsJsWhitespace(c: char) {
    var n := c as int;
    n == 0x09 || n == 0x0A || n == 0x0B || n == 0x0C || n == 0x0D
    || n == 0x20 || n == 0xA0 || n == 0x1680
    || (0x2000 <= n <= 0x200A)
    || n == 0x2028 || n == 0x2029 || n == 0x202F || n == 0x205F
    || n == 0x3000 || n == 0xFEFF
  }

  predicate AllWhitespace(s: string) {
    forall i :: 0 <= i < |s| ==> IsJsWhitespace(s[i])
  }

  /** `s` with its leading whitespace removed: a suffix of `s` that does not
      start with whitespace, and everything cut off is whitespace. */
  function TrimStart(s: string): (r: string)
    ensures |r| <= |s| && r == s[|s| - |r|..]
    ensures forall i :: 0 <= i < |s| - |r| ==> IsJsWhitespace(s[i])
    ensures |r| > 0 ==> !IsJsWhitespace(r[0])
  {
    if |s| > 0 && IsJsWhitespace(s[0]) then TrimStart(s[1..]) else s
  }

  /** `s` with its trailing whitespace removed: a prefix of `s` that does not
      end with whitespace, and everything cut off is whitespace. */
  function TrimEnd(s: string): (r: string)
    ensures |r| <= |s| && r == s[..|r|]
    ensures forall i :: |r| <= i < |s| ==> IsJsWhitespace(s[i])
    ensures |r| > 0 ==> !IsJsWhitespace(r[|r| - 1])
  {
    if |s| > 0 && IsJsWhitespace(s[|s| - 1]) then TrimEnd(s[..|s| - 1]) else s
  }

  /** `s.trim()`: no longer than `s`, and it neither starts nor ends with
      whitespace (TrimCharacterized says where in `s` it sits). */
  function Trim(s: string): (r: string)
    ensures |r| <= |s|
    ensures |r| > 0 ==> !IsJsWhitespace(r[0]) && !IsJsWhitespace(r[|r| - 1])
  {
    TrimEnd(TrimStart(s))
  }

  /** `trim` cuts whitespace from both ends and nothing else: the result is
      a contiguous piece of the input, everything around it is whitespace,
      and it neither starts nor ends with whitespace. */
  lemma TrimCharacterized(s: string)
    ensures var r := Trim(s);
      exists i :: 0 <= i <= |s| - |r| && r == s[i..i + |r|]
        && AllWhitespace(s[..i]) && AllWhitespace(s[i + |r|..])
    ensures |Trim(s)| > 0 ==> !IsJsWhitespace(Trim(s)[0]) && !IsJsWhitespace(Trim(s)[|Trim(s)| - 1])
  {
    TrimAt(s, |s| - |TrimStart(s)|);
  }

  /** Where the trimmed text sits: after the `i` leading whitespace
      characters TrimStart removes. */
  lemma TrimAt(s: string, i: nat)
    requires i == |s| - |TrimStart(s)|
    ensures i <= |s| - |Trim(s)| && Trim(s) == s[i..i + |Trim(s)|]
    ensures AllWhitespace(s[..i]) && AllWhitespace(s[i + |Trim(s)|..])
  {
    Sandwich(s, i, TrimStart(s), Trim(s));
  }

  /** A piece `r` that starts `t == s[i..]`, with whitespace before `i` and
      after the piece, sits at `i` in `s` with only whitespace around it. */
  lemma Sandwich(s: string, i: nat, t: string, r: string)
    requires i <= |s| && t == s[i..] && |r| <= |t| && r == t[..|r|]
    requires forall k :: 0 <= k < i ==> IsJsWhitespace(s[k])
    requires forall k :: |r| <= k < |t| ==> IsJsWhitespace(t[k])
    ensures i <= |s| - |r| && r == s[i..i + |r|]
    ensures AllWhitespace(s[..i]) && AllWhitespace(s[i + |r|..])
  {
    WhitespacePrefix(s, i);
    WhitespaceSuffix(t, |r|);
    SliceOfSuffix(s, i, |r|);
  }

  lemma WhitespacePrefix(s: string, n: nat)
    requires n <= |s|
    requires forall i :: 0 <= i < n ==> IsJsWhitespace(s[i])
    ensures AllWhitespace(s[..n])
  {
    assert forall j :: 0 <= j < n ==> s[..n][j] == s[j];
  }

  lemma WhitespaceSuffix(s: string, n: nat)
    requires n <= |s|
    requires forall i :: n <= i < |s| ==> IsJsWhitespace(s[i])
    ensures AllWhitespace(s[n..])
  {
    assert forall j :: 0 <= j < |s| - n ==> s[n..][j] == s[n + j];
  }

  lemma SliceOfSuffix(s: string, i: nat, k: nat)
    requires i + k <= |s|
    ensures s[i..][..k] == s[i..i + k] && s[i..][k..] == s[i + k..]
  {
  }

  /** A string that already has no whitespace at either end is its own trim. */
  lemma TrimOfTrimmed(s: string)
    requires |s| > 0 ==> !IsJsWhitespace(s[0]) && !IsJsWhitespace(s[|s| - 1])
    ensures Trim(s) == s
  {
  }

  /** Trimming twice is trimming once. */
  lemma TrimIdempotent(s: string)
    ensures Trim(Trim(s)) == Trim(s)
  {
    TrimCharacterized(s);
    TrimOfTrimmed(Trim(s));
  }

  /** `!s.trim()`: the trimmed text is empty exactly when `s` is all whitespace. */
  lemma TrimEmptyIffAllWhitespace(s: string)
    ensures Trim(s) == [] <==> AllWhitespace(s)
  {
    var t := TrimStart(s);
    if !AllWhitespace(s) {
      var k :| 0 <= k < |s| && !IsJsWhitespace(s[k]);
      assert t[k - (|s| - |t|)] == s[k];
    }
  }

  /** How many UTF-16 code units a character takes. */
  function CodeUnits(c: char): nat {
    if c as int >= 0x10000 then 2 else 1
  }

  /** `s.length` in JavaScript: characters outside the Basic Multilingual
      Plane count twice. */
  function Utf16Length(s: string): (r: nat)
    ensures |s| <= r <= 2 * |s|
  {
    if |s| == 0 then 0 else CodeUnits(s[0]) + Utf16Length(s[1..])
  }

  /** The JavaScript length of a string without astral characters is its
      number of characters. */
  lemma {:induction false} Utf16LengthOfBmp(s: string)
    requires forall i :: 0 <= i < |s| ==> s[i] as int < 0x10000
    ensures Utf16Length(s) == |s|
  {
    if |s| > 0 {
      Utf16LengthOfBmp(s[1..]);
    }
  }

  /** Each character outside the Basic Multilingual Plane is two code units,
      so a string of them only is twice as long in JavaScript. */
  lemma {:induction false} Utf16LengthOfAstral(s: string)
    requires forall i :: 0 <= i < |s| ==> s[i] as int >= 0x10000
    ensures Utf16Length(s) == 2 * |s|
  {
    if |s| > 0 {
      Utf16LengthOfAstral(s[1..]);
    }
  }
}
