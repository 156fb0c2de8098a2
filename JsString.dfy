/**
 * The fragments of JavaScript string semantics that the guestbook route
 * relies on: truthiness of an optional string (`!name`), the `length`
 * property (UTF-16 code units) and `String.prototype.trim`.
 */
module JsString {
  import opened Wrappers

  /** `!v` is false exactly for a present, non-empty string. */
  predicate Truthy(v: Option<string>)
  {
    v.Some? && v.value != ""
  }

  /** Code units a character occupies in UTF-16: two above the Basic Multilingual Plane. */
  function CodeUnits(c: char): nat
  {
    if c as int > 0xFFFF then 2 else 1
  }

  /** A 16-bit UTF-16 code unit. */
  type CodeUnit = u: int | 0 <= u < 0x1_0000

  predicate IsHighSurrogate(u: CodeUnit) { 0xD800 <= u <= 0xDBFF }
  predicate IsLowSurrogate(u: CodeUnit) { 0xDC00 <= u <= 0xDFFF }

  /** The scalar value a one-unit sequence or a surrogate pair stands for. */
  function DecodeUnits(units: seq<CodeUnit>): int
  {
    if |units| == 1 then units[0] as int
    else if |units| == 2 then 0x10000 + (units[0] as int - 0xD800) * 0x400 + (units[1] as int - 0xDC00)
    else -1
  }

  /**
   * The UTF-16 encoding of one character: itself below U+10000, otherwise a
   * high surrogate followed by a low surrogate. A one-unit encoding is never
   * a surrogate, and every encoding decodes back to the character.
   */
  function EncodeChar(c: char): (units: seq<CodeUnit>)
    ensures |units| == CodeUnits(c)
    ensures |units| == 1 ==> !IsHighSurrogate(units[0]) && !IsLowSurrogate(units[0])
    ensures |units| == 2 ==> IsHighSurrogate(units[0]) && IsLowSurrogate(units[1])
    ensures DecodeUnits(units) == c as int
  {
    var v := c as int;
    if v <= 0xFFFF then [v]
    else
      var w := v - 0x10000;
      [0xD800 + w / 0x400, 0xDC00 + w % 0x400]
  }

  /** The UTF-16 encoding of a string, character by character. */
  function Utf16(s: string): seq<CodeUnit>
  {
    if s == [] then [] else Utf16(s[..|s| - 1]) + EncodeChar(s[|s| - 1])
  }

  /** JavaScript's `s.length`: the number of UTF-16 code units of `s`. */
  function Length(s: string): nat
  {
    if s == [] then 0 else Length(s[..|s| - 1]) + CodeUnits(s[|s| - 1])
  }

  /** `length` is the size of the string's UTF-16 encoding. */
  lemma {:induction false} LengthIsEncodedSize(s: string)
    ensures Length(s) == |Utf16(s)|
  {
    if s != [] { LengthIsEncodedSize(s[..|s| - 1]); }
  }

  lemma {:induction false} LengthBounds(s: string)
    ensures |s| <= Length(s) <= 2 * |s|
  {
    if s != [] { LengthBounds(s[..|s| - 1]); }
  }

  /** A string without supplementary-plane characters has as many code units as characters. */
  lemma {:induction false} LengthOfBmp(s: string)
    requires forall k :: 0 <= k < |s| ==> s[k] as int <= 0xFFFF
    ensures Length(s) == |s|
  {
    if s != [] { LengthOfBmp(s[..|s| - 1]); }
  }

  lemma {:induction false} LengthAppend(a: string, b: string)
    ensures Length(a + b) == Length(a) + Length(b)
  {
    if b == [] {
      assert a + b == a;
    } else {
      var c := a + b;
      assert c[..|c| - 1] == a + b[..|b| - 1];
      LengthAppend(a, b[..|b| - 1]);
    }
  }

  /**
   * The characters `trim` removes: ECMAScript WhiteSpace (tab, vertical tab,
   * form feed, space, no-break space, the byte order mark and every other
   * space separator of Unicode category Zs) and LineTerminator (line feed,
   * carriage return, line separator, paragraph separator).
   */
  predicate IsWhitespace(c: char)
  {
    c == '\t' || c == '\n' || c == '\U{000B}' || c == '\U{000C}' || c == '\r' || c == ' '
    || c == '\U{00A0}' || c == '\U{1680}' || ('\U{2000}' <= c <= '\U{200A}')
    || c == '\U{2028}' || c == '\U{2029}' || c == '\U{202F}' || c == '\U{205F}'
    || c == '\U{3000}' || c == '\U{FEFF}'
  }

  predicate AllWhitespace(s: string)
  {
    forall k :: 0 <= k < |s| ==> IsWhitespace(s[k])
  }

  /** Drops the leading whitespace: the result is the suffix of `s` that starts at its first non-whitespace character. */
  function TrimStart(s: string): (r: string)
    ensures |r| <= |s| && r == s[|s| - |r|..]
    ensures forall k :: 0 <= k < |s| - |r| ==> IsWhitespace(s[k])
    ensures r != [] ==> !IsWhitespace(r[0])
  {
    if s != [] && IsWhitespace(s[0]) then TrimStart(s[1..]) else s
  }

  /** Drops the trailing whitespace: the result is the prefix of `s` that ends at its last non-whitespace character. */
  function TrimEnd(s: string): (r: string)
    ensures |r| <= |s| && r == s[..|r|]
    ensures forall k :: |r| <= k < |s| ==> IsWhitespace(s[k])
    ensures r != [] ==> !IsWhitespace(r[|r| - 1])
  {
    if s != [] && IsWhitespace(s[|s| - 1]) then TrimEnd(s[..|s| - 1]) else s
  }

  /** The number of whitespace characters `trim` removes from the front of `s`: the whole leading run. */
  function Leading(s: string): (n: nat)
    ensures n <= |s|
    ensures forall k :: 0 <= k < n ==> IsWhitespace(s[k])
    ensures n < |s| ==> !IsWhitespace(s[n])
  {
    |s| - |TrimStart(s)|
  }

  /**
   * `s.trim()`: the slice of `s` that starts after its leading whitespace,
   * neither starts nor ends with whitespace, and leaves only whitespace
   * around it.
   */
  function Trim(s: string): (r: string)
    ensures Leading(s) + |r| <= |s| && r == s[Leading(s)..Leading(s) + |r|]
    ensures forall k :: 0 <= k < |s| && !(Leading(s) <= k < Leading(s) + |r|) ==> IsWhitespace(s[k])
    ensures r == [] || (!IsWhitespace(r[0]) && !IsWhitespace(r[|r| - 1]))
  {
    var t := TrimStart(s);
    var r := TrimEnd(t);
    var l := |s| - |t|;
    assert forall k :: l + |r| <= k < |s| ==> s[k] == t[k - l];
    r
  }

  /** A string trims to the empty string exactly when it is all whitespace. */
  lemma TrimEmpty(s: string)
    ensures Trim(s) == [] <==> AllWhitespace(s)
  {
    var l := Leading(s);
    if Trim(s) == [] {
      // an empty TrimEnd means an empty TrimStart, so everything was leading whitespace
      assert l == |s|;
    } else {
      var r := Trim(s);
      assert s[l] == r[0];
    }
  }

  /** A string that neither starts nor ends with whitespace is left as it is. */
  lemma TrimFixed(s: string)
    requires s == [] || (!IsWhitespace(s[0]) && !IsWhitespace(s[|s| - 1]))
    ensures Trim(s) == s
  {
    if s != [] {
      assert TrimStart(s) == s;
      assert TrimEnd(s) == s;
    }
  }

  /** Trimming twice is trimming once. */
  lemma TrimIdempotent(s: string)
    ensures Trim(Trim(s)) == Trim(s)
  {
    TrimFixed(Trim(s));
  }

  /** Dropping a prefix, or keeping one, never adds code units. */
  lemma LengthSlices(s: string, i: nat)
    requires i <= |s|
    ensures Length(s[..i]) <= Length(s) && Length(s[i..]) <= Length(s)
  {
    assert s == s[..i] + s[i..];
    LengthAppend(s[..i], s[i..]);
  }

  /** Trimming never lengthens a string, in characters or in code units. */
  lemma TrimShrinks(s: string)
    ensures |Trim(s)| <= |s|
    ensures Length(Trim(s)) <= Length(s)
  {
    var t := TrimStart(s);
    LengthSlices(s, |s| - |t|);
    LengthSlices(t, |TrimEnd(t)|);
  }
}
