/** JavaScript value semantics the handlers rely on: possibly-undefined request
    fields, truthiness, String.prototype.trim, ASCII lower-casing, and the
    ObjectId shape test Mongoose applies to identifiers. */
module Js {

  /** `None` is JavaScript's `undefined` (or a missing property). */
  datatype Option<+T> = None | Some(value: T)

  /** A request field: a string, or undefined when the client did not send it. */
  type Field = Option<string>

  /** Identifiers as they travel through the handlers: the hex text of an ObjectId. */
  type Id = string

  /** `!!f` for a string-or-undefined value: only a non-empty string is truthy. */
  predicate Truthy(f: Field) {
    f.Some? && f.value != ""
  }

  /** ECMAScript WhiteSpace and LineTerminator code points: the characters
      `trim` removes (sections 12.2, 12.3 and 22.1.3.32 of ECMA-262). */
  predicate IsWhitespace(c: char) {
    var n := c as int;
    n == 0x09 || n == 0x0A || n == 0x0B || n == 0x0C || n == 0x0D || n == 0x20
    || n == 0xA0 || n == 0x1680 || (0x2000 <= n <= 0x200A)
    || n == 0x2028 || n == 0x2029 || n == 0x202F || n == 0x205F
    || n == 0x3000 || n == 0xFEFF
  }

  /** Every character of `s` at a position from `lo` up to (not including) `hi` is whitespace. */
  ghost predicate WhitespaceBetween(s: string, lo: int, hi: int) {
    forall k :: lo <= k < hi && 0 <= k < |s| ==> IsWhitespace(s[k])
  }

  ghost predicate AllWhitespace(s: string) {
    WhitespaceBetween(s, 0, |s|)
  }

  /** Number of leading whitespace characters. */
  function LeadingWhitespace(s: string): (n: nat)
    ensures n <= |s|
    ensures WhitespaceBetween(s, 0, n)
    ensures n < |s| ==> !IsWhitespace(s[n])
  {
    if |s| > 0 && IsWhitespace(s[0]) then 1 + LeadingWhitespace(s[1..]) else 0
  }

  /** Number of trailing whitespace characters. */
  function TrailingWhitespace(s: string): (n: nat)
    ensures n <= |s|
    ensures WhitespaceBetween(s, |s| - n, |s|)
    ensures n < |s| ==> !IsWhitespace(s[|s| - n - 1])
  {
    if |s| > 0 && IsWhitespace(s[|s| - 1]) then 1 + TrailingWhitespace(s[..|s| - 1]) else 0
  }

  /** `s.trim()`: the infix of `s` left after cutting whitespace off both ends;
      it is empty exactly when `s` is all whitespace, and otherwise neither
      starts nor ends with whitespace. */
  function Trim(s: string): (r: string)
    ensures |r| <= |s|
    ensures r == [] <==> AllWhitespace(s)
    ensures r != [] ==> !IsWhitespace(r[0]) && !IsWhitespace(r[|r| - 1])
    ensures exists i :: 0 <= i <= |s| - |r| && r == s[i..i + |r|]
                        && WhitespaceBetween(s, 0, i) && WhitespaceBetween(s, i + |r|, |s|)
  {
    var a := LeadingWhitespace(s);
    var b := TrailingWhitespace(s[a..]);
    TrimCutBlank(s, a, b);
    TrimCutEnds(s, a, b);
    TrimCutTail(s, a, b);
    Cut(s, a, b)
  }

  /** `s` without its first `a` and last `b` characters. */
  function Cut(s: string, a: nat, b: nat): string
    requires a + b <= |s|
  {
    s[a..|s| - b]
  }

  /** The whitespace `Trim` cuts off the end of `s` really is whitespace. */
  lemma TrimCutTail(s: string, a: nat, b: nat)
    requires a == LeadingWhitespace(s)
    requires b == TrailingWhitespace(s[a..])
    ensures WhitespaceBetween(s, |s| - b, |s|)
  {
    var t := s[a..];
    assert WhitespaceBetween(t, |t| - b, |t|);
    forall k | |s| - b <= k < |s| ensures IsWhitespace(s[k]) {
      var j := k - a;
      assert |t| - b <= j < |t|;
      assert IsWhitespace(t[j]);
      assert s[k] == t[j];
    }
  }

  /** What `Trim` keeps starts and ends with a non-whitespace character. */
  lemma TrimCutEnds(s: string, a: nat, b: nat)
    requires a == LeadingWhitespace(s)
    requires b == TrailingWhitespace(s[a..])
    ensures a + b < |s| ==> !IsWhitespace(s[a]) && !IsWhitespace(s[|s| - b - 1])
  {
    var t := s[a..];
    if a + b < |s| {
      assert t[|t| - b - 1] == s[|s| - b - 1];
    }
  }

  /** `Trim` keeps nothing exactly when `s` is all whitespace. */
  lemma TrimCutBlank(s: string, a: nat, b: nat)
    requires a == LeadingWhitespace(s)
    requires b == TrailingWhitespace(s[a..])
    ensures a + b == |s| <==> AllWhitespace(s)
  {
    TrimCutTail(s, a, b);
    TrimCutEnds(s, a, b);
    if a + b == |s| {
      forall k | 0 <= k < |s| ensures IsWhitespace(s[k]) {
        if k < a {
          assert WhitespaceBetween(s, 0, a);
        } else {
          assert WhitespaceBetween(s, |s| - b, |s|);
        }
      }
    } else {
      assert !IsWhitespace(s[a]);
    }
  }

  /** Trimming a trimmed string changes nothing. */
  lemma TrimIdempotent(s: string)
    ensures Trim(Trim(s)) == Trim(s)
  {
    var r := Trim(s);
    if r != [] {
      assert LeadingWhitespace(r) == 0;
      assert TrailingWhitespace(r) == 0;
    }
  }

  /** A string with no whitespace at either end is its own trim. */
  lemma TrimTight(s: string)
    requires s != [] && !IsWhitespace(s[0]) && !IsWhitespace(s[|s| - 1])
    ensures Trim(s) == s
  {
    assert LeadingWhitespace(s) == 0;
    assert TrailingWhitespace(s) == 0;
  }

  /** `!f || f.trim() === ""`: the field is missing, empty, or only whitespace. */
  predicate MissingOrBlank(f: Field) {
    f.None? || Trim(f.value) == ""
  }

  /** `f?.trim() === ""`: an undefined field is NOT blank under optional chaining. */
  predicate PresentButBlank(f: Field) {
    f.Some? && Trim(f.value) == ""
  }

  function LowerChar(c: char): char {
    if 'A' <= c <= 'Z' then (c as int + 32) as char else c
  }

  /** `s.toLowerCase()` restricted to the ASCII letters. */
  function ToLower(s: string): string {
    seq(|s|, k requires 0 <= k < |s| => LowerChar(s[k]))
  }

  /** Lower-casing leaves no upper-case ASCII letter behind and is idempotent. */
  lemma ToLowerIdempotent(s: string)
    ensures forall k :: 0 <= k < |s| ==> !('A' <= ToLower(s)[k] <= 'Z')
    ensures ToLower(ToLower(s)) == ToLower(s)
  {
  }

  /** Lower-casing works character by character, so it commutes with slicing. */
  lemma ToLowerSlice(s: string, i: nat, j: nat)
    requires i <= j <= |s|
    ensures ToLower(s)[i..j] == ToLower(s[i..j])
  {
  }

  /** Lower-casing maps whitespace to itself and letters to letters. */
  lemma LowerCharWhitespace(c: char)
    ensures IsWhitespace(LowerChar(c)) <==> IsWhitespace(c)
  {
  }

  lemma {:induction false} LeadingWhitespaceLower(s: string)
    ensures LeadingWhitespace(ToLower(s)) == LeadingWhitespace(s)
    decreases |s|
  {
    if |s| > 0 {
      var l := ToLower(s);
      LowerCharWhitespace(s[0]);
      assert l[0] == LowerChar(s[0]);
      ToLowerSlice(s, 1, |s|);
      assert l[1..] == ToLower(s[1..]);
      LeadingWhitespaceLower(s[1..]);
    }
  }

  lemma {:induction false} TrailingWhitespaceLower(s: string)
    ensures TrailingWhitespace(ToLower(s)) == TrailingWhitespace(s)
    decreases |s|
  {
    if |s| > 0 {
      var n := |s| - 1;
      var l := ToLower(s);
      LowerCharWhitespace(s[n]);
      assert l[n] == LowerChar(s[n]);
      ToLowerSlice(s, 0, n);
      assert l[..n] == ToLower(s[..n]);
      TrailingWhitespaceLower(s[..n]);
    }
  }

  lemma TrimUnfold(s: string)
    ensures Trim(s) == Cut(s, LeadingWhitespace(s), TrailingWhitespace(s[LeadingWhitespace(s)..]))
  {
  }

  lemma TrailingAfterLower(s: string, a: nat)
    requires a <= |s|
    ensures TrailingWhitespace(ToLower(s)[a..]) == TrailingWhitespace(s[a..])
  {
    var t := s[a..];
    ToLowerSlice(s, a, |s|);
    assert ToLower(s)[a..] == ToLower(t);
    TrailingWhitespaceLower(t);
  }

  lemma CutAfterLower(s: string, a: nat, b: nat)
    requires a + b <= |s|
    ensures ToLower(Cut(s, a, b)) == Cut(ToLower(s), a, b)
  {
    ToLowerSlice(s, a, |s| - b);
  }

  /** Lower-casing cuts the same whitespace off both ends, and commutes with the cut. */
  lemma CutLower(s: string)
    ensures var a := LeadingWhitespace(s);
            var b := TrailingWhitespace(s[a..]);
            var l := ToLower(s);
            && LeadingWhitespace(l) == a
            && TrailingWhitespace(l[a..]) == b
            && ToLower(Cut(s, a, b)) == Cut(l, a, b)
  {
    LeadingWhitespaceLower(s);
    var a := LeadingWhitespace(s);
    TrailingAfterLower(s, a);
    var b := TrailingWhitespace(s[a..]);
    CutAfterLower(s, a, b);
  }

  /** Lower-casing neither adds nor removes whitespace, so the order in which a
      schema applies its `trim` and `lowercase` setters does not matter. */
  lemma TrimLowerCommute(s: string)
    ensures Trim(ToLower(s)) == ToLower(Trim(s))
  {
    CutLower(s);
    TrimUnfold(ToLower(s));
    TrimUnfold(s);
  }

  /** A byte of a Node `Buffer`. */
  type Byte = b: int | 0 <= b < 256

  /** The UTF-8 bytes of one character (a Unicode scalar value), the encoding
      Node uses when it hands a string to native code. */
  function EncodeChar(c: char): (bs: seq<Byte>)
    ensures 1 <= |bs| <= 4
    ensures |bs| == 1 <==> c < 0x80 as char
    ensures |bs| == 1 ==> bs[0] == c as int
  {
    var n := c as int;
    if n < 0x80 then [n]
    else if n < 0x800 then [0xC0 + n / 0x40, 0x80 + n % 0x40]
    else if n < 0x1_0000 then [0xE0 + n / 0x1000, 0x80 + n / 0x40 % 0x40, 0x80 + n % 0x40]
    else [0xF0 + n / 0x4_0000, 0x80 + n / 0x1000 % 0x40, 0x80 + n / 0x40 % 0x40, 0x80 + n % 0x40]
  }

  /** The UTF-8 encoding of a string: never shorter than the string, and one
      byte per character exactly when every character is ASCII. */
  function Utf8(s: string): (bs: seq<Byte>)
    ensures |bs| >= |s|
    ensures |bs| == |s| <==> forall k :: 0 <= k < |s| ==> s[k] < 0x80 as char
  {
    if s == [] then [] else EncodeChar(s[0]) + Utf8(s[1..])
  }

  /** Encoding distributes over concatenation. */
  lemma {:induction false} Utf8Append(s: string, t: string)
    ensures Utf8(s + t) == Utf8(s) + Utf8(t)
  {
    if s == [] {
      assert s + t == t;
    } else {
      assert (s + t)[0] == s[0] && (s + t)[1..] == s[1..] + t;
      Utf8Append(s[1..], t);
    }
  }

  predicate IsHexDigit(c: char) {
    ('0' <= c <= '9') || ('a' <= c <= 'f') || ('A' <= c <= 'F')
  }

  /** `isValidObjectId(s)` for a string: exactly 24 hexadecimal digits. */
  predicate IsValidObjectId(s: string) {
    |s| == 24 && forall k :: 0 <= k < |s| ==> IsHexDigit(s[k])
  }

  /** The authenticated caller's `req.user._id`: always a well-formed ObjectId. */
  type ObjectId = s: string | IsValidObjectId(s) witness "000000000000000000000000"
}
