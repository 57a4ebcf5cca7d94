/** Python's `str.upper()`, restricted to what decides whether an upper-cased
    string can equal one of the ASCII names the resolver accepts. */
module Text {

  /** ASCII lower-case letter. */
  predicate IsLowerAscii(c: char) {
    'a' <= c <= 'z'
  }

  /** Upper-case form of one character. ASCII letters shift to upper case;
      the handful of non-ASCII characters whose Unicode upper case is pure
      ASCII expand to it (dotless i, long s, sharp s and the Latin
      ligatures); every other character is kept. Those others upper-case
      to a string containing a non-ASCII character, so keeping them decides
      membership in an ASCII name set exactly as Python does. */
  function UpperChar(c: char): (r: string)
    ensures |r| >= 1
    ensures forall k :: 0 <= k < |r| ==> !IsLowerAscii(r[k])
    ensures !IsLowerAscii(c) && c !in SpecialLower ==> r == [c]
  {
    if IsLowerAscii(c) then [(c as int - 32) as char]
    else if c == '\U{0131}' then "I"
    else if c == '\U{017F}' then "S"
    else if c == '\U{00DF}' then "SS"
    else if c == '\U{FB00}' then "FF"
    else if c == '\U{FB01}' then "FI"
    else if c == '\U{FB02}' then "FL"
    else if c == '\U{FB03}' then "FFI"
    else if c == '\U{FB04}' then "FFL"
    else if c == '\U{FB05}' || c == '\U{FB06}' then "ST"
    else [c]
  }

  /** The non-ASCII characters that `UpperChar` rewrites. */
  const SpecialLower: set<char> :=
    {'\U{0131}', '\U{017F}', '\U{00DF}', '\U{FB00}', '\U{FB01}', '\U{FB02}',
     '\U{FB03}', '\U{FB04}', '\U{FB05}', '\U{FB06}'}

  /** No character of `s` is changed by upper-casing. */
  predicate IsUpperForm(s: string) {
    forall k :: 0 <= k < |s| ==> !IsLowerAscii(s[k]) && s[k] !in SpecialLower
  }

  /** `s.upper()`. */
  function Upper(s: string): (r: string)
    ensures |r| >= |s|
    ensures forall k :: 0 <= k < |r| ==> !IsLowerAscii(r[k])
    ensures IsUpperForm(s) ==> r == s
  {
    if s == [] then []
    else
      var head := UpperChar(s[0]);
      var tail := Upper(s[1..]);
      assert IsUpperForm(s) ==> IsUpperForm(s[1..]) by {
        if IsUpperForm(s) {
          forall k | 0 <= k < |s[1..]| ensures !IsLowerAscii(s[1..][k]) && s[1..][k] !in SpecialLower {
            assert s[1..][k] == s[k + 1];
          }
        }
      }
      assert forall k :: 0 <= k < |head + tail| ==> (head + tail)[k] == if k < |head| then head[k] else tail[k - |head|];
      assert IsUpperForm(s) ==> s == [s[0]] + s[1..];
      head + tail
  }

  /** Upper-casing distributes over concatenation. */
  lemma {:induction false} UpperAppend(a: string, b: string)
    ensures Upper(a + b) == Upper(a) + Upper(b)
  {
    if a == [] {
      assert a + b == b;
    } else {
      assert (a + b)[0] == a[0];
      assert (a + b)[1..] == a[1..] + b;
      UpperAppend(a[1..], b);
    }
  }

  /** Every character of an upper-cased string is already in upper form. */
  lemma UpperCharIsUpperForm(c: char)
    ensures IsUpperForm(UpperChar(c))
  {
  }

  /** Upper-casing twice is upper-casing once. */
  lemma {:induction false} UpperIdempotent(s: string)
    ensures Upper(Upper(s)) == Upper(s)
  {
    if s != [] {
      var head := UpperChar(s[0]);
      UpperCharIsUpperForm(s[0]);
      UpperIdempotent(s[1..]);
      assert Upper(s) == head + Upper(s[1..]);
      UpperAppend(head, Upper(s[1..]));
    }
  }

  /** ASCII-only upper-casing of one character. */
  function AsciiUpper(c: char): char {
    if IsLowerAscii(c) then (c as int - 32) as char else c
  }

  /** Without any of the special characters, upper-casing works character
      by character and keeps the length. */
  lemma {:induction false} UpperPlain(s: string)
    requires forall k :: 0 <= k < |s| ==> s[k] !in SpecialLower
    ensures |Upper(s)| == |s|
    ensures forall k :: 0 <= k < |s| ==> Upper(s)[k] == AsciiUpper(s[k])
  {
    if s != [] {
      UpperPlain(s[1..]);
      assert Upper(s) == UpperChar(s[0]) + Upper(s[1..]);
    }
  }
}
