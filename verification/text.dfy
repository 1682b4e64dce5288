/**
 * The handful of Python `str` operations the rubric scorer relies on:
 * `isspace`, `lower`, `strip`, `split(sep)`, `split()`, the `in` substring
 * test, and the decimal rendering of an integer inside an f-string.
 */
module Text {

  /** Python's `str.isspace` on one code point (CPython's whitespace table). */
  predicate IsSpace(c: char) {
    var n := c as int;
    || 9 <= n <= 13
    || 28 <= n <= 32
    || n == 0x85 || n == 0xA0 || n == 0x1680
    || 0x2000 <= n <= 0x200A
    || n == 0x2028 || n == 0x2029 || n == 0x202F || n == 0x205F || n == 0x3000
  }

  predicate AllSpace(s: string) {
    forall k :: 0 <= k < |s| ==> IsSpace(s[k])
  }

  /** A non-empty run of non-whitespace characters: one item of `str.split()`. */
  predicate IsWord(w: string) {
    |w| > 0 && forall k :: 0 <= k < |w| ==> !IsSpace(w[k])
  }

  // ---------------------------------------------------------------------------
  // lower()

  predicate IsUpperAscii(c: char) {
    'A' <= c <= 'Z'
  }

  /** `lower()` restricted to ASCII: A-Z map to a-z, everything else is kept. */
  function LowerChar(c: char): (d: char)
    ensures !IsUpperAscii(d)
    ensures IsSpace(d) <==> IsSpace(c)
    ensures IsUpperAscii(c) || d == c
  {
    if IsUpperAscii(c) then (c as int + 32) as char else c
  }

  function Lower(s: string): (r: string)
    ensures |r| == |s|
    ensures forall k :: 0 <= k < |s| ==> r[k] == LowerChar(s[k])
  {
    seq(|s|, k requires 0 <= k < |s| => LowerChar(s[k]))
  }

  predicate NoUpper(s: string) {
    forall k :: 0 <= k < |s| ==> !IsUpperAscii(s[k])
  }

  /** Lowering produces a string without upper-case letters and changes nothing else there. */
  lemma LowerNormalizes(s: string)
    ensures NoUpper(Lower(s))
    ensures NoUpper(s) ==> Lower(s) == s
    ensures Lower(Lower(s)) == Lower(s)
  {
  }

  /** Lowering commutes with taking a slice. */
  lemma LowerSlice(s: string, i: int, j: int)
    requires 0 <= i <= j <= |s|
    ensures Lower(s[i..j]) == Lower(s)[i..j]
  {
  }

  // ---------------------------------------------------------------------------
  // strip()

  /** Number of whitespace characters at the start of `s`. */
  function LeadingSpace(s: string): (n: nat)
    ensures n <= |s|
    ensures forall k :: 0 <= k < n ==> IsSpace(s[k])
    ensures n == |s| || !IsSpace(s[n])
  {
    if |s| == 0 || !IsSpace(s[0]) then 0 else 1 + LeadingSpace(s[1..])
  }

  /** Number of whitespace characters at the end of `s`. */
  function TrailingSpace(s: string): (n: nat)
    ensures n <= |s|
    ensures forall k :: |s| - n <= k < |s| ==> IsSpace(s[k])
    ensures n == |s| || !IsSpace(s[|s| - n - 1])
  {
    if |s| == 0 || !IsSpace(s[|s| - 1]) then 0 else 1 + TrailingSpace(s[..|s| - 1])
  }

  /** `lstrip()`: the suffix left after dropping leading whitespace. */
  function StripLeft(s: string): (r: string)
    ensures |r| <= |s| && r == s[|s| - |r|..]
    ensures AllSpace(s[..|s| - |r|])
    ensures r == [] || !IsSpace(r[0])
  {
    s[LeadingSpace(s)..]
  }

  /** `rstrip()`: the prefix left after dropping trailing whitespace. */
  function StripRight(s: string): (r: string)
    ensures |r| <= |s| && r == s[..|r|]
    ensures AllSpace(s[|r|..])
    ensures r == [] || !IsSpace(r[|r| - 1])
  {
    s[..|s| - TrailingSpace(s)]
  }

  /**
   * `strip()`: the text neither starts nor ends with whitespace, and it is
   * empty exactly when the input is all whitespace.
   */
  function Strip(s: string): (r: string)
    ensures |r| <= |s|
    ensures r == [] || (!IsSpace(r[0]) && !IsSpace(r[|r| - 1]))
    ensures r == [] <==> AllSpace(s)
  {
    var l := StripLeft(s);
    var r := StripRight(l);
    r
  }

  /** Only whitespace is removed: the input is a whitespace prefix, the stripped text, and a whitespace suffix. */
  lemma StripShape(s: string)
    ensures exists a, b :: s == a + Strip(s) + b && AllSpace(a) && AllSpace(b)
  {
    var l := StripLeft(s);
    var r := StripRight(l);
    var a, b := s[..|s| - |l|], l[|r|..];
    assert s == a + r + b;
  }

  /** Text that is already stripped is left alone. */
  lemma StripOfTrimmed(s: string)
    requires s == [] || (!IsSpace(s[0]) && !IsSpace(s[|s| - 1]))
    ensures Strip(s) == s
  {
  }

  // ---------------------------------------------------------------------------
  // split(sep) and its inverse, sep.join(...)

  /** `sep.join(parts)` for a one-character separator. */
  function Join(parts: seq<string>, sep: char): string {
    if |parts| == 0 then ""
    else if |parts| == 1 then parts[0]
    else parts[0] + [sep] + Join(parts[1..], sep)
  }

  /**
   * `s.split(sep)` for a one-character separator: at least one field, no field
   * holds the separator, and joining the fields back gives `s`.
   */
  function Fields(s: string, sep: char): (fs: seq<string>)
    ensures |fs| >= 1
    ensures forall i :: 0 <= i < |fs| ==> sep !in fs[i]
    ensures Join(fs, sep) == s
  {
    if |s| == 0 then [""]
    else
      var rest := Fields(s[1..], sep);
      if s[0] == sep then
        assert s == [sep] + s[1..];
        [""] + rest
      else
        var fs := [[s[0]] + rest[0]] + rest[1..];
        assert fs[1..] == rest[1..];
        assert Join(fs, sep) == s by {
          if |rest| > 1 {
            calc {
              Join(fs, sep);
              [s[0]] + rest[0] + [sep] + Join(rest[1..], sep);
              [s[0]] + (rest[0] + [sep] + Join(rest[1..], sep));
              [s[0]] + Join(rest, sep);
            }
          }
        }
        fs
  }

  /** A separator-free text is a single field. */
  lemma {:induction false} FieldsOfPlain(w: string, sep: char)
    requires sep !in w
    ensures Fields(w, sep) == [w]
  {
    if |w| > 0 {
      FieldsOfPlain(w[1..], sep);
      assert [w[0]] + w[1..] == w;
    }
  }

  /** A separator-free text followed by the separator starts a new field. */
  lemma {:induction false} FieldsOfHead(w: string, sep: char, rest: string)
    requires sep !in w
    ensures Fields(w + [sep] + rest, sep) == [w] + Fields(rest, sep)
  {
    var s := w + [sep] + rest;
    if |w| == 0 {
      assert s[1..] == rest;
    } else {
      assert s[1..] == w[1..] + [sep] + rest;
      FieldsOfHead(w[1..], sep, rest);
      assert [w[0]] + w[1..] == w;
    }
  }

  /** Round trip: splitting a join of separator-free parts gives the parts back. */
  lemma {:induction false} FieldsOfJoin(parts: seq<string>, sep: char)
    requires |parts| >= 1
    requires forall i :: 0 <= i < |parts| ==> sep !in parts[i]
    ensures Fields(Join(parts, sep), sep) == parts
  {
    if |parts| == 1 {
      FieldsOfPlain(parts[0], sep);
    } else {
      FieldsOfHead(parts[0], sep, Join(parts[1..], sep));
      FieldsOfJoin(parts[1..], sep);
    }
  }

  /** Joining a concatenation puts one separator between the two joins. */
  lemma {:induction false} JoinAppend(a: seq<string>, b: seq<string>, sep: char)
    requires |a| >= 1 && |b| >= 1
    ensures Join(a + b, sep) == Join(a, sep) + [sep] + Join(b, sep)
  {
    if |a| == 1 {
      assert (a + b)[1..] == b;
    } else {
      assert (a + b)[1..] == a[1..] + b;
      JoinAppend(a[1..], b, sep);
    }
  }

  /** Splitting distributes over a separator: fields of `a,b` are fields of `a` then of `b`. */
  lemma FieldsOfConcat(a: string, b: string, sep: char)
    ensures Fields(a + [sep] + b, sep) == Fields(a, sep) + Fields(b, sep)
  {
    var fa, fb := Fields(a, sep), Fields(b, sep);
    JoinAppend(fa, fb, sep);
    FieldsOfJoin(fa + fb, sep);
  }

  // ---------------------------------------------------------------------------
  // split() with no argument

  /** Length of the leading run of non-whitespace characters. */
  function WordLen(s: string): (n: nat)
    ensures n <= |s|
    ensures forall k :: 0 <= k < n ==> !IsSpace(s[k])
    ensures n == |s| || IsSpace(s[n])
  {
    if |s| == 0 || IsSpace(s[0]) then 0 else 1 + WordLen(s[1..])
  }

  /** `s.split()`: the maximal runs of non-whitespace characters, in order. */
  function Words(s: string): (ws: seq<string>)
    ensures forall i :: 0 <= i < |ws| ==> IsWord(ws[i])
    decreases |s|
  {
    if |s| == 0 then []
    else if IsSpace(s[0]) then Words(s[1..])
    else
      var n := WordLen(s);
      [s[..n]] + Words(s[n..])
  }

  /** Leading whitespace does not change the words. */
  lemma {:induction false} WordsAfterSpace(a: string, s: string)
    requires AllSpace(a)
    ensures Words(a + s) == Words(s)
  {
    if |a| > 0 {
      assert (a + s)[1..] == a[1..] + s;
      WordsAfterSpace(a[1..], s);
    } else {
      assert a + s == s;
    }
  }

  /** Trailing whitespace does not change the words. */
  lemma {:induction false} WordsBeforeSpace(s: string, b: string)
    requires AllSpace(b)
    ensures Words(s + b) == Words(s)
    decreases |s|
  {
    var t := s + b;
    if |s| == 0 {
      assert t == b + "";
      WordsAfterSpace(b, "");
    } else if IsSpace(s[0]) {
      assert t[1..] == s[1..] + b;
      WordsBeforeSpace(s[1..], b);
    } else {
      var n := WordLen(s);
      WordLenOfPrefix(s, b);
      assert t[..n] == s[..n];
      assert t[n..] == s[n..] + b;
      WordsBeforeSpace(s[n..], b);
    }
  }

  /** A leading word ends where it ends in any text that continues with whitespace. */
  lemma {:induction false} WordLenOfPrefix(s: string, b: string)
    requires AllSpace(b)
    ensures WordLen(s + b) == WordLen(s)
  {
    if |s| > 0 && !IsSpace(s[0]) {
      assert (s + b)[1..] == s[1..] + b;
      WordLenOfPrefix(s[1..], b);
    } else if |s| == 0 && |b| > 0 {
      assert IsSpace((s + b)[0]);
    }
  }

  /** `strip()` before `split()` changes nothing: both give the same words. */
  lemma WordsOfStrip(s: string)
    ensures Words(Strip(s)) == Words(s)
  {
    var l := StripLeft(s);
    var r := StripRight(l);
    assert Strip(s) == r;
    var a, b := s[..|s| - |l|], l[|r|..];
    assert s == a + l && l == r + b;
    WordsAfterSpace(a, l);
    WordsBeforeSpace(r, b);
  }

  /** The leading run of a word followed by whitespace is exactly that word. */
  lemma {:induction false} WordLenOfWord(w: string, rest: string)
    requires forall k :: 0 <= k < |w| ==> !IsSpace(w[k])
    requires rest == [] || IsSpace(rest[0])
    ensures WordLen(w + rest) == |w|
  {
    if |w| > 0 {
      assert (w + rest)[1..] == w[1..] + rest;
      WordLenOfWord(w[1..], rest);
    }
  }

  /**
   * A word followed by whitespace (or by nothing) is the first item of
   * `split()`, and the rest are the words after it. With `WordsAfterSpace`
   * and `Words("") == []` this fixes `split()` on every string.
   */
  lemma WordsOfWordThen(w: string, rest: string)
    requires IsWord(w)
    requires rest == [] || IsSpace(rest[0])
    ensures Words(w + rest) == [w] + Words(rest)
  {
    WordLenOfWord(w, rest);
    assert (w + rest)[..|w|] == w;
    assert (w + rest)[|w|..] == rest;
  }

  /** Round trip: splitting words joined by single spaces gives the words back. */
  lemma {:induction false} WordsOfJoin(ws: seq<string>)
    requires forall i :: 0 <= i < |ws| ==> IsWord(ws[i])
    ensures Words(Join(ws, ' ')) == ws
  {
    if |ws| == 1 {
      var w := ws[0];
      WordLenOfWord(w, "");
      assert w + "" == w;
      assert w[|w|..] == "";
    } else if |ws| > 1 {
      var w, rest := ws[0], [' '] + Join(ws[1..], ' ');
      var s := Join(ws, ' ');
      assert s == w + rest;
      WordLenOfWord(w, rest);
      assert s[..|w|] == w;
      assert s[|w|..] == rest;
      assert rest[1..] == Join(ws[1..], ' ');
      WordsOfJoin(ws[1..]);
    }
  }

  // ---------------------------------------------------------------------------
  // `needle in text`

  /** `needle` occurs as a contiguous piece of `text`. */
  ghost predicate Occurs(needle: string, text: string) {
    exists i :: OccursAt(needle, text, i)
  }

  /** `needle` occurs in `text` starting at position `i`. */
  ghost predicate OccursAt(needle: string, text: string, i: int) {
    0 <= i <= |text| - |needle| && text[i..i + |needle|] == needle
  }

  /** Python's `needle in text`, by scanning start positions left to right. */
  predicate Contains(text: string, needle: string)
    decreases |text|
  {
    if |needle| <= |text| && text[..|needle|] == needle then true
    else if |text| == 0 then false
    else Contains(text[1..], needle)
  }

  /** The scan finds the needle exactly when it occurs somewhere. */
  lemma {:induction false} ContainsIffOccurs(text: string, needle: string)
    ensures Contains(text, needle) <==> Occurs(needle, text)
    decreases |text|
  {
    if |needle| <= |text| && text[..|needle|] == needle {
      assert OccursAt(needle, text, 0);
    } else if |text| == 0 {
      assert |needle| > 0;
    } else {
      ContainsIffOccurs(text[1..], needle);
      var tail := text[1..];
      if Occurs(needle, text) {
        var i :| OccursAt(needle, text, i);
        assert i != 0;
        assert tail[i - 1..i - 1 + |needle|] == text[i..i + |needle|];
        assert OccursAt(needle, tail, i - 1);
      }
      if Occurs(needle, tail) {
        var i :| OccursAt(needle, tail, i);
        assert text[i + 1..i + 1 + |needle|] == tail[i..i + |needle|];
        assert OccursAt(needle, text, i + 1);
      }
    }
  }

  /** Occurrence is transitive: a piece of a piece of `c` is a piece of `c`. */
  lemma OccursTransitive(a: string, b: string, c: string)
    requires Occurs(a, b) && Occurs(b, c)
    ensures Occurs(a, c)
  {
    var i :| OccursAt(a, b, i);
    var j :| OccursAt(b, c, j);
    assert forall k :: 0 <= k < |a| ==> c[j + i + k] == b[i + k] == a[k];
    assert OccursAt(a, c, j + i);
  }

  /** Lowering preserves occurrence. */
  lemma OccursLower(a: string, b: string)
    requires Occurs(a, b)
    ensures Occurs(Lower(a), Lower(b))
  {
    var i :| OccursAt(a, b, i);
    LowerSlice(b, i, i + |a|);
    assert OccursAt(Lower(a), Lower(b), i);
  }

  // ---------------------------------------------------------------------------
  // Decimal rendering of an integer, as in f"{n}"

  predicate IsDigit(c: char) {
    '0' <= c <= '9'
  }

  function DigitChar(d: nat): (c: char)
    requires d < 10
    ensures IsDigit(c) && DigitValue(c) == d
  {
    ('0' as int + d) as char
  }

  function DigitValue(c: char): nat
    requires IsDigit(c)
  {
    c as int - '0' as int
  }

  /** Decimal digits of `n`, most significant first, with no leading zero. */
  function NatToString(n: nat): (s: string)
    ensures |s| >= 1
    ensures forall k :: 0 <= k < |s| ==> IsDigit(s[k])
    ensures s[0] == '0' ==> n == 0 && s == "0"
  {
    if n < 10 then [DigitChar(n)] else NatToString(n / 10) + [DigitChar(n % 10)]
  }

  /** Reads a string of decimal digits back as a number. */
  function ParseNat(s: string): nat
    requires forall k :: 0 <= k < |s| ==> IsDigit(s[k])
  {
    if |s| == 0 then 0
    else 10 * ParseNat(s[..|s| - 1]) + DigitValue(s[|s| - 1])
  }

  /** Round trip: the rendered digits read back as the same number. */
  lemma {:induction false} ParseNatToString(n: nat)
    ensures ParseNat(NatToString(n)) == n
  {
    var s := NatToString(n);
    if n >= 10 {
      ParseNatToString(n / 10);
      assert s[..|s| - 1] == NatToString(n / 10);
    }
  }
}
