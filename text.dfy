/** The handful of Python string operations the application relies on:
    `str.strip()`, `str.lower()`, the substring test `a in b`, `sep.join(xs)`
    and `s.split(sep)`. */
module Text {

  /** Python's `str.isspace()` for one character: the characters `str.strip()`
      with no argument removes from both ends. */
  predicate IsSpace(c: char) {
    c == ' ' || '\t' <= c <= '\r' || '\U{001C}' <= c <= '\U{001F}'
    || c == '\U{0085}' || c == '\U{00A0}' || c == '\U{1680}' || '\U{2000}' <= c <= '\U{200A}'
    || c == '\U{2028}' || c == '\U{2029}' || c == '\U{202F}' || c == '\U{205F}' || c == '\U{3000}'
  }

  predicate AllSpace(s: string) {
    forall i :: 0 <= i < |s| ==> IsSpace(s[i])
  }

  /** Drops leading whitespace: the result is a suffix of `s`, everything dropped
      is whitespace, and the result does not start with whitespace. */
  function TrimStart(s: string): (r: string)
    ensures |r| <= |s| && r == s[|s| - |r|..]
    ensures AllSpace(s[..|s| - |r|])
    ensures r == [] || !IsSpace(r[0])
  {
    if s != [] && IsSpace(s[0]) then
      var t := TrimStart(s[1..]);
      assert s[..|s| - |t|] == [s[0]] + s[1..][..|s| - 1 - |t|];
      t
    else s
  }

  /** Drops trailing whitespace: the result is a prefix of `s`, everything dropped
      is whitespace, and the result does not end with whitespace. */
  function TrimEnd(s: string): (r: string)
    ensures |r| <= |s| && r == s[..|r|]
    ensures AllSpace(s[|r|..])
    ensures r == [] || !IsSpace(r[|r| - 1])
  {
    if s != [] && IsSpace(s[|s| - 1]) then
      var t := TrimEnd(s[..|s| - 1]);
      assert s[|t|..] == s[..|s| - 1][|t|..] + [s[|s| - 1]];
      t
    else s
  }

  /** `r` is `s` with its first `k` characters and everything after `k + |r|`
      cut away, and all of the cut characters are whitespace. */
  predicate CutAt(s: string, r: string, k: int) {
    0 <= k <= |s| - |r| && s[k..k + |r|] == r && AllSpace(s[..k]) && AllSpace(s[k + |r|..])
  }

  /** Python's `s.strip()`: `s` with whitespace cut from both ends and nothing
      else, down to a text with neither end whitespace. It is empty exactly
      when `s` is all whitespace. */
  function Strip(s: string): (r: string)
    ensures exists k :: CutAt(s, r, k)
    ensures r == [] || (!IsSpace(r[0]) && !IsSpace(r[|r| - 1]))
    ensures r == [] <==> AllSpace(s)
  {
    var t := TrimStart(s);
    var r := TrimEnd(t);
    StripParts(s, t, r);
    r
  }

  /** The facts `Strip` needs about trimming the front and then the back. */
  lemma StripParts(s: string, t: string, r: string)
    requires |t| <= |s| && t == s[|s| - |t|..] && AllSpace(s[..|s| - |t|]) && (t == [] || !IsSpace(t[0]))
    requires |r| <= |t| && r == t[..|r|] && AllSpace(t[|r|..])
    requires r == [] || !IsSpace(r[|r| - 1])
    ensures CutAt(s, r, |s| - |t|)
    ensures r == [] || !IsSpace(r[0])
    ensures r == [] <==> AllSpace(s)
  {
    var k := |s| - |t|;
    assert s[k..k + |r|] == r;
    assert s[k + |r|..] == t[|r|..];
    if r == [] {
      assert t[|r|..] == t;
      assert t == [];
      assert s[..|s| - |t|] == s;
    } else {
      assert s[|s| - |t|] == t[0] == r[0];
      assert !IsSpace(s[|s| - |t|]);
    }
  }

  predicate IsUpper(c: char) {
    'A' <= c <= 'Z' || ('À' <= c <= 'Þ' && c != '×')
  }

  /** Python's `str.lower()` on one character, for ASCII and Latin-1 capitals. */
  function LowerChar(c: char): (d: char)
  {
    if IsUpper(c) then (c as int + 32) as char else c
  }

  /** Lower-casing never turns a character into whitespace or back. */
  lemma LowerKeepsSpace(c: char)
    ensures IsSpace(LowerChar(c)) <==> IsSpace(c)
  {
  }

  /** Python's `s.lower()`: same length, character by character, and no capital
      letter is left. */
  function Lower(s: string): (r: string)
    ensures |r| == |s|
    ensures forall i :: 0 <= i < |s| ==> r[i] == LowerChar(s[i])
    ensures forall i :: 0 <= i < |r| ==> !IsUpper(r[i])
  {
    seq(|s|, i requires 0 <= i < |s| => LowerChar(s[i]))
  }

  /** Lower-casing leaves text without capitals as it is; in particular it is
      idempotent. */
  lemma LowerNoUpper(s: string)
    requires forall i :: 0 <= i < |s| ==> !IsUpper(s[i])
    ensures Lower(s) == s
  {
  }

  /** `a` occurs in `b` starting at position `i`. */
  predicate OccursAt(a: string, b: string, i: int) {
    0 <= i <= |b| - |a| && b[i..i + |a|] == a
  }

  /** `a` is a prefix of `b`. */
  predicate IsPrefix(a: string, b: string) {
    |a| <= |b| && a == b[..|a|]
  }

  /** Python's `a in b` for strings, scanning the start positions of `b` in turn. */
  predicate IsSubstring(a: string, b: string)
    decreases |b|
  {
    IsPrefix(a, b) || (b != [] && IsSubstring(a, b[1..]))
  }

  /** The scan agrees with the textbook definition: `a in b` exactly when `a`
      occurs in `b` at some position. */
  lemma {:induction false} SubstringAt(a: string, b: string)
    ensures IsSubstring(a, b) <==> exists i :: OccursAt(a, b, i)
  {
    if IsSubstring(a, b) {
      if IsPrefix(a, b) {
        assert OccursAt(a, b, 0);
      } else {
        SubstringAt(a, b[1..]);
        var i :| OccursAt(a, b[1..], i);
        assert b[i + 1..i + 1 + |a|] == b[1..][i..i + |a|];
        assert OccursAt(a, b, i + 1);
      }
    }
    if exists i :: OccursAt(a, b, i) {
      var i :| OccursAt(a, b, i);
      if i == 0 {
        assert IsPrefix(a, b);
      } else {
        assert b[1..][i - 1..i - 1 + |a|] == b[i..i + |a|];
        assert OccursAt(a, b[1..], i - 1);
        SubstringAt(a, b[1..]);
      }
    }
  }

  /** The empty string is a substring of every string. */
  lemma EmptyIsSubstring(b: string)
    ensures IsSubstring("", b)
  {
    assert IsPrefix("", b);
  }

  /** A string occurs in any concatenation that holds it. */
  lemma InConcat(a: string, x: string, y: string)
    ensures IsSubstring(a, x + a + y)
  {
    assert (x + a + y)[|x|..|x| + |a|] == a;
    assert OccursAt(a, x + a + y, |x|);
    SubstringAt(a, x + a + y);
  }

  /** The text of `s` before the first occurrence of `c` (all of `s` if none). */
  function Before(s: string, c: char): (b: string)
    ensures |b| <= |s| && b == s[..|b|] && c !in b
    ensures |b| < |s| ==> s[|b|] == c
  {
    if s == [] || s[0] == c then "" else [s[0]] + Before(s[1..], c)
  }

  /** Cutting at the first separator recovers the piece written before it. */
  lemma {:induction false} BeforeSeparator(p: string, c: char, q: string)
    requires c !in p
    ensures Before(p + [c] + q, c) == p
  {
    if p != [] {
      assert (p + [c] + q)[1..] == p[1..] + [c] + q;
      BeforeSeparator(p[1..], c, q);
    }
  }

  /** Python's `sep.join(xs)`. */
  function Join(xs: seq<string>, sep: string): string
  {
    if xs == [] then ""
    else if |xs| == 1 then xs[0]
    else xs[0] + sep + Join(xs[1..], sep)
  }

  lemma JoinTwo(a: string, b: string, sep: string)
    ensures Join([a, b], sep) == a + sep + b
  {
    assert [a, b][1..] == [b];
  }

  /** Python's `s.split(c)` for a one-character separator: the pieces between
      the occurrences of `c`, always at least one. */
  function Split(s: string, c: char): (r: seq<string>)
    ensures |r| >= 1
    decreases |s|
  {
    if s == [] then [""]
    else
      var rest := Split(s[1..], c);
      if s[0] == c then [""] + rest
      else [[s[0]] + rest[0]] + rest[1..]
  }

  /** Splitting a piece with no separator in front of more text: the piece
      becomes the first element. */
  lemma {:induction false} SplitPrefix(p: string, c: char, rest: string)
    requires c !in p
    ensures Split(p + [c] + rest, c) == [p] + Split(rest, c)
    ensures Split(p, c) == [p]
    decreases |p|
  {
    if p == [] {
      assert p + [c] + rest == [c] + rest;
      assert ([c] + rest)[1..] == rest;
    } else {
      assert (p + [c] + rest)[1..] == p[1..] + [c] + rest;
      SplitPrefix(p[1..], c, rest);
      assert [p[0]] + p[1..] == p;
    }
  }

  /** `split` undoes `join` when no piece holds the separator. */
  lemma {:induction false} SplitJoin(xs: seq<string>, c: char)
    requires xs != []
    requires forall k :: 0 <= k < |xs| ==> c !in xs[k]
    ensures Split(Join(xs, [c]), c) == xs
  {
    if |xs| == 1 {
      SplitPrefix(xs[0], c, "");
    } else {
      SplitJoin(xs[1..], c);
      SplitPrefix(xs[0], c, Join(xs[1..], [c]));
      assert [xs[0]] + xs[1..] == xs;
    }
  }
}
