/**
  The JavaScript string operations the application relies on: `trim`,
  `split` on one separator character, `Array.prototype.join`, `toLowerCase`
  and `includes`. Strings are sequences of characters.
*/
module JsStrings {

  /** The characters `String.prototype.trim` removes: ECMAScript WhiteSpace and LineTerminator. */
  predicate IsWhitespace(c: char) {
    var n := c as int;
    || 0x09 <= n <= 0x0D || n == 0x20 || n == 0xA0 || n == 0x1680
    || 0x2000 <= n <= 0x200A || n == 0x2028 || n == 0x2029 || n == 0x202F || n == 0x205F
    || n == 0x3000 || n == 0xFEFF
  }

  predicate AllWhitespace(s: string) {
    forall i :: 0 <= i < |s| ==> IsWhitespace(s[i])
  }

  /** Neither starts nor ends with whitespace. */
  predicate IsTrimmed(s: string) {
    s == [] || (!IsWhitespace(s[0]) && !IsWhitespace(s[|s| - 1]))
  }

  /** Drops the leading whitespace: what is left is a suffix of `s`. */
  function TrimStart(s: string): (r: string)
    ensures |r| <= |s| && r == s[|s| - |r|..]
    ensures AllWhitespace(s[..|s| - |r|])
    ensures r == [] || !IsWhitespace(r[0])
  {
    if s != [] && IsWhitespace(s[0]) then
      var r := TrimStart(s[1..]);
      var k := |s| - |r|;
      assert s[..k] == [s[0]] + s[1..k];
      r
    else
      s
  }

  /** Drops the trailing whitespace: what is left is a prefix of `s`. */
  function TrimEnd(s: string): (r: string)
    ensures |r| <= |s| && r == s[..|r|]
    ensures AllWhitespace(s[|r|..])
    ensures r == [] || !IsWhitespace(r[|r| - 1])
  {
    if s != [] && IsWhitespace(s[|s| - 1]) then
      var r := TrimEnd(s[..|s| - 1]);
      assert s[|r|..] == s[..|s| - 1][|r|..] + [s[|s| - 1]];
      r
    else
      s
  }

  /** `r` is the infix of `s` at `k`, with only whitespace before and after it. */
  predicate WhitespaceAround(s: string, k: int, r: string) {
    && 0 <= k && k + |r| <= |s| && r == s[k..k + |r|]
    && AllWhitespace(s[..k]) && AllWhitespace(s[k + |r|..])
  }

  /** `String.prototype.trim`: the infix of `s` left once whitespace is cut from both ends. */
  function Trim(s: string): (r: string)
    ensures IsTrimmed(r)
    ensures WhitespaceAround(s, |s| - |TrimStart(s)|, r)
  {
    var t := TrimStart(s);
    var r := TrimEnd(t);
    TrimmedInfix(s, t, r);
    r
  }

  lemma TrimmedInfix(s: string, t: string, r: string)
    requires |t| <= |s| && t == s[|s| - |t|..] && AllWhitespace(s[..|s| - |t|]) && (t == [] || !IsWhitespace(t[0]))
    requires |r| <= |t| && r == t[..|r|] && AllWhitespace(t[|r|..]) && (r == [] || !IsWhitespace(r[|r| - 1]))
    ensures IsTrimmed(r)
    ensures WhitespaceAround(s, |s| - |t|, r)
  {
    var k := |s| - |t|;
    if r != [] {
      assert r[0] == t[0];
    }
    assert s[k..][..|r|] == s[k..k + |r|];
    assert s[k + |r|..] == t[|r|..];
  }

  /** Trimming finds nothing exactly when the string is all whitespace. */
  lemma TrimEmptyIffBlank(s: string)
    ensures Trim(s) == [] <==> AllWhitespace(s)
  {
    var t := TrimStart(s);
    if Trim(s) == [] {
      assert s[..|s|] == s;
    } else {
      var k := |s| - |t|;
      assert !IsWhitespace(Trim(s)[0]);
      assert Trim(s)[0] == s[k];
    }
  }

  /** Trimming only removes characters: every character of the result occurs in the input. */
  lemma TrimKeepsCharacters(s: string, c: char)
    requires c in Trim(s)
    ensures c in s
  {
    var k := |s| - |TrimStart(s)|;
    var r := Trim(s);
    var j :| 0 <= j < |r| && r[j] == c;
    assert s[k + j] == r[j];
  }

  /** A trimmed string keeps its value when whitespace is put in front of it. */
  lemma {:induction false} TrimAfterBlank(p: string, x: string)
    requires AllWhitespace(p) && IsTrimmed(x)
    ensures Trim(p + x) == x
  {
    TrimStartAfterBlank(p, x);
  }

  lemma {:induction false} TrimStartAfterBlank(p: string, x: string)
    requires AllWhitespace(p) && IsTrimmed(x)
    ensures TrimStart(p + x) == x
  {
    if p == [] {
      assert p + x == x;
    } else {
      assert (p + x)[0] == p[0];
      assert (p + x)[1..] == p[1..] + x;
      TrimStartAfterBlank(p[1..], x);
    }
  }

  /** `s.split(sep)`: the pieces between occurrences of `sep`; the empty string gives one empty piece. */
  function Split(s: string, sep: char): (parts: seq<string>)
    ensures |parts| >= 1
    ensures sep !in s ==> parts == [s]
    decreases |s|
  {
    if s == [] then [""]
    else
      var rest := Split(s[1..], sep);
      assert s == [s[0]] + s[1..];
      if s[0] == sep then [""] + rest
      else [[s[0]] + rest[0]] + rest[1..]
  }

  /** `parts.join(sep)`: no separator before the first part or after the last. */
  function Join(parts: seq<string>, sep: string): (joined: string)
    ensures parts == [] ==> joined == ""
    ensures parts != [] ==> parts[0] <= joined
    ensures |parts| == 1 ==> joined == parts[0]
  {
    if |parts| == 0 then ""
    else if |parts| == 1 then parts[0]
    else parts[0] + sep + Join(parts[1..], sep)
  }

  /** A character that no part contains, and the separator holds once, occurs once per separator in the join. */
  lemma {:induction false} JoinCount(parts: seq<string>, sep: string, c: char)
    requires parts != [] && multiset(sep)[c] == 1
    requires forall i :: 0 <= i < |parts| ==> c !in parts[i]
    ensures multiset(Join(parts, sep))[c] == |parts| - 1
  {
    if |parts| == 1 {
      assert c !in parts[0];
    } else {
      var rest := parts[1..];
      assert forall i :: 0 <= i < |rest| ==> c !in rest[i] by {
        forall i | 0 <= i < |rest| ensures c !in rest[i] {
          assert rest[i] == parts[i + 1];
        }
      }
      JoinCount(rest, sep, c);
      var j := Join(parts, sep);
      assert j == parts[0] + sep + Join(rest, sep);
      assert multiset(j) == multiset(parts[0]) + multiset(sep) + multiset(Join(rest, sep));
      assert c !in parts[0];
    }
  }

  /** No piece of a split contains the separator, and there is one more piece than separators. */
  lemma {:induction false} SplitPieces(s: string, sep: char)
    ensures |Split(s, sep)| == multiset(s)[sep] + 1
    ensures forall i :: 0 <= i < |Split(s, sep)| ==> sep !in Split(s, sep)[i]
  {
    if s != [] {
      assert s == [s[0]] + s[1..];
      SplitPieces(s[1..], sep);
    }
  }

  /** Joining the pieces back with the separator restores the string. */
  lemma {:induction false} JoinSplit(s: string, sep: char)
    ensures Join(Split(s, sep), [sep]) == s
  {
    if s != [] {
      var rest := Split(s[1..], sep);
      JoinSplit(s[1..], sep);
      if s[0] == sep {
        assert ([""] + rest)[1..] == rest;
      } else {
        var parts := [[s[0]] + rest[0]] + rest[1..];
        if |rest| > 1 {
          assert parts[1..] == rest[1..];
          assert Join(rest, [sep]) == rest[0] + [sep] + Join(rest[1..], [sep]);
        }
        assert s == [s[0]] + s[1..];
      }
    }
  }

  /** Splitting at the first separator: the piece before it, then the pieces of the rest. */
  lemma {:induction false} SplitAtFirst(a: string, sep: char, b: string)
    requires sep !in a
    ensures Split(a + [sep] + b, sep) == [a] + Split(b, sep)
  {
    if a == [] {
      assert a + [sep] + b == [sep] + b;
      assert ([sep] + b)[1..] == b;
    } else {
      assert (a + [sep] + b)[1..] == a[1..] + [sep] + b;
      SplitAtFirst(a[1..], sep, b);
      assert a == [a[0]] + a[1..];
    }
  }

  /** Splitting a join of separator-free parts gives the parts back. */
  lemma {:induction false} SplitJoin(parts: seq<string>, sep: char)
    requires |parts| >= 1
    requires forall i :: 0 <= i < |parts| ==> sep !in parts[i]
    ensures Split(Join(parts, [sep]), sep) == parts
  {
    if |parts| > 1 {
      SplitJoin(parts[1..], sep);
      SplitAtFirst(parts[0], sep, Join(parts[1..], [sep]));
      assert parts == [parts[0]] + parts[1..];
    }
  }

  /** `String.prototype.toLowerCase` on one character, for the letters A to Z. */
  function ToLowerChar(c: char): (l: char)
    ensures 'A' <= c <= 'Z' ==> l as int == c as int + 32
    ensures !('A' <= c <= 'Z') ==> l == c
    ensures !('A' <= l <= 'Z')
  {
    if 'A' <= c <= 'Z' then (c as int + 32) as char else c
  }

  function ToLower(s: string): (r: string)
    ensures |r| == |s|
    ensures forall i :: 0 <= i < |s| ==> r[i] == ToLowerChar(s[i])
  {
    seq(|s|, i requires 0 <= i < |s| => ToLowerChar(s[i]))
  }

  /** Lower-casing twice is lower-casing once. */
  lemma ToLowerIdempotent(s: string)
    ensures ToLower(ToLower(s)) == ToLower(s)
  {
  }

  /** `hay.includes(needle)`: scans the start positions of `hay` from the left. */
  function Includes(hay: string, needle: string): (found: bool)
    ensures needle == [] ==> found
    ensures found ==> |needle| <= |hay|
    decreases |hay|
  {
    if needle <= hay then true
    else if hay == [] then false
    else Includes(hay[1..], needle)
  }

  /** `needle` occurs in `hay` starting at position `i`. */
  ghost predicate OccursAt(hay: string, needle: string, i: int) {
    0 <= i && i + |needle| <= |hay| && hay[i..i + |needle|] == needle
  }

  /** `Includes` finds an occurrence exactly when there is one. */
  lemma {:induction false} IncludesIffOccurs(hay: string, needle: string)
    ensures Includes(hay, needle) <==> exists i :: OccursAt(hay, needle, i)
    decreases |hay|
  {
    if needle <= hay {
      assert OccursAt(hay, needle, 0);
    } else if hay == [] {
    } else {
      IncludesIffOccurs(hay[1..], needle);
      if exists i :: OccursAt(hay[1..], needle, i) {
        var i :| OccursAt(hay[1..], needle, i);
        assert hay[1..][i..i + |needle|] == hay[i + 1..i + 1 + |needle|];
        assert OccursAt(hay, needle, i + 1);
      }
      if exists i :: OccursAt(hay, needle, i) {
        var i :| OccursAt(hay, needle, i);
        assert i != 0;
        assert hay[1..][i - 1..i - 1 + |needle|] == hay[i..i + |needle|];
        assert OccursAt(hay[1..], needle, i - 1);
      }
    }
  }
}
