/**
 * The JavaScript string built-ins the application relies on: `includes`,
 * `startsWith`, `toLowerCase`, `trim`, `split` and `join('')`, over strings
 * as sequences of characters, and the line structure of multi-line regular
 * expressions.
 */
module Strings {

  /** `s.startsWith(p)` */
  predicate StartsWith(s: string, p: string) {
    |p| <= |s| && s[..|p|] == p
  }

  /** `p` is a suffix of `s` (specification vocabulary for how a text ends). */
  predicate EndsWith(s: string, p: string) {
    |p| <= |s| && s[|s| - |p|..] == p
  }

  /** A prefix of a prefix is a prefix. */
  lemma StartsWithTrans(s: string, t: string, u: string)
    requires StartsWith(s, t) && StartsWith(t, u)
    ensures StartsWith(s, u)
  {
    assert s[..|u|] == s[..|t|][..|u|];
  }

  /** A suffix of a suffix is a suffix. */
  lemma EndsWithTrans(s: string, t: string, u: string)
    requires EndsWith(s, t) && EndsWith(t, u)
    ensures EndsWith(s, u)
  {
    assert s[|s| - |u|..] == s[|s| - |t|..][|t| - |u|..];
  }

  /** `p` occurs in `s` starting at index `i`. */
  predicate OccursAt(s: string, p: string, i: nat) {
    i + |p| <= |s| && s[i..i + |p|] == p
  }

  /** `s.includes(p)` */
  predicate Contains(s: string, p: string) {
    exists i: nat | i <= |s| :: OccursAt(s, p, i)
  }

  /** A string cannot contain a pattern one of whose characters it lacks. */
  lemma AbsentChar(s: string, p: string, j: nat)
    requires j < |p| && p[j] !in s
    ensures !Contains(s, p)
  {
    forall i: nat | i <= |s| ensures !OccursAt(s, p, i) {
      if i + |p| <= |s| {
        assert s[i..i + |p|][j] == s[i + j];
      }
    }
  }

  /** A string contains each of its prefixes. */
  lemma ContainsPrefix(s: string, p: string)
    requires StartsWith(s, p)
    ensures Contains(s, p)
  {
    assert OccursAt(s, p, 0);
  }

  /** A string contains each of its suffixes. */
  lemma ContainsSuffix(s: string, p: string)
    requires EndsWith(s, p)
    ensures Contains(s, p)
  {
    assert OccursAt(s, p, |s| - |p|);
  }

  /** An occurrence inside a piece is an occurrence in any string around it. */
  lemma ContainsInfix(a: string, p: string, b: string)
    ensures Contains(a + p + b, p)
  {
    var s := a + p + b;
    assert s[|a|..|a| + |p|] == p;
    assert OccursAt(s, p, |a|);
  }

  /** The second and the fourth of five pieces occur in their concatenation. */
  lemma ContainsPieces(a: string, b: string, c: string, d: string, e: string)
    ensures Contains(a + b + c + d + e, b) && Contains(a + b + c + d + e, d)
  {
    assert a + b + c + d + e == a + b + (c + d + e);
    ContainsInfix(a, b, c + d + e);
    ContainsInfix(a + b + c, d, e);
  }

  /** An occurrence inside an occurrence is an occurrence. */
  lemma ContainsTrans(s: string, p: string, q: string)
    requires Contains(s, p) && Contains(p, q)
    ensures Contains(s, q)
  {
    var i: nat :| i <= |s| && OccursAt(s, p, i);
    var k: nat :| k <= |p| && OccursAt(p, q, k);
    forall t | 0 <= t < |q| ensures s[i + k + t] == q[t] {
      assert s[i..i + |p|][k + t] == s[i + k + t];
      assert p[k..k + |q|][t] == p[k + t];
    }
    assert s[i + k..i + k + |q|] == q;
    assert OccursAt(s, q, i + k);
  }

  /** The last three pieces end their concatenation. */
  lemma EndsWithPieces(x: string, a: string, b: string, c: string)
    ensures EndsWith(x + a + b + c, a + b + c)
  {
    assert x + a + b + c == x + (a + b + c);
  }

  /** Text in front of a line break joins the first line. */
  lemma RegroupAtBreak(head: string, first: string, second: string)
    ensures head + (first + "\n" + second) == (head + first) + "\n" + second
  {
  }

  /** `toLowerCase` on one character; only the ASCII letters A-Z are mapped. */
  function LowerChar(c: char): char {
    if 'A' <= c <= 'Z' then (c as int + 32) as char else c
  }

  /** `s.toLowerCase()`, restricted to ASCII letters. */
  function ToLower(s: string): (r: string)
    ensures |r| == |s|
    ensures forall i :: 0 <= i < |s| ==> r[i] == LowerChar(s[i])
  {
    seq(|s|, i requires 0 <= i < |s| => LowerChar(s[i]))
  }

  /** Lower-casing commutes with taking a slice. */
  lemma ToLowerSlice(s: string, i: nat, j: nat)
    requires i <= j <= |s|
    ensures ToLower(s)[i..j] == ToLower(s[i..j])
  {
  }

  /**
   * Searching the lower-cased string finds every lower-case pattern that the
   * original string contains: lower-casing can only add occurrences.
   */
  lemma ContainsLowered(s: string, p: string)
    requires Contains(s, p) && ToLower(p) == p
    ensures Contains(ToLower(s), p)
  {
    var i: nat :| i <= |s| && OccursAt(s, p, i);
    ToLowerSlice(s, i, i + |p|);
    assert OccursAt(ToLower(s), p, i);
  }

  /**
   * The characters `trim` removes: ECMAScript's WhiteSpace (tab, vertical
   * tab, form feed, space, no-break space, byte order mark and the Unicode
   * space separators) and LineTerminator (LF, CR, LS, PS).
   */
  predicate IsWhitespace(c: char) {
    var n := c as int;
    n == 0x09 || n == 0x0A || n == 0x0B || n == 0x0C || n == 0x0D || n == 0x20 ||
    n == 0xA0 || n == 0x1680 || (0x2000 <= n <= 0x200A) || n == 0x2028 || n == 0x2029 ||
    n == 0x202F || n == 0x205F || n == 0x3000 || n == 0xFEFF
  }

  /** The first half of `trim`: leading white space removed. */
  function TrimStart(s: string): (r: string)
    ensures |r| <= |s| && r == s[|s| - |r|..]
    ensures r == [] || !IsWhitespace(r[0])
  {
    if s != [] && IsWhitespace(s[0]) then TrimStart(s[1..]) else s
  }

  /** The second half of `trim`: trailing white space removed. */
  function TrimEnd(s: string): (r: string)
    ensures |r| <= |s| && r == s[..|r|]
    ensures r == [] || !IsWhitespace(r[|r| - 1])
  {
    if s != [] && IsWhitespace(s[|s| - 1]) then TrimEnd(s[..|s| - 1]) else s
  }

  /** `s.trim()` */
  function Trim(s: string): string {
    TrimEnd(TrimStart(s))
  }

  /** Removing trailing white space keeps a prefix that has no white space in it. */
  lemma {:induction false} TrimEndKeepsPrefix(s: string, p: string)
    requires StartsWith(s, p)
    requires forall k :: 0 <= k < |p| ==> !IsWhitespace(p[k])
    ensures StartsWith(TrimEnd(s), p)
  {
    if s != [] && IsWhitespace(s[|s| - 1]) {
      if p != [] {
        assert s[|p| - 1] == p[|p| - 1];
      }
      assert s[..|s| - 1][..|p|] == p;
      TrimEndKeepsPrefix(s[..|s| - 1], p);
    }
  }

  /** A string trims to one with the same prefix when it starts with non-whitespace. */
  lemma TrimKeepsPrefix(s: string, p: string)
    requires StartsWith(s, p) && p != []
    requires forall k :: 0 <= k < |p| ==> !IsWhitespace(p[k])
    ensures StartsWith(Trim(s), p)
  {
    assert TrimStart(s) == s;
    TrimEndKeepsPrefix(s, p);
  }

  /**
   * `s.split(sep)` for a one-character separator: the pieces between the
   * separators, from left to right; an empty string gives one empty piece.
   */
  function Split(s: string, sep: char): (parts: seq<string>)
    ensures |parts| >= 1
    ensures forall k :: 0 <= k < |parts| ==> sep !in parts[k]
    decreases |s|
  {
    if s == [] then [""]
    else
      var rest := Split(s[1..], sep);
      if s[0] == sep then [""] + rest
      else [[s[0]] + rest[0]] + rest[1..]
  }

  /**
   * Rebuilds a text from the lines it was split into (the lines `^` and `$`
   * of a multi-line regular expression see), putting `sep` between them.
   */
  function Join(parts: seq<string>, sep: char): string
    requires |parts| >= 1
    decreases |parts|
  {
    if |parts| == 1 then parts[0] else parts[0] + [sep] + Join(parts[1..], sep)
  }

  /** `parts.join('')` */
  function Concat(parts: seq<string>): string
    decreases |parts|
  {
    if parts == [] then "" else parts[0] + Concat(parts[1..])
  }

  /** Joining the pieces of a split gives back the original string. */
  lemma {:induction false} JoinSplit(s: string, sep: char)
    ensures Join(Split(s, sep), sep) == s
    decreases |s|
  {
    if s != [] {
      var rest := Split(s[1..], sep);
      JoinSplit(s[1..], sep);
      if s[0] == sep {
        assert Join(Split(s, sep), sep) == "" + [sep] + Join(rest, sep);
      } else if |rest| == 1 {
        assert Join(Split(s, sep), sep) == [s[0]] + rest[0];
      } else {
        var parts := Split(s, sep);
        assert parts[1..] == rest[1..];
        assert Join(parts, sep) == [s[0]] + rest[0] + [sep] + Join(rest[1..], sep);
        assert Join(rest, sep) == rest[0] + [sep] + Join(rest[1..], sep);
      }
    }
  }

  /** A string without the separator is not split. */
  lemma {:induction false} SplitNoSeparator(s: string, sep: char)
    requires sep !in s
    ensures Split(s, sep) == [s]
    decreases |s|
  {
    if s != [] {
      SplitNoSeparator(s[1..], sep);
      assert [s[0]] + s[1..] == s;
    }
  }

  /** A separator after a separator-free piece splits off exactly that piece. */
  lemma {:induction false} SplitAfterPiece(a: string, sep: char, b: string)
    requires sep !in a
    ensures Split(a + [sep] + b, sep) == [a] + Split(b, sep)
    decreases |a|
  {
    var s := a + [sep] + b;
    if a == [] {
      assert s[1..] == b;
    } else {
      assert s[1..] == a[1..] + [sep] + b;
      SplitAfterPiece(a[1..], sep, b);
      assert [a[0]] + a[1..] == a;
    }
  }

  /** Splitting a join of separator-free parts gives back the parts. */
  lemma {:induction false} SplitJoin(parts: seq<string>, sep: char)
    requires |parts| >= 1
    requires forall k :: 0 <= k < |parts| ==> sep !in parts[k]
    ensures Split(Join(parts, sep), sep) == parts
    decreases |parts|
  {
    if |parts| == 1 {
      SplitNoSeparator(parts[0], sep);
    } else {
      SplitJoin(parts[1..], sep);
      SplitAfterPiece(parts[0], sep, Join(parts[1..], sep));
    }
  }

  /** Text put in front of a string without the separator starts the first piece. */
  lemma {:induction false} SplitPrepend(a: string, s: string, sep: char)
    requires sep !in a
    ensures StartsWith(Split(a + s, sep)[0], a)
    decreases |a|
  {
    if a != [] {
      var rest := Split(a[1..] + s, sep);
      assert (a + s)[1..] == a[1..] + s;
      SplitPrepend(a[1..], s, sep);
      assert Split(a + s, sep)[0] == [a[0]] + rest[0];
      assert ([a[0]] + rest[0])[..|a|] == [a[0]] + rest[0][..|a| - 1];
    }
  }

  /** Text put after a string, without the separator, ends the last piece. */
  lemma {:induction false} SplitAppend(s: string, b: string, sep: char)
    requires sep !in b
    ensures EndsWith(Split(s + b, sep)[|Split(s + b, sep)| - 1], b)
    decreases |s|
  {
    if s == [] {
      assert s + b == b;
      SplitNoSeparator(b, sep);
    } else {
      var rest := Split(s[1..] + b, sep);
      assert (s + b)[1..] == s[1..] + b;
      SplitAppend(s[1..], b, sep);
      var parts := Split(s + b, sep);
      if s[0] == sep {
        assert parts[|parts| - 1] == rest[|rest| - 1];
      } else if |rest| == 1 {
        assert parts == [[s[0]] + rest[0]];
      } else {
        assert parts[|parts| - 1] == rest[|rest| - 1];
      }
    }
  }

  /** The concatenation of a non-empty list starts with its first element. */
  lemma ConcatStartsWith(parts: seq<string>)
    requires |parts| >= 1
    ensures StartsWith(Concat(parts), parts[0])
  {
    assert Concat(parts) == parts[0] + Concat(parts[1..]);
  }

  /** The concatenation of a non-empty list ends with its last element. */
  lemma {:induction false} ConcatEndsWith(parts: seq<string>)
    requires |parts| >= 1
    ensures EndsWith(Concat(parts), parts[|parts| - 1])
    decreases |parts|
  {
    if |parts| > 1 {
      ConcatEndsWith(parts[1..]);
      assert Concat(parts) == parts[0] + Concat(parts[1..]);
    }
  }

  /** A concatenation starts with whatever its first part starts with. */
  lemma ConcatKeepsPrefix(parts: seq<string>, p: string)
    requires |parts| >= 1 && StartsWith(parts[0], p)
    ensures StartsWith(Concat(parts), p)
  {
    ConcatStartsWith(parts);
    StartsWithTrans(Concat(parts), parts[0], p);
  }

  /** A concatenation ends with whatever its last part ends with. */
  lemma ConcatKeepsSuffix(parts: seq<string>, p: string)
    requires |parts| >= 1 && EndsWith(parts[|parts| - 1], p)
    ensures EndsWith(Concat(parts), p)
  {
    ConcatEndsWith(parts);
    EndsWithTrans(Concat(parts), parts[|parts| - 1], p);
  }

  /** A character occurs in a concatenation only if it occurs in one of the parts. */
  lemma {:induction false} ConcatLacks(parts: seq<string>, c: char)
    requires forall k :: 0 <= k < |parts| ==> c !in parts[k]
    ensures c !in Concat(parts)
    decreases |parts|
  {
    if parts != [] {
      ConcatLacks(parts[1..], c);
    }
  }
}
