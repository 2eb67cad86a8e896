/**
 * The string builtins the source relies on, written out over `seq<char>`:
 * Python's `str.strip`, `str.split(sep)`, `sep.join`, `in`, `endswith`, `upper`,
 * and JavaScript's `String.prototype.trim`, `includes` and `startsWith`.
 */
module Strings {

  /** Python's `str.isspace` for one character (the Unicode White_Space and
      separator code points that CPython treats as whitespace). */
  predicate IsPySpace(c: char) {
    var n := c as int;
    (9 <= n <= 13) || (28 <= n <= 32) || n == 0x85 || n == 0xA0 || n == 0x1680 ||
    (0x2000 <= n <= 0x200A) || n == 0x2028 || n == 0x2029 || n == 0x202F ||
    n == 0x205F || n == 0x3000
  }

  /** The characters JavaScript's `trim` removes (WhiteSpace and LineTerminator). */
  predicate IsJsSpace(c: char) {
    var n := c as int;
    (9 <= n <= 13) || n == 32 || n == 0xA0 || n == 0x1680 ||
    (0x2000 <= n <= 0x200A) || n == 0x2028 || n == 0x2029 || n == 0x202F ||
    n == 0x205F || n == 0x3000 || n == 0xFEFF
  }

  /** Removes leading characters satisfying `sp`; the result is a suffix of `s`. */
  function DropLeading(s: string, sp: char -> bool): string
  {
    if |s| > 0 && sp(s[0]) then DropLeading(s[1..], sp) else s
  }

  /** Removes trailing characters satisfying `sp`; the result is a prefix of `s`. */
  function DropTrailing(s: string, sp: char -> bool): string
  {
    if |s| > 0 && sp(s[|s| - 1]) then DropTrailing(s[..|s| - 1], sp) else s
  }

  /** Python's `s.strip()`. */
  function Strip(s: string): string {
    DropTrailing(DropLeading(s, IsPySpace), IsPySpace)
  }

  /** JavaScript's `s.trim()`. */
  function Trim(s: string): string {
    DropTrailing(DropLeading(s, IsJsSpace), IsJsSpace)
  }

  /** `needle` occurs in `hay` starting at position `i`. */
  predicate OccursAt(needle: string, hay: string, i: int) {
    0 <= i && i + |needle| <= |hay| && hay[i..i + |needle|] == needle
  }

  /** Python's `needle in hay`, JavaScript's `hay.includes(needle)`. */
  predicate Contains(hay: string, needle: string) {
    exists i | 0 <= i <= |hay| - |needle| :: OccursAt(needle, hay, i)
  }

  predicate StartsWith(s: string, prefix: string) {
    |prefix| <= |s| && s[..|prefix|] == prefix
  }

  predicate EndsWith(s: string, suffix: string) {
    |suffix| <= |s| && s[|s| - |suffix|..] == suffix
  }

  /** Python's `upper()` restricted to ASCII letters. */
  function UpperAscii(s: string): (r: string)
    ensures |r| == |s|
    ensures forall k :: 0 <= k < |s| ==> ('a' <= s[k] <= 'z' ==> r[k] as int == s[k] as int - 32)
    ensures forall k :: 0 <= k < |s| ==> (!('a' <= s[k] <= 'z') ==> r[k] == s[k])
  {
    if s == [] then []
    else [if 'a' <= s[0] <= 'z' then (s[0] as int - 32) as char else s[0]] + UpperAscii(s[1..])
  }

  /** Python's `s.split(c)` for a one-character separator: never empty. */
  function Split(s: string, c: char): (r: seq<string>)
    ensures |r| >= 1
    ensures forall k :: 0 <= k < |r| ==> c !in r[k]
  {
    if s == [] then [""]
    else if s[0] == c then [""] + Split(s[1..], c)
    else
      var rest := Split(s[1..], c);
      [[s[0]] + rest[0]] + rest[1..]
  }

  /** Python's `sep.join(xs)`. */
  function Join(sep: string, xs: seq<string>): string {
    if |xs| == 0 then ""
    else if |xs| == 1 then xs[0]
    else xs[0] + sep + Join(sep, xs[1..])
  }

  /** Concatenation of a list of strings (`''.join(xs)`). */
  function Concat(xs: seq<string>): string {
    if xs == [] then "" else xs[0] + Concat(xs[1..])
  }

  /** What `DropLeading` leaves is a suffix of its input. */
  lemma {:induction false} DropLeadingSuffix(s: string, sp: char -> bool)
    ensures |DropLeading(s, sp)| <= |s| && DropLeading(s, sp) == s[|s| - |DropLeading(s, sp)|..]
  {
    if |s| > 0 && sp(s[0]) {
      DropLeadingSuffix(s[1..], sp);
    }
  }

  /** What `DropTrailing` leaves is a prefix of its input. */
  lemma {:induction false} DropTrailingPrefix(s: string, sp: char -> bool)
    ensures |DropTrailing(s, sp)| <= |s| && DropTrailing(s, sp) == s[..|DropTrailing(s, sp)|]
  {
    if |s| > 0 && sp(s[|s| - 1]) {
      DropTrailingPrefix(s[..|s| - 1], sp);
    }
  }

  /** `DropLeading` removes everything exactly when every character satisfies `sp`; otherwise what
      it leaves starts with a character that does not. */
  lemma {:induction false} DropLeadingAll(s: string, sp: char -> bool)
    ensures DropLeading(s, sp) == [] <==> forall k :: 0 <= k < |s| ==> sp(s[k])
    ensures DropLeading(s, sp) != [] ==> !sp(DropLeading(s, sp)[0])
  {
    if |s| > 0 && sp(s[0]) {
      DropLeadingAll(s[1..], sp);
      assert forall k :: 1 <= k < |s| ==> s[k] == s[1..][k - 1];
    }
  }

  /** `DropTrailing` cannot empty a string whose first character it would keep. */
  lemma {:induction false} DropTrailingKeepsFirst(s: string, sp: char -> bool)
    requires s != [] && !sp(s[0])
    ensures DropTrailing(s, sp) != []
  {
    if sp(s[|s| - 1]) {
      DropTrailingKeepsFirst(s[..|s| - 1], sp);
    }
  }

  /** `trim()` gives the empty string exactly for strings made only of white space. */
  lemma TrimBlank(s: string)
    ensures Trim(s) == "" <==> forall k :: 0 <= k < |s| ==> IsJsSpace(s[k])
  {
    DropLeadingAll(s, IsJsSpace);
    var l := DropLeading(s, IsJsSpace);
    if l != [] {
      DropTrailingKeepsFirst(l, IsJsSpace);
    }
  }

  /** A stripped string is a contiguous piece of the original. */
  lemma StripIsPiece(s: string)
    ensures exists i :: OccursAt(Strip(s), s, i)
  {
    var l := DropLeading(s, IsPySpace);
    var r := DropTrailing(l, IsPySpace);
    DropLeadingSuffix(s, IsPySpace);
    DropTrailingPrefix(l, IsPySpace);
    var i := |s| - |l|;
    assert l == s[i..];
    assert r == l[..|r|];
    assert s[i..i + |r|] == l[..|r|];
    assert r == Strip(s);
    assert OccursAt(Strip(s), s, i);
  }

  /** Joining the pieces of a split gives back the original string. */
  lemma {:induction false} JoinSplit(s: string, c: char)
    ensures Join([c], Split(s, c)) == s
  {
    if s == [] {
    } else if s[0] == c {
      JoinSplit(s[1..], c);
      var rest := Split(s[1..], c);
      assert Split(s, c) == [""] + rest;
      assert ([""] + rest)[1..] == rest;
    } else {
      JoinSplit(s[1..], c);
      var rest := Split(s[1..], c);
      if |rest| == 1 {
        assert Split(s, c) == [[s[0]] + rest[0]];
      } else {
        var hd := [s[0]] + rest[0];
        assert Split(s, c) == [hd] + rest[1..];
        assert ([hd] + rest[1..])[1..] == rest[1..];
        assert Join([c], rest) == rest[0] + [c] + Join([c], rest[1..]);
      }
    }
  }

  /** Splitting a join of separator-free pieces gives back the pieces. */
  lemma {:induction false} SplitJoin(xs: seq<string>, c: char)
    requires |xs| >= 1
    requires forall k :: 0 <= k < |xs| ==> c !in xs[k]
    ensures Split(Join([c], xs), c) == xs
  {
    if |xs| == 1 {
      SplitNoSep(xs[0], c);
    } else {
      SplitJoin(xs[1..], c);
      SplitAfterPiece(xs[0], Join([c], xs[1..]), c);
      assert [xs[0]] + xs[1..] == xs;
    }
  }

  /** A separator-free string splits into itself. */
  lemma {:induction false} SplitNoSep(s: string, c: char)
    requires c !in s
    ensures Split(s, c) == [s]
  {
    if s != [] {
      assert c !in s[1..];
      SplitNoSep(s[1..], c);
      assert [s[0]] + s[1..] == s;
    }
  }

  /** Splitting `p + [c] + rest`, where `p` has no separator, yields `p` then the pieces of `rest`. */
  lemma {:induction false} SplitAfterPiece(p: string, rest: string, c: char)
    requires c !in p
    ensures Split(p + [c] + rest, c) == [p] + Split(rest, c)
  {
    if p == [] {
      assert p + [c] + rest == [c] + rest;
      assert ([c] + rest)[1..] == rest;
    } else {
      var s := p + [c] + rest;
      assert s[0] == p[0] && s[1..] == p[1..] + [c] + rest;
      SplitAfterPiece(p[1..], rest, c);
      assert [p[0]] + p[1..] == p;
    }
  }

  /** `sep.join` of two non-empty lists joined by `sep`. */
  lemma {:induction false} JoinAppend(sep: string, a: seq<string>, b: seq<string>)
    requires |a| >= 1 && |b| >= 1
    ensures Join(sep, a + b) == Join(sep, a) + sep + Join(sep, b)
  {
    if |a| == 1 {
      assert (a + b)[1..] == b;
    } else {
      JoinAppend(sep, a[1..], b);
      assert (a + b)[1..] == a[1..] + b;
    }
  }

  /** Each line followed by a newline, concatenated, is the lines joined by newlines plus one final newline. */
  lemma {:induction false} ConcatTerminated(xs: seq<string>)
    requires |xs| >= 1
    ensures Concat(Terminated(xs)) == Join("\n", xs) + "\n"
  {
    if |xs| > 1 {
      ConcatTerminated(xs[1..]);
      assert Terminated(xs)[1..] == Terminated(xs[1..]);
    } else {
      assert Terminated(xs)[1..] == [];
    }
  }

  /** Every string followed by a newline. */
  function Terminated(xs: seq<string>): (r: seq<string>)
    ensures |r| == |xs| && forall k :: 0 <= k < |xs| ==> r[k] == xs[k] + "\n"
  {
    if xs == [] then [] else [xs[0] + "\n"] + Terminated(xs[1..])
  }

  /** Dropping trailing characters from `s + [c]` when `c` is dropped and `s` ends in a kept character. */
  lemma DropOneTrailing(s: string, c: char, sp: char -> bool)
    requires sp(c) && |s| > 0 && !sp(s[|s| - 1])
    ensures DropTrailing(s + [c], sp) == s
  {
    assert (s + [c])[..|s + [c]| - 1] == s;
  }

  /** A join ends with the last character of its last piece, when that piece is non-empty. */
  lemma {:induction false} JoinLastChar(sep: string, xs: seq<string>)
    requires |xs| >= 1 && xs[|xs| - 1] != ""
    ensures var j := Join(sep, xs); |j| > 0 && j[|j| - 1] == xs[|xs| - 1][|xs[|xs| - 1]| - 1]
  {
    if |xs| > 1 {
      JoinLastChar(sep, xs[1..]);
    }
  }

  /** Concatenating empty strings gives the empty string. */
  lemma {:induction false} ConcatBlank(xs: seq<string>)
    ensures (forall k :: 0 <= k < |xs| ==> xs[k] == "") ==> Concat(xs) == ""
  {
    if xs != [] {
      ConcatBlank(xs[1..]);
      if xs[0] == "" {
        assert forall k :: 0 <= k < |xs[1..]| ==> xs[1..][k] == xs[k + 1];
      }
    }
  }

  /** Concatenation distributes over list concatenation. */
  lemma {:induction false} ConcatAppend(a: seq<string>, b: seq<string>)
    ensures Concat(a + b) == Concat(a) + Concat(b)
  {
    if a == [] {
      assert a + b == b;
    } else {
      calc {
        Concat(a + b);
        (a + b)[0] + Concat((a + b)[1..]);
        { assert (a + b)[1..] == a[1..] + b; }
        a[0] + Concat(a[1..] + b);
        { ConcatAppend(a[1..], b); }
        a[0] + (Concat(a[1..]) + Concat(b));
      }
    }
  }
}
