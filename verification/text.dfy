/** The JavaScript string primitives the command engine relies on:
    character classes, `toUpperCase`/`toLowerCase`, `trim`, and
    `split`/`join` on a one-character separator. */
module Text {

  /** `CommandEngine.whitespace`: the characters that separate words. */
  predicate IsBlank(c: char) {
    c == ' ' || c == '\t'
  }

  /** The characters `String.prototype.trim` removes: ECMAScript WhiteSpace
      (tab, vertical tab, form feed, space, no-break space, byte-order mark
      and the Unicode space separators) and LineTerminator. */
  predicate IsTrimSpace(c: char) {
    var n := c as int;
    n == 0x09 || n == 0x0A || n == 0x0B || n == 0x0C || n == 0x0D || n == 0x20
    || n == 0xA0 || n == 0x1680 || (0x2000 <= n <= 0x200A) || n == 0x2028
    || n == 0x2029 || n == 0x202F || n == 0x205F || n == 0x3000 || n == 0xFEFF
  }

  predicate IsDigit(c: char) {
    '0' <= c <= '9'
  }

  function UpperChar(c: char): char {
    if 'a' <= c <= 'z' then (c as int - 32) as char else c
  }

  function LowerChar(c: char): char {
    if 'A' <= c <= 'Z' then (c as int + 32) as char else c
  }

  /** `toUpperCase`, on the ASCII letters. */
  function Upper(s: string): (r: string)
    ensures |r| == |s| && forall i :: 0 <= i < |s| ==> r[i] == UpperChar(s[i])
    decreases |s|
  {
    if s == [] then [] else [UpperChar(s[0])] + Upper(s[1..])
  }

  /** `Upper(s) == w`, stated character by character (see `UpperIs`). */
  predicate UpperEquals(s: string, w: string) {
    |s| == |w| && forall i :: 0 <= i < |w| ==> UpperChar(s[i]) == w[i]
  }

  lemma UpperIs(s: string, w: string)
    ensures UpperEquals(s, w) <==> Upper(s) == w
  {
    if UpperEquals(s, w) {
      assert forall i :: 0 <= i < |w| ==> Upper(s)[i] == w[i];
    }
  }

  /** `toLowerCase`, on the ASCII letters. */
  function Lower(s: string): (r: string)
    ensures |r| == |s| && forall i :: 0 <= i < |s| ==> r[i] == LowerChar(s[i])
    decreases |s|
  {
    if s == [] then [] else [LowerChar(s[0])] + Lower(s[1..])
  }

  /** Drops the leading trim-space characters. */
  function TrimStart(s: string): (r: string)
    ensures |r| <= |s|
    ensures forall i :: 0 <= i < |s| - |r| ==> IsTrimSpace(s[i])
    ensures r == [] || !IsTrimSpace(r[0])
    decreases |s|
  {
    if s != [] && IsTrimSpace(s[0]) then TrimStart(s[1..]) else s
  }

  /** Drops the trailing trim-space characters. */
  function TrimEnd(s: string): (r: string)
    ensures |r| <= |s|
    ensures forall i :: |r| <= i < |s| ==> IsTrimSpace(s[i])
    ensures r == [] || !IsTrimSpace(r[|r| - 1])
    decreases |s|
  {
    if s != [] && IsTrimSpace(s[|s| - 1]) then TrimEnd(s[..|s| - 1]) else s
  }

  /** What `TrimStart` keeps is a suffix. */
  lemma {:induction false} TrimStartSuffix(s: string)
    ensures TrimStart(s) == s[|s| - |TrimStart(s)|..]
    decreases |s|
  {
    if s != [] && IsTrimSpace(s[0]) {
      TrimStartSuffix(s[1..]);
      assert s[1..][|s| - 1 - |TrimStart(s)|..] == s[|s| - |TrimStart(s)|..];
    }
  }

  /** What `TrimEnd` keeps is a prefix. */
  lemma {:induction false} TrimEndPrefix(s: string)
    ensures TrimEnd(s) == s[..|TrimEnd(s)|]
    decreases |s|
  {
    if s != [] && IsTrimSpace(s[|s| - 1]) {
      TrimEndPrefix(s[..|s| - 1]);
      assert s[..|s| - 1][..|TrimEnd(s)|] == s[..|TrimEnd(s)|];
    }
  }

  /** `String.prototype.trim`. */
  function Trim(s: string): string {
    TrimEnd(TrimStart(s))
  }

  /** A string that neither starts nor ends with a trim-space is its own trim. */
  lemma TrimOfTrimmed(s: string)
    requires s == [] || (!IsTrimSpace(s[0]) && !IsTrimSpace(s[|s| - 1]))
    ensures Trim(s) == s
  {
  }

  /** `xs.join(sep)` for a one-character separator. */
  function Join(xs: seq<string>, sep: char): string
    decreases |xs|
  {
    if |xs| == 0 then ""
    else if |xs| == 1 then xs[0]
    else xs[0] + [sep] + Join(xs[1..], sep)
  }

  /** `s.split(sep)` for a one-character separator: the maximal pieces
      between separators, so the empty string splits into one empty piece. */
  function Split(s: string, sep: char): (r: seq<string>)
    ensures |r| >= 1
    ensures forall k :: 0 <= k < |r| ==> sep !in r[k]
    decreases |s|
  {
    if s == [] then [""]
    else
      var rest := Split(s[1..], sep);
      if s[0] == sep then [""] + rest
      else [[s[0]] + rest[0]] + rest[1..]
  }

  /** Joining the pieces of a split gives back the original string. */
  lemma {:induction false} JoinSplit(s: string, sep: char)
    ensures Join(Split(s, sep), sep) == s
    decreases |s|
  {
    if s != [] {
      JoinSplit(s[1..], sep);
      var rest := Split(s[1..], sep);
      if s[0] == sep {
        assert s == [sep] + s[1..];
      } else {
        var pieces := [[s[0]] + rest[0]] + rest[1..];
        if |rest| == 1 {
          assert Join(pieces, sep) == [s[0]] + rest[0];
        } else {
          assert Join(rest, sep) == rest[0] + [sep] + Join(rest[1..], sep);
          assert pieces[1..] == rest[1..];
        }
        assert s == [s[0]] + s[1..];
      }
    }
  }

  /** Splitting a join gives back the pieces, provided there is at least one
      piece and no piece contains the separator. */
  lemma {:induction false} SplitJoin(xs: seq<string>, sep: char)
    requires |xs| >= 1
    requires forall k :: 0 <= k < |xs| ==> sep !in xs[k]
    ensures Split(Join(xs, sep), sep) == xs
    decreases |xs|, |xs[0]|
  {
    if |xs[0]| > 0 {
      var c := xs[0][0];
      var ys := [xs[0][1..]] + xs[1..];
      SplitJoin(ys, sep);
      assert Join(xs, sep) == [c] + Join(ys, sep) by {
        if |xs| == 1 {
          assert xs[0] == [c] + xs[0][1..];
        } else {
          assert ys[1..] == xs[1..];
          assert xs[0] == [c] + xs[0][1..];
        }
      }
      assert ([c] + Join(ys, sep))[1..] == Join(ys, sep);
      assert [c] + ys[0] == xs[0];
      assert ys[1..] == xs[1..];
      assert xs == [xs[0]] + xs[1..];
    } else if |xs| > 1 {
      SplitJoin(xs[1..], sep);
      assert Join(xs, sep) == [sep] + Join(xs[1..], sep);
      assert ([sep] + Join(xs[1..], sep))[1..] == Join(xs[1..], sep);
      assert xs == [""] + xs[1..];
    }
  }

  /** Lower-casing distributes over a join whose separator is not a letter. */
  lemma {:induction false} LowerJoin(xs: seq<string>, sep: char)
    requires LowerChar(sep) == sep
    ensures Lower(Join(xs, sep)) == Join(seq(|xs|, k requires 0 <= k < |xs| => Lower(xs[k])), sep)
    decreases |xs|
  {
    var ls := seq(|xs|, k requires 0 <= k < |xs| => Lower(xs[k]));
    if |xs| > 1 {
      LowerJoin(xs[1..], sep);
      assert ls[1..] == seq(|xs[1..]|, k requires 0 <= k < |xs[1..]| => Lower(xs[1..][k]));
      LowerAppend(xs[0] + [sep], Join(xs[1..], sep));
      LowerAppend(xs[0], [sep]);
    }
  }

  lemma LowerAppend(a: string, b: string)
    ensures Lower(a + b) == Lower(a) + Lower(b)
  {
  }
}
