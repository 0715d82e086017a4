/** The string operations the CSV parser relies on: JavaScript's `trim`,
    `split` on a one-character separator, and case mapping. */
module Text {

  /** The white-space and line-terminator characters `String.prototype.trim`
      removes (section 22.1.3.32 of ECMA-262 with its WhiteSpace and
      LineTerminator productions). */
  predicate IsSpace(c: char)
  {
    || c == '\t' || c == '\n' || c == '\U{000B}' || c == '\U{000C}' || c == '\r' || c == ' '
    || c == '\U{00A0}' || c == '\U{1680}' || ('\U{2000}' <= c <= '\U{200A}')
    || c == '\U{2028}' || c == '\U{2029}' || c == '\U{202F}' || c == '\U{205F}'
    || c == '\U{3000}' || c == '\U{FEFF}'
  }

  /** The index of the first character that is not white space (or `|s|`). */
  function TrimStartIndex(s: string, from: int): (lo: int)
    requires 0 <= from <= |s|
    ensures from <= lo <= |s|
    ensures forall k :: from <= k < lo ==> IsSpace(s[k])
    ensures lo < |s| ==> !IsSpace(s[lo])
    decreases |s| - from
  {
    if from < |s| && IsSpace(s[from]) then TrimStartIndex(s, from + 1) else from
  }

  /** The index just past the last character at or after `lo` that is not
      white space (or `lo`). */
  function TrimEndIndex(s: string, lo: int, until: int): (hi: int)
    requires 0 <= lo <= until <= |s|
    ensures lo <= hi <= until
    ensures forall k :: hi <= k < until ==> IsSpace(s[k])
    ensures hi > lo ==> !IsSpace(s[hi - 1])
    decreases until
  {
    if until > lo && IsSpace(s[until - 1]) then TrimEndIndex(s, lo, until - 1) else until
  }

  /** `trim`: the infix with no white space at either end, everything cut
      off being white space. */
  function Trim(s: string): (r: string)
    ensures var lo := TrimStartIndex(s, 0); var hi := TrimEndIndex(s, lo, |s|);
      && r == s[lo..hi]
      && (forall k :: 0 <= k < lo ==> IsSpace(s[k]))
      && (forall k :: hi <= k < |s| ==> IsSpace(s[k]))
    ensures |r| > 0 ==> !IsSpace(r[0]) && !IsSpace(r[|r| - 1])
  {
    var lo := TrimStartIndex(s, 0);
    var hi := TrimEndIndex(s, lo, |s|);
    s[lo..hi]
  }

  /** ASCII lower-casing of one character. */
  function LowerChar(c: char): char
  {
    if 'A' <= c <= 'Z' then (c as int + 32) as char else c
  }

  /** ASCII upper-casing of one character. */
  function UpperChar(c: char): char
  {
    if 'a' <= c <= 'z' then (c as int - 32) as char else c
  }

  /** Lower-casing: upper-case ASCII letters become their lower-case
      counterparts and every other character is kept. */
  function ToLower(s: string): (r: string)
    ensures |r| == |s|
    ensures forall k :: 0 <= k < |r| ==> !('A' <= r[k] <= 'Z')
    ensures forall k :: 0 <= k < |s| ==> r[k] == s[k] || ('A' <= s[k] <= 'Z' && r[k] as int == s[k] as int + 32)
  {
    seq(|s|, k requires 0 <= k < |s| => LowerChar(s[k]))
  }

  /** Upper-casing: lower-case ASCII letters become their upper-case
      counterparts and every other character is kept. */
  function ToUpper(s: string): (r: string)
    ensures |r| == |s|
    ensures forall k :: 0 <= k < |r| ==> !('a' <= r[k] <= 'z')
    ensures forall k :: 0 <= k < |s| ==> r[k] == s[k] || ('a' <= s[k] <= 'z' && r[k] as int == s[k] as int - 32)
  {
    seq(|s|, k requires 0 <= k < |s| => UpperChar(s[k]))
  }

  /** `a` and `b` are the same character up to ASCII case. */
  predicate SameIgnoringCase(a: char, b: char)
  {
    || a == b
    || ('A' <= a <= 'Z' && b as int == a as int + 32)
    || ('a' <= a <= 'z' && b as int == a as int - 32)
  }

  /** `s` and `w` spell the same text up to ASCII case. */
  predicate EqualIgnoringCase(s: string, w: string)
  {
    |s| == |w| && forall k :: 0 <= k < |s| ==> SameIgnoringCase(s[k], w[k])
  }

  /** Lower-casing `s` gives a lower-case word `w` exactly when `s` is `w`
      up to ASCII case: so "Buy", "BUY" and "buy" all name `buy`. */
  lemma LowerMatchesIgnoringCase(s: string, w: string)
    requires forall k :: 0 <= k < |w| ==> !('A' <= w[k] <= 'Z')
    ensures ToLower(s) == w <==> EqualIgnoringCase(s, w)
  {
    if EqualIgnoringCase(s, w) {
      forall k | 0 <= k < |s|
        ensures ToLower(s)[k] == w[k]
      {
        assert SameIgnoringCase(s[k], w[k]);
      }
    }
  }

  /** Upper-casing `s` gives an upper-case word `w` exactly when `s` is `w`
      up to ASCII case. */
  lemma UpperMatchesIgnoringCase(s: string, w: string)
    requires forall k :: 0 <= k < |w| ==> !('a' <= w[k] <= 'z')
    ensures ToUpper(s) == w <==> EqualIgnoringCase(s, w)
  {
    if EqualIgnoringCase(s, w) {
      forall k | 0 <= k < |s|
        ensures ToUpper(s)[k] == w[k]
      {
        assert SameIgnoringCase(s[k], w[k]);
      }
    }
  }

  /** `split` on one character: the maximal separator-free pieces, in order;
      there is always at least one, possibly empty. */
  function Split(s: string, sep: char): (parts: seq<string>)
    ensures |parts| >= 1
    ensures forall k :: 0 <= k < |parts| ==> sep !in parts[k]
  {
    if |s| == 0 then [""]
    else
      var rest := Split(s[1..], sep);
      if s[0] == sep then [""] + rest
      else [[s[0]] + rest[0]] + rest[1..]
  }

  /** How often `c` occurs in `s`. */
  function Occurrences(s: string, c: char): nat
  {
    if |s| == 0 then 0 else (if s[0] == c then 1 else 0) + Occurrences(s[1..], c)
  }

  /** `split` yields one more piece than there are separators. */
  lemma {:induction false} SplitCount(s: string, sep: char)
    ensures |Split(s, sep)| == Occurrences(s, sep) + 1
  {
    if |s| > 0 {
      SplitCount(s[1..], sep);
    }
  }

  /** An infix of a string free of `c` is free of `c`. */
  lemma InfixFree(s: string, lo: int, hi: int, c: char)
    requires 0 <= lo <= hi <= |s| && c !in s
    ensures c !in s[lo..hi]
  {
  }

  /** `join`: the pieces with one separator between neighbours. */
  function Join(parts: seq<string>, sep: char): string
    requires |parts| >= 1
  {
    if |parts| == 1 then parts[0] else parts[0] + [sep] + Join(parts[1..], sep)
  }

  /** Joining the pieces gives back the split string. */
  lemma {:induction false} JoinSplit(s: string, sep: char)
    ensures Join(Split(s, sep), sep) == s
  {
    if |s| > 0 {
      var rest := Split(s[1..], sep);
      JoinSplit(s[1..], sep);
      if s[0] == sep {
        assert ([""] + rest)[1..] == rest;
      } else {
        var parts := [[s[0]] + rest[0]] + rest[1..];
        assert parts[1..] == rest[1..];
        if |rest| == 1 {
        } else {
          assert Join(rest, sep) == rest[0] + [sep] + Join(rest[1..], sep);
        }
        assert s == [s[0]] + s[1..];
      }
    }
  }

  /** Splitting separator-free pieces joined by the separator gives the
      pieces back. */
  lemma {:induction false} SplitJoin(parts: seq<string>, sep: char)
    requires |parts| >= 1
    requires forall k :: 0 <= k < |parts| ==> sep !in parts[k]
    ensures Split(Join(parts, sep), sep) == parts
  {
    if |parts| == 1 {
      SplitPiece(parts[0], sep);
    } else {
      SplitJoin(parts[1..], sep);
      SplitPrefixed(parts[0], Join(parts[1..], sep), sep);
      assert parts == [parts[0]] + parts[1..];
    }
  }

  /** A separator-free string splits into itself. */
  lemma {:induction false} SplitPiece(p: string, sep: char)
    requires sep !in p
    ensures Split(p, sep) == [p]
  {
    if |p| > 0 {
      SplitPiece(p[1..], sep);
      assert p == [p[0]] + p[1..];
    }
  }

  /** Splitting `p + sep + t` puts the separator-free `p` in front of the
      pieces of `t`. */
  lemma {:induction false} SplitPrefixed(p: string, t: string, sep: char)
    requires sep !in p
    ensures Split(p + [sep] + t, sep) == [p] + Split(t, sep)
  {
    if |p| == 0 {
      assert p + [sep] + t == [sep] + t;
      assert ([sep] + t)[1..] == t;
    } else {
      SplitPrefixed(p[1..], t, sep);
      assert (p + [sep] + t)[1..] == p[1..] + [sep] + t;
      assert p == [p[0]] + p[1..];
    }
  }
}
