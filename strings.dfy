/** The Python string operations the chat page is built from: `split`, `join`,
    `in`, `strip` and `lower`, restricted to what the page uses them for.
    Whitespace and case are ASCII only (see README). */
module Strings {

  // ---------------------------------------------------------------------------
  // split, join, count and `in`
  // ---------------------------------------------------------------------------

  /** `s.split(sep)` for a non-empty `sep`: `s` is scanned left to right and cut
      at every non-overlapping occurrence of `sep`. */
  function Split(s: string, sep: string): (parts: seq<string>)
    requires sep != []
    ensures parts != []
    decreases |s|
  {
    if |s| < |sep| then [s]
    else if s[..|sep|] == sep then [""] + Split(s[|sep|..], sep)
    else
      var rest := Split(s[1..], sep);
      [[s[0]] + rest[0]] + rest[1..]
  }

  /** `sep.join(parts)`. */
  function Join(parts: seq<string>, sep: string): string
  {
    if parts == [] then ""
    else if |parts| == 1 then parts[0]
    else parts[0] + sep + Join(parts[1..], sep)
  }

  /** `s.count(sep)`: non-overlapping occurrences, counted left to right. */
  function Count(s: string, sep: string): nat
    requires sep != []
    decreases |s|
  {
    if |s| < |sep| then 0
    else if s[..|sep|] == sep then 1 + Count(s[|sep|..], sep)
    else Count(s[1..], sep)
  }

  /** `sep` starts at index `i` of `s`. */
  predicate OccursAt(s: string, sep: string, i: nat)
  {
    i + |sep| <= |s| && s[i..i + |sep|] == sep
  }

  /** `sep in s`. */
  predicate Contains(s: string, sep: string)
  {
    exists i :: 0 <= i <= |s| && OccursAt(s, sep, i)
  }

  /** `s.split('\n')` and `'\n'.join(lines)`. */
  function Lines(s: string): (lines: seq<string>)
    ensures lines != []
  {
    Split(s, "\n")
  }

  function JoinLines(lines: seq<string>): string
  {
    Join(lines, "\n")
  }

  /** Joining the parts of a split with the same separator gives back the text. */
  lemma {:induction false} JoinSplit(s: string, sep: string)
    requires sep != []
    ensures Join(Split(s, sep), sep) == s
    decreases |s|
  {
    if |s| < |sep| {
    } else if s[..|sep|] == sep {
      JoinSplit(s[|sep|..], sep);
      assert s == sep + s[|sep|..];
    } else {
      var rest := Split(s[1..], sep);
      JoinSplit(s[1..], sep);
      if |rest| == 1 {
        assert s == [s[0]] + s[1..];
      } else {
        assert Join(rest, sep) == rest[0] + sep + Join(rest[1..], sep);
        assert s == [s[0]] + s[1..];
      }
    }
  }

  /** A split yields one part more than there are occurrences of the separator. */
  lemma {:induction false} SplitCount(s: string, sep: string)
    requires sep != []
    ensures |Split(s, sep)| == Count(s, sep) + 1
    decreases |s|
  {
    if |s| < |sep| {
    } else if s[..|sep|] == sep {
      SplitCount(s[|sep|..], sep);
    } else {
      SplitCount(s[1..], sep);
    }
  }

  /** A split yields a single part exactly when the separator does not occur. */
  lemma {:induction false} SplitSingleIff(s: string, sep: string)
    requires sep != []
    ensures |Split(s, sep)| == 1 <==> !Contains(s, sep)
    decreases |s|
  {
    if |s| < |sep| {
      forall i | 0 <= i <= |s| ensures !OccursAt(s, sep, i) {
      }
    } else if s[..|sep|] == sep {
      assert OccursAt(s, sep, 0);
    } else {
      SplitSingleIff(s[1..], sep);
      if Contains(s, sep) {
        var i :| 0 <= i <= |s| && OccursAt(s, sep, i);
        assert i != 0;
        assert s[1..][i - 1..i - 1 + |sep|] == s[i..i + |sep|];
        assert OccursAt(s[1..], sep, i - 1);
      }
      if Contains(s[1..], sep) {
        var j :| 0 <= j <= |s[1..]| && OccursAt(s[1..], sep, j);
        assert s[1..][j..j + |sep|] == s[j + 1..j + 1 + |sep|];
        assert OccursAt(s, sep, j + 1);
      }
    }
  }

  /** No part of a split on a one-character separator contains that character. */
  lemma {:induction false} SplitPartsFree(s: string, c: char)
    ensures forall k :: 0 <= k < |Split(s, [c])| ==> c !in Split(s, [c])[k]
    decreases |s|
  {
    if |s| < 1 {
    } else if s[..1] == [c] {
      SplitPartsFree(s[1..], c);
    } else {
      SplitPartsFree(s[1..], c);
      assert s[0] != c;
    }
  }

  /** Splitting `p + sep + rest`, where no character of `p` can start `sep`,
      cuts exactly after `p`. */
  lemma {:induction false} SplitAtFirst(p: string, sep: string, rest: string)
    requires sep != [] && sep[0] !in p
    ensures Split(p + sep + rest, sep) == [p] + Split(rest, sep)
    decreases |p|
  {
    var s := p + sep + rest;
    if p == [] {
      assert s[..|sep|] == sep;
      assert s[|sep|..] == rest;
    } else {
      assert s[0] == p[0] && p[0] in p;
      assert s[..|sep|][0] == s[0];
      assert s[1..] == p[1..] + sep + rest;
      SplitAtFirst(p[1..], sep, rest);
      assert [s[0]] + p[1..] == p;
    }
  }

  /** A text in which no character can start `sep` is split into itself. */
  lemma SplitNone(s: string, sep: string)
    requires sep != [] && sep[0] !in s
    ensures Split(s, sep) == [s]
  {
    forall i | 0 <= i <= |s| ensures !OccursAt(s, sep, i) {
    }
    SplitSingleIff(s, sep);
    JoinSplit(s, sep);
  }

  /** Splitting the join of parts free of a one-character separator gives the
      parts back: the other direction of the round trip, for lines. */
  lemma {:induction false} SplitJoin(parts: seq<string>, c: char)
    requires parts != []
    requires forall k :: 0 <= k < |parts| ==> c !in parts[k]
    ensures Split(Join(parts, [c]), [c]) == parts
    decreases |parts|
  {
    if |parts| == 1 {
      var p := parts[0];
      assert Join(parts, [c]) == p;
      forall i | 0 <= i <= |p| ensures !OccursAt(p, [c], i) {
        if i < |p| {
          assert p[i..i + 1] == [p[i]];
        }
      }
      SplitSingleIff(p, [c]);
      JoinSplit(p, [c]);
    } else {
      assert Join(parts, [c]) == parts[0] + [c] + Join(parts[1..], [c]);
      SplitJoin(parts[1..], c);
      SplitAtFirst(parts[0], [c], Join(parts[1..], [c]));
    }
  }

  /** Replacing the first of a list of parts replaces the text before the
      first separator of their join. */
  lemma JoinReplaceFirst(parts: seq<string>, sep: string, x: string)
    requires parts != []
    ensures |parts[0]| <= |Join(parts, sep)|
    ensures Join(parts, sep)[..|parts[0]|] == parts[0]
    ensures Join(parts[0 := x], sep) == x + Join(parts, sep)[|parts[0]|..]
  {
    var r := parts[0 := x];
    if |parts| > 1 {
      assert r[1..] == parts[1..];
      var tail := sep + Join(parts[1..], sep);
      assert Join(parts, sep) == parts[0] + tail;
      assert Join(parts, sep)[|parts[0]|..] == tail;
    }
  }

  /** Joining is associative over a cut of the parts. */
  lemma {:induction false} JoinCut(parts: seq<string>, sep: string, n: nat)
    requires 0 < n < |parts|
    ensures Join(parts, sep) == Join(parts[..n], sep) + sep + Join(parts[n..], sep)
    decreases n
  {
    if n == 1 {
      assert parts[..1] == [parts[0]];
      assert parts[1..] == parts[n..];
    } else {
      JoinCut(parts[1..], sep, n - 1);
      assert parts[1..][..n - 1] == parts[..n][1..];
      assert parts[1..][n - 1..] == parts[n..];
    }
  }

  // ---------------------------------------------------------------------------
  // strip and lower
  // ---------------------------------------------------------------------------

  /** ASCII whitespace as Python's `str.isspace` sees it: tab, line feed,
      vertical tab, form feed, carriage return, the four information
      separators (28 to 31) and space. */
  predicate IsSpace(c: char)
  {
    c == ' ' || ('\t' <= c <= '\r') || ('\U{1C}' <= c <= '\U{1F}')
  }

  /** `s.lstrip()`. */
  function TrimStart(s: string): string
    decreases |s|
  {
    if s != [] && IsSpace(s[0]) then TrimStart(s[1..]) else s
  }

  /** `s.rstrip()`. */
  function TrimEnd(s: string): string
    decreases |s|
  {
    if s != [] && IsSpace(s[|s| - 1]) then TrimEnd(s[..|s| - 1]) else s
  }

  /** `s.strip()`. */
  function Strip(s: string): string
  {
    TrimEnd(TrimStart(s))
  }

  /** The number of leading spaces of `s`. */
  function LeadingSpaces(s: string): nat
    decreases |s|
  {
    if s != [] && IsSpace(s[0]) then 1 + LeadingSpaces(s[1..]) else 0
  }

  /** `lstrip` drops exactly the leading spaces: what is left is the suffix
      after them, and it does not start with a space. */
  lemma {:induction false} TrimStartSpec(s: string)
    ensures LeadingSpaces(s) <= |s| && TrimStart(s) == s[LeadingSpaces(s)..]
    ensures forall k :: 0 <= k < LeadingSpaces(s) ==> IsSpace(s[k])
    ensures TrimStart(s) == [] || !IsSpace(TrimStart(s)[0])
    decreases |s|
  {
    if s != [] && IsSpace(s[0]) {
      TrimStartSpec(s[1..]);
      assert s[1..][LeadingSpaces(s[1..])..] == s[LeadingSpaces(s)..];
      forall k | 0 < k < LeadingSpaces(s) ensures IsSpace(s[k]) {
        assert s[k] == s[1..][k - 1];
      }
    }
  }

  /** `rstrip` drops exactly the trailing spaces: what is left is a prefix,
      only spaces follow it, and it does not end with a space. */
  lemma {:induction false} TrimEndSpec(s: string)
    ensures |TrimEnd(s)| <= |s| && TrimEnd(s) == s[..|TrimEnd(s)|]
    ensures forall k :: |TrimEnd(s)| <= k < |s| ==> IsSpace(s[k])
    ensures TrimEnd(s) == [] || !IsSpace(TrimEnd(s)[|TrimEnd(s)| - 1])
    decreases |s|
  {
    if s != [] && IsSpace(s[|s| - 1]) {
      var init := s[..|s| - 1];
      TrimEndSpec(init);
      assert init[..|TrimEnd(init)|] == s[..|TrimEnd(init)|];
      forall k | |TrimEnd(s)| <= k < |s| - 1 ensures IsSpace(s[k]) {
        assert s[k] == init[k];
      }
    }
  }

  /** `strip` keeps the slice of `s` that starts after its leading spaces:
      only spaces lie outside the slice, and it neither starts nor ends with
      one. */
  lemma StripSpec(s: string)
    ensures var i, r := LeadingSpaces(s), Strip(s);
      i + |r| <= |s| && r == s[i..i + |r|] &&
      (forall k :: 0 <= k < i ==> IsSpace(s[k])) &&
      (forall k :: i + |r| <= k < |s| ==> IsSpace(s[k])) &&
      (r == [] || (!IsSpace(r[0]) && !IsSpace(r[|r| - 1])))
  {
    var t := TrimStart(s);
    TrimStartSpec(s);
    TrimEndSpec(t);
    var i, r := LeadingSpaces(s), TrimEnd(t);
    assert r == s[i..i + |r|];
    forall k | i + |r| <= k < |s| ensures IsSpace(s[k]) {
      assert s[k] == t[k - i];
    }
    assert r != [] ==> r[0] == t[0];
  }

  /** A text with no space at either end is its own strip. */
  lemma StripUnspaced(s: string)
    requires s != [] && !IsSpace(s[0]) && !IsSpace(s[|s| - 1])
    ensures Strip(s) == s
  {
    assert TrimStart(s) == s;
  }

  function LowerChar(c: char): char
  {
    if 'A' <= c <= 'Z' then (c as int + 32) as char else c
  }

  /** `s.lower()` on ASCII letters. */
  function Lower(s: string): (r: string)
    ensures |r| == |s|
  {
    if s == [] then [] else [LowerChar(s[0])] + Lower(s[1..])
  }

  /** `lower` maps each of `A` to `Z` to the letter 32 code points on, `a`
      to `z`, and keeps every other character. */
  lemma {:induction false} LowerSpec(s: string)
    ensures |Lower(s)| == |s|
    ensures forall k :: 0 <= k < |s| ==>
      Lower(s)[k] == (if 'A' <= s[k] <= 'Z' then (s[k] as int + 32) as char else s[k])
    decreases |s|
  {
    if s != [] {
      LowerSpec(s[1..]);
      forall k | 0 < k < |s|
        ensures Lower(s)[k] == (if 'A' <= s[k] <= 'Z' then (s[k] as int + 32) as char else s[k])
      {
        assert Lower(s)[k] == Lower(s[1..])[k - 1];
        assert s[k] == s[1..][k - 1];
      }
    }
  }

  /** A text without upper-case ASCII letters is its own lower case. */
  lemma {:induction false} LowerUnchanged(s: string)
    requires forall k :: 0 <= k < |s| ==> !('A' <= s[k] <= 'Z')
    ensures Lower(s) == s
  {
    if s != [] {
      LowerUnchanged(s[1..]);
    }
  }
}
