/** The Python `str` operations the gateway relies on, with their Python meaning. */
module Text {

  /** `s.startswith(prefix)` */
  predicate StartsWith(s: string, prefix: string) {
    |prefix| <= |s| && s[..|prefix|] == prefix
  }

  /** `s.endswith(suffix)` */
  predicate EndsWith(s: string, suffix: string) {
    |suffix| <= |s| && s[|s| - |suffix|..] == suffix
  }

  /** `pat in s` for a substring `pat` */
  predicate Contains(s: string, pat: string)
    decreases |s|
  {
    StartsWith(s, pat) || (s != [] && Contains(s[1..], pat))
  }

  lemma {:induction false} ContainsAt(s: string, pat: string, i: nat)
    requires i + |pat| <= |s| && s[i..i + |pat|] == pat
    ensures Contains(s, pat)
    decreases i
  {
    if i > 0 {
      assert s[1..][i - 1..i - 1 + |pat|] == s[i..i + |pat|];
      ContainsAt(s[1..], pat, i - 1);
    }
  }

  lemma {:induction false} ContainsWitness(s: string, pat: string) returns (i: nat)
    requires Contains(s, pat)
    ensures i + |pat| <= |s| && s[i..i + |pat|] == pat
    decreases |s|
  {
    if StartsWith(s, pat) {
      i := 0;
    } else {
      var j := ContainsWitness(s[1..], pat);
      i := j + 1;
      assert s[1..][j..j + |pat|] == s[i..i + |pat|];
    }
  }

  /** A substring of a substring is a substring. */
  lemma ContainsTransitive(s: string, mid: string, pat: string)
    requires Contains(s, mid) && Contains(mid, pat)
    ensures Contains(s, pat)
  {
    var i := ContainsWitness(s, mid);
    var j := ContainsWitness(mid, pat);
    assert forall k :: 0 <= k < |pat| ==> s[i + j + k] == mid[j + k] == pat[k];
    assert s[i + j..i + j + |pat|] == pat;
    ContainsAt(s, pat, i + j);
  }

  /** A one-character substring is an element. */
  lemma ContainsChar(s: string, c: char)
    ensures Contains(s, [c]) <==> c in s
  {
    if Contains(s, [c]) {
      var i := ContainsWitness(s, [c]);
      assert s[i] == s[i..i + 1][0];
    }
    if c in s {
      var i :| 0 <= i < |s| && s[i] == c;
      assert s[i..i + 1] == [c];
      ContainsAt(s, [c], i);
    }
  }

  /** The characters Python's `str.isspace` accepts, which `strip()` and `split()` remove. */
  predicate IsSpace(c: char) {
    || c == ' '
    || ('\t' <= c <= '\r')
    || ('\U{1c}' <= c <= '\U{1f}')
    || c == '\U{85}' || c == '\U{a0}' || c == '\U{1680}'
    || ('\U{2000}' <= c <= '\U{200a}')
    || c == '\U{2028}' || c == '\U{2029}' || c == '\U{202f}' || c == '\U{205f}' || c == '\U{3000}'
  }

  /** `s.lstrip()` */
  function TrimStart(s: string): (r: string)
    ensures |r| <= |s| && r == s[|s| - |r|..]
    ensures r == [] || !IsSpace(r[0])
    ensures forall i :: 0 <= i < |s| - |r| ==> IsSpace(s[i])
    decreases |s|
  {
    if s != [] && IsSpace(s[0]) then TrimStart(s[1..]) else s
  }

  /** `s.rstrip()` */
  function TrimEnd(s: string): (r: string)
    ensures |r| <= |s| && r == s[..|r|]
    ensures r == [] || !IsSpace(r[|r| - 1])
    ensures forall i :: |r| <= i < |s| ==> IsSpace(s[i])
    decreases |s|
  {
    if s != [] && IsSpace(s[|s| - 1]) then TrimEnd(s[..|s| - 1]) else s
  }

  /** How many characters `s.lstrip()` removes. */
  function StripOffset(s: string): nat {
    |s| - |TrimStart(s)|
  }

  /** `s.strip()`: the largest slice of `s` that neither starts nor ends with whitespace, such that
      only whitespace was cut away. */
  function Strip(s: string): (r: string)
    ensures StripOffset(s) + |r| <= |s| && r == s[StripOffset(s)..StripOffset(s) + |r|]
    ensures forall k :: 0 <= k < StripOffset(s) ==> IsSpace(s[k])
    ensures forall k :: StripOffset(s) + |r| <= k < |s| ==> IsSpace(s[k])
    ensures r == [] || (!IsSpace(r[0]) && !IsSpace(r[|r| - 1]))
  {
    var t := TrimStart(s);
    var r := TrimEnd(t);
    TrimmedSlice(s, t, r);
    r
  }

  /** What is left after trimming both ends is a slice of the original, with only whitespace
      around it. */
  lemma TrimmedSlice(s: string, t: string, r: string)
    requires |t| <= |s| && t == s[|s| - |t|..] && |r| <= |t| && r == t[..|r|]
    requires forall k :: |r| <= k < |t| ==> IsSpace(t[k])
    ensures var i := |s| - |t|; r == s[i..i + |r|]
    ensures var i := |s| - |t|; forall k :: i + |r| <= k < |s| ==> IsSpace(s[k])
  {
    var i := |s| - |t|;
    forall k | i + |r| <= k < |s|
      ensures IsSpace(s[k])
    {
      assert s[k] == t[k - i];
    }
  }

  /** Text that neither starts nor ends with whitespace is left alone by `strip()`. */
  lemma StripUnchanged(s: string)
    requires s == [] || (!IsSpace(s[0]) && !IsSpace(s[|s| - 1]))
    ensures Strip(s) == s
  {
    assert TrimStart(s) == s;
    assert TrimEnd(s) == s;
  }

  /** Leading whitespace is what `strip()` removes first. */
  lemma StripLeading(c: char, s: string)
    requires IsSpace(c)
    ensures Strip([c] + s) == Strip(s)
  {
    assert ([c] + s)[1..] == s;
    assert TrimStart([c] + s) == TrimStart(s);
  }

  /** Text that starts with non-whitespace characters keeps them in front after `strip()`. */
  lemma StripKeepsPrefix(p: string, x: string)
    requires p != [] && forall i :: 0 <= i < |p| ==> !IsSpace(p[i])
    ensures StartsWith(Strip(p + x), p)
  {
    var s := p + x;
    assert s[0] == p[0];
    assert TrimStart(s) == s;
    var r := Strip(s);
    assert StripOffset(s) == 0;
    assert !IsSpace(s[|p| - 1]);
    assert |r| >= |p|;
    assert r[..|p|] == s[..|p|];
    assert s[..|p|] == p;
  }

  /** Leading whitespace is what `strip()` removes first. */
  lemma {:induction false} StripSpaces(w: string, s: string)
    requires forall i :: 0 <= i < |w| ==> IsSpace(w[i])
    ensures Strip(w + s) == Strip(s)
    decreases |w|
  {
    if w != [] {
      assert w + s == [w[0]] + (w[1..] + s);
      StripLeading(w[0], w[1..] + s);
      StripSpaces(w[1..], s);
    } else {
      assert w + s == s;
    }
  }

  /** `c.lower()` for the characters that lower-case to an ASCII letter alone: the ASCII capitals
      and the Kelvin sign, which becomes `k`. */
  function LowerChar(c: char): char {
    if 'A' <= c <= 'Z' then (c as int + 32) as char
    else if c == '\U{212A}' then 'k'
    else c
  }

  /** `s.lower()`, for the characters `LowerChar` maps; every other character is kept. */
  function Lower(s: string): (r: string)
    ensures |r| == |s|
  {
    seq(|s|, i requires 0 <= i < |s| => LowerChar(s[i]))
  }

  lemma LowerAppend(a: string, b: string)
    ensures Lower(a + b) == Lower(a) + Lower(b)
  {
    assert forall i :: 0 <= i < |a + b| ==> Lower(a + b)[i] == (Lower(a) + Lower(b))[i];
  }

  /** Lower-casing twice is lower-casing once. */
  lemma LowerIdempotent(s: string)
    ensures Lower(Lower(s)) == Lower(s)
  {
  }

  /** Text without ASCII capitals and without the Kelvin sign is already lower-case. */
  lemma LowerUnchanged(s: string)
    requires forall i :: 0 <= i < |s| ==> !('A' <= s[i] <= 'Z') && s[i] != '\U{212A}'
    ensures Lower(s) == s
  {
  }

  /** Lower-casing never turns whitespace into non-whitespace or back. */
  lemma LowerKeepsSpace(c: char)
    ensures IsSpace(LowerChar(c)) <==> IsSpace(c)
  {
  }

  /** The leading run of non-whitespace characters of `s`. */
  function Token(s: string): (r: string)
    ensures |r| <= |s| && r == s[..|r|]
    ensures forall i :: 0 <= i < |r| ==> !IsSpace(r[i])
    ensures |r| == |s| || IsSpace(s[|r|])
    decreases |s|
  {
    if s == [] || IsSpace(s[0]) then [] else [s[0]] + Token(s[1..])
  }

  /** A non-empty string without whitespace. */
  predicate IsWord(w: string) {
    w != [] && forall i :: 0 <= i < |w| ==> !IsSpace(w[i])
  }

  /** `s.split()` with no argument: the maximal runs of non-whitespace characters, in order. */
  function Words(s: string): (r: seq<string>)
    ensures forall k :: 0 <= k < |r| ==> IsWord(r[k])
    decreases |s|
  {
    var t := TrimStart(s);
    if t == [] then []
    else
      var w := Token(t);
      assert IsWord(w);
      var rest := t[|w|..];
      assert |rest| < |s|;
      var more := Words(rest);
      var r := [w] + more;
      assert forall k :: 0 <= k < |r| ==> IsWord(r[k]) by {
        forall k | 0 <= k < |r|
          ensures IsWord(r[k])
        {
          if k == 0 {
            assert r[k] == w;
          } else {
            assert r[k] == more[k - 1];
          }
        }
      }
      r
  }

  /** `sep.join(parts)` */
  function JoinWith(parts: seq<string>, sep: string): string
    decreases |parts|
  {
    if parts == [] then []
    else if |parts| == 1 then parts[0]
    else parts[0] + sep + JoinWith(parts[1..], sep)
  }

  /** The index of the first `c` in `s`: `s.index(c)`. */
  function IndexOf(s: string, c: char): (i: nat)
    requires c in s
    ensures i < |s| && s[i] == c && c !in s[..i]
    decreases |s|
  {
    if s[0] == c then 0 else 1 + IndexOf(s[1..], c)
  }

  /** The first occurrence is the one with no earlier occurrence. */
  lemma IndexOfUnique(s: string, c: char, i: nat)
    requires i < |s| && s[i] == c && c !in s[..i]
    ensures IndexOf(s, c) == i
  {
  }

  /** `s.split(sep)` for a one-character separator: the pieces between the separators. */
  function SplitOn(s: string, sep: char): (r: seq<string>)
    ensures |r| > 0
    decreases |s|
  {
    if sep !in s then [s]
    else
      var i := IndexOf(s, sep);
      [s[..i]] + SplitOn(s[i + 1..], sep)
  }

  /** The pieces hold no separator, and joined back with it they give `s` again. */
  lemma {:induction false} SplitOnJoins(s: string, sep: char)
    ensures var r := SplitOn(s, sep);
      (forall k :: 0 <= k < |r| ==> sep !in r[k]) && JoinWith(r, [sep]) == s
    decreases |s|
  {
    if sep in s {
      var i := IndexOf(s, sep);
      SplitOnJoins(s[i + 1..], sep);
      assert s == s[..i] + [sep] + s[i + 1..];
    }
  }

  /** Concatenation is associative; stated for any element type so that proofs about sequences of
      strings do not compare the strings themselves. */
  lemma ConcatAssoc<T>(x: seq<T>, y: seq<T>, z: seq<T>)
    ensures x + (y + z) == (x + y) + z
  {
  }

  /** A non-empty sequence is its head followed by its tail. */
  lemma ConsSplit<T>(x: seq<T>)
    requires x != []
    ensures [x[0]] + x[1..] == x
  {
  }

  /** A common first character does not change whether one text starts with another. */
  lemma StartsWithCons(c: char, s: string, p: string)
    ensures StartsWith([c] + s, [c] + p) <==> StartsWith(s, p)
  {
    if |p| <= |s| {
      PrefixCons([c] + s, [c] + p, |p| + 1);
      assert ([c] + s)[1..] == s && ([c] + p)[1..] == p;
      assert ([c] + p)[..|p| + 1] == [c] + p;
      assert p[..|p|] == p;
    }
  }

  /** Two sequences agree on their first `k` elements exactly when they agree on the first and
      then their tails agree on `k - 1`. */
  lemma PrefixCons<T>(a: seq<T>, b: seq<T>, k: nat)
    requires 1 <= k <= |a| && k <= |b|
    ensures a[..k] == b[..k] <==> a[0] == b[0] && a[1..][..k - 1] == b[1..][..k - 1]
  {
    assert a[..k] == [a[0]] + a[1..][..k - 1];
    assert b[..k] == [b[0]] + b[1..][..k - 1];
    if a[..k] == b[..k] {
      assert a[..k][0] == b[..k][0];
      assert a[..k][1..] == b[..k][1..];
    }
  }

  /** Dropping the last element of `a + b`, with `b` non-empty, drops it from `b`. */
  lemma DropLastAppend<T>(a: seq<T>, b: seq<T>)
    requires b != []
    ensures (a + b)[..|a + b| - 1] == a + b[..|b| - 1]
  {
  }

  lemma PairThen<T>(a: T, b: T, rest: seq<T>)
    ensures [a] + ([b] + rest) == [a, b] + rest
  {
  }

  lemma ConcatEmpty<T>(x: seq<T>)
    ensures x + [] == x && [] + x == x
  {
  }

  /** Text with a separator splits at its first one. */
  lemma SplitOnFirst(s: string, sep: char, i: nat)
    requires i < |s| && s[i] == sep && sep !in s[..i]
    ensures SplitOn(s, sep) == [s[..i]] + SplitOn(s[i + 1..], sep)
  {
    IndexOfUnique(s, sep, i);
  }

  /** Splitting text joined at a separator gives the pieces of each side. */
  lemma {:induction false} SplitOnAppend(a: string, b: string, sep: char)
    ensures SplitOn(a + [sep] + b, sep) == SplitOn(a, sep) + SplitOn(b, sep)
    decreases |a|
  {
    var s := a + [sep] + b;
    if sep !in a {
      assert s[..|a|] == a && s[|a| + 1..] == b;
      SplitOnFirst(s, sep, |a|);
    } else {
      var i := IndexOf(a, sep);
      var tail := a[i + 1..];
      assert s[..i] == a[..i] && s[i + 1..] == tail + [sep] + b;
      SplitOnFirst(s, sep, i);
      SplitOnFirst(a, sep, i);
      SplitOnAppend(tail, b, sep);
      ConcatAssoc([a[..i]], SplitOn(tail, sep), SplitOn(b, sep));
    }
  }

  /** Splitting undoes joining, for pieces without the separator. */
  lemma {:induction false} SplitJoin(parts: seq<string>, sep: char)
    requires parts != [] && forall k :: 0 <= k < |parts| ==> sep !in parts[k]
    ensures SplitOn(JoinWith(parts, [sep]), sep) == parts
    decreases |parts|
  {
    if |parts| > 1 {
      SplitJoin(parts[1..], sep);
      SplitOnAppend(parts[0], JoinWith(parts[1..], [sep]), sep);
      ConsSplit(parts);
    }
  }

  /** `s.replace(pat, rep)`: non-overlapping occurrences, found from the left. */
  function ReplaceAll(s: string, pat: string, rep: string): string
    requires pat != []
    decreases |s|
  {
    if s == [] then []
    else if StartsWith(s, pat) then rep + ReplaceAll(s[|pat|..], pat, rep)
    else [s[0]] + ReplaceAll(s[1..], pat, rep)
  }

  /** Replacing a pattern whose first character does not occur changes nothing. */
  lemma {:induction false} ReplaceAbsent(s: string, pat: string, rep: string)
    requires pat != [] && pat[0] !in s
    ensures ReplaceAll(s, pat, rep) == s
    decreases |s|
  {
    if s != [] {
      assert s[0] != pat[0];
      assert s[1..] == s[1..];
      ReplaceAbsent(s[1..], pat, rep);
    }
  }

  /** The first character of a replacement result: the replacement's, or the text's own. */
  lemma ReplaceHead(s: string, pat: string, rep: string)
    requires pat != [] && rep != [] && s != []
    ensures ReplaceAll(s, pat, rep) != []
    ensures ReplaceAll(s, pat, rep)[0] == (if StartsWith(s, pat) then rep[0] else s[0])
  {
  }

  lemma ContainsAppendRight(x: string, y: string, pat: string)
    requires Contains(y, pat)
    ensures Contains(x + y, pat)
  {
    var i := ContainsWitness(y, pat);
    assert (x + y)[|x| + i..|x| + i + |pat|] == y[i..i + |pat|];
    ContainsAt(x + y, pat, |x| + i);
  }

  /** A two-character pattern occurs in `x + y` only inside `x`, inside `y`, or across the seam. */
  lemma {:induction false} PairAcrossSeam(x: string, y: string, pat: string)
    requires |pat| == 2 && !Contains(x, pat) && !Contains(y, pat)
    requires x == [] || y == [] || x[|x| - 1] != pat[0] || y[0] != pat[1]
    ensures !Contains(x + y, pat)
    decreases |x|
  {
    if x != [] {
      assert (x + y)[1..] == x[1..] + y;
      assert !Contains(x[1..], pat);
      if x[1..] == [] {
        assert x[1..] + y == y;
      } else {
        assert x[1..][|x[1..]| - 1] == x[|x| - 1];
        PairAcrossSeam(x[1..], y, pat);
      }
      if |x| >= 2 {
        assert (x + y)[..2] == x[..2];
      }
    } else {
      assert x + y == y;
    }
  }

  /** A pattern whose first character does not occur does not occur. */
  lemma {:induction false} LacksFirstChar(s: string, pat: string)
    requires pat != [] && pat[0] !in s
    ensures !Contains(s, pat)
    decreases |s|
  {
    if s != [] {
      assert s[0] != pat[0];
      LacksFirstChar(s[1..], pat);
    }
  }

  /** A pattern with a character that does not occur does not occur. */
  lemma {:induction false} LacksSomeChar(s: string, pat: string, j: nat)
    requires j < |pat| && pat[j] !in s
    ensures !Contains(s, pat)
    decreases |s|
  {
    if s != [] {
      assert |pat| > |s| || s[..|pat|][j] != pat[j];
      assert pat[j] !in s[1..];
      LacksSomeChar(s[1..], pat, j);
    }
  }

  /** Nor does a text whose first character is the only place it could hold `pat[j]`, for `j > 0`. */
  lemma LacksSomeCharPast(s: string, pat: string, j: nat)
    requires 0 < j < |pat| && s != [] && pat[j] !in s[1..]
    ensures !Contains(s, pat)
  {
    if |pat| <= |s| {
      assert s[..|pat|][j] == s[1..][j - 1];
    }
    LacksSomeChar(s[1..], pat, j);
  }

  /** Replacing a two-character pattern by text that holds neither of its characters leaves no
      occurrence of it behind. */
  lemma {:induction false} ReplaceRemovesPair(s: string, pat: string, rep: string)
    requires |pat| == 2 && rep != [] && pat[0] !in rep && pat[1] !in rep
    ensures !Contains(ReplaceAll(s, pat, rep), pat)
    decreases |s|
  {
    if s != [] {
      LacksFirstChar(rep, pat);
      if StartsWith(s, pat) {
        ReplaceRemovesPair(s[|pat|..], pat, rep);
        var rest := ReplaceAll(s[|pat|..], pat, rep);
        PairAcrossSeam(rep, rest, pat);
      } else {
        ReplaceRemovesPair(s[1..], pat, rep);
        var rest := ReplaceAll(s[1..], pat, rep);
        if s[1..] != [] {
          ReplaceHead(s[1..], pat, rep);
          if StartsWith(s[1..], pat) {
            assert rest[0] == rep[0];
          } else {
            assert rest[0] == s[1];
            assert s[..2] == [s[0], s[1]];
          }
        }
        PairAcrossSeam([s[0]], rest, pat);
      }
    }
  }

  /** Replacing `ab` keeps every `ac` (with `c` neither `a` nor `b`, and `a` different from `b`):
      the replacement never consumes it. */
  lemma {:induction false} ReplaceKeepsSibling(s: string, pat: string, other: string, rep: string)
    requires |pat| == 2 && |other| == 2 && pat[0] == other[0] && pat[1] != other[1]
    requires other[1] != pat[0] && pat[1] != pat[0]
    requires Contains(s, other)
    ensures Contains(ReplaceAll(s, pat, rep), other)
    decreases |s|
  {
    if StartsWith(s, other) {
      assert !StartsWith(s, pat);
      var t := s[1..];
      assert t != [] && t[0] == other[1];
      assert !StartsWith(t, pat);
      var r := ReplaceAll(s, pat, rep);
      assert r == [s[0]] + ([t[0]] + ReplaceAll(t[1..], pat, rep));
      assert r[..2] == other;
    } else {
      assert Contains(s[1..], other);
      if StartsWith(s, pat) {
        assert s[1] == pat[1];
        assert !StartsWith(s[1..], other);
        assert s[1..][1..] == s[2..];
        assert Contains(s[2..], other);
        ReplaceKeepsSibling(s[2..], pat, other, rep);
        ContainsAppendRight(rep, ReplaceAll(s[2..], pat, rep), other);
      } else {
        ReplaceKeepsSibling(s[1..], pat, other, rep);
        ContainsAppendRight([s[0]], ReplaceAll(s[1..], pat, rep), other);
      }
    }
  }

  /** The number of positions at which `pat` occurs in `s`. */
  function Count(s: string, pat: string): nat
    decreases |s|
  {
    if |s| < |pat| || s == [] then 0
    else (if s[..|pat|] == pat then 1 else 0) + Count(s[1..], pat)
  }

  /** A two-character pattern occurs at the front of `[c] + x` exactly when `c` and the first
      character of `x` spell it. */
  lemma CountCons(c: char, x: string, pat: string)
    requires |pat| == 2
    ensures Count([c] + x, pat) == (if c == pat[0] && x != [] && x[0] == pat[1] then 1 else 0) + Count(x, pat)
  {
    var s := [c] + x;
    assert s[1..] == x;
    if x != [] {
      assert s[..2] == [c, x[0]];
    }
  }

  /** A prefix without the pattern's first character adds no occurrence of a two-character
      pattern. */
  lemma {:induction false} CountPrefixFree(p: string, x: string, pat: string)
    requires |pat| == 2 && pat[0] !in p
    ensures Count(p + x, pat) == Count(x, pat)
    decreases |p|
  {
    if p != [] {
      assert p + x == [p[0]] + (p[1..] + x);
      CountCons(p[0], p[1..] + x, pat);
      CountPrefixFree(p[1..], x, pat);
    } else {
      assert p + x == x;
    }
  }

  /** Replacing `ab` by text holding neither `a` nor `c` leaves the number of `ac` as it was (with
      `c` neither `a` nor `b`, and `a` different from `b`): no `ac` is consumed, none is formed. */
  lemma {:induction false} ReplaceKeepsCount(s: string, pat: string, other: string, rep: string)
    requires |pat| == 2 && |other| == 2 && pat[0] == other[0] && pat[1] != other[1]
    requires other[1] != pat[0] && pat[1] != pat[0]
    requires rep != [] && other[0] !in rep && other[1] !in rep
    ensures Count(ReplaceAll(s, pat, rep), other) == Count(s, other)
    decreases |s|
  {
    if s == [] {
    } else if StartsWith(s, pat) {
      var rest := s[2..];
      assert ReplaceAll(s, pat, rep) == rep + ReplaceAll(rest, pat, rep);
      CountPrefixFree(rep, ReplaceAll(rest, pat, rep), other);
      ReplaceKeepsCount(rest, pat, other, rep);
      assert s == [s[0]] + ([s[1]] + rest) by { assert s[..2] == pat; }
      CountCons(s[0], [s[1]] + rest, other);
      CountCons(s[1], rest, other);
    } else {
      var tail := s[1..];
      var r := ReplaceAll(tail, pat, rep);
      assert ReplaceAll(s, pat, rep) == [s[0]] + r;
      ReplaceKeepsCount(tail, pat, other, rep);
      assert s == [s[0]] + tail;
      CountCons(s[0], r, other);
      CountCons(s[0], tail, other);
      if tail != [] {
        ReplaceHead(tail, pat, rep);
      }
    }
  }

  /** A prefix without the pattern's first character passes through a replacement untouched. */
  lemma {:induction false} ReplacePrefix(p: string, x: string, pat: string, rep: string)
    requires pat != [] && pat[0] !in p
    ensures ReplaceAll(p + x, pat, rep) == p + ReplaceAll(x, pat, rep)
    decreases |p|
  {
    if p == [] {
      assert p + x == x;
    } else {
      assert (p + x)[0] == p[0];
      assert !StartsWith(p + x, pat);
      assert (p + x)[1..] == p[1..] + x;
      ReplacePrefix(p[1..], x, pat, rep);
      assert p == [p[0]] + p[1..];
    }
  }

  predicate IsQuote(c: char) {
    c == '"' || c == '\''
  }

  /** The test `(v.startswith('"') and v.endswith('"')) or (v.startswith("'") and v.endswith("'"))`. */
  predicate QuotedBoth(v: string) {
    |v| >= 1 && IsQuote(v[0]) && v[|v| - 1] == v[0]
  }

  /** `v[1:-1]` when `v` is wrapped in one kind of quote; a lone quote character becomes empty,
      as Python's slice does. */
  function StripOuterQuotes(v: string): (r: string)
    ensures QuotedBoth(v) && |v| >= 2 ==> v == [v[0]] + r + [v[0]]
    ensures QuotedBoth(v) && |v| == 1 ==> r == []
    ensures !QuotedBoth(v) ==> r == v
  {
    if QuotedBoth(v) then (if |v| >= 2 then v[1..|v| - 1] else []) else v
  }

  /** `s.strip()` is empty exactly when `s` is only whitespace. */
  lemma StripEmptyIff(s: string)
    ensures Strip(s) == [] <==> forall i :: 0 <= i < |s| ==> IsSpace(s[i])
  {
    var r := Strip(s);
    if r != [] {
      assert s[StripOffset(s)] == r[0];
    }
  }

  /** A string of only whitespace has no words. */
  lemma OnlySpaceNoWords(s: string)
    requires forall i :: 0 <= i < |s| ==> IsSpace(s[i])
    ensures Words(s) == []
  {
  }
}
