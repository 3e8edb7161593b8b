/** `parse_input_string`: the loose `key=value, key='text, with commas'` blob a tool receives,
    turned into a key/value map. The loop over characters is `SplitSegments`; `ScanOf` is the
    state that loop has reached after a prefix of the text. */
module ArgParser {
  import opened Text
  import opened Wrappers

  type ArgMap = map<string, string>

  /** What a tool callable is handed: a dictionary (returned unchanged) or raw text. */
  datatype ToolInput = Mapping(args: ArgMap) | Raw(text: string)

  /** `kwargs.get(key, default)` */
  function Get(args: ArgMap, key: string, default: string): string {
    if key in args then args[key] else default
  }

  /** `kwargs.get(key)`, with Python's `None` as `Wrappers.None`. */
  function Lookup(args: ArgMap, key: string): Option<string> {
    if key in args then Some(args[key]) else None
  }

  /** `not kwargs.get(key)`: the argument is absent or the empty string. */
  predicate Missing(args: ArgMap, key: string) {
    key !in args || args[key] == []
  }

  // ---------------------------------------------------------------------------------------------
  // Quote tracking and segment splitting

  /** The quote that is open after reading `s` from the left (`quote_char` while `in_quotes`):
      a quote character opens a quote when none is open, and only the same character closes it.
      Commas never change it. */
  function OpenQuote(s: string): Option<char>
    decreases |s|
  {
    if s == [] then None
    else
      var q := OpenQuote(s[..|s| - 1]);
      var c := s[|s| - 1];
      if !IsQuote(c) then q
      else if q.None? then Some(c)
      else if c == q.value then None
      else q
  }

  /** The loop's `pairs` and `current` after some prefix of the text. */
  datatype Scan = Scan(pairs: seq<string>, current: string)

  /** The state after reading `s`: a comma read while no quote is open closes the current
      segment; every other character, quotes included, is appended to it. */
  function ScanOf(s: string): Scan
    decreases |s|
  {
    if s == [] then Scan([], [])
    else
      var p := s[..|s| - 1];
      var st := ScanOf(p);
      if s[|s| - 1] == ',' && OpenQuote(p).None? then Scan(st.pairs + [st.current], [])
      else Scan(st.pairs, st.current + [s[|s| - 1]])
  }

  /** The segments the loop produces: the closed ones, and the last one when it is non-empty. */
  function Segments(s: string): seq<string> {
    var st := ScanOf(s);
    if st.current != [] then st.pairs + [st.current] else st.pairs
  }

  /** The character loop of `parse_input_string`. */
  method SplitSegments(s: string) returns (pairs: seq<string>)
    ensures pairs == Segments(s)
  {
    pairs := [];
    var current: string := [];
    var inQuotes := false;
    var quoteChar: Option<char> := None;
    for i := 0 to |s|
      invariant ScanOf(s[..i]) == Scan(pairs, current)
      invariant inQuotes <==> OpenQuote(s[..i]).Some?
      invariant inQuotes ==> quoteChar == OpenQuote(s[..i])
    {
      var c := s[i];
      assert s[..i + 1][..i] == s[..i];
      if IsQuote(c) {
        if !inQuotes {
          inQuotes := true;
          quoteChar := Some(c);
        } else if Some(c) == quoteChar {
          inQuotes := false;
        }
      } else if c == ',' && !inQuotes {
        pairs := pairs + [current];
        current := [];
        continue;
      }
      current := current + [c];
    }
    assert s[..|s|] == s;
    if current != [] {
      pairs := pairs + [current];
    }
  }

  /** Index `i` holds a comma read while no quote is open: the parser splits there. */
  predicate SplitsAt(s: string, i: nat)
    requires i < |s|
  {
    s[i] == ',' && OpenQuote(s[..i]).None?
  }

  /** The positions the parser splits at, in increasing order. */
  function Cuts(s: string): (r: seq<nat>)
    ensures forall k :: 0 <= k < |r| ==> r[k] < |s|
    ensures forall k, l :: 0 <= k < l < |r| ==> r[k] < r[l]
    ensures forall i :: 0 <= i < |s| ==> (SplitsAt(s, i) <==> i in r)
    decreases |s|
  {
    if s == [] then []
    else
      var p := s[..|s| - 1];
      var c := Cuts(p);
      assert forall i :: 0 <= i < |p| ==> s[..i] == p[..i];
      if SplitsAt(s, |p|) then c + [|p|] else c
  }

  /** Where segment `k` starts: just after the previous cut. */
  function PieceStart(c: seq<nat>, k: nat): nat
    requires k <= |c|
  {
    if k == 0 then 0 else c[k - 1] + 1
  }

  /** The scan state `st` cuts `s` at the positions `c`: each closed segment is the text between
      two consecutive cuts, and the open segment is the text after the last cut. */
  predicate CutsMatch(s: string, st: Scan, c: seq<nat>) {
    && |st.pairs| == |c|
    && (forall k {:trigger st.pairs[k]} :: 0 <= k < |c| ==> PieceStart(c, k) <= c[k] <= |s| && st.pairs[k] == s[PieceStart(c, k)..c[k]])
    && PieceStart(c, |c|) <= |s| && st.current == s[PieceStart(c, |c|)..]
  }

  lemma PieceStartAppend(cs: seq<nat>, x: nat, k: nat)
    requires k <= |cs|
    ensures PieceStart(cs + [x], k) == PieceStart(cs, k)
  {
    if k > 0 {
      assert (cs + [x])[k - 1] == cs[k - 1];
    }
  }

  lemma CutsMatchSplit(p: string, c: char, st: Scan, cs: seq<nat>)
    requires CutsMatch(p, st, cs)
    ensures CutsMatch(p + [c], Scan(st.pairs + [st.current], []), cs + [|p|])
  {
    var s, cs', pairs' := p + [c], cs + [|p|], st.pairs + [st.current];
    forall k | 0 <= k < |cs'|
      ensures PieceStart(cs', k) <= cs'[k] <= |s| && pairs'[k] == s[PieceStart(cs', k)..cs'[k]]
    {
      PieceStartAppend(cs, |p|, k);
      var a := PieceStart(cs, k);
      if k < |cs| {
        var piece := st.pairs[k];
      }
      if k < |cs| {
        assert cs'[k] == cs[k] && pairs'[k] == st.pairs[k];
        assert st.pairs[k] == p[a..cs[k]];
        assert s[a..cs[k]] == p[a..cs[k]];
      } else {
        assert cs'[k] == |p| && pairs'[k] == st.current;
        assert st.current == p[a..];
        assert s[a..|p|] == p[a..];
      }
    }
    assert PieceStart(cs', |cs'|) == |s|;
  }

  lemma CutsMatchExtend(p: string, c: char, st: Scan, cs: seq<nat>)
    requires CutsMatch(p, st, cs)
    ensures CutsMatch(p + [c], Scan(st.pairs, st.current + [c]), cs)
  {
    var s := p + [c];
    forall k | 0 <= k < |cs|
      ensures PieceStart(cs, k) <= cs[k] <= |s| && st.pairs[k] == s[PieceStart(cs, k)..cs[k]]
    {
      var piece, a := st.pairs[k], PieceStart(cs, k);
      assert piece == p[a..cs[k]];
      assert s[a..cs[k]] == p[a..cs[k]];
    }
    assert s[PieceStart(cs, |cs|)..] == p[PieceStart(cs, |cs|)..] + [c];
  }

  /** The closed segments are exactly the text between consecutive unquoted commas, and the open
      one is the text after the last of them: nothing is dropped or altered, quote characters
      included, and only those commas are removed. */
  lemma {:induction false} ScanPieces(s: string)
    ensures CutsMatch(s, ScanOf(s), Cuts(s))
    decreases |s|
  {
    if s != [] {
      var p, c := s[..|s| - 1], s[|s| - 1];
      assert s == p + [c];
      ScanPieces(p);
      if SplitsAt(s, |p|) {
        CutsMatchSplit(p, c, ScanOf(p), Cuts(p));
      } else {
        CutsMatchExtend(p, c, ScanOf(p), Cuts(p));
      }
    }
  }

  /** Once a quote opened by `q` is open, characters other than `q` never end it: not the other
      quote character, not a comma. */
  lemma {:induction false} QuoteStaysOpen(p: string, t: string, q: char)
    requires OpenQuote(p) == Some(q) && q !in t
    ensures OpenQuote(p + t) == Some(q)
    decreases |t|
  {
    if t != [] {
      var t', c := t[..|t| - 1], t[|t| - 1];
      assert t == t' + [c];
      assert q !in t' && c != q;
      QuoteStaysOpen(p, t', q);
      var u := p + t;
      assert u[..|u| - 1] == p + t';
      assert u[|u| - 1] == c;
      assert OpenQuote(u) == (if !IsQuote(c) then OpenQuote(p + t') else if OpenQuote(p + t').None? then Some(c) else if c == OpenQuote(p + t').value then None else OpenQuote(p + t'));
    } else {
      assert p + t == p;
    }
  }

  /** Inside an open quote, text is appended to the current segment whole, commas included. */
  lemma {:induction false} ScanInsideQuote(p: string, t: string, q: char)
    requires OpenQuote(p) == Some(q) && q !in t
    ensures ScanOf(p + t) == Scan(ScanOf(p).pairs, ScanOf(p).current + t)
    decreases |t|
  {
    if t != [] {
      var t', c := t[..|t| - 1], t[|t| - 1];
      assert t == t' + [c];
      assert q !in t';
      ScanInsideQuote(p, t', q);
      QuoteStaysOpen(p, t', q);
      assert (p + t)[..|p + t| - 1] == p + t';
      assert (p + t)[|p + t| - 1] == c;
      assert ScanOf(p).current + t' + [c] == ScanOf(p).current + t;
    } else {
      assert p + t == p;
    }
  }

  /** Text without commas or quote characters is appended to the current segment and leaves the
      quote state alone. */
  lemma {:induction false} ScanPlain(p: string, t: string)
    requires ',' !in t && '"' !in t && '\'' !in t
    ensures OpenQuote(p + t) == OpenQuote(p)
    ensures ScanOf(p + t) == Scan(ScanOf(p).pairs, ScanOf(p).current + t)
    decreases |t|
  {
    if t != [] {
      var t', c := t[..|t| - 1], t[|t| - 1];
      assert t == t' + [c];
      assert ',' !in t' && '"' !in t' && '\'' !in t';
      assert c != ',' && !IsQuote(c);
      ScanPlain(p, t');
      assert (p + t)[..|p + t| - 1] == p + t';
      assert (p + t)[|p + t| - 1] == c;
      assert ScanOf(p).current + t' + [c] == ScanOf(p).current + t;
    } else {
      assert p + t == p;
    }
  }

  // ---------------------------------------------------------------------------------------------
  // Keys and values

  /** `seg.split('=', 1)` */
  function SplitPair(seg: string): (r: (string, string))
    requires '=' in seg
    ensures seg == r.0 + "=" + r.1 && '=' !in r.0
  {
    var i := IndexOf(seg, '=');
    assert seg == seg[..i] + "=" + seg[i + 1..];
    (seg[..i], seg[i + 1..])
  }

  /** The key stored for a segment: the stripped text before its first `=`. */
  function KeyOf(seg: string): string
    requires '=' in seg
  {
    Strip(SplitPair(seg).0)
  }

  /** The value stored for a segment: the text after its first `=`, stripped, then one layer of
      matching quotes removed. */
  function ValueOf(seg: string): string
    requires '=' in seg
  {
    StripOuterQuotes(Strip(SplitPair(seg).1))
  }

  /** Segment `seg` assigns `key`. */
  predicate Defines(seg: string, key: string) {
    '=' in seg && KeyOf(seg) == key
  }

  /** The dictionary the second loop builds: segments without `=` are skipped, later ones
      overwrite earlier ones. */
  function Collected(pairs: seq<string>): ArgMap
    decreases |pairs|
  {
    if pairs == [] then map[]
    else
      var m := Collected(pairs[..|pairs| - 1]);
      var seg := pairs[|pairs| - 1];
      if '=' in seg then m[KeyOf(seg) := ValueOf(seg)] else m
  }

  /** A key is present exactly when some segment assigns it. */
  lemma {:induction false} CollectedKeys(pairs: seq<string>, key: string)
    ensures key in Collected(pairs) <==> exists i :: 0 <= i < |pairs| && Defines(pairs[i], key)
    decreases |pairs|
  {
    if pairs != [] {
      var init, seg := pairs[..|pairs| - 1], pairs[|pairs| - 1];
      CollectedKeys(init, key);
      assert forall i :: 0 <= i < |init| ==> init[i] == pairs[i];
      if Defines(seg, key) {
        assert Defines(pairs[|pairs| - 1], key);
      } else {
        assert key in Collected(pairs) <==> key in Collected(init);
      }
    }
  }

  /** A key holds the value of the last segment that assigns it. */
  lemma {:induction false} CollectedLast(pairs: seq<string>, key: string, i: nat)
    requires i < |pairs| && Defines(pairs[i], key)
    requires forall j :: i < j < |pairs| ==> !Defines(pairs[j], key)
    ensures key in Collected(pairs) && Collected(pairs)[key] == ValueOf(pairs[i])
    decreases |pairs|
  {
    var init, seg := pairs[..|pairs| - 1], pairs[|pairs| - 1];
    if i < |pairs| - 1 {
      assert init[i] == pairs[i];
      assert forall j :: i < j < |init| ==> !Defines(init[j], key);
      CollectedLast(init, key, i);
      assert !Defines(seg, key);
    } else {
      assert seg == pairs[i];
    }
  }

  /** The dictionary loop of `parse_input_string`. */
  method CollectPairs(pairs: seq<string>) returns (parts: ArgMap)
    ensures parts == Collected(pairs)
  {
    parts := map[];
    for i := 0 to |pairs|
      invariant parts == Collected(pairs[..i])
    {
      assert pairs[..i + 1][..i] == pairs[..i];
      var seg := pairs[i];
      if '=' in seg {
        var (key, value) := SplitPair(seg);
        value := Strip(value);
        value := StripOuterQuotes(value);
        parts := parts[Strip(key) := value];
      }
    }
    assert pairs[..|pairs|] == pairs;
  }

  /** What `parse_input_string` returns for text. */
  function Parsed(s: string): ArgMap {
    if '=' !in s then map["input" := s] else Collected(Segments(s))
  }

  /** `parse_input_string` */
  method ParseInput(input: ToolInput) returns (parts: ArgMap)
    ensures input.Mapping? ==> parts == input.args
    ensures input.Raw? && '=' !in input.text ==> parts == map["input" := input.text]
    ensures input.Raw? && '=' in input.text ==> parts == Collected(Segments(input.text))
  {
    match input
    case Mapping(args) =>
      parts := args;
    case Raw(text) =>
      if '=' !in text {
        return map["input" := text];
      }
      var pairs := SplitSegments(text);
      parts := CollectPairs(pairs);
  }

  /** Text with an `=` yields exactly the keys its segments assign. */
  lemma ParsedKeys(s: string, key: string)
    requires '=' in s
    ensures key in Parsed(s) <==> exists i :: 0 <= i < |Segments(s)| && Defines(Segments(s)[i], key)
  {
    CollectedKeys(Segments(s), key);
  }

  /** Text without `=` yields the single key `input`, so no named argument is ever present. */
  lemma ParsedWithoutEquals(s: string)
    requires '=' !in s
    ensures Parsed(s).Keys == {"input"} && Parsed(s)["input"] == s
  {
  }

  /** A quoted value keeps its commas: `a, b'c'` splits once, after `a`, whatever `c` holds
      besides the closing quote. */
  lemma QuotedCommaKept(a: string, b: string, q: char, c: string)
    requires ',' !in a && '"' !in a && '\'' !in a
    requires ',' !in b && '"' !in b && '\'' !in b
    requires IsQuote(q) && q !in c
    ensures Segments(a + "," + b + [q] + c + [q]) == [a, b + [q] + c + [q]]
  {
    ScanPlain([], a);
    assert [] + a == a;
    var p1 := a + ",";
    assert p1[..|p1| - 1] == a;
    assert ScanOf(p1) == Scan([a], []);
    ScanPlain(p1, b);
    var p2 := p1 + b + [q];
    assert p2[..|p2| - 1] == p1 + b;
    assert OpenQuote(p2) == Some(q);
    assert ScanOf(p2) == Scan([a], b + [q]);
    ScanInsideQuote(p2, c, q);
    var p3 := p2 + c + [q];
    assert p3[..|p3| - 1] == p2 + c;
    assert ScanOf(p3) == Scan([a], b + [q] + c + [q]);
    assert p3 == a + "," + b + [q] + c + [q];
  }

  /** The split happens at the first `=`: the key part never holds one, the value part may. */
  lemma SplitPairOf(k: string, v: string)
    requires '=' !in k
    ensures '=' in k + "=" + v
    ensures SplitPair(k + "=" + v).0 == k && SplitPair(k + "=" + v).1 == v
  {
    var seg := k + "=" + v;
    assert seg[|k|] == '=';
    assert seg[..|k|] == k;
    IndexOfUnique(seg, '=', |k|);
    assert seg[|k| + 1..] == v;
  }

  /** A bare word: no separator, quote, `=` or whitespace. */
  predicate Plain(w: string) {
    forall i :: 0 <= i < |w| ==> w[i] != ',' && w[i] != '=' && !IsQuote(w[i]) && !IsSpace(w[i])
  }

  /** `k=v` with bare words stores `v` under `k`. */
  lemma BarePair(k: string, v: string)
    requires Plain(k) && Plain(v)
    ensures '=' in k + "=" + v && KeyOf(k + "=" + v) == k && ValueOf(k + "=" + v) == v
  {
    SplitPairOf(k, v);
    assert k == [] || (!IsSpace(k[0]) && !IsSpace(k[|k| - 1]));
    StripUnchanged(k);
    assert v == [] || (!IsSpace(v[0]) && !IsSpace(v[|v| - 1]) && !IsQuote(v[0]));
    StripUnchanged(v);
    assert !QuotedBoth(v);
  }

  /** ` k='text'` stores its value under `k`, the leading space stripped. */
  lemma QuotedPairKey(k: string, q: char, text: string)
    requires Plain(k) && IsQuote(q)
    ensures '=' in " " + k + "=" + ([q] + text + [q])
    ensures KeyOf(" " + k + "=" + ([q] + text + [q])) == k
  {
    var v := [q] + text + [q];
    assert '=' !in " " + k;
    SplitPairOf(" " + k, v);
    assert " " + k == [' '] + k;
    StripLeading(' ', k);
    StripUnchanged(k);
  }

  /** ` k='text'` stores `text` without its quotes, whatever `text` holds. */
  lemma QuotedPairValue(k: string, q: char, text: string)
    requires Plain(k) && IsQuote(q)
    ensures '=' in " " + k + "=" + ([q] + text + [q])
    ensures ValueOf(" " + k + "=" + ([q] + text + [q])) == text
  {
    var v := [q] + text + [q];
    assert '=' !in " " + k;
    SplitPairOf(" " + k, v);
    StripUnchanged(v);
    assert v[1..|v| - 1] == text;
  }

  /** The text `k=v, k2='text'` splits into the two assignments, at the comma outside quotes. */
  lemma TwoPairSegments(k: string, v: string, k2: string, q: char, text: string)
    requires Plain(k) && Plain(v) && Plain(k2)
    requires IsQuote(q) && q !in text
    ensures Segments(k + "=" + v + ", " + k2 + "=" + [q] + text + [q])
         == [k + "=" + v, " " + k2 + "=" + ([q] + text + [q])]
  {
    var a, b := k + "=" + v, " " + k2 + "=";
    assert k + "=" + v + ", " + k2 + "=" + [q] + text + [q] == a + "," + b + [q] + text + [q];
    assert forall i :: 0 <= i < |a| ==> a[i] == (if i < |k| then k[i] else if i == |k| then '=' else v[i - |k| - 1]);
    assert forall i :: 0 <= i < |b| ==> b[i] == (if i == 0 then ' ' else if i <= |k2| then k2[i - 1] else '=');
    QuotedCommaKept(a, b, q, text);
    assert b + [q] + text + [q] == " " + k2 + "=" + ([q] + text + [q]);
  }

  /** Two assignments in a row: the second one is applied last. */
  lemma CollectedTwo(a: string, b: string)
    requires '=' in a && '=' in b
    ensures Collected([a, b]) == map[KeyOf(a) := ValueOf(a)][KeyOf(b) := ValueOf(b)]
  {
    assert [a, b][..1] == [a] && [a, b][1] == b;
    assert [a][..0] == [] && [a][0] == a;
    assert Collected([a]) == map[KeyOf(a) := ValueOf(a)];
  }

  /** `k=v, k2='text'`: a bare pair and a quoted pair after a comma and a space give exactly the
      two entries, the quotes removed and any commas inside them kept. */
  lemma ParseTwoPairs(k: string, v: string, k2: string, q: char, text: string)
    requires Plain(k) && Plain(v) && Plain(k2)
    requires IsQuote(q) && q !in text
    ensures Parsed(k + "=" + v + ", " + k2 + "=" + [q] + text + [q]) == map[k := v][k2 := text]
  {
    var s := k + "=" + v + ", " + k2 + "=" + [q] + text + [q];
    var a, seg := k + "=" + v, " " + k2 + "=" + ([q] + text + [q]);
    assert Parsed(s) == Collected([a, seg]) by {
      TwoPairSegments(k, v, k2, q, text);
      assert s[|k|] == '=';
    }
    assert '=' in a && KeyOf(a) == k && ValueOf(a) == v by {
      BarePair(k, v);
    }
    assert '=' in seg && KeyOf(seg) == k2 && ValueOf(seg) == text by {
      QuotedPairKey(k2, q, text);
      QuotedPairValue(k2, q, text);
    }
    CollectedTwo(a, seg);
  }
}
