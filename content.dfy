/** `clean_content`: the normalisation applied to text before it is written to a file. One layer
    of matching quotes goes, every literal backslash-n becomes a newline, and only in text that
    looks like an HTML document are literal backslash-t and backslash-r converted too. */
module Content {
  import opened Text

  /** The escape sequences the normaliser looks for: a backslash and one letter. */
  const EscapedNewline: string := ['\\', 'n']
  const EscapedTab: string := ['\\', 't']
  const EscapedReturn: string := ['\\', 'r']

  /** The markup test: the stripped text starts with `<!DOCTYPE` or `<html`, exactly as spelt. */
  predicate LooksLikeMarkup(s: string) {
    StartsWith(Strip(s), "<!DOCTYPE") || StartsWith(Strip(s), "<html")
  }

  /** The text after its outer quotes are gone and its literal backslash-n are newlines. */
  function WithNewlines(content: string): string {
    ReplaceAll(StripOuterQuotes(content), EscapedNewline, "\n")
  }

  /** `clean_content` for a string argument. */
  function CleanContent(content: string): string {
    var lines := WithNewlines(content);
    if LooksLikeMarkup(lines) then ReplaceAll(ReplaceAll(lines, EscapedTab, "\t"), EscapedReturn, [])
    else lines
  }

  /** Outside markup, no literal backslash-n survives cleaning. */
  lemma NoEscapedNewlineOutsideMarkup(content: string)
    requires !LooksLikeMarkup(WithNewlines(content))
    ensures !Contains(CleanContent(content), EscapedNewline)
  {
    ReplaceRemovesPair(StripOuterQuotes(content), EscapedNewline, "\n");
  }

  /** After the newline pass no literal backslash-n is left, whatever the text. */
  lemma NoEscapedNewlineAfterFirstPass(content: string)
    ensures !Contains(WithNewlines(content), EscapedNewline)
  {
    ReplaceRemovesPair(StripOuterQuotes(content), EscapedNewline, "\n");
  }

  /** Outside markup, every literal backslash-t of the unquoted text is still there and no new one
      appears: the cleaned text has exactly as many. */
  lemma TabsCountedOutsideMarkup(content: string)
    requires !LooksLikeMarkup(WithNewlines(content))
    ensures Count(CleanContent(content), EscapedTab) == Count(StripOuterQuotes(content), EscapedTab)
  {
    ReplaceKeepsCount(StripOuterQuotes(content), EscapedNewline, EscapedTab, "\n");
  }

  /** Outside markup, every literal backslash-r of the unquoted text is still there and no new one
      appears: the cleaned text has exactly as many. */
  lemma ReturnsCountedOutsideMarkup(content: string)
    requires !LooksLikeMarkup(WithNewlines(content))
    ensures Count(CleanContent(content), EscapedReturn) == Count(StripOuterQuotes(content), EscapedReturn)
  {
    ReplaceKeepsCount(StripOuterQuotes(content), EscapedNewline, EscapedReturn, "\n");
  }

  /** Outside markup, a literal backslash-t of the unquoted text is still there. */
  lemma TabsKeptOutsideMarkup(content: string)
    requires !LooksLikeMarkup(WithNewlines(content))
    requires Contains(StripOuterQuotes(content), EscapedTab)
    ensures Contains(CleanContent(content), EscapedTab)
  {
    ReplaceKeepsSibling(StripOuterQuotes(content), EscapedNewline, EscapedTab, "\n");
  }

  /** Outside markup, a literal backslash-r of the unquoted text is still there. */
  lemma ReturnsKeptOutsideMarkup(content: string)
    requires !LooksLikeMarkup(WithNewlines(content))
    requires Contains(StripOuterQuotes(content), EscapedReturn)
    ensures Contains(CleanContent(content), EscapedReturn)
  {
    ReplaceKeepsSibling(StripOuterQuotes(content), EscapedNewline, EscapedReturn, "\n");
  }

  /** Text without a backslash only loses its outer quotes. */
  lemma CleanWithoutBackslash(content: string)
    requires '\\' !in content
    ensures CleanContent(content) == StripOuterQuotes(content)
  {
    var u := StripOuterQuotes(content);
    assert '\\' !in u by {
      if QuotedBoth(content) && |content| >= 2 {
        assert content == [content[0]] + u + [content[0]];
      }
    }
    ReplaceAbsent(u, EscapedNewline, "\n");
    ReplaceAbsent(u, EscapedTab, "\t");
    ReplaceAbsent(u, EscapedReturn, []);
  }

  /** Exactly one layer of quotes is removed: quoted text comes back bare, and doubly quoted text
      comes back still quoted once. */
  lemma OneQuoteLayer(q: char, t: string)
    requires IsQuote(q) && '\\' !in t
    ensures CleanContent([q] + t + [q]) == t
    ensures CleanContent([q] + ([q] + t + [q]) + [q]) == [q] + t + [q]
  {
    QuotesRemoved(q, t);
    var once := [q] + t + [q];
    assert '\\' !in once by {
      assert forall i :: 0 <= i < |once| ==> once[i] == q || once[i] in t;
    }
    QuotesRemoved(q, once);
  }

  /** Text without backslashes, wrapped in a pair of quotes, comes back without them. */
  lemma QuotesRemoved(q: char, t: string)
    requires IsQuote(q) && '\\' !in t
    ensures CleanContent([q] + t + [q]) == t
  {
    var c := [q] + t + [q];
    assert QuotedBoth(c) && c[1..|c| - 1] == t;
    assert '\\' !in c;
    CleanWithoutBackslash(c);
  }

  /** The markup test is case-sensitive: `<html` qualifies, `<HTML` does not. */
  lemma MarkupCaseSensitive(x: string)
    ensures LooksLikeMarkup("<html" + x)
    ensures !LooksLikeMarkup("<HTML" + x)
  {
    StripKeepsPrefix("<html", x);
    UpperMarkupRejected(x);
  }

  /** Stripped, `<HTML…` still has `H` where both markup prefixes differ from it. */
  lemma UpperMarkupRejected(x: string)
    ensures !LooksLikeMarkup("<HTML" + x)
  {
    StripKeepsPrefix("<HTML", x);
    var upper := Strip("<HTML" + x);
    assert upper[..5] == "<HTML";
    assert upper[1] == 'H';
    assert "<html"[1] != 'H' && "<!DOCTYPE"[1] != 'H';
  }

  /** The markup test looks past leading whitespace. */
  lemma MarkupAfterWhitespace(w: string, x: string)
    requires forall i :: 0 <= i < |w| ==> IsSpace(w[i])
    ensures LooksLikeMarkup(w + ("<html" + x))
  {
    var y := "<html" + x;
    StripSpaces(w, y);
    MarkupCaseSensitive(x);
  }

  /** Upper-case markup keeps its literal backslash-t: the conversion never runs for it. */
  lemma UpperCaseMarkupKeepsTabs(x: string)
    requires Contains(x, EscapedTab)
    ensures Contains(CleanContent("<HTML" + x), EscapedTab)
  {
    var c := "<HTML" + x;
    assert c[0] == '<';
    assert StripOuterQuotes(c) == c;
    ReplacePrefix("<HTML", x, EscapedNewline, "\n");
    MarkupCaseSensitive(ReplaceAll(x, EscapedNewline, "\n"));
    ContainsAppendRight("<HTML", x, EscapedTab);
    TabsKeptOutsideMarkup(c);
  }

  /** The replacement passes on the four characters backslash, backslash, `r`, `c`: the first
      two leave them alone (no backslash is followed by `n` or `t`), the third deletes the middle
      backslash-r. */
  lemma RejoinTail(c: char)
    ensures ReplaceAll(['\\', '\\', 'r', c], EscapedNewline, "\n") == ['\\', '\\', 'r', c]
    ensures ReplaceAll(['\\', '\\', 'r', c], EscapedTab, "\t") == ['\\', '\\', 'r', c]
    ensures ReplaceAll(['\\', '\\', 'r', c], EscapedReturn, []) == ['\\', c]
  {
    var t0, t1, t2, t3 := ['\\', '\\', 'r', c], ['\\', 'r', c], ['r', c], [c];
    assert t0[1..] == t1 && t1[1..] == t2 && t2[1..] == t3 && t3[1..] == [];
    assert t0[..2][1] == '\\' && t1[..2][1] == 'r' && t2[..2][0] == 'r';
    assert t1[..2] == EscapedReturn;
    assert t1[2..] == t3;
    assert ReplaceAll(t3, EscapedNewline, "\n") == t3;
    assert ReplaceAll(t2, EscapedNewline, "\n") == t2;
    assert ReplaceAll(t1, EscapedNewline, "\n") == t1;
    assert ReplaceAll(t3, EscapedTab, "\t") == t3;
    assert ReplaceAll(t2, EscapedTab, "\t") == t2;
    assert ReplaceAll(t1, EscapedTab, "\t") == t1;
    assert ReplaceAll(t3, EscapedReturn, []) == t3;
    assert ReplaceAll(t1, EscapedReturn, []) == t3;
    assert ['\\'] + t3 == ['\\', c];
  }

  /** In markup, deleting a literal backslash-r can join a preceding backslash and a following
      `n` into a new literal backslash-n, which the newline pass ran too early to convert. */
  lemma MarkupCanRejoinNewline()
    ensures Contains(CleanContent("<html" + ['\\', '\\', 'r', 'n']), EscapedNewline)
  {
    RejoinCleaned('n');
    assert EscapedNewline[..2] == EscapedNewline;
    ContainsAppendRight("<html", EscapedNewline, EscapedNewline);
  }

  /** In markup, the tab pass leaves no literal backslash-t behind. */
  lemma NoEscapedTabAfterTabPass(content: string)
    ensures !Contains(ReplaceAll(WithNewlines(content), EscapedTab, "\t"), EscapedTab)
  {
    ReplaceRemovesPair(WithNewlines(content), EscapedTab, "\t");
  }

  /** But the backslash-r deletion after it can join a backslash and a following `t` into a new
      literal backslash-t, which survives cleaning. */
  lemma MarkupCanRejoinTab()
    ensures Contains(CleanContent("<html" + ['\\', '\\', 'r', 't']), EscapedTab)
  {
    RejoinCleaned('t');
    assert EscapedTab[..2] == EscapedTab;
    ContainsAppendRight("<html", EscapedTab, EscapedTab);
  }

  /** The text is markup, and it comes out of cleaning as `<html`, a backslash and `c`. */
  lemma RejoinCleaned(c: char)
    ensures CleanContent("<html" + ['\\', '\\', 'r', c]) == "<html" + ['\\', c]
  {
    var tail := ['\\', '\\', 'r', c];
    var text := "<html" + tail;
    RejoinTail(c);
    assert WithNewlines(text) == text by {
      assert text[0] == '<';
      assert StripOuterQuotes(text) == text;
      ReplacePrefix("<html", tail, EscapedNewline, "\n");
    }
    assert LooksLikeMarkup(text) by {
      MarkupCaseSensitive(tail);
    }
    ReplacePrefix("<html", tail, EscapedTab, "\t");
    ReplacePrefix("<html", tail, EscapedReturn, []);
  }
}
