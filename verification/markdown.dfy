/** Markdown to Slack mrkdwn conversion (`convertMarkdownToSlack`).

    The converter is three global, non-greedy regular-expression replacements
    run one after another, each on the previous one's output:
      `**x**` to `*x*`, then `__x__` to `*x*`, then `~~x~~` to `~x~`.
    A replacement of the doubled marker `d` scans left to right. Where the two
    characters `dd` stand, it looks for the earliest `dd` after them such that
    no line terminator lies in between (a JavaScript `.` matches none of them);
    if there is one, the whole span becomes `out x out` and the scan resumes
    after the closer, otherwise one character is kept and the scan moves on. */
module SlackMarkdown {
  import opened Wrappers

  /** The characters JavaScript's `.` refuses to match. */
  predicate IsLineTerminator(c: char) {
    c == '\n' || c == '\r' || c == '\U{2028}' || c == '\U{2029}'
  }

  predicate NoLineTerminator(t: string) {
    forall i | 0 <= i < |t| :: !IsLineTerminator(t[i])
  }

  /** The doubled marker `dd` starts at position `i` of `s`. */
  predicate PairAt(s: string, i: int, d: char) {
    0 <= i && i + 1 < |s| && s[i] == d && s[i + 1] == d
  }

  /** `s` holds no doubled marker `dd` at all. */
  predicate NoPair(s: string, d: char) {
    forall i | 0 <= i < |s| :: !PairAt(s, i, d)
  }

  /** Where the lazy group `(.*?)` of an opener whose content starts at `j`
      ends: scanning from `j`, the first closer, unless a line terminator
      comes first. */
  function FindCloser(s: string, d: char, j: nat): (r: Option<nat>)
    decreases |s| - j
    ensures r.Some? ==> j <= r.value && r.value + 1 < |s|
  {
    if j + 1 >= |s| then None
    else if s[j] == d && s[j + 1] == d then Some(j)
    else if IsLineTerminator(s[j]) then None
    else FindCloser(s, d, j + 1)
  }

  /** The closer found is the earliest `dd` at or after `j` with no line
      terminator before it, and there is none exactly when no such `dd`
      exists. */
  lemma {:induction false} FindCloserIsEarliest(s: string, d: char, j: nat)
    ensures var r := FindCloser(s, d, j);
            r.Some? ==> j <= r.value && PairAt(s, r.value, d) && NoLineTerminator(s[j..r.value])
    ensures var r := FindCloser(s, d, j);
            r.Some? ==> forall k | j <= k < r.value :: !PairAt(s, k, d)
    ensures FindCloser(s, d, j).None? ==> forall k | j <= k && PairAt(s, k, d) :: !NoLineTerminator(s[j..k])
    decreases |s| - j
  {
    if j + 1 >= |s| {
    } else if s[j] == d && s[j + 1] == d {
    } else if IsLineTerminator(s[j]) {
      assert forall k | j < k <= |s| :: s[j..k][0] == s[j];
    } else {
      FindCloserIsEarliest(s, d, j + 1);
      assert forall k | j + 1 <= k <= |s| :: s[j..k] == [s[j]] + s[j + 1..k];
    }
  }

  /** One global replacement `/dd(.*?)dd/g` with `out$1out`, applied to the
      rest of the text from the scan position on. */
  function RewritePairs(s: string, d: char, out: char): (r: string)
    ensures |r| <= |s|
    decreases |s|
  {
    if |s| < 2 then s
    else if s[0] == d && s[1] == d && FindCloser(s, d, 2).Some? then
      var k := FindCloser(s, d, 2).value;
      [out] + s[2..k] + [out] + RewritePairs(s[k + 2..], d, out)
    else [s[0]] + RewritePairs(s[1..], d, out)
  }

  /** Text holding no doubled marker is returned unchanged. */
  lemma {:induction false} RewriteWithoutPairs(s: string, d: char, out: char)
    requires NoPair(s, d)
    ensures RewritePairs(s, d, out) == s
    decreases |s|
  {
    if |s| >= 2 {
      assert !PairAt(s, 0, d);
      forall i | 0 <= i < |s[1..]| ensures !PairAt(s[1..], i, d) {
        assert !PairAt(s, i + 1, d);
      }
      RewriteWithoutPairs(s[1..], d, out);
      assert s == [s[0]] + s[1..];
    }
  }

  /** How many spans the replacement of `dd` rewrites in `s`. */
  function SpanCount(s: string, d: char): (n: nat)
    ensures 4 * n <= |s|
    decreases |s|
  {
    if |s| < 2 then 0
    else if s[0] == d && s[1] == d && FindCloser(s, d, 2).Some? then
      1 + SpanCount(s[FindCloser(s, d, 2).value + 2..], d)
    else SpanCount(s[1..], d)
  }

  /** `convertMarkdownToSlack`: the three replacements in source order. The
      result is never longer than the text, and differs from it exactly when
      some pass rewrote a span and so made it shorter. */
  function Convert(text: string): (r: string)
    ensures |r| <= |text|
    ensures r == text <==> |r| == |text|
  {
    var s1 := RewritePairs(text, '*', '*');
    var s2 := RewritePairs(s1, '_', '*');
    RewriteLength(text, '*', '*');
    RewriteLength(s1, '_', '*');
    RewriteLength(s2, '~', '~');
    RewritePairs(s2, '~', '~')
  }

  /** Each rewritten span loses exactly its two extra marker characters, and
      the text is returned unchanged exactly when no span was rewritten. */
  lemma {:induction false} RewriteLength(s: string, d: char, out: char)
    ensures |RewritePairs(s, d, out)| + 2 * SpanCount(s, d) == |s|
    ensures RewritePairs(s, d, out) == s <==> SpanCount(s, d) == 0
    decreases |s|
  {
    if |s| < 2 {
    } else if s[0] == d && s[1] == d && FindCloser(s, d, 2).Some? {
      var k := FindCloser(s, d, 2).value;
      RewriteLength(s[k + 2..], d, out);
    } else {
      RewriteLength(s[1..], d, out);
      assert s == [s[0]] + s[1..];
    }
  }

  /** A prefix free of the marker character is copied verbatim, and the
      replacement carries on with what follows it. */
  lemma {:induction false} RewriteVerbatimPrefix(pre: string, t: string, d: char, out: char)
    requires d !in pre
    ensures RewritePairs(pre + t, d, out) == pre + RewritePairs(t, d, out)
    decreases |pre|
  {
    if pre != [] {
      var s := pre + t;
      assert pre[0] in pre;
      assert s[0] == pre[0] != d && s[1..] == pre[1..] + t;
      RewriteVerbatimPrefix(pre[1..], t, d, out);
      if |s| < 2 {
        assert pre == [pre[0]] && t == [];
        assert RewritePairs(t, d, out) == [];
        assert s == pre;
      } else {
        assert RewritePairs(s, d, out) == [s[0]] + RewritePairs(s[1..], d, out);
      }
      assert pre == [pre[0]] + pre[1..];
    } else {
      assert pre + t == t;
    }
  }

  /** Text without the marker character is left as it is. */
  lemma RewriteWithoutMarker(s: string, d: char, out: char)
    requires d !in s
    ensures RewritePairs(s, d, out) == s
  {
    RewriteVerbatimPrefix(s, [], d, out);
    assert s + [] == s;
  }

  /** A span `dd x dd` on one line, whose content holds no marker character,
      becomes `out x out`; the scan then continues after the closer. */
  lemma RewriteSpan(x: string, rest: string, d: char, out: char)
    requires d !in x && NoLineTerminator(x)
    ensures RewritePairs([d, d] + x + [d, d] + rest, d, out) == [out] + x + [out] + RewritePairs(rest, d, out)
  {
    var s := [d, d] + x + [d, d] + rest;
    var c := |x| + 2;
    assert s[2..c] == x;
    assert PairAt(s, c, d);
    var f := FindCloser(s, d, 2);
    FindCloserIsEarliest(s, d, 2);
    assert f.Some?;
    forall k | 2 <= k < c ensures !PairAt(s, k, d) {
      assert s[k] == x[k - 2];
    }
    assert f.value == c;
    assert s[c + 2..] == rest;
  }

  /** Text before a one-line span that holds no marker character is copied,
      and the span itself is rewritten. */
  lemma RewriteSpanAfter(pre: string, x: string, rest: string, d: char, out: char)
    requires d !in pre && d !in x && NoLineTerminator(x)
    ensures RewritePairs(pre + [d, d] + x + [d, d] + rest, d, out) == pre + [out] + x + [out] + RewritePairs(rest, d, out)
  {
    var span := [d, d] + x + [d, d] + rest;
    var done := [out] + x + [out] + RewritePairs(rest, d, out);
    RewriteSpan(x, rest, d, out);
    assert RewritePairs(span, d, out) == done;
    RewriteVerbatimPrefix(pre, span, d, out);
    assert RewritePairs(pre + span, d, out) == pre + done;
    assert pre + [d, d] + x + [d, d] + rest == pre + span;
    assert pre + done == pre + [out] + x + [out] + RewritePairs(rest, d, out);
  }

  /** Free of all three marker characters. */
  predicate Unmarked(t: string) {
    forall i | 0 <= i < |t| :: t[i] != '*' && t[i] != '_' && t[i] != '~'
  }

  lemma UnmarkedHasNoMarker(t: string)
    requires Unmarked(t)
    ensures '*' !in t && '_' !in t && '~' !in t
  {
  }

  /** Plain text, holding none of `**`, `__`, `~~`, is returned unchanged. */
  lemma ConvertPlainText(text: string)
    requires NoPair(text, '*') && NoPair(text, '_') && NoPair(text, '~')
    ensures Convert(text) == text
  {
    RewriteWithoutPairs(text, '*', '*');
    RewriteWithoutPairs(text, '_', '*');
    RewriteWithoutPairs(text, '~', '~');
  }

  /** A lone marker character, not doubled, is copied as it is. */
  lemma RewriteLoneMarker(t: string, d: char, out: char)
    requires t == [] || t[0] != d
    ensures RewritePairs([d] + t, d, out) == [d] + RewritePairs(t, d, out)
  {
    var s := [d] + t;
    assert s[1..] == t;
  }

  /** A one-line span is rewritten, with plain text on both sides copied. */
  lemma RewriteOneSpan(pre: string, x: string, post: string, d: char, out: char)
    requires d !in pre && d !in x && d !in post && NoLineTerminator(x)
    ensures RewritePairs(pre + [d, d] + x + [d, d] + post, d, out) == pre + [out] + x + [out] + post
  {
    RewriteWithoutMarker(post, d, out);
    RewriteSpanAfter(pre, x, post, d, out);
  }

  /** Two single markers around non-empty text open no span. */
  lemma RewriteKeepsSingleMarkers(a: string, b: string, c: string, d: char, out: char)
    requires d !in a && d !in b && d !in c && b != []
    ensures RewritePairs(a + [d] + b + [d] + c, d, out) == a + [d] + b + [d] + c
  {
    var s := a + [d] + b + [d] + c;
    forall i | 0 <= i < |s| ensures !PairAt(s, i, d) {
      if i < |a| {
        assert s[i] == a[i];
      } else if i == |a| {
        assert s[i + 1] == b[0];
      } else if i < |a| + 1 + |b| {
        assert s[i] == b[i - |a| - 1];
      } else if i > |a| + 1 + |b| {
        assert s[i] == c[i - |a| - 2 - |b|];
      } else if i + 1 < |s| {
        assert s[i + 1] == c[0];
      }
    }
    RewriteWithoutPairs(s, d, out);
  }

  /** Single-underscore italics are passed through. */
  lemma ConvertKeepsItalic(a: string, b: string, c: string)
    requires Unmarked(a) && Unmarked(b) && Unmarked(c) && b != []
    ensures Convert(a + "_" + b + "_" + c) == a + "_" + b + "_" + c
  {
    var s := a + "_" + b + "_" + c;
    assert '*' !in s && '~' !in s;
    RewriteWithoutMarker(s, '*', '*');
    RewriteKeepsSingleMarkers(a, b, c, '_', '*');
    RewriteWithoutMarker(s, '~', '~');
  }

  /** The converter never lengthens the text, and shortens it by exactly two
      characters per rewritten span in each of its three passes. */
  lemma ConvertLength(text: string)
    ensures |Convert(text)| <= |text|
    ensures var s1 := RewritePairs(text, '*', '*');
            var s2 := RewritePairs(s1, '_', '*');
            |Convert(text)| == |text| - 2 * (SpanCount(text, '*') + SpanCount(s1, '_') + SpanCount(s2, '~'))
  {
    var s1 := RewritePairs(text, '*', '*');
    var s2 := RewritePairs(s1, '_', '*');
    RewriteLength(text, '*', '*');
    RewriteLength(s1, '_', '*');
    RewriteLength(s2, '~', '~');
  }

  /** Two one-line spans of the same marker are both rewritten. */
  lemma RewriteTwoSpans(p: string, x: string, q: string, y: string, r: string, d: char, out: char)
    requires d !in p && d !in x && d !in q && d !in y && d !in r
    requires NoLineTerminator(x) && NoLineTerminator(y)
    ensures RewritePairs(p + [d, d] + x + [d, d] + (q + [d, d] + y + [d, d] + r), d, out)
         == p + [out] + x + [out] + (q + [out] + y + [out] + r)
  {
    RewriteOneSpan(q, y, r, d, out);
    RewriteSpanAfter(p, x, q + [d, d] + y + [d, d] + r, d, out);
  }

  /** Several bold spans on one line are all rewritten. */
  lemma ConvertTwoBoldSpans(p: string, x: string, q: string, y: string, r: string)
    requires Unmarked(p) && Unmarked(x) && Unmarked(q) && Unmarked(y) && Unmarked(r)
    requires NoLineTerminator(x) && NoLineTerminator(y)
    ensures Convert(p + "**" + x + "**" + q + "**" + y + "**" + r) == p + "*" + x + "*" + q + "*" + y + "*" + r
  {
    UnmarkedHasNoMarker(p); UnmarkedHasNoMarker(x); UnmarkedHasNoMarker(q);
    UnmarkedHasNoMarker(y); UnmarkedHasNoMarker(r);
    RewriteTwoSpans(p, x, q, y, r, '*', '*');
    NestTail(p, "**", x, q, y, r);
    NestTail(p, "*", x, q, y, r);
    var s1 := p + "*" + x + "*" + q + "*" + y + "*" + r;
    FreeOfJoin(p, "*", x, q, y, r, '_');
    FreeOfJoin(p, "*", x, q, y, r, '~');
    RewriteWithoutMarker(s1, '_', '*');
    RewriteWithoutMarker(s1, '~', '~');
  }

  /** Several alternate-bold spans on one line all become bold. */
  lemma ConvertTwoAltBoldSpans(p: string, x: string, q: string, y: string, r: string)
    requires Unmarked(p) && Unmarked(x) && Unmarked(q) && Unmarked(y) && Unmarked(r)
    requires NoLineTerminator(x) && NoLineTerminator(y)
    ensures Convert(p + "__" + x + "__" + q + "__" + y + "__" + r) == p + "*" + x + "*" + q + "*" + y + "*" + r
  {
    UnmarkedHasNoMarker(p); UnmarkedHasNoMarker(x); UnmarkedHasNoMarker(q);
    UnmarkedHasNoMarker(y); UnmarkedHasNoMarker(r);
    var s := p + "__" + x + "__" + q + "__" + y + "__" + r;
    FreeOfJoin(p, "__", x, q, y, r, '*');
    RewriteWithoutMarker(s, '*', '*');
    RewriteTwoSpans(p, x, q, y, r, '_', '*');
    NestTail(p, "__", x, q, y, r);
    NestTail(p, "*", x, q, y, r);
    var s1 := p + "*" + x + "*" + q + "*" + y + "*" + r;
    FreeOfJoin(p, "*", x, q, y, r, '~');
    RewriteWithoutMarker(s1, '~', '~');
  }

  /** Regrouping two marked spans so that the second one and what follows
      it form one part. */
  lemma NestTail(p: string, m: string, x: string, q: string, y: string, r: string)
    ensures p + m + x + m + q + m + y + m + r == p + m + x + m + (q + m + y + m + r)
  {
  }

  /** A character in none of the pieces is in none of their join. */
  lemma FreeOfJoin(p: string, m: string, x: string, q: string, y: string, r: string, c: char)
    requires c !in p && c !in m && c !in x && c !in q && c !in y && c !in r
    ensures c !in p + m + x + m + q + m + y + m + r
  {
  }

  /** A text that is one bold span becomes one Slack bold span. */
  lemma ConvertOneBold(x: string)
    requires Unmarked(x) && NoLineTerminator(x)
    ensures Convert("**" + x + "**") == "*" + x + "*"
  {
    UnmarkedHasNoMarker(x);
    RewriteFinalSpan([], x, '*', '*');
    assert [] + ['*', '*'] + x + ['*', '*'] == "**" + x + "**";
    assert [] + ['*'] + x + ['*'] == "*" + x + "*";
    RewriteWithoutMarker("*" + x + "*", '_', '*');
    RewriteWithoutMarker("*" + x + "*", '~', '~');
  }

  /** A strikethrough span on one line is rewritten, the text around it kept. */
  lemma ConvertStrikeSpan(p: string, x: string, r: string)
    requires Unmarked(p) && Unmarked(x) && Unmarked(r) && NoLineTerminator(x)
    ensures Convert(p + "~~" + x + "~~" + r) == p + "~" + x + "~" + r
  {
    var s := p + "~~" + x + "~~" + r;
    assert '*' !in s && '_' !in s;
    RewriteWithoutMarker(s, '*', '*');
    RewriteWithoutMarker(s, '_', '*');
    RewriteOneSpan(p, x, r, '~', '~');
  }

  /** Text holding none of the three marker characters, such as inline code,
      is returned unchanged. */
  lemma ConvertUnmarked(t: string)
    requires Unmarked(t)
    ensures Convert(t) == t
  {
    RewriteWithoutMarker(t, '*', '*');
    RewriteWithoutMarker(t, '_', '*');
    RewriteWithoutMarker(t, '~', '~');
  }

  /** Appending text without the marker character changes no closer search. */
  lemma FindCloserAppendUnmarked(s: string, t: string, d: char, j: nat)
    requires d !in t && j <= |s|
    ensures FindCloser(s + t, d, j) == FindCloser(s, d, j)
  {
    var st := s + t;
    FindCloserIsEarliest(s, d, j);
    FindCloserIsEarliest(st, d, j);
    forall k | j <= k && PairAt(st, k, d) ensures PairAt(s, k, d) && st[j..k] == s[j..k] {
    }
    var f := FindCloser(st, d, j);
    match FindCloser(s, d, j)
    case Some(k) =>
      assert st[j..k] == s[j..k];
      assert PairAt(st, k, d);
      forall k' | j <= k' < k ensures !PairAt(st, k', d) {
        assert !PairAt(s, k', d);
      }
      assert f.Some? && f.value == k;
    case None =>
      assert f.None?;
  }

  /** Appending text without the marker character: the replacement of the
      whole is the replacement of the front followed by that text. */
  lemma {:induction false} RewriteAppendUnmarked(s: string, t: string, d: char, out: char)
    requires d !in t
    ensures RewritePairs(s + t, d, out) == RewritePairs(s, d, out) + t
    decreases |s|
  {
    if |s| < 2 {
      AppendUnmarkedShort(s, t, d, out);
    } else if s[0] == d && s[1] == d && FindCloser(s, d, 2).Some? {
      var k := FindCloser(s, d, 2).value;
      RewriteAppendUnmarked(s[k + 2..], t, d, out);
      AppendUnmarkedSpan(s, t, d, out);
    } else {
      RewriteAppendUnmarked(s[1..], t, d, out);
      AppendUnmarkedStep(s, t, d, out);
    }
  }

  lemma AppendUnmarkedShort(s: string, t: string, d: char, out: char)
    requires d !in t && |s| < 2
    ensures RewritePairs(s + t, d, out) == RewritePairs(s, d, out) + t
  {
    RewriteWithoutMarker(t, d, out);
    if s == [] {
      assert s + t == t;
    } else if t != [] {
      var st := s + t;
      assert st[1] == t[0] != d by { assert t[0] in t; }
      assert st[1..] == t;
    }
  }

  lemma AppendUnmarkedSpan(s: string, t: string, d: char, out: char)
    requires d !in t && |s| >= 2 && s[0] == d && s[1] == d && FindCloser(s, d, 2).Some?
    requires var k := FindCloser(s, d, 2).value;
             RewritePairs(s[k + 2..] + t, d, out) == RewritePairs(s[k + 2..], d, out) + t
    ensures RewritePairs(s + t, d, out) == RewritePairs(s, d, out) + t
  {
    FindCloserAppendUnmarked(s, t, d, 2);
    var k := FindCloser(s, d, 2).value;
    var front := [out] + s[2..k] + [out];
    var rest := RewritePairs(s[k + 2..], d, out);
    AppendSlices(s, t, 2, k);
    AppendSlices(s, t, k + 2, |s|);
    assert RewritePairs(s + t, d, out) == front + (rest + t);
    Associate(front, rest, t);
  }

  lemma AppendUnmarkedStep(s: string, t: string, d: char, out: char)
    requires d !in t && |s| >= 2 && !(s[0] == d && s[1] == d && FindCloser(s, d, 2).Some?)
    requires RewritePairs(s[1..] + t, d, out) == RewritePairs(s[1..], d, out) + t
    ensures RewritePairs(s + t, d, out) == RewritePairs(s, d, out) + t
  {
    FindCloserAppendUnmarked(s, t, d, 2);
    AppendSlices(s, t, 1, |s|);
    Associate([s[0]], RewritePairs(s[1..], d, out), t);
  }

  /** Slicing a concatenation within its front part. */
  lemma AppendSlices(s: string, t: string, lo: nat, hi: nat)
    requires lo <= hi <= |s|
    ensures (s + t)[lo..hi] == s[lo..hi]
    ensures hi == |s| ==> (s + t)[lo..] == s[lo..] + t
  {
  }

  lemma Associate(a: string, b: string, c: string)
    ensures a + (b + c) == a + b + c
  {
  }

  /** A one-line span at the end of the text is rewritten. */
  lemma RewriteFinalSpan(pre: string, x: string, d: char, out: char)
    requires d !in pre && d !in x && NoLineTerminator(x)
    ensures RewritePairs(pre + [d, d] + x + [d, d], d, out) == pre + [out] + x + [out]
  {
    RewriteOneSpan(pre, x, [], d, out);
    assert pre + [d, d] + x + [d, d] + [] == pre + [d, d] + x + [d, d];
    assert pre + [out] + x + [out] + [] == pre + [out] + x + [out];
  }

  /** Bold, alternate bold and strikethrough spans in one text, each
      rewritten by its own pass. */
  lemma ConvertMixedSpans(x: string, p: string, y: string, q: string, z: string, r: string)
    requires Unmarked(x) && Unmarked(p) && Unmarked(y) && Unmarked(q) && Unmarked(z) && Unmarked(r)
    requires NoLineTerminator(x) && NoLineTerminator(y) && NoLineTerminator(z)
    ensures Convert("**" + x + "**" + p + "__" + y + "__" + q + "~~" + z + "~~" + r)
         == "*" + x + "*" + p + "*" + y + "*" + q + "~" + z + "~" + r
  {
    UnmarkedHasNoMarker(x); UnmarkedHasNoMarker(p); UnmarkedHasNoMarker(y);
    UnmarkedHasNoMarker(q); UnmarkedHasNoMarker(z); UnmarkedHasNoMarker(r);
    // The bold pass: one span, then text without an asterisk.
    RewriteFinalSpan([], x, '*', '*');
    assert [] + "**" + x + "**" == "**" + x + "**";
    assert [] + "*" + x + "*" == "*" + x + "*";
    RewriteAppendUnmarked("**" + x + "**", p, '*', '*');
    RewriteAppendUnmarked("**" + x + "**" + p, "__", '*', '*');
    RewriteAppendUnmarked("**" + x + "**" + p + "__", y, '*', '*');
    RewriteAppendUnmarked("**" + x + "**" + p + "__" + y, "__", '*', '*');
    RewriteAppendUnmarked("**" + x + "**" + p + "__" + y + "__", q, '*', '*');
    RewriteAppendUnmarked("**" + x + "**" + p + "__" + y + "__" + q, "~~", '*', '*');
    RewriteAppendUnmarked("**" + x + "**" + p + "__" + y + "__" + q + "~~", z, '*', '*');
    RewriteAppendUnmarked("**" + x + "**" + p + "__" + y + "__" + q + "~~" + z, "~~", '*', '*');
    RewriteAppendUnmarked("**" + x + "**" + p + "__" + y + "__" + q + "~~" + z + "~~", r, '*', '*');
    // The alternate-bold pass: plain text, one span, then text without an underscore.
    var p1 := "*" + x + "*" + p;
    assert '_' !in p1;
    RewriteFinalSpan(p1, y, '_', '*');
    RewriteAppendUnmarked(p1 + "__" + y + "__", q, '_', '*');
    RewriteAppendUnmarked(p1 + "__" + y + "__" + q, "~~", '_', '*');
    RewriteAppendUnmarked(p1 + "__" + y + "__" + q + "~~", z, '_', '*');
    RewriteAppendUnmarked(p1 + "__" + y + "__" + q + "~~" + z, "~~", '_', '*');
    RewriteAppendUnmarked(p1 + "__" + y + "__" + q + "~~" + z + "~~", r, '_', '*');
    // The strikethrough pass: plain text, one span, plain text.
    var p2 := p1 + "*" + y + "*" + q;
    assert '~' !in p2;
    RewriteOneSpan(p2, z, r, '~', '~');
  }

  /** The passes run on each other's output rather than independently on the
      original text: an alternate-bold span nested inside a bold span comes
      out as a bold span with its doubled markers. */
  lemma ConvertIsSequential(x: string)
    requires '*' !in x && '_' !in x && '~' !in x && NoLineTerminator(x)
    ensures Convert("**__" + x + "__**") == "**" + x + "**"
  {
    var inner := "__" + x + "__";
    assert '*' !in inner && NoLineTerminator(inner);
    RewriteSpan(inner, "", '*', '*');
    assert "**__" + x + "__**" == ['*', '*'] + inner + ['*', '*'] + "";
    var s1 := "*" + inner + "*";
    assert RewritePairs("**__" + x + "__**", '*', '*') == s1;
    RewriteSpan(x, "*", '_', '*');
    RewriteVerbatimPrefix("*", ['_', '_'] + x + ['_', '_'] + "*", '_', '*');
    assert s1 == "*" + (['_', '_'] + x + ['_', '_'] + "*");
    var s2 := "**" + x + "**";
    assert RewritePairs(s1, '_', '*') == s2;
    RewriteWithoutMarker(s2, '~', '~');
  }

  lemma ConvertIsSequentialExample(s: string)
    requires s == "**__a__**"
    ensures Convert(s) == "**a**"
  {
    ConvertIsSequential("a");
    assert "**__" + "a" + "__**" == s;
  }

  /** The documented examples of the converter, each instantiating the
      general lemma above it with the example's pieces. The pieces are
      parameters fixed by `requires` because a whole literal would make the
      verifier unfold the recursive replacement character by character. */
  lemma ConvertBoldExample(p: string, x: string, q: string, y: string, r: string)
    requires p == "This is " && x == "bold text" && q == " and " && y == "another bold" && r == "."
    ensures Convert(p + "**" + x + "**" + q + "**" + y + "**" + r) == p + "*" + x + "*" + q + "*" + y + "*" + r
  {
    assert NoLineTerminator(x) && NoLineTerminator(y);
    ConvertTwoBoldSpans(p, x, q, y, r);
  }

  lemma ConvertAltBoldExample(p: string, x: string, q: string, y: string, r: string)
    requires p == "This is " && x == "bold text" && q == " and " && y == "another bold" && r == "."
    ensures Convert(p + "__" + x + "__" + q + "__" + y + "__" + r) == p + "*" + x + "*" + q + "*" + y + "*" + r
  {
    assert NoLineTerminator(x) && NoLineTerminator(y);
    ConvertTwoAltBoldSpans(p, x, q, y, r);
  }

  lemma ConvertStrikeExample(p: string, x: string, r: string)
    requires p == "This is " && x == "strikethrough" && r == " text."
    ensures Convert(p + "~~" + x + "~~" + r) == p + "~" + x + "~" + r
  {
    assert NoLineTerminator(x);
    ConvertStrikeSpan(p, x, r);
  }

  lemma ConvertItalicExample(a: string, b: string, c: string)
    requires a == "This is " && b == "italic" && c == " text."
    ensures Convert(a + "_" + b + "_" + c) == a + "_" + b + "_" + c
  {
    ConvertKeepsItalic(a, b, c);
  }

  lemma ConvertCodeExample(t: string)
    requires t == "This is `code` text."
    ensures Convert(t) == t
  {
    ConvertUnmarked(t);
  }

  lemma ConvertMixedExample(x: string, p: string, y: string, q: string, z: string, r: string)
    requires x == "Sick Days Coverage:" && p == " This is " && y == "important" && q == " and "
    requires z == "crossed out" && r == " with `code`."
    ensures Convert("**" + x + "**" + p + "__" + y + "__" + q + "~~" + z + "~~" + r)
         == "*" + x + "*" + p + "*" + y + "*" + q + "~" + z + "~" + r
  {
    ExampleSpanTexts(x, y, z);
    ExampleGapTexts(p, q, r);
    ConvertMixedSpans(x, p, y, q, z, r);
  }

  /** The span contents of the mixed example are one-line plain text. */
  lemma ExampleSpanTexts(x: string, y: string, z: string)
    requires x == "Sick Days Coverage:" && y == "important" && z == "crossed out"
    ensures Unmarked(x) && Unmarked(y) && Unmarked(z)
    ensures NoLineTerminator(x) && NoLineTerminator(y) && NoLineTerminator(z)
  {
  }

  /** The text between the spans of the mixed example is plain text. */
  lemma ExampleGapTexts(p: string, q: string, r: string)
    requires p == " This is " && q == " and " && r == " with `code`."
    ensures Unmarked(p) && Unmarked(q) && Unmarked(r)
  {
  }
}
