/** The outbound Slack reply: the gate that decides whether a message gets an
    answer (`shouldReplyToMessage`) and the formatter that turns a generated
    answer and its cited sources into the posted text
    (`formatMessageWithSources`). */
module SlackReply {
  import opened Wrappers
  import SlackMarkdown

  /** A candidate source a generated answer may cite; a field that is
      `undefined` or `null` is `None`. */
  datatype Source = Source(documentName: Option<string>, sourceUrl: Option<string>, ragieSourceUrl: Option<string>)

  /** Where the last slash among the first `end` characters of `u` stands,
      or -1 when there is none. */
  function LastSlash(u: string, end: nat): (r: int)
    requires end <= |u|
    ensures -1 <= r < end
    ensures r >= 0 ==> u[r] == '/'
    ensures forall k | r < k < end :: u[k] != '/'
    decreases end
  {
    if end == 0 then -1
    else if u[end - 1] == '/' then end - 1
    else LastSlash(u, end - 1)
  }

  /** `u.split("/").pop()`: what follows the last slash, or all of `u` when
      it holds none. */
  function LastSegment(u: string): (r: string)
    ensures '/' !in r
    ensures |r| <= |u| && r == u[|u| - |r|..]
    ensures |r| < |u| ==> u[|u| - |r| - 1] == '/'
  {
    var i := LastSlash(u, |u|);
    var r := u[i + 1..];
    assert forall k | 0 <= k < |r| :: r[k] == u[i + 1 + k];
    r
  }

  /** The segment after the last slash of `a/b` is `b`. */
  lemma LastSegmentAfterSlash(a: string, b: string)
    requires '/' !in b
    ensures LastSegment(a + "/" + b) == b
  {
    var u := a + "/" + b;
    var i := LastSlash(u, |u|);
    assert u[|a|] == '/';
    assert u[|a| + 1..] == b;
  }

  /** The link text: `documentName || source_url?.split("/").pop() || "Document"`. */
  function DisplayName(s: Source): (r: string)
    ensures r != ""
    ensures Truthy(s.documentName) ==> r == s.documentName.value
    ensures !Truthy(s.documentName) && s.sourceUrl.Some? && LastSegment(s.sourceUrl.value) != "" ==>
              r == LastSegment(s.sourceUrl.value) && '/' !in r
    ensures !Truthy(s.documentName) && !(s.sourceUrl.Some? && LastSegment(s.sourceUrl.value) != "") ==> r == "Document"
  {
    if Truthy(s.documentName) then s.documentName.value
    else if s.sourceUrl.Some? && LastSegment(s.sourceUrl.value) != "" then LastSegment(s.sourceUrl.value)
    else "Document"
  }

  /** The link target: `source_url || ragieSourceUrl || "#"`. */
  function LinkUrl(s: Source): (r: string)
    ensures r != ""
    ensures Truthy(s.sourceUrl) ==> r == s.sourceUrl.value
    ensures !Truthy(s.sourceUrl) && Truthy(s.ragieSourceUrl) ==> r == s.ragieSourceUrl.value
    ensures !Truthy(s.sourceUrl) && !Truthy(s.ragieSourceUrl) ==> r == "#"
  {
    if Truthy(s.sourceUrl) then s.sourceUrl.value
    else if Truthy(s.ragieSourceUrl) then s.ragieSourceUrl.value
    else "#"
  }

  /** The line appended for one cited source, a Slack link `<url|name>` on
      a new bullet line. */
  function Bullet(s: Source): (r: string)
    ensures |r| >= 7 && r[..4] == "\n\U{2022} <" && r[|r| - 1] == '>'
  {
    "\n\U{2022} <" + LinkUrl(s) + "|" + DisplayName(s) + ">"
  }

  const SourcesHeader: string := "\n\n:books: *Sources:*"
  const NoSourcesLine: string := "\n\U{2022} _No sources available_"

  predicate InRange(index: int, sources: seq<Source>) {
    0 <= index < |sources|
  }

  /** The bullets the loop appends for `used`, one per in-range index, in
      the order of `used`: empty when no index is in range, and at least one
      full link line for each one that is. */
  function Citations(used: seq<int>, sources: seq<Source>): (r: string)
    ensures |r| >= 7 * CitedCount(used, sources)
    ensures CitedCount(used, sources) == 0 ==> |r| == 0
    decreases |used|
  {
    if used == [] then ""
    else
      var last := used[|used| - 1];
      Citations(used[..|used| - 1], sources) + (if InRange(last, sources) then Bullet(sources[last]) else "")
  }

  /** How many bullets `Citations` holds (`sourcesAdded` after the loop). */
  function CitedCount(used: seq<int>, sources: seq<Source>): (n: nat)
    ensures n <= |used|
    decreases |used|
  {
    if used == [] then 0
    else CitedCount(used[..|used| - 1], sources) + (if InRange(used[|used| - 1], sources) then 1 else 0)
  }

  /** The text `formatMessageWithSources` returns: it always starts with the
      converted message, and nothing follows it when no index was cited. */
  function FormattedReply(message: string, used: Option<seq<int>>, sources: seq<Source>): (r: string)
    ensures |r| >= |SlackMarkdown.Convert(message)| && r[..|SlackMarkdown.Convert(message)|] == SlackMarkdown.Convert(message)
    ensures (used.None? || used.value == []) <==> r == SlackMarkdown.Convert(message)
  {
    var text := SlackMarkdown.Convert(message);
    if used.None? || used.value == [] then text
    else
      text + SourcesHeader + Citations(used.value, sources)
        + (if CitedCount(used.value, sources) == 0 then NoSourcesLine else "")
  }

  /** `formatMessageWithSources`: converts the message, then, when indexes
      were cited, appends the header, one bullet per index that names a
      source and, when none did, the placeholder line. */
  method FormatMessageWithSources(message: string, used: Option<seq<int>>, sources: seq<Source>)
    returns (text: string)
    ensures text == FormattedReply(message, used, sources)
  {
    text := SlackMarkdown.Convert(message);
    if used.Some? && |used.value| > 0 {
      var indexes := used.value;
      text := text + SourcesHeader;
      var added := 0;
      var i := 0;
      while i < |indexes|
        invariant 0 <= i <= |indexes|
        invariant text == SlackMarkdown.Convert(message) + SourcesHeader + Citations(indexes[..i], sources)
        invariant added == CitedCount(indexes[..i], sources)
      {
        var index := indexes[i];
        assert indexes[..i + 1][..i] == indexes[..i];
        if 0 <= index < |sources| {
          text := text + Bullet(sources[index]);
          added := added + 1;
        }
        i := i + 1;
      }
      assert indexes[..i] == indexes;
      if added == 0 {
        text := text + NoSourcesLine;
      }
    }
  }

  /** Citing `u` then `v` lists the bullets of `u` then those of `v`:
      the order of the indexes is kept and a repeated index is cited again. */
  lemma {:induction false} CitationsAppend(u: seq<int>, v: seq<int>, sources: seq<Source>)
    ensures Citations(u + v, sources) == Citations(u, sources) + Citations(v, sources)
    decreases |v|
  {
    if v == [] {
      assert u + v == u;
    } else {
      var w := v[..|v| - 1];
      var last := v[|v| - 1];
      var piece := if InRange(last, sources) then Bullet(sources[last]) else "";
      CitationsAppend(u, w, sources);
      assert (u + v)[..|u + v| - 1] == u + w && (u + v)[|u + v| - 1] == last;
      assert Citations(u + v, sources) == Citations(u + w, sources) + piece;
      assert Citations(v, sources) == Citations(w, sources) + piece;
      SlackMarkdown.Associate(Citations(u, sources), Citations(w, sources), piece);
    }
  }

  /** The bullet counts of `u` and `v` add up. */
  lemma {:induction false} CitedCountAppend(u: seq<int>, v: seq<int>, sources: seq<Source>)
    ensures CitedCount(u + v, sources) == CitedCount(u, sources) + CitedCount(v, sources)
    decreases |v|
  {
    if v == [] {
      assert u + v == u;
    } else {
      var w := v[..|v| - 1];
      CitedCountAppend(u, w, sources);
      assert (u + v)[..|u + v| - 1] == u + w && (u + v)[|u + v| - 1] == v[|v| - 1];
    }
  }

  /** One index cites exactly its source, or nothing when out of range. */
  lemma CitationsSingle(index: int, sources: seq<Source>)
    ensures Citations([index], sources) == if InRange(index, sources) then Bullet(sources[index]) else ""
    ensures CitedCount([index], sources) == if InRange(index, sources) then 1 else 0
  {
    assert [index][..0] == [];
  }

  /** Indexes that name no source add nothing. */
  lemma {:induction false} CitationsSkipOutOfRange(u: seq<int>, bad: seq<int>, v: seq<int>, sources: seq<Source>)
    requires forall i | 0 <= i < |bad| :: !InRange(bad[i], sources)
    ensures Citations(u + bad + v, sources) == Citations(u + v, sources)
    ensures CitedCount(u + bad + v, sources) == CitedCount(u + v, sources)
  {
    NoneInRange(bad, sources);
    CitationsAppend(u, bad, sources);
    CitationsAppend(u + bad, v, sources);
    CitationsAppend(u, v, sources);
    CitedCountAppend(u, bad, sources);
    CitedCountAppend(u + bad, v, sources);
    CitedCountAppend(u, v, sources);
    assert u + bad == u + bad;
    assert Citations(u + bad, sources) == Citations(u, sources);
  }

  /** No bullet is added exactly when no index names a source. */
  lemma {:induction false} CitedCountZero(used: seq<int>, sources: seq<Source>)
    ensures CitedCount(used, sources) == 0 <==> forall i | 0 <= i < |used| :: !InRange(used[i], sources)
    ensures CitedCount(used, sources) == 0 <==> Citations(used, sources) == ""
    decreases |used|
  {
    if used != [] {
      var front := used[..|used| - 1];
      CitedCountZero(front, sources);
      assert forall i | 0 <= i < |front| :: front[i] == used[i];
      if InRange(used[|used| - 1], sources) {
        assert |Bullet(sources[used[|used| - 1]])| > 0;
      }
    }
  }

  /** With no index in range, nothing is cited. */
  lemma NoneInRange(used: seq<int>, sources: seq<Source>)
    requires forall i | 0 <= i < |used| :: !InRange(used[i], sources)
    ensures Citations(used, sources) == "" && CitedCount(used, sources) == 0
  {
    CitedCountZero(used, sources);
  }

  /** With no sources, no index is in range and no bullet is counted. */
  lemma {:induction false} CitedCountBound(used: seq<int>, sources: seq<Source>)
    ensures sources == [] ==> CitedCount(used, sources) == 0
    decreases |used|
  {
    if used != [] {
      CitedCountBound(used[..|used| - 1], sources);
    }
  }

  /** The sources the indexes name, in their order, duplicates kept: a
      reference definition read from the front. */
  function CitedSources(used: seq<int>, sources: seq<Source>): (r: seq<Source>)
    ensures |r| <= |used|
    decreases |used|
  {
    if used == [] then []
    else (if InRange(used[0], sources) then [sources[used[0]]] else []) + CitedSources(used[1..], sources)
  }

  function Bullets(cited: seq<Source>): string
    decreases |cited|
  {
    if cited == [] then "" else Bullet(cited[0]) + Bullets(cited[1..])
  }

  /** The bullets appended by the loop are those of the sources the indexes
      name, one each, and the count the loop keeps is how many there are. */
  lemma {:induction false} CitationsAreBulletsOfCited(used: seq<int>, sources: seq<Source>)
    ensures Citations(used, sources) == Bullets(CitedSources(used, sources))
    ensures CitedCount(used, sources) == |CitedSources(used, sources)|
    decreases |used|
  {
    if used != [] {
      var head := [used[0]];
      var tail := used[1..];
      CitationsAreBulletsOfCited(tail, sources);
      assert used == head + tail;
      CitationsAppend(head, tail, sources);
      CitedCountAppend(head, tail, sources);
      CitationsSingle(used[0], sources);
      if InRange(used[0], sources) {
        var c := [sources[used[0]]] + CitedSources(tail, sources);
        assert c[0] == sources[used[0]] && c[1..] == CitedSources(tail, sources);
      } else {
        assert CitedSources(used, sources) == CitedSources(tail, sources);
      }
    }
  }

  /** No cited indexes: the reply is the converted message alone. */
  lemma FormattedWithoutIndexes(message: string, used: Option<seq<int>>, sources: seq<Source>)
    requires used.None? || used.value == []
    ensures FormattedReply(message, used, sources) == SlackMarkdown.Convert(message)
  {
  }

  /** Cited indexes: the converted message, the header, the bullets, and the
      placeholder exactly when no index named a source. */
  lemma FormattedWithIndexes(message: string, used: seq<int>, sources: seq<Source>)
    requires used != []
    ensures var r := FormattedReply(message, Some(used), sources);
            var front := SlackMarkdown.Convert(message) + SourcesHeader;
            (if exists i | 0 <= i < |used| :: InRange(used[i], sources)
             then r == front + Bullets(CitedSources(used, sources)) && CitedSources(used, sources) != []
             else r == front + NoSourcesLine)
  {
    CitedCountZero(used, sources);
    CitationsAreBulletsOfCited(used, sources);
  }

  /** The header is printed even when there is no source at all; the
      placeholder then follows it. */
  lemma FormattedWithoutSources(message: string, used: seq<int>)
    requires used != []
    ensures FormattedReply(message, Some(used), []) == SlackMarkdown.Convert(message) + SourcesHeader + NoSourcesLine
  {
    CitedCountBound(used, []);
    CitedCountZero(used, []);
  }

  predicate EndsWith(s: string, suffix: string) {
    |suffix| <= |s| && s[|s| - |suffix|..] == suffix
  }

  /** With indexes cited, the reply ends with the placeholder line exactly
      when none of them names a source (a bullet always ends with `>`). */
  lemma {:induction false} PlaceholderIffNothingCited(message: string, used: seq<int>, sources: seq<Source>)
    requires used != []
    ensures EndsWith(FormattedReply(message, Some(used), sources), NoSourcesLine)
        <==> forall i | 0 <= i < |used| :: !InRange(used[i], sources)
  {
    var r := FormattedReply(message, Some(used), sources);
    CitedCountZero(used, sources);
    if CitedCount(used, sources) != 0 {
      CitationsEndWithBullet(used, sources);
      assert r[|r| - 1] == '>';
      assert NoSourcesLine[|NoSourcesLine| - 1] == '_';
    }
  }

  /** Citations that are not empty end with the closing `>` of a link. */
  lemma {:induction false} CitationsEndWithBullet(used: seq<int>, sources: seq<Source>)
    requires CitedCount(used, sources) != 0
    ensures var c := Citations(used, sources); c != [] && c[|c| - 1] == '>'
    decreases |used|
  {
    var front := used[..|used| - 1];
    if !InRange(used[|used| - 1], sources) {
      CitationsEndWithBullet(front, sources);
    }
  }

  /** A source cited through its URL: the link shows the URL's last path
      segment. */
  lemma CitationOfUrl(host: string, file: string)
    requires '/' !in file && file != []
    ensures Bullet(Source(None, Some(host + "/" + file), None)) == "\n\U{2022} <" + (host + "/" + file) + "|" + file + ">"
  {
    LastSegmentAfterSlash(host, file);
  }

  /** `**Hi**` citing its one source, whose URL is `http://x/doc.pdf`.
      The examples take the pieces of their literals as parameters fixed by
      `requires`: a whole literal would make the verifier unfold the
      converter and the citation loop character by character. */
  lemma FormattedExample(x: string, host: string, file: string)
    requires x == "Hi" && host == "http://x" && file == "doc.pdf"
    ensures FormattedReply("**" + x + "**", Some([0]), [Source(None, Some(host + "/" + file), None)])
         == "*" + x + "*" + SourcesHeader + ("\n\U{2022} <" + (host + "/" + file) + "|" + file + ">")
  {
    var src := Source(None, Some(host + "/" + file), None);
    SlackMarkdown.ConvertOneBold(x);
    CitationOfUrl(host, file);
    FormattedOneSource("**" + x + "**", src);
  }

  /** Citing the only source there is: the converted message, the header
      and that source's bullet. */
  lemma FormattedOneSource(message: string, src: Source)
    ensures FormattedReply(message, Some([0]), [src]) == SlackMarkdown.Convert(message) + SourcesHeader + Bullet(src)
  {
    CitationsSingle(0, [src]);
  }

  /** The same answer citing index 5 of a one-source list: the index is
      skipped and the placeholder is printed. */
  lemma FormattedOutOfRangeExample(x: string, host: string, file: string)
    requires x == "Hi" && host == "http://x" && file == "doc.pdf"
    ensures FormattedReply("**" + x + "**", Some([5]), [Source(None, Some(host + "/" + file), None)])
         == "*" + x + "*" + SourcesHeader + NoSourcesLine
  {
    var src := Source(None, Some(host + "/" + file), None);
    SlackMarkdown.ConvertOneBold(x);
    CitationsSingle(5, [src]);
  }

  /** What the gate decided, and the texts it handed to the classifier. */
  datatype Decision = Decision(reply: bool, classified: seq<string>)

  /** `shouldReplyToMessage`: a message without text is skipped before the
      classifier `isQuestion` is consulted; any other message gets its
      verdict. */
  function ShouldReplyToMessage(question: Option<string>, isQuestion: string -> bool): (d: Decision)
    ensures d.reply <==> Truthy(question) && isQuestion(question.value)
    ensures d.classified != [] <==> Truthy(question)
    ensures Truthy(question) ==> d.classified == [question.value]
  {
    if !Truthy(question) then Decision(false, [])
    else Decision(isQuestion(question.value), [question.value])
  }
}
