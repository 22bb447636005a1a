/** The score report's transcript: every required word marked in the User entries. */
module Highlight {
  import opened Text
  import opened Conversation

  /**
   * One step of `text.replace(new RegExp(word, 'gi'), '<mark>$&</mark>')` seen as a sequence of
   * spans: characters left as they were, and the matched texts it wraps.
   */
  datatype Span = Plain(c: char) | Marked(matched: string)

  const OpenMark := "<mark>"
  const CloseMark := "</mark>"

  function RenderSpan(sp: Span): string {
    match sp
    case Plain(c) => [c]
    case Marked(m) => OpenMark + m + CloseMark
  }

  /** The string the replacement produces. */
  function Render(sps: seq<Span>): string {
    if sps == [] then "" else RenderSpan(sps[0]) + Render(sps[1..])
  }

  /** The same spans with the inserted markers deleted again. */
  function Strip(sps: seq<Span>): string {
    if sps == [] then ""
    else (match sps[0] case Plain(c) => [c] case Marked(m) => m) + Strip(sps[1..])
  }

  /** How many matches the replacement wrapped. */
  function Marks(sps: seq<Span>): nat {
    if sps == [] then 0 else (if sps[0].Marked? then 1 else 0) + Marks(sps[1..])
  }

  lemma ConsSpan(sp: Span, rest: seq<Span>)
    ensures Render([sp] + rest) == RenderSpan(sp) + Render(rest)
    ensures Strip([sp] + rest) == (match sp case Plain(c) => [c] case Marked(m) => m) + Strip(rest)
    ensures Marks([sp] + rest) == (if sp.Marked? then 1 else 0) + Marks(rest)
  {
    assert ([sp] + rest)[1..] == rest;
  }

  /**
   * The global, case-insensitive matches of a literal word, leftmost first and not overlapping. An
   * empty word matches the empty string before every character and at the end, as an empty
   * regular expression does.
   */
  function MatchSpans(s: string, w: string): seq<Span>
    decreases |s|
  {
    if w == "" then
      if s == [] then [Marked("")] else [Marked("")] + ([Plain(s[0])] + MatchSpans(s[1..], w))
    else if s == [] then []
    else if StartsWithFold(s, w) then [Marked(s[..|w|])] + MatchSpans(s[|w|..], w)
    else [Plain(s[0])] + MatchSpans(s[1..], w)
  }

  /** One replace step: every match of `w` in `s` wrapped in `<mark>`…`</mark>`. */
  function MarkAll(s: string, w: string): string {
    Render(MatchSpans(s, w))
  }

  /** The replacement only inserts markers: deleting them gives back the text it started from. */
  lemma StripMatchSpans(s: string, w: string)
    ensures Strip(MatchSpans(s, w)) == s
  {
    if w == "" {
      StripEmptyWord(s);
    } else {
      StripWord(s, w);
    }
  }

  lemma {:induction false} StripEmptyWord(s: string)
    ensures Strip(MatchSpans(s, "")) == s
  {
    if s == [] {
      ConsSpan(Marked(""), []);
    } else {
      var rest := MatchSpans(s[1..], "");
      StripEmptyWord(s[1..]);
      ConsSpan(Plain(s[0]), rest);
      ConsSpan(Marked(""), [Plain(s[0])] + rest);
      assert [s[0]] + s[1..] == s;
    }
  }

  lemma {:induction false} StripWord(s: string, w: string)
    requires w != ""
    ensures Strip(MatchSpans(s, w)) == s
    decreases |s|
  {
    if s != [] {
      if StartsWithFold(s, w) {
        StripWord(s[|w|..], w);
        ConsSpan(Marked(s[..|w|]), MatchSpans(s[|w|..], w));
        assert s[..|w|] + s[|w|..] == s;
      } else {
        StripWord(s[1..], w);
        ConsSpan(Plain(s[0]), MatchSpans(s[1..], w));
        assert [s[0]] + s[1..] == s;
      }
    }
  }

  /** Every wrapped text is a case-insensitive copy of the word. */
  lemma {:induction false} MarkedAreMatches(s: string, w: string)
    ensures forall i :: 0 <= i < |MatchSpans(s, w)| && MatchSpans(s, w)[i].Marked? ==>
      FoldEq(MatchSpans(s, w)[i].matched, w)
    decreases |s|
  {
    FoldEqRefl("");
    if w == "" {
      if s != [] {
        MarkedAreMatches(s[1..], w);
      }
    } else if s != [] {
      if StartsWithFold(s, w) {
        MarkedAreMatches(s[|w|..], w);
      } else {
        MarkedAreMatches(s[1..], w);
      }
    }
  }

  /** The stripped text splits at any span boundary. */
  lemma {:induction false} StripSplit(sps: seq<Span>, i: nat)
    requires i <= |sps|
    ensures Strip(sps) == Strip(sps[..i]) + Strip(sps[i..])
  {
    if i == 0 {
      assert sps[..0] == [] && sps[0..] == sps;
    } else {
      StripSplit(sps[1..], i - 1);
      assert sps[1..][..i - 1] == sps[..i][1..];
      assert sps[1..][i - 1..] == sps[i..];
    }
  }

  /** The text left from a plain span on never starts with a match. */
  lemma {:induction false} PlainSpansStartNoMatch(s: string, w: string)
    requires w != ""
    ensures forall i :: 0 <= i < |MatchSpans(s, w)| && MatchSpans(s, w)[i].Plain? ==>
      !StartsWithFold(Strip(MatchSpans(s, w)[i..]), w)
    decreases |s|
  {
    if s != [] {
      var sps := MatchSpans(s, w);
      if StartsWithFold(s, w) {
        var rest := MatchSpans(s[|w|..], w);
        PlainSpansStartNoMatch(s[|w|..], w);
        forall i | 1 <= i < |sps| ensures sps[i..] == rest[i - 1..] { }
      } else {
        var rest := MatchSpans(s[1..], w);
        PlainSpansStartNoMatch(s[1..], w);
        StripMatchSpans(s, w);
        assert sps[0..] == sps;
        forall i | 1 <= i < |sps| ensures sps[i..] == rest[i - 1..] { }
      }
    }
  }

  /**
   * The `g` flag: no match is skipped. At the position of every character the replacement leaves
   * plain, the word does not match, so together with MarkedAreMatches the wrapped pieces are all
   * the leftmost non-overlapping matches.
   */
  lemma MatchSpansGlobal(s: string, w: string)
    requires w != ""
    ensures forall i :: 0 <= i <= |MatchSpans(s, w)| ==> |Strip(MatchSpans(s, w)[..i])| <= |s|
    ensures forall i :: 0 <= i < |MatchSpans(s, w)| && MatchSpans(s, w)[i].Plain? ==>
      !StartsWithFold(s[|Strip(MatchSpans(s, w)[..i])|..], w)
  {
    var sps := MatchSpans(s, w);
    StripMatchSpans(s, w);
    PlainSpansStartNoMatch(s, w);
    forall i | 0 <= i <= |sps|
      ensures |Strip(sps[..i])| <= |s| && s[|Strip(sps[..i])|..] == Strip(sps[i..])
    {
      StripSplit(sps, i);
    }
  }

  /** Each match adds the 13 characters of `<mark>` and `</mark>`, and nothing else is added. */
  lemma {:induction false} RenderLength(sps: seq<Span>)
    ensures |Render(sps)| == |Strip(sps)| + 13 * Marks(sps)
    ensures Marks(sps) == 0 ==> Render(sps) == Strip(sps)
  {
    if sps != [] {
      RenderLength(sps[1..]);
    }
  }

  /** A marked span shows up as an opening marker in the output. */
  lemma {:induction false} RenderShowsMark(sps: seq<Span>)
    requires Marks(sps) > 0
    ensures Occurs(OpenMark, Render(sps))
  {
    var rest := Render(sps[1..]);
    match sps[0]
    case Marked(m) =>
      OccursFront(OpenMark, m, CloseMark, rest);
    case Plain(c) =>
      RenderShowsMark(sps[1..]);
      OccursCons(OpenMark, c, rest);
  }

  /** A non-empty word is wrapped at least once exactly when it occurs in the text. */
  lemma {:induction false} MarksIffContains(s: string, w: string)
    requires w != ""
    ensures Marks(MatchSpans(s, w)) > 0 <==> ContainsFold(s, w)
    decreases |s|
  {
    if s != [] {
      if StartsWithFold(s, w) {
        ConsSpan(Marked(s[..|w|]), MatchSpans(s[|w|..], w));
      } else {
        ConsSpan(Plain(s[0]), MatchSpans(s[1..], w));
        MarksIffContains(s[1..], w);
      }
    }
  }

  /** A replace step leaves the text alone exactly when the (non-empty) word does not occur in it. */
  lemma MarkAllUnchangedIff(s: string, w: string)
    requires w != ""
    ensures MarkAll(s, w) == s <==> !ContainsFold(s, w)
    ensures ContainsFold(s, w) ==> Occurs(OpenMark, MarkAll(s, w))
  {
    var sps := MatchSpans(s, w);
    StripMatchSpans(s, w);
    RenderLength(sps);
    MarksIffContains(s, w);
    if ContainsFold(s, w) {
      RenderShowsMark(sps);
    }
  }

  /** `highlightedText` after the replace steps for `words`, taken in order. */
  function Highlighted(text: string, words: seq<string>): string {
    if words == [] then text
    else MarkAll(Highlighted(text, words[..|words| - 1]), words[|words| - 1])
  }

  /** The inner `forEach` of the score report, reassigning `highlightedText` once per word. */
  method HighlightText(text: string, words: seq<string>) returns (highlighted: string)
    ensures highlighted == Highlighted(text, words)
  {
    highlighted := text;
    var i := 0;
    while i < |words|
      invariant i <= |words|
      invariant highlighted == Highlighted(text, words[..i])
    {
      assert words[..i + 1][..i] == words[..i];
      highlighted := MarkAll(highlighted, words[i]);
      i := i + 1;
    }
    assert words[..i] == words;
  }

  /**
   * Each step only wraps matches: the text after step `k` is the rendering of spans whose stripped
   * form is the text before it, and whose wrapped parts all match word `k`.
   */
  lemma HighlightStep(text: string, words: seq<string>, k: nat)
    requires k < |words|
    ensures var before := Highlighted(text, words[..k]);
      && Highlighted(text, words[..k + 1]) == Render(MatchSpans(before, words[k]))
      && Strip(MatchSpans(before, words[k])) == before
  {
    assert words[..k + 1][..k] == words[..k];
    StripMatchSpans(Highlighted(text, words[..k]), words[k]);
  }

  /** A text in which no (non-empty) required word occurs is shown unaltered. */
  lemma {:induction false} HighlightedUntouched(text: string, words: seq<string>)
    requires forall i :: 0 <= i < |words| ==> words[i] != "" && !ContainsFold(text, words[i])
    ensures Highlighted(text, words) == text
  {
    if words != [] {
      var init := words[..|words| - 1];
      assert forall i :: 0 <= i < |init| ==> init[i] == words[i];
      HighlightedUntouched(text, init);
      MarkAllUnchangedIff(text, words[|words| - 1]);
    }
  }

  /** The `<p>` of one history entry: its class and its inner HTML. */
  datatype Paragraph = Paragraph(className: string, html: string)

  function ClassName(s: Speaker): string {
    match s
    case User => "user-message"
    case LLM => "llm-message"
  }

  /** The `<strong>Speaker:</strong> ` prefix of a paragraph. */
  function Label(s: Speaker): string {
    "<strong>" + SpeakerName(s) + ":</strong> "
  }

  function EntryParagraph(e: Entry, words: seq<string>): Paragraph {
    Paragraph(ClassName(e.speaker), Label(e.speaker) + (if e.speaker == User then Highlighted(e.text, words) else e.text))
  }

  /** The transcript section: one paragraph per history entry, in order. */
  function TranscriptParagraphs(h: seq<Entry>, words: seq<string>): seq<Paragraph> {
    seq(|h|, i requires 0 <= i < |h| => EntryParagraph(h[i], words))
  }

  /** One more entry adds its paragraph at the end. */
  lemma TranscriptSnoc(h: seq<Entry>, words: seq<string>, i: nat)
    requires i < |h|
    ensures TranscriptParagraphs(h[..i + 1], words) == TranscriptParagraphs(h[..i], words) + [EntryParagraph(h[i], words)]
  {
    var before := TranscriptParagraphs(h[..i], words);
    var after := TranscriptParagraphs(h[..i + 1], words);
    assert forall k :: 0 <= k < i ==> h[..i + 1][k] == h[..i][k];
    assert after == before + [EntryParagraph(h[i], words)];
  }

  /** The outer `forEach` of the score report: one paragraph appended per entry. */
  method RenderTranscript(h: seq<Entry>, words: seq<string>) returns (ps: seq<Paragraph>)
    ensures ps == TranscriptParagraphs(h, words)
  {
    ps := [];
    var i := 0;
    while i < |h|
      invariant i <= |h|
      invariant ps == TranscriptParagraphs(h[..i], words)
    {
      var entry := h[i];
      var highlighted := entry.text;
      if entry.speaker == User {
        highlighted := HighlightText(entry.text, words);
      }
      var p := Paragraph(ClassName(entry.speaker), Label(entry.speaker) + highlighted);
      assert p == EntryParagraph(h[i], words);
      TranscriptSnoc(h, words, i);
      ps := ps + [p];
      i := i + 1;
    }
    assert h[..i] == h;
  }

  /**
   * What each paragraph shows: the class follows the speaker, an LLM text is never altered, and a
   * User text is the highlighted text, from which deleting the markers of the last step gives back
   * the text before that step.
   */
  lemma TranscriptShape(h: seq<Entry>, words: seq<string>, i: nat)
    requires i < |h|
    ensures var p := TranscriptParagraphs(h, words)[i];
      && (p.className == "user-message" <==> h[i].speaker == User)
      && (h[i].speaker == LLM ==> p.html == Label(LLM) + h[i].text)
      && (h[i].speaker == User ==> p.html == Label(User) + Highlighted(h[i].text, words))
  {
  }

  /** A User entry that uses a required word gets a `<mark>` (script.test.js, "highlight required words"). */
  lemma UsedWordIsMarked(text: string, w: string)
    requires w != "" && ContainsFold(text, w)
    ensures Occurs(OpenMark, Highlighted(text, [w]))
  {
    assert [w][..0] == [];
    MarkAllUnchangedIff(text, w);
  }
}
