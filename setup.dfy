/** The landing page's parsing of the required words (public/script.js goToStartPage). */
module Setup {
  import opened Text

  /** Keeps the lines that are not blank, in order (`filter(w => w.trim() !== '')`). */
  function NonBlankLines(lines: seq<string>): seq<string> {
    if lines == [] then []
    else (if IsBlank(lines[0]) then [] else [lines[0]]) + NonBlankLines(lines[1..])
  }

  /** A line is kept exactly when it is one of the input lines and is not blank. */
  lemma {:induction false} NonBlankLinesMembers(lines: seq<string>)
    ensures forall l :: l in NonBlankLines(lines) <==> l in lines && !IsBlank(l)
  {
    if lines != [] {
      NonBlankLinesMembers(lines[1..]);
      assert lines == [lines[0]] + lines[1..];
    }
  }

  /** Filtering distributes over concatenation, so the kept lines stay in input order. */
  lemma {:induction false} NonBlankLinesAppend(a: seq<string>, b: seq<string>)
    ensures NonBlankLines(a + b) == NonBlankLines(a) + NonBlankLines(b)
  {
    if a == [] {
      assert a + b == b;
    } else {
      assert (a + b)[0] == a[0];
      assert (a + b)[1..] == a[1..] + b;
      NonBlankLinesAppend(a[1..], b);
    }
  }

  /** `requiredWords`: the lines of the trimmed input, with the white-space-only lines dropped. */
  function ParseWords(input: string): seq<string> {
    NonBlankLines(Split(Trim(input), '\n'))
  }

  /** No parsed word is blank or holds a line break. */
  predicate WellFormedWords(words: seq<string>) {
    forall i :: 0 <= i < |words| ==> !IsBlank(words[i]) && '\n' !in words[i]
  }

  /**
   * The parsed words are exactly the non-blank lines of the trimmed input: each kept line is whole
   * (not trimmed itself), and no word is blank or spans two lines.
   */
  lemma ParseWordsMembers(input: string)
    ensures forall w :: w in ParseWords(input) <==> w in Split(Trim(input), '\n') && !IsBlank(w)
    ensures WellFormedWords(ParseWords(input))
  {
    var lines := Split(Trim(input), '\n');
    NonBlankLinesMembers(lines);
    SplitPieces(Trim(input), '\n');
    var ws := ParseWords(input);
    forall i | 0 <= i < |ws| ensures !IsBlank(ws[i]) && '\n' !in ws[i] {
      assert ws[i] in ws;
    }
  }

  lemma NonBlankLinesDrop(a: string, rest: seq<string>)
    requires IsBlank(a)
    ensures NonBlankLines([a] + rest) == NonBlankLines(rest)
  {
    assert ([a] + rest)[1..] == rest;
  }

  lemma NonBlankLinesKeep(a: string, rest: seq<string>)
    requires !IsBlank(a)
    ensures NonBlankLines([a] + rest) == [a] + NonBlankLines(rest)
  {
    assert ([a] + rest)[1..] == rest;
  }

  /** A word as the landing-page examples write them: no line break, no white space at its ends. */
  predicate PlainWord(w: string) {
    w != [] && '\n' !in w && !IsSpace(w[0]) && !IsSpace(w[|w| - 1])
  }

  lemma {:induction false} SplitExampleLines(a: string, b: string, c: string)
    requires PlainWord(a) && PlainWord(b) && PlainWord(c)
    ensures Split(a + "\n\n" + b + "\n  \n" + c, '\n') == [a, "", b, "  ", c]
  {
    var s3 := "  " + "\n" + c;
    var s2 := b + "\n" + s3;
    var s1 := "" + "\n" + s2;
    assert a + "\n\n" + b + "\n  \n" + c == a + "\n" + s1;
    SplitWhole(c, '\n');
    SplitFirst("  ", c, '\n');
    SplitFirst(b, s3, '\n');
    SplitFirst("", s2, '\n');
    SplitFirst(a, s1, '\n');
  }

  lemma {:induction false} KeepTwoOfThree(b: string, c: string)
    requires PlainWord(b) && PlainWord(c)
    ensures NonBlankLines([b, "  ", c]) == [b, c]
  {
    NotBlankAt(b, 0);
    NotBlankAt(c, 0);
    assert IsBlank("  ");
    NonBlankLinesKeep(c, []);
    NonBlankLinesDrop("  ", [c]);
    NonBlankLinesKeep(b, ["  ", c]);
  }

  lemma {:induction false} KeepExampleLines(a: string, b: string, c: string)
    requires PlainWord(a) && PlainWord(b) && PlainWord(c)
    ensures NonBlankLines([a, "", b, "  ", c]) == [a, b, c]
  {
    assert NonBlankLines(["", b, "  ", c]) == [b, c] by {
      KeepTwoOfThree(b, c);
      NonBlankLinesDrop("", [b, "  ", c]);
    }
    NotBlankAt(a, 0);
    NonBlankLinesKeep(a, ["", b, "  ", c]);
    assert [a, "", b, "  ", c] == [a] + ["", b, "  ", c];
  }

  /** Empty and white-space-only lines between the words are dropped ("你好\n\n谢谢\n  \n再见"). */
  lemma {:induction false} ParseDropsBlankLines(a: string, b: string, c: string)
    requires PlainWord(a) && PlainWord(b) && PlainWord(c)
    ensures ParseWords(a + "\n\n" + b + "\n  \n" + c) == [a, b, c]
  {
    var s := a + "\n\n" + b + "\n  \n" + c;
    assert s[0] == a[0] && s[|s| - 1] == c[|c| - 1];
    TrimUnchanged(s);
    SplitExampleLines(a, b, c);
    KeepExampleLines(a, b, c);
  }

  lemma TrimStartPadded(t: string)
    requires t != [] && !IsSpace(t[0])
    ensures TrimStart(" " + t + " ") == t + " "
  {
    var s := " " + t + " ";
    assert s[1..] == t + " ";
    assert TrimStart(t + " ") == t + " ";
  }

  lemma TrimEndPadded(t: string)
    requires t != [] && !IsSpace(t[|t| - 1])
    ensures TrimEnd(t + " ") == t
  {
    assert (t + " ")[..|t|] == t;
    assert TrimEnd(t) == t;
  }

  lemma {:induction false} TrimPadded(a: string, b: string)
    requires PlainWord(a) && PlainWord(b)
    ensures Trim(" " + a + " \n " + b + " ") == a + " " + "\n" + (" " + b)
  {
    var t := a + " " + "\n" + (" " + b);
    assert " " + a + " \n " + b + " " == " " + t + " ";
    assert t[0] == a[0] && t[|t| - 1] == b[|b| - 1];
    TrimStartPadded(t);
    TrimEndPadded(t);
  }

  /** Only the whole input is trimmed: each word keeps the spaces of its own line (" a \n b "). */
  lemma {:induction false} ParseKeepsInnerSpaces(a: string, b: string)
    requires PlainWord(a) && PlainWord(b)
    ensures ParseWords(" " + a + " \n " + b + " ") == [a + " ", " " + b]
  {
    var t := a + " " + "\n" + (" " + b);
    TrimPadded(a, b);
    assert Split(t, '\n') == [a + " ", " " + b] by {
      SplitWhole(" " + b, '\n');
      SplitFirst(a + " ", " " + b, '\n');
    }
    assert NonBlankLines([a + " ", " " + b]) == [a + " ", " " + b] by {
      NotBlankAt(a + " ", 0);
      NotBlankAt(" " + b, 1);
      NonBlankLinesKeep(" " + b, []);
      NonBlankLinesKeep(a + " ", [" " + b]);
    }
  }

  lemma {:induction false} SplitThreeLines(a: string, b: string, c: string)
    requires PlainWord(a) && PlainWord(b) && PlainWord(c)
    ensures Split(a + "\n" + b + "\n" + c, '\n') == [a, b, c]
  {
    var s2 := b + "\n" + c;
    assert a + "\n" + b + "\n" + c == a + "\n" + s2;
    SplitWhole(c, '\n');
    SplitFirst(b, c, '\n');
    SplitFirst(a, s2, '\n');
  }

  /** One word per line, as typed on the landing page ("你好\n谢谢\n再见"), parses to those words. */
  lemma {:induction false} ParseThreeLines(a: string, b: string, c: string)
    requires PlainWord(a) && PlainWord(b) && PlainWord(c)
    ensures ParseWords(a + "\n" + b + "\n" + c) == [a, b, c]
    ensures !IsBlank(a + "\n" + b + "\n" + c)
  {
    var s := a + "\n" + b + "\n" + c;
    assert s[0] == a[0] && s[|s| - 1] == c[|c| - 1];
    TrimUnchanged(s);
    NotBlankAt(s, 0);
    SplitThreeLines(a, b, c);
    NotBlankAt(a, 0);
    NotBlankAt(b, 0);
    NotBlankAt(c, 0);
    NonBlankLinesKeep(c, []);
    NonBlankLinesKeep(b, [c]);
    NonBlankLinesKeep(a, [b, c]);
  }
}
