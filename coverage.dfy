/** The score report's word count: how many required words the User entries use. */
module Coverage {
  import opened Text
  import opened Conversation

  /**
   * The required words that occur in the text, case-insensitively, kept in list order; a word
   * listed twice is kept twice.
   */
  function UsedWords(words: seq<string>, text: string): seq<string> {
    if words == [] then []
    else (if ContainsFold(text, words[0]) then [words[0]] else []) + UsedWords(words[1..], text)
  }

  /** `usedWords.length` for a history: the count in "You used N out of M". */
  function UsedCount(h: seq<Entry>, words: seq<string>): nat {
    |UsedWords(words, UserMessages(h))|
  }

  /** A word is used exactly when it is required and occurs, case-insensitively, in the text. */
  lemma {:induction false} UsedWordsMembers(words: seq<string>, text: string)
    ensures forall w :: w in UsedWords(words, text) <==> w in words && ContainsFold(text, w)
  {
    if words != [] {
      UsedWordsMembers(words[1..], text);
      assert words == [words[0]] + words[1..];
    }
  }

  /** The used words are never more than the required words, and all of them when every one occurs. */
  lemma {:induction false} UsedWordsBound(words: seq<string>, text: string)
    ensures |UsedWords(words, text)| <= |words|
    ensures (forall i :: 0 <= i < |words| ==> ContainsFold(text, words[i])) ==> UsedWords(words, text) == words
  {
    if words != [] {
      UsedWordsBound(words[1..], text);
      assert forall i :: 1 <= i < |words| ==> words[1..][i - 1] == words[i];
    }
  }

  /** When every word found in one text is also found in another, the other uses at least as many. */
  lemma {:induction false} UsedWordsMonotone(words: seq<string>, t1: string, t2: string)
    requires forall i :: 0 <= i < |words| && ContainsFold(t1, words[i]) ==> ContainsFold(t2, words[i])
    ensures |UsedWords(words, t1)| <= |UsedWords(words, t2)|
  {
    if words != [] {
      assert forall i :: 1 <= i < |words| ==> words[1..][i - 1] == words[i];
      UsedWordsMonotone(words[1..], t1, t2);
    }
  }

  /** Filtering distributes over concatenation of the word list: order and duplicates are kept. */
  lemma {:induction false} UsedWordsAppend(a: seq<string>, b: seq<string>, text: string)
    ensures UsedWords(a + b, text) == UsedWords(a, text) + UsedWords(b, text)
  {
    if a == [] {
      assert a + b == b;
    } else {
      assert (a + b)[0] == a[0] && (a + b)[1..] == a[1..] + b;
      UsedWordsAppend(a[1..], b, text);
    }
  }

  /** A single word is used exactly when it occurs. */
  lemma UsedWordsOne(w: string, text: string)
    ensures ContainsFold(text, w) ==> UsedWords([w], text) == [w]
    ensures !ContainsFold(text, w) ==> UsedWords([w], text) == []
  {
  }

  /** Each occurring word is kept as many times as it is listed; a word that does not occur, never. */
  lemma {:induction false} UsedWordsMultiplicity(words: seq<string>, text: string, w: string)
    ensures multiset(UsedWords(words, text))[w] == if ContainsFold(text, w) then multiset(words)[w] else 0
  {
    if words != [] {
      UsedWordsMultiplicity(words[1..], text, w);
      assert words == [words[0]] + words[1..];
      assert multiset(words) == multiset([words[0]]) + multiset(words[1..]);
    }
  }

  /** The count never exceeds the number of required words. */
  lemma UsedCountBound(h: seq<Entry>, words: seq<string>)
    ensures UsedCount(h, words) <= |words|
  {
    UsedWordsBound(words, UserMessages(h));
  }

  /** An LLM entry changes nothing: only User texts are scored. */
  lemma UsedCountIgnoresLLM(h: seq<Entry>, t: string, words: seq<string>)
    ensures UsedCount(h + [Entry(LLM, t)], words) == UsedCount(h, words)
  {
    UserTextsSnoc(h, Entry(LLM, t));
    assert UserTexts(h) + [] == UserTexts(h);
  }

  /** Appending a User entry never lowers the count: text already scored stays in the joined text. */
  lemma UsedCountMonotone(h: seq<Entry>, t: string, words: seq<string>)
    ensures UsedCount(h + [Entry(User, t)], words) >= UsedCount(h, words)
  {
    var before := UserMessages(h);
    var after := UserMessages(h + [Entry(User, t)]);
    UserTextsSnoc(h, Entry(User, t));
    JoinSnoc(UserTexts(h), t, " ");
    forall i | 0 <= i < |words| && ContainsFold(before, words[i]) ensures ContainsFold(after, words[i]) {
      if UserTexts(h) == [] {
        ContainsFoldEmpty(words[i]);
        FoldEqRefl("");
        assert after[..0] == "";
      } else {
        ContainsFoldPrefix(before, " " + t, words[i]);
        assert after == before + (" " + t);
      }
    }
    UsedWordsMonotone(words, before, after);
  }

  /** A word whose first character, folded, appears nowhere in the text does not occur in it. */
  lemma {:induction false} AbsentFirstChar(s: string, w: string)
    requires w != [] && forall k :: 0 <= k < |s| ==> Fold(s[k]) != Fold(w[0])
    ensures !ContainsFold(s, w)
  {
    if s != [] {
      AbsentFirstChar(s[1..], w);
    }
  }

  /** A two-character word matching at position `k`. */
  lemma PairAt(s: string, w: string, k: nat)
    requires |w| == 2 && k + 2 <= |s| && s[k] == w[0] && s[k + 1] == w[1]
    ensures ContainsFold(s, w)
  {
    FoldEqRefl(w);
    assert s[k..][..2] == w;
    ContainsFoldAt(s, w, k);
  }

  /** The required words of the scenarios: 你好, 谢谢 and 再见. */
  const Greetings: seq<string> := ["你好", "谢谢", "再见"]

  lemma UsedWordsCons(w: string, rest: seq<string>, text: string)
    ensures UsedWords([w] + rest, text) == (if ContainsFold(text, w) then [w] else []) + UsedWords(rest, text)
  {
    assert ([w] + rest)[1..] == rest;
  }

  lemma UserTextsOfTwo(e1: Entry, e2: Entry)
    ensures UserTexts([e1, e2]) ==
      (if e1.speaker == User then [e1.text] else []) + (if e2.speaker == User then [e2.text] else [])
  {
    UserTextsSnoc([], e1);
    UserTextsSnoc([e1], e2);
    assert [e1] + [e2] == [e1, e2];
  }

  lemma MessagesOfTwo(t1: string, t2: string)
    ensures UserMessages([Entry(User, t1), Entry(User, t2)]) == t1 + " " + t2
  {
    UserTextsOfTwo(Entry(User, t1), Entry(User, t2));
    assert UserTexts([Entry(User, t1), Entry(User, t2)]) == [t1, t2];
    assert [t1, t2][1..] == [t2];
    assert Join([t1, t2], " ") == t1 + " " + Join([t2], " ");
  }

  lemma MessagesAfterGreeting(greeting: string, t: string)
    ensures UserMessages([Entry(LLM, greeting), Entry(User, t)]) == t
  {
    UserTextsOfTwo(Entry(LLM, greeting), Entry(User, t));
    assert [] + [t] == [t];
  }

  lemma MessagesOfOne(t: string)
    ensures UserMessages([Entry(User, t)]) == t
  {
    UserTextsSnoc([], Entry(User, t));
    assert [] + [Entry(User, t)] == [Entry(User, t)];
  }

  /** Two User turns "你好，谢谢" and "再见" use all three words: "3 out of 3" (script.test.js). */
  lemma ScenarioAllThree()
    ensures UsedCount([Entry(User, "你好，谢谢"), Entry(User, "再见")], Greetings) == 3
  {
    MessagesOfTwo("你好，谢谢", "再见");
    var text := "你好，谢谢" + " " + "再见";
    PairAt(text, "你好", 0);
    PairAt(text, "谢谢", 3);
    PairAt(text, "再见", 6);
    UsedWordsBound(Greetings, text);
  }

  /** Which of the scenario words a text uses decides the used list. */
  lemma UsedGreetings(text: string)
    ensures UsedWords(Greetings, text) ==
      (if ContainsFold(text, "你好") then ["你好"] else []) +
      (if ContainsFold(text, "谢谢") then ["谢谢"] else []) +
      (if ContainsFold(text, "再见") then ["再见"] else [])
  {
    UsedWordsCons("再见", [], text);
    UsedWordsCons("谢谢", ["再见"], text);
    UsedWordsCons("你好", ["谢谢", "再见"], text);
  }

  const TeacherLine := "你好，老师！谢谢你。"

  lemma TeacherLineWords()
    ensures ContainsFold(TeacherLine, "你好") && ContainsFold(TeacherLine, "谢谢")
    ensures !ContainsFold(TeacherLine, "再见")
  {
    PairAt(TeacherLine, "你好", 0);
    PairAt(TeacherLine, "谢谢", 6);
    AbsentFirstChar(TeacherLine, "再见");
  }

  /** "你好，老师！谢谢你。" after the greeting uses two of the words: "2 out of 3" (script.test.js). */
  lemma ScenarioTwoOfThree(greeting: string)
    ensures UsedCount([Entry(LLM, greeting), Entry(User, TeacherLine)], Greetings) == 2
  {
    MessagesAfterGreeting(greeting, TeacherLine);
    UsedGreetings(TeacherLine);
    TeacherLineWords();
  }

  lemma HelloWords()
    ensures ContainsFold("你好", "你好")
    ensures !ContainsFold("你好", "谢谢") && !ContainsFold("你好", "再见")
  {
    PairAt("你好", "你好", 0);
    AbsentFirstChar("你好", "谢谢");
    AbsentFirstChar("你好", "再见");
  }

  /** A word listed twice counts twice: "你好" against 你好, 你好, 谢谢 uses two of three. */
  lemma ScenarioRepeatedWord()
    ensures UsedCount([Entry(User, "你好")], ["你好", "你好", "谢谢"]) == 2
  {
    MessagesOfOne("你好");
    PairAt("你好", "你好", 0);
    AbsentFirstChar("你好", "谢谢");
    UsedWordsCons("谢谢", [], "你好");
    UsedWordsCons("你好", ["谢谢"], "你好");
    UsedWordsCons("你好", ["你好", "谢谢"], "你好");
  }

  /** A single "你好" uses one of the words: "1 out of 3" (script.test.js). */
  lemma ScenarioOneOfThree()
    ensures UsedCount([Entry(User, "你好")], Greetings) == 1
  {
    MessagesOfOne("你好");
    UsedGreetings("你好");
    HelloWords();
  }
}
