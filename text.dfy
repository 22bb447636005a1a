/** The string operations of JavaScript the application relies on, over Dafny strings. */
module Text {

  /** The code points String.prototype.trim removes: ECMAScript WhiteSpace and LineTerminator. */
  predicate IsSpace(c: char) {
    || c == '\t' || c == '\U{B}' || c == '\U{C}' || c == ' ' || c == '\U{A0}'
    || c == '\U{1680}' || ('\U{2000}' <= c <= '\U{200A}') || c == '\U{202F}'
    || c == '\U{205F}' || c == '\U{3000}' || c == '\U{FEFF}'
    || c == '\n' || c == '\r' || c == '\U{2028}' || c == '\U{2029}'
  }

  /** String.prototype.trimStart: drop the leading white space. */
  function TrimStart(s: string): string {
    if s != [] && IsSpace(s[0]) then TrimStart(s[1..]) else s
  }

  /** String.prototype.trimEnd: drop the trailing white space. */
  function TrimEnd(s: string): string {
    if s != [] && IsSpace(s[|s| - 1]) then TrimEnd(s[..|s| - 1]) else s
  }

  /** String.prototype.trim. */
  function Trim(s: string): string {
    TrimEnd(TrimStart(s))
  }

  /** A string that is falsy once trimmed. */
  predicate IsBlank(s: string) {
    Trim(s) == []
  }

  /** `TrimStart` keeps the longest suffix that does not start with white space. */
  lemma {:induction false} TrimStartSpec(s: string)
    ensures |TrimStart(s)| <= |s| && TrimStart(s) == s[|s| - |TrimStart(s)|..]
    ensures forall k :: 0 <= k < |s| - |TrimStart(s)| ==> IsSpace(s[k])
    ensures TrimStart(s) != [] ==> !IsSpace(TrimStart(s)[0])
  {
    if s != [] && IsSpace(s[0]) {
      TrimStartSpec(s[1..]);
      var r := TrimStart(s[1..]);
      assert s[1..][|s| - 1 - |r|..] == s[|s| - |r|..];
      forall k | 0 <= k < |s| - |r| ensures IsSpace(s[k]) {
        if k > 0 {
          assert s[k] == s[1..][k - 1];
        }
      }
    } else {
      assert s[0..] == s;
    }
  }

  /** `TrimEnd` keeps the longest prefix that does not end with white space. */
  lemma {:induction false} TrimEndSpec(s: string)
    ensures |TrimEnd(s)| <= |s| && TrimEnd(s) == s[..|TrimEnd(s)|]
    ensures forall k :: |TrimEnd(s)| <= k < |s| ==> IsSpace(s[k])
    ensures TrimEnd(s) != [] ==> !IsSpace(TrimEnd(s)[|TrimEnd(s)| - 1])
  {
    if s != [] && IsSpace(s[|s| - 1]) {
      var init := s[..|s| - 1];
      TrimEndSpec(init);
      var r := TrimEnd(init);
      assert init[..|r|] == s[..|r|];
      forall k | |r| <= k < |s| ensures IsSpace(s[k]) {
        if k < |s| - 1 {
          assert s[k] == init[k];
        }
      }
    } else {
      assert s[..|s|] == s;
    }
  }

  /** A string is blank exactly when every character of it is white space. */
  lemma BlankIff(s: string)
    ensures IsBlank(s) <==> forall k :: 0 <= k < |s| ==> IsSpace(s[k])
  {
    var t := TrimStart(s);
    TrimStartSpec(s);
    TrimEndSpec(t);
    if !IsBlank(s) {
      var r := TrimEnd(t);
      assert r[0] == t[0] == s[|s| - |t|];
    }
  }

  /** Trimming yields a slice of the input with no white space at either end, and it is idempotent. */
  lemma TrimIdempotent(s: string)
    ensures Trim(Trim(s)) == Trim(s)
    ensures Trim(s) != [] ==> !IsSpace(Trim(s)[0]) && !IsSpace(Trim(s)[|Trim(s)| - 1])
  {
    var t := TrimStart(s);
    var r := TrimEnd(t);
    TrimStartSpec(s);
    TrimEndSpec(t);
    if r != [] {
      assert r[0] == t[0];
      assert TrimStart(r) == r;
      assert TrimEnd(r) == r;
    }
  }

  /** A string with no white space at either end is its own trim. */
  lemma TrimUnchanged(s: string)
    requires s != [] && !IsSpace(s[0]) && !IsSpace(s[|s| - 1])
    ensures Trim(s) == s
  {
  }

  /** One character that is not white space makes a string non-blank. */
  lemma NotBlankAt(s: string, k: nat)
    requires k < |s| && !IsSpace(s[k])
    ensures !IsBlank(s)
  {
    BlankIff(s);
  }

  /** String.prototype.split with a one-character separator: "" splits into [""]. */
  function Split(s: string, sep: char): seq<string> {
    if s == [] then [""]
    else
      var rest := Split(s[1..], sep);
      if s[0] == sep then [""] + rest else [[s[0]] + rest[0]] + rest[1..]
  }

  /** A split has at least one piece, and no piece holds the separator. */
  lemma {:induction false} SplitPieces(s: string, sep: char)
    ensures |Split(s, sep)| >= 1
    ensures forall i :: 0 <= i < |Split(s, sep)| ==> sep !in Split(s, sep)[i]
  {
    if s != [] {
      SplitPieces(s[1..], sep);
    }
  }

  /** A string without the separator splits into itself. */
  lemma {:induction false} SplitWhole(s: string, sep: char)
    requires sep !in s
    ensures Split(s, sep) == [s]
  {
    if s != [] {
      SplitWhole(s[1..], sep);
      assert [s[0]] + s[1..] == s;
      assert Split(s, sep) == [[s[0]] + s[1..]] + [s[1..]][1..];
    }
  }

  /** Splitting cuts at the first separator and goes on with the rest. */
  lemma {:induction false} SplitFirst(a: string, b: string, sep: char)
    requires sep !in a
    ensures Split(a + [sep] + b, sep) == [a] + Split(b, sep)
  {
    var s := a + [sep] + b;
    if a == [] {
      assert s[1..] == b;
    } else {
      assert s[0] == a[0] != sep;
      assert s[1..] == a[1..] + [sep] + b;
      SplitFirst(a[1..], b, sep);
      var rest := Split(s[1..], sep);
      assert rest == [a[1..]] + Split(b, sep);
      assert [a[0]] + a[1..] == a;
      assert Split(s, sep) == [[a[0]] + rest[0]] + rest[1..];
    }
  }

  /** Array.prototype.join. */
  function Join(parts: seq<string>, glue: string): string {
    if parts == [] then ""
    else if |parts| == 1 then parts[0]
    else parts[0] + glue + Join(parts[1..], glue)
  }

  /** Joining the pieces of a split with the separator gives back the string. */
  lemma {:induction false} JoinSplit(s: string, sep: char)
    ensures Join(Split(s, sep), [sep]) == s
  {
    if s != [] {
      var rest := Split(s[1..], sep);
      JoinSplit(s[1..], sep);
      if s[0] == sep {
        assert Split(s, sep) == [""] + rest;
        assert ([""] + rest)[1..] == rest;
      } else {
        var parts := [[s[0]] + rest[0]] + rest[1..];
        assert Split(s, sep) == parts;
        if |rest| > 1 {
          assert parts[1..] == rest[1..];
          assert Join(rest, [sep]) == rest[0] + [sep] + Join(rest[1..], [sep]);
        }
      }
    }
  }

  /** Appending one more part to a join appends the glue and the part. */
  lemma {:induction false} JoinSnoc(parts: seq<string>, last: string, glue: string)
    ensures Join(parts + [last], glue) == if parts == [] then last else Join(parts, glue) + glue + last
  {
    if |parts| == 1 {
      assert parts + [last] == [parts[0], last];
    } else if |parts| > 1 {
      assert (parts + [last])[1..] == parts[1..] + [last];
      JoinSnoc(parts[1..], last, glue);
    }
  }

  /** `s` starts with `p` (String.prototype.startsWith). */
  predicate StartsWith(s: string, p: string) {
    |p| <= |s| && s[..|p|] == p
  }

  /** `w` occurs verbatim in `s` (String.prototype.includes). */
  predicate Occurs(w: string, s: string)
    decreases |s|
  {
    StartsWith(s, w) || (s != [] && Occurs(w, s[1..]))
  }

  /** An occurrence at any position is found. */
  lemma {:induction false} OccursAt(w: string, s: string, k: nat)
    requires k <= |s| && StartsWith(s[k..], w)
    ensures Occurs(w, s)
  {
    if k > 0 {
      assert s[1..][k - 1..] == s[k..];
      OccursAt(w, s[1..], k - 1);
    } else {
      assert s[0..] == s;
    }
  }

  lemma OccursIn(w: string, a: string, b: string)
    ensures Occurs(w, a + w + b)
  {
    var s := a + w + b;
    assert s[|a|..][..|w|] == w;
    OccursAt(w, s, |a|);
  }

  lemma {:induction false} OccursWithin(w: string, s: string, a: string, b: string)
    requires Occurs(w, s)
    ensures Occurs(w, a + s + b)
  {
    if StartsWith(s, w) {
      assert (a + s + b)[|a|..][..|w|] == s[..|w|];
      OccursAt(w, a + s + b, |a|);
    } else {
      OccursWithin(w, s[1..], a + [s[0]], b);
      assert a + [s[0]] + s[1..] + b == a + s + b;
    }
  }

  /** A string occurs at the front of any string it begins. */
  lemma OccursFront(w: string, a: string, b: string, c: string)
    ensures Occurs(w, w + a + b + c)
  {
    assert (w + a + b + c)[..|w|] == w;
  }

  /** An occurrence survives putting a character in front. */
  lemma OccursCons(w: string, c: char, s: string)
    requires Occurs(w, s)
    ensures Occurs(w, [c] + s)
  {
    assert ([c] + s)[1..] == s;
  }

  /** Every part of a join occurs in it verbatim. */
  lemma {:induction false} JoinHasParts(parts: seq<string>, glue: string)
    ensures forall i :: 0 <= i < |parts| ==> Occurs(parts[i], Join(parts, glue))
  {
    if |parts| == 1 {
      OccursIn(parts[0], "", "");
      assert "" + parts[0] + "" == parts[0];
    } else if |parts| > 1 {
      JoinHasParts(parts[1..], glue);
      var tail := Join(parts[1..], glue);
      forall i | 0 <= i < |parts| ensures Occurs(parts[i], Join(parts, glue)) {
        if i == 0 {
          OccursIn(parts[0], "", glue + tail);
          assert "" + parts[0] + (glue + tail) == Join(parts, glue);
        } else {
          assert parts[i] == parts[1..][i - 1];
          OccursWithin(parts[i], tail, parts[0] + glue, "");
          assert parts[0] + glue + tail + "" == Join(parts, glue);
        }
      }
    }
  }

  /** A text spliced between fixed pieces occurs in the result, and so does each of its parts. */
  lemma {:induction false} TemplateMentions(head: string, middle: string, tail: string, d: string, words: seq<string>)
    ensures Occurs(d, head + d + middle + Join(words, ", ") + tail)
    ensures forall i :: 0 <= i < |words| ==> Occurs(words[i], head + d + middle + Join(words, ", ") + tail)
  {
    var joined := Join(words, ", ");
    OccursIn(d, head, middle + joined + tail);
    assert head + d + (middle + joined + tail) == head + d + middle + joined + tail;
    JoinHasParts(words, ", ");
    forall i | 0 <= i < |words| ensures Occurs(words[i], head + d + middle + joined + tail) {
      OccursWithin(words[i], joined, head + d + middle, tail);
    }
  }

  /**
   * The per-character case fold behind the `i` regular-expression flag. The model folds the
   * Latin capitals A-Z; every other character (the Chinese text in particular) folds to itself.
   */
  function Fold(c: char): char {
    if 'A' <= c <= 'Z' then (c as int + 32) as char else c
  }

  /** `a` and `b` agree character by character after folding. */
  predicate FoldEq(a: string, b: string) {
    if a == [] then b == []
    else b != [] && Fold(a[0]) == Fold(b[0]) && FoldEq(a[1..], b[1..])
  }

  lemma {:induction false} FoldEqLength(a: string, b: string)
    requires FoldEq(a, b)
    ensures |a| == |b|
  {
    if a != [] { FoldEqLength(a[1..], b[1..]); }
  }

  lemma {:induction false} FoldEqRefl(a: string)
    ensures FoldEq(a, a)
  {
    if a != [] { FoldEqRefl(a[1..]); }
  }

  /**
   * Folding twice is folding once, and folded equality is an equivalence, so a case-insensitive
   * match does not depend on which side is the pattern.
   */
  lemma FoldIdempotent(c: char)
    ensures Fold(Fold(c)) == Fold(c)
    ensures 'a' <= c <= 'z' ==> Fold(c) == c
  {
    if 'A' <= c <= 'Z' {
      assert 'a' <= Fold(c) <= 'z';
    }
  }

  lemma {:induction false} FoldEqSymmetric(a: string, b: string)
    requires FoldEq(a, b)
    ensures FoldEq(b, a)
  {
    if a != [] { FoldEqSymmetric(a[1..], b[1..]); }
  }

  lemma {:induction false} FoldEqTransitive(a: string, b: string, c: string)
    requires FoldEq(a, b) && FoldEq(b, c)
    ensures FoldEq(a, c)
  {
    if a != [] { FoldEqTransitive(a[1..], b[1..], c[1..]); }
  }

  /** Folded equality is equality of the folded strings: `A` matches `a`, and a Chinese character only itself. */
  lemma {:induction false} FoldEqIff(a: string, b: string)
    ensures FoldEq(a, b) <==> |a| == |b| && forall k :: 0 <= k < |a| ==> Fold(a[k]) == Fold(b[k])
  {
    if a != [] && b != [] {
      FoldEqIff(a[1..], b[1..]);
      assert forall k :: 1 <= k < |a| ==> a[1..][k - 1] == a[k];
      assert forall k :: 1 <= k < |b| ==> b[1..][k - 1] == b[k];
    }
  }

  /** A case-insensitive match of `w` at the start of `s`. */
  predicate StartsWithFold(s: string, w: string) {
    |w| <= |s| && FoldEq(s[..|w|], w)
  }

  /** A case-insensitive match of `w` somewhere in `s` (RegExp.prototype.test with the `i` flag). */
  predicate ContainsFold(s: string, w: string)
    decreases |s|
  {
    StartsWithFold(s, w) || (s != [] && ContainsFold(s[1..], w))
  }

  /** ContainsFold means a case-insensitive match at some position, and a match anywhere is found. */
  lemma {:induction false} ContainsFoldAt(s: string, w: string, k: nat)
    requires k <= |s| && StartsWithFold(s[k..], w)
    ensures ContainsFold(s, w)
  {
    if k > 0 {
      assert s[1..][k - 1..] == s[k..];
      ContainsFoldAt(s[1..], w, k - 1);
    } else {
      assert s[0..] == s;
    }
  }

  lemma {:induction false} ContainsFoldWitness(s: string, w: string) returns (k: nat)
    requires ContainsFold(s, w)
    ensures k <= |s| && StartsWithFold(s[k..], w)
  {
    if StartsWithFold(s, w) {
      k := 0;
      assert s[0..] == s;
    } else {
      var j := ContainsFoldWitness(s[1..], w);
      k := j + 1;
      assert s[1..][j..] == s[k..];
    }
  }

  /** Only the empty word occurs in the empty string. */
  lemma ContainsFoldEmpty(w: string)
    requires ContainsFold("", w)
    ensures w == ""
  {
  }

  /** A match in a prefix is a match in the whole. */
  lemma {:induction false} ContainsFoldPrefix(a: string, b: string, w: string)
    requires ContainsFold(a, w)
    ensures ContainsFold(a + b, w)
  {
    if StartsWithFold(a, w) {
      assert (a + b)[..|w|] == a[..|w|];
    } else {
      assert (a + b)[1..] == a[1..] + b;
      ContainsFoldPrefix(a[1..], b, w);
    }
  }

  /** A match in a suffix is a match in the whole. */
  lemma {:induction false} ContainsFoldSuffix(a: string, b: string, w: string)
    requires ContainsFold(b, w)
    ensures ContainsFold(a + b, w)
  {
    if a == [] {
      assert a + b == b;
    } else {
      assert (a + b)[1..] == a[1..] + b;
      ContainsFoldSuffix(a[1..], b, w);
    }
  }

  /** An exact occurrence is also a case-insensitive one. */
  lemma {:induction false} OccursContainsFold(w: string, s: string)
    requires Occurs(w, s)
    ensures ContainsFold(s, w)
  {
    if StartsWith(s, w) {
      FoldEqRefl(w);
    } else {
      OccursContainsFold(w, s[1..]);
    }
  }
}
