/** The choice of a speech-synthesis voice in `speakText`. */
module Voices {
  import opened Wrappers
  import opened Text

  /** The fields of a `SpeechSynthesisVoice` the choice looks at. */
  datatype Voice = Voice(name: string, lang: string, localService: bool)

  /** A Chinese voice: its language tag starts with "zh". */
  predicate IsChinese(v: Voice) {
    StartsWith(v.lang, "zh")
  }

  /** A Chinese voice that is marked Premium or Enhanced, or is served remotely. */
  predicate IsPreferred(v: Voice) {
    IsChinese(v) && (Occurs("Premium", v.name) || Occurs("Enhanced", v.name) || !v.localService)
  }

  /** The test of the first `voices.find` (`preferred`) or of the second one. */
  predicate Wanted(v: Voice, preferred: bool) {
    if preferred then IsPreferred(v) else IsChinese(v)
  }

  /** `Array.prototype.find`: the index of the first wanted voice. */
  function FindFirst(voices: seq<Voice>, preferred: bool): (r: Option<nat>)
    ensures r.Some? ==> r.value < |voices| && Wanted(voices[r.value], preferred)
    ensures r.Some? ==> forall j :: 0 <= j < r.value ==> !Wanted(voices[j], preferred)
    ensures r.None? ==> forall j :: 0 <= j < |voices| ==> !Wanted(voices[j], preferred)
  {
    if voices == [] then None
    else if Wanted(voices[0], preferred) then Some(0)
    else
      match FindFirst(voices[1..], preferred)
      case None => None
      case Some(k) => Some(k + 1)
  }

  /** `find(preferred) || find(Chinese)`: the voice given to the utterance, if any. */
  function ChooseVoice(voices: seq<Voice>): Option<Voice> {
    match FindFirst(voices, true)
    case Some(i) => Some(voices[i])
    case None =>
      match FindFirst(voices, false)
      case Some(i) => Some(voices[i])
      case None => None
  }

  /**
   * The chosen voice is the first preferred voice when there is one, otherwise the first Chinese
   * voice; there is none exactly when no voice is Chinese.
   */
  lemma ChooseVoiceSpec(voices: seq<Voice>)
    ensures ChooseVoice(voices).None? <==> forall j :: 0 <= j < |voices| ==> !IsChinese(voices[j])
    ensures ChooseVoice(voices).Some? ==>
      exists i :: 0 <= i < |voices| && voices[i] == ChooseVoice(voices).value
        && IsChinese(voices[i])
        && (forall j :: 0 <= j < i ==> !IsPreferred(voices[j]))
        && (IsPreferred(voices[i])
            || ((forall j :: 0 <= j < |voices| ==> !IsPreferred(voices[j]))
                && forall j :: 0 <= j < i ==> !IsChinese(voices[j])))
  {
    var p := FindFirst(voices, true);
    if p.None? {
      var q := FindFirst(voices, false);
      if q.Some? {
        assert voices[q.value] == ChooseVoice(voices).value;
      }
    } else {
      assert voices[p.value] == ChooseVoice(voices).value;
    }
  }

  /** A preferred voice wins over any Chinese voice listed before it. */
  lemma PreferredWins(plain: Voice, better: Voice)
    requires IsChinese(plain) && !IsPreferred(plain) && IsPreferred(better)
    ensures ChooseVoice([plain, better]) == Some(better)
  {
    assert [plain, better][1..] == [better];
    assert FindFirst([better], true) == Some(0);
    assert FindFirst([plain, better], true) == Some(1);
  }

  /** Without any preferred voice the first Chinese voice is used, and non-Chinese voices never are. */
  lemma FirstChineseFallback(other: Voice, plain: Voice)
    requires !IsChinese(other) && IsChinese(plain) && !IsPreferred(plain)
    ensures ChooseVoice([other, plain]) == Some(plain)
    ensures ChooseVoice([other]) == None
  {
    assert [other, plain][1..] == [plain];
    assert [other][1..] == [];
    assert FindFirst([other, plain], true) == None;
    assert FindFirst([plain], false) == Some(0);
    assert FindFirst([other, plain], false) == Some(1);
  }
}
