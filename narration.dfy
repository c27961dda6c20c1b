/** The word-by-word narration sequencer, as pure step functions over the
    playback state. Each step returns the next state and what it sends to the
    speech output, so several steps can be composed and reasoned about. */
module Narration {

  /** The voice picker's choices. */
  datatype Voice = US | UK | AU

  /** The language tag each voice speaks with. */
  function Locale(v: Voice): (tag: string)
    ensures |tag| == 5 && tag[..3] == "en-"
    ensures v == UK <==> tag == "en-GB"
    ensures v == AU <==> tag == "en-AU"
    ensures v == US ==> tag == "en-US"
  {
    if v == UK then "en-GB" else if v == AU then "en-AU" else "en-US"
  }

  /** What the sequencer sends to the speech output. */
  datatype SpeechEvent = Speak(word: string, locale: string) | StopSpeaking

  /** The narration fields of the page: the page's flat word list, the index
      of the word being spoken (-1 for none) and whether narration runs. */
  datatype Playback = Playback(flatWords: seq<string>, currentWordIndex: int, isPlaying: bool)

  /** One step: the state after it and the events it sent, in order. */
  datatype Step = Step(next: Playback, out: seq<SpeechEvent>)

  /** The index is -1 or a word of the page, and it is -1 whenever narration
      is stopped. */
  predicate Inv(s: Playback) {
    && -1 <= s.currentWordIndex < |s.flatWords|
    && (!s.isPlaying ==> s.currentWordIndex == -1)
  }

  /** Narration stopped, highlighting nothing. */
  function Idle(flatWords: seq<string>): (s: Playback)
    ensures Inv(s) && !s.isPlaying
  {
    Playback(flatWords, -1, false)
  }

  /** One Speak event per word, in order, all with the same locale. */
  function Speaks(words: seq<string>, locale: string): (events: seq<SpeechEvent>)
    ensures |events| == |words|
    ensures forall i :: 0 <= i < |words| ==> events[i].Speak? && events[i].word == words[i]
  {
    seq(|words|, i requires 0 <= i < |words| => Speak(words[i], locale))
  }

  /** `n` stop events. */
  function Stops(n: nat): (events: seq<SpeechEvent>)
    ensures |events| == n
    ensures forall i :: 0 <= i < n ==> events[i] == StopSpeaking
  {
    seq(n, i => StopSpeaking)
  }

  /** Stopping narration: always idle afterwards, whatever the state was. */
  function StopStep(s: Playback): (r: Step)
    ensures r.next == Idle(s.flatWords)
    ensures r.out == [StopSpeaking]
  {
    Step(s.(currentWordIndex := -1, isPlaying := false), [StopSpeaking])
  }

  /** Re-tokenizing: a new word list and no current word; playing is kept. */
  function PrepareStep(s: Playback, flatWords: seq<string>): (r: Playback)
    ensures Inv(r)
    ensures r.flatWords == flatWords && r.isPlaying == s.isPlaying
    ensures r.currentWordIndex == -1
  {
    s.(flatWords := flatWords, currentWordIndex := -1)
  }

  /** One narration step: while playing and a next word exists, move to it and
      speak it; otherwise stop. Exactly one event is sent either way. */
  function SpeakNextStep(s: Playback, locale: string): (r: Step)
    requires -1 <= s.currentWordIndex
    ensures Inv(r.next) && r.next.flatWords == s.flatWords
    ensures |r.out| == 1
    ensures r.out[0].Speak? <==> s.isPlaying && s.currentWordIndex + 1 < |s.flatWords|
    ensures r.out[0].Speak? ==>
              && r.next == s.(currentWordIndex := s.currentWordIndex + 1)
              && r.out[0] == Speak(s.flatWords[r.next.currentWordIndex], locale)
    ensures !r.out[0].Speak? ==> r == StopStep(s)
  {
    var index := s.currentWordIndex + 1;
    if s.isPlaying && index < |s.flatWords| then
      Step(s.(currentWordIndex := index), [Speak(s.flatWords[index], locale)])
    else
      StopStep(s)
  }

  /** Starting narration: stop, mark playing, take one narration step. */
  function StartStep(s: Playback, locale: string): (r: Step)
    ensures Inv(r.next) && r.next.flatWords == s.flatWords
    ensures |s.flatWords| == 0 ==> r.next == Idle(s.flatWords) && r.out == Stops(2)
    ensures |s.flatWords| > 0 ==>
              r.next == Playback(s.flatWords, 0, true)
              && r.out == [StopSpeaking, Speak(s.flatWords[0], locale)]
  {
    var stopped := StopStep(s);
    var first := SpeakNextStep(stopped.next.(isPlaying := true), locale);
    Step(first.next, stopped.out + first.out)
  }

  /** The play/pause button: stop when playing, start otherwise. */
  function ToggleStep(s: Playback, locale: string): (r: Step)
    ensures Inv(r.next) && r.next.flatWords == s.flatWords
    ensures r.next.isPlaying <==> !s.isPlaying && |s.flatWords| > 0
  {
    if s.isPlaying then StopStep(s) else StartStep(s, locale)
  }

  /** `k` consecutive narration steps, their events concatenated. */
  function RunSteps(s: Playback, k: nat, locale: string): (r: Step)
    requires -1 <= s.currentWordIndex
    ensures Inv(r.next) || (k == 0 && r.next == s)
    ensures r.next.flatWords == s.flatWords
    ensures |r.out| == k
    decreases k
  {
    if k == 0 then Step(s, [])
    else
      var first := SpeakNextStep(s, locale);
      var rest := RunSteps(first.next, k - 1, locale);
      Step(rest.next, first.out + rest.out)
  }

  // ---------------------------------------------------------------------
  // Lemmas

  /** Every step keeps the invariant. */
  lemma StepsPreserveInv(s: Playback, locale: string, flatWords: seq<string>)
    requires Inv(s)
    ensures Inv(StopStep(s).next)
    ensures Inv(PrepareStep(s, flatWords))
    ensures Inv(SpeakNextStep(s, locale).next)
    ensures Inv(StartStep(s, locale).next)
    ensures Inv(ToggleStep(s, locale).next)
  {
  }

  /** From a playing state, the remaining steps speak the remaining words in
      order, one per step, and the step after the last word stops. */
  lemma {:induction false} RunToEnd(s: Playback, locale: string)
    requires s.isPlaying && -1 <= s.currentWordIndex < |s.flatWords|
    ensures var r := RunSteps(s, |s.flatWords| - s.currentWordIndex, locale);
            && r.next == Idle(s.flatWords)
            && r.out == Speaks(s.flatWords[s.currentWordIndex + 1..], locale) + [StopSpeaking]
    decreases |s.flatWords| - s.currentWordIndex
  {
    var words := s.flatWords;
    var i := s.currentWordIndex + 1;
    var first := SpeakNextStep(s, locale);
    if i < |words| {
      RunToEnd(first.next, locale);
      assert Speaks(words[i..], locale) == [Speak(words[i], locale)] + Speaks(words[i + 1..], locale);
    } else {
      assert words[i..] == [];
    }
  }

  /** Starting on a non-empty page and then stepping once per word speaks
      exactly the page's words, in order, and ends idle at -1. */
  lemma NarrateWholePage(s: Playback, locale: string)
    requires |s.flatWords| > 0
    ensures var start := StartStep(s, locale);
            var rest := RunSteps(start.next, |s.flatWords|, locale);
            && rest.next == Idle(s.flatWords)
            && start.out + rest.out == [StopSpeaking] + Speaks(s.flatWords, locale) + [StopSpeaking]
  {
    var words := s.flatWords;
    var start := StartStep(s, locale);
    assert start.next == Playback(words, 0, true);
    assert start.out == [StopSpeaking, Speak(words[0], locale)];
    RunToEnd(start.next, locale);
    var rest := RunSteps(start.next, |words|, locale);
    assert rest.out == Speaks(words[1..], locale) + [StopSpeaking];
    var spoken := Speaks(words, locale);
    assert spoken == [Speak(words[0], locale)] + Speaks(words[1..], locale);
    Regroup(StopSpeaking, Speak(words[0], locale), Speaks(words[1..], locale), StopSpeaking);
  }

  lemma Regroup<T>(a: T, b: T, xs: seq<T>, c: T)
    ensures [a, b] + (xs + [c]) == [a] + ([b] + xs) + [c]
  {
  }

  /** On a page with no words, starting ends idle and speaks nothing. */
  lemma NarrateEmptyPage(s: Playback, locale: string)
    requires |s.flatWords| == 0
    ensures StartStep(s, locale).next == Idle([])
    ensures forall e :: e in StartStep(s, locale).out ==> !e.Speak?
  {
  }

  /** Steps arriving while stopped (a stale call after a stop) change nothing
      and speak nothing. */
  lemma {:induction false} IdleIgnoresSteps(s: Playback, k: nat, locale: string)
    requires Inv(s) && !s.isPlaying
    ensures RunSteps(s, k, locale) == Step(s, Stops(k))
  {
    if k > 0 {
      IdleIgnoresSteps(s, k - 1, locale);
      assert Stops(k) == [StopSpeaking] + Stops(k - 1);
    }
  }

  /** Distinct voices speak with distinct locales. */
  lemma LocaleInjective(v: Voice, w: Voice)
    requires Locale(v) == Locale(w)
    ensures v == w
  {
  }
}
