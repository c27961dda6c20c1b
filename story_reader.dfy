/** The story page reader: its paging and narration state, and the methods
    that change it step by step. Each method is specified by the pure step
    functions of module Narration; the speech output is a ghost log. */
module StoryReader {
  import opened Tokenizer
  import opened Narration
  import opened Highlight

  /** A page: its picture and its paragraphs of raw text. */
  datatype Page = Page(image: string, paragraphs: seq<string>)

  /** The pages of the story the reader shows. */
  function StoryPages(): seq<Page> {
    [ Page("story1_page1", ["Nora packed two sandwiches today.", "She did not know why.", "It just felt right."]),
      Page("story1_page2", ["At school, a boy sat alone.", "He looked at her sandwich.", "Nora walked over slowly."]),
      Page("story1_page3", ["She shared the extra sandwich.", "The boy smiled and said thank you.", "Nora felt warm inside."]) ]
  }

  class StoryPageView {
    const pages: seq<Page>

    // paging state
    var currentPageIndex: int

    // narration state
    var paragraphWords: seq<seq<string>>
    var flatWords: seq<string>
    var currentWordIndex: int
    var isPlaying: bool

    var selectedVoice: Voice

    /** Everything sent to the speech output so far. */
    ghost var speech: seq<SpeechEvent>

    /** The narration fields as one value. */
    ghost function State(): Playback
      reads this
    {
      Playback(flatWords, currentWordIndex, isPlaying)
    }

    ghost predicate Valid()
      reads this
    {
      && 0 <= currentPageIndex < |pages|
      && flatWords == Flatten(paragraphWords)
      && Inv(State())
    }

    /** The word lists are those of the page on screen. */
    ghost predicate ShowsCurrentPage()
      reads this
      requires 0 <= currentPageIndex < |pages|
    {
      paragraphWords == TokenizePage(pages[currentPageIndex].paragraphs)
    }

    /** The initial state, before the page has appeared. */
    constructor (pages: seq<Page>)
      requires |pages| > 0
      ensures Valid() && this.pages == pages
      ensures currentPageIndex == 0 && paragraphWords == []
      ensures State() == Idle([])
      ensures selectedVoice == US && speech == []
    {
      this.pages := pages;
      currentPageIndex := 0;
      paragraphWords := [];
      flatWords := [];
      currentWordIndex := -1;
      isPlaying := false;
      selectedVoice := US;
      speech := [];
    }

    /** Tokenizes the current page; run when the page appears and after each
        page move. */
    method PrepareText()
      requires Valid()
      modifies this
      ensures Valid() && ShowsCurrentPage()
      ensures State() == PrepareStep(old(State()), Flatten(paragraphWords))
      ensures currentPageIndex == old(currentPageIndex) && selectedVoice == old(selectedVoice)
      ensures speech == old(speech)
    {
      paragraphWords := TokenizePage(pages[currentPageIndex].paragraphs);
      flatWords := Flatten(paragraphWords);
      currentWordIndex := -1;
    }

    method StopNarration()
      modifies this
      ensures State() == StopStep(old(State())).next
      ensures speech == old(speech) + StopStep(old(State())).out
      ensures currentPageIndex == old(currentPageIndex) && paragraphWords == old(paragraphWords)
      ensures selectedVoice == old(selectedVoice)
      ensures old(Valid()) ==> Valid()
    {
      speech := speech + [StopSpeaking];
      isPlaying := false;
      currentWordIndex := -1;
    }

    /** One narration step; the caller issues the next one when the word has
        been spoken. */
    method SpeakNext()
      requires Valid()
      modifies this
      ensures Valid()
      ensures State() == SpeakNextStep(old(State()), Locale(selectedVoice)).next
      ensures speech == old(speech) + SpeakNextStep(old(State()), Locale(selectedVoice)).out
      ensures currentPageIndex == old(currentPageIndex) && paragraphWords == old(paragraphWords)
      ensures selectedVoice == old(selectedVoice)
    {
      currentWordIndex := currentWordIndex + 1;
      if !(isPlaying && currentWordIndex < |flatWords|) {
        StopNarration();
        return;
      }
      speech := speech + [Speak(flatWords[currentWordIndex], Locale(selectedVoice))];
    }

    method StartNarration()
      requires Valid()
      modifies this
      ensures Valid()
      ensures State() == StartStep(old(State()), Locale(selectedVoice)).next
      ensures speech == old(speech) + StartStep(old(State()), Locale(selectedVoice)).out
      ensures currentPageIndex == old(currentPageIndex) && paragraphWords == old(paragraphWords)
      ensures selectedVoice == old(selectedVoice)
    {
      StopNarration();
      isPlaying := true;
      SpeakNext();
    }

    /** The play/pause button. */
    method TogglePlayback()
      requires Valid()
      modifies this
      ensures Valid()
      ensures State() == ToggleStep(old(State()), Locale(selectedVoice)).next
      ensures speech == old(speech) + ToggleStep(old(State()), Locale(selectedVoice)).out
      ensures currentPageIndex == old(currentPageIndex) && paragraphWords == old(paragraphWords)
      ensures selectedVoice == old(selectedVoice)
    {
      if isPlaying {
        StopNarration();
      } else {
        StartNarration();
      }
    }

    /** The voice picker. */
    method SelectVoice(v: Voice)
      modifies this`selectedVoice
      ensures selectedVoice == v
    {
      selectedVoice := v;
    }

    /** Back one page; nothing happens on the first page. */
    method GoPrevious()
      requires Valid()
      modifies this
      ensures Valid()
      ensures old(currentPageIndex) == 0 ==> unchanged(this)
      ensures old(currentPageIndex) > 0 ==>
                && currentPageIndex == old(currentPageIndex) - 1
                && ShowsCurrentPage()
                && State() == Idle(Flatten(paragraphWords))
                && speech == old(speech) + [StopSpeaking]
                && selectedVoice == old(selectedVoice)
    {
      if currentPageIndex <= 0 {
        return;
      }
      StopNarration();
      currentPageIndex := currentPageIndex - 1;
      PrepareText();
    }

    /** Forward one page; nothing happens on the last page. */
    method GoNext()
      requires Valid()
      modifies this
      ensures Valid()
      ensures old(currentPageIndex) == |pages| - 1 ==> unchanged(this)
      ensures old(currentPageIndex) < |pages| - 1 ==>
                && currentPageIndex == old(currentPageIndex) + 1
                && ShowsCurrentPage()
                && State() == Idle(Flatten(paragraphWords))
                && speech == old(speech) + [StopSpeaking]
                && selectedVoice == old(selectedVoice)
    {
      if currentPageIndex >= |pages| - 1 {
        return;
      }
      StopNarration();
      currentPageIndex := currentPageIndex + 1;
      PrepareText();
    }

    /** Builds a paragraph's attributed text: the words separated by single
        spaces, the current word marked while narration plays. */
    method AttributedParagraph(words: seq<string>, paragraphStartIndex: int) returns (result: seq<Segment>)
      ensures PlainText(result) == Join(words)
      ensures |result| == if |words| == 0 then 0 else 2 * |words| - 1
      ensures forall i :: 0 <= i < |words| ==>
                && result[2 * i] == Segment(words[i], Highlighted(isPlaying, currentWordIndex, paragraphStartIndex, i))
                && (i < |words| - 1 ==> result[2 * i + 1] == Segment(" ", false))
    {
      result := [];
      for index := 0 to |words|
        invariant BuiltUpTo(result, words, index, isPlaying, currentWordIndex, paragraphStartIndex)
      {
        var part := Segment(words[index], isPlaying && paragraphStartIndex + index == currentWordIndex);
        ghost var before := result;
        result := result + [part];
        if index < |words| - 1 {
          result := result + [Segment(" ", false)];
        }
        assert result == before + [part] + (if index < |words| - 1 then [Segment(" ", false)] else []);
        AppendWord(before, words, index, isPlaying, currentWordIndex, paragraphStartIndex);
      }
      assert words[..|words|] == words;
    }
  }
}
