# ReadingAdventures story reader: narration and paging model

ReadingAdventures is a SwiftUI reading app for children. Its story reader
(`StoryPageView`) shows one page at a time and can read the page aloud word by
word, highlighting the word being spoken. This project models that reader's
state machine in Dafny and proves its properties:

- **Tokenizer** (`tokenizer.dfy`). A paragraph is split on the single space
  character and empty pieces are dropped, as Swift's `split(separator: " ")`
  does. The per-paragraph word lists are then flattened into one flat word
  list. `StartIndex` gives the flat index of a paragraph's first word, and
  `Locate` maps a flat index back to a (paragraph, offset) position.
- **Narration** (`narration.dfy`). The narration fields (`flatWords`,
  `currentWordIndex`, `isPlaying`) form one value, `Playback`. Each source
  operation is a pure step function. The function returns the next state and
  the events sent to the speech output: `Speak(word, locale)` or
  `StopSpeaking`. The lemmas cover whole runs: narrating a page speaks
  exactly its words in order, an empty page speaks nothing, and a stale step
  after a stop changes no state and speaks nothing (it only repeats a stop).
- **Highlight** (`highlight.dfy`). This holds the rule that marks the current
  word while narration plays, and the plain text of a built paragraph. The
  page-level lemmas prove that at most one word is marked, that the marked
  word is the one being spoken, and that nothing is marked while stopped.
- **Story reader** (`story_reader.dfy`). Class `StoryPageView` has the source's
  `@State` fields. It also has a ghost `speech` log standing in for the
  speech synthesizer. Each method changes the fields step by step, as the
  Swift code does. Each method's `ensures` ties the new state and the new
  log entries to the step functions of module Narration. `Valid()` is the
  invariant every method keeps: the page index is in range, `flatWords` is
  the flattening of `paragraphWords`, `-1 <= currentWordIndex < |flatWords|`,
  and a stopped reader is at -1. `AttributedParagraph` is the loop that
  builds a paragraph's highlighted text.

The speech synthesizer is outside the model. `speak` becomes a `Speak` event
appended to the log, and `stopSpeaking` becomes a `StopSpeaking` event. The
source re-schedules `speakNext` after 0.45 s with `asyncAfter`. In the model,
the caller issues each `SpeakNext` call explicitly, one per step.
The whole-run function `RunSteps` and the lemmas `RunToEnd` and
`NarrateWholePage` use one locale for the whole run, so they assume the voice is not changed mid-page.
The class method `SpeakNext` reads the selected voice again on every call, as
the source does, so a voice change between steps is still modelled there.

Points where the code's behaviour is easy to misread:

- The code splits on `" "` only, not on runs of any whitespace.
- `startNarration` always stops first and then restarts. It is not a no-op
  while playing, but the play/pause button only calls it while stopped.
- There is no session token guarding against stale `speakNext` calls. A stale
  call while stopped is harmless (`Narration.IdleIgnoresSteps`). A stale call
  while playing advances the index like any other call.
- The code never maps a flat index back to a position. It compares
  `paragraphStartIndex + index == currentWordIndex` instead. `Locate` is the
  inverse map, used to prove the highlight rule's uniqueness.

## Model

| member | source | states |
|---|---|---|
| Tokenizer.WordLength | ReadingAdventures/Views/StoryPageView.swift:217 | the length of the longest space-free prefix: every character before it is not a space, and the character at it is a space |
| Tokenizer.Split | ReadingAdventures/Views/StoryPageView.swift:216-217 | every piece the tokenizer returns is non-empty and contains no space |
| Tokenizer.SplitWord | ReadingAdventures/Views/StoryPageView.swift:217 | a single space-free non-empty word splits to exactly itself |
| Tokenizer.SplitAtSpace | ReadingAdventures/Views/StoryPageView.swift:217 | splitting `a + " " + b` is splitting `a` followed by splitting `b`, so text is cut only at spaces and the pieces keep their order |
| Tokenizer.SplitKeepsText | ReadingAdventures/Views/StoryPageView.swift:217 | the words together hold every non-space character of the paragraph in order, so only spaces are dropped |
| Tokenizer.SplitJoin | ReadingAdventures/Views/StoryPageView.swift:216-217 | tokenizing words joined by single spaces gives those words back (round trip with the paragraph's plain text) |
| Tokenizer.Join | ReadingAdventures/Views/StoryPageView.swift:200-211 | the paragraph's plain text: words joined by single spaces; for a non-empty list of words it is non-empty and has neither a leading nor a trailing space (its round trip with Split is SplitJoin) |
| Tokenizer.Flatten | ReadingAdventures/Views/StoryPageView.swift:219 | the in-order concatenation of the paragraph word lists (`flatMap`); no contract of its own, characterised by FlattenAppend, FlattenLength and FlattenAt |
| Tokenizer.TokenizePage | ReadingAdventures/Views/StoryPageView.swift:216-218 | one word list per paragraph, in paragraph order, each the paragraph's Split and so made only of non-empty space-free words |
| Tokenizer.FlattenAppend | ReadingAdventures/Views/StoryPageView.swift:219 | flattening distributes over concatenation of paragraph lists |
| Tokenizer.FlattenLength | ReadingAdventures/Views/StoryPageView.swift:219 | the flat word list is as long as the sum of the paragraph word counts |
| Tokenizer.StartIndex | ReadingAdventures/Views/StoryPageView.swift:223-225 | the start index of paragraph p is the number of words in paragraphs 0..p-1, clamped to all paragraphs past the end, and never exceeds the flat length |
| Tokenizer.StartIndexStep | ReadingAdventures/Views/StoryPageView.swift:223-225 | the next paragraph starts after exactly the current paragraph's words |
| Tokenizer.StartIndexMonotone | ReadingAdventures/Views/StoryPageView.swift:223-225 | start indices never decrease with the paragraph number |
| Tokenizer.FlattenAt | ReadingAdventures/Views/StoryPageView.swift:104-108 | word k of paragraph p is at flat index StartIndex(p)+k, which is within the flat list |
| Tokenizer.PositionUnique | ReadingAdventures/Views/StoryPageView.swift:104-108 | two different (paragraph, offset) positions never share a flat index |
| Tokenizer.Locate | ReadingAdventures/Views/StoryPageView.swift:223-225 | a flat index locates to a position iff it lies in [0, flat length); the position found is a real word and maps forward to that index |
| Tokenizer.LocateStartIndex | ReadingAdventures/Views/StoryPageView.swift:223-225 | locating StartIndex(p)+k gives back (p, k): Locate is the inverse of the forward map |
| Narration.Locale | ReadingAdventures/Views/StoryPageView.swift:250-253 | the UK voice speaks en-GB, the AU voice en-AU and the US voice en-US; en-GB and en-AU come only from UK and AU |
| Narration.LocaleInjective | ReadingAdventures/Views/StoryPageView.swift:250-253 | distinct voices speak with distinct locales |
| Narration.Inv | ReadingAdventures/Views/StoryPageView.swift:61-62 | the field invariant `-1 <= currentWordIndex < flat length` and `!isPlaying ==> currentWordIndex == -1`; a predicate, kept by every step (StepsPreserveInv) |
| Narration.StopStep | ReadingAdventures/Views/StoryPageView.swift:234-238 | stopping always ends idle at -1 with the word list kept, and sends exactly one stop to the speech output |
| Narration.PrepareStep | ReadingAdventures/Views/StoryPageView.swift:215-221 | re-tokenizing installs the new word list and resets the index to -1 without touching isPlaying, so the invariant holds afterwards |
| Narration.SpeakNextStep | ReadingAdventures/Views/StoryPageView.swift:240-258 | one event per step; a word is spoken iff playing and a next word exists, and then the index advances by one and that word is spoken with the given locale; otherwise the step is a stop; the invariant holds afterwards |
| Narration.StartStep | ReadingAdventures/Views/StoryPageView.swift:228-232 | on an empty page start ends idle having sent only two stops; otherwise it ends playing at index 0 having sent a stop and the first word |
| Narration.ToggleStep | ReadingAdventures/Views/StoryPageView.swift:132-134 | after the play/pause button narration is playing iff it was stopped and the page has words |
| Narration.RunSteps | ReadingAdventures/Views/StoryPageView.swift:260-262 | k re-scheduled steps send exactly k events and keep the word list; the invariant holds after at least one step |
| Narration.StepsPreserveInv | ReadingAdventures/Views/StoryPageView.swift:215-263 | stop, prepare, speak-next, start and toggle each preserve `-1 <= currentWordIndex < flat length` and `!isPlaying ==> currentWordIndex == -1` |
| Narration.RunToEnd | ReadingAdventures/Views/StoryPageView.swift:240-262 | from any playing state the remaining steps speak the remaining words in order, one per step, then stop at -1 |
| Narration.NarrateWholePage | ReadingAdventures/Views/StoryPageView.swift:228-262 | on a non-empty page, start followed by one step per word sends a stop, then exactly the flat words in order, then a stop, and ends idle at -1 |
| Narration.NarrateEmptyPage | ReadingAdventures/Views/StoryPageView.swift:228-232 | on a page with no words start ends idle and speaks nothing |
| Narration.IdleIgnoresSteps | ReadingAdventures/Views/StoryPageView.swift:240-246 | any number of stale steps while stopped leave the state unchanged and speak nothing: each only repeats one stop |
| Highlight.Highlighted | ReadingAdventures/Views/StoryPageView.swift:203 | the highlight test `isPlaying && paragraphStartIndex + index == currentWordIndex`; a predicate, characterised by HighlightedIsCurrentWord, AtMostOneHighlighted and CurrentWordIsHighlighted |
| Highlight.HighlightedIsCurrentWord | ReadingAdventures/Views/StoryPageView.swift:203 | a word is marked iff narration plays and the current index locates to that word; a marked word is the flat word at the current index; nothing is marked while stopped |
| Highlight.AtMostOneHighlighted | ReadingAdventures/Views/StoryPageView.swift:203 | at most one word on the page is marked |
| Highlight.CurrentWordIsHighlighted | ReadingAdventures/Views/StoryPageView.swift:203 | while playing a valid index, the word it locates to is marked |
| Highlight.AppendWord | ReadingAdventures/Views/StoryPageView.swift:200-211 | one iteration of the paragraph builder appends the word, and a separator unless it is the last word, keeping the built text equal to the words joined so far |
| StoryReader.StoryPages | ReadingAdventures/Views/StoryPageView.swift:28-53 | the story's three hard-coded pages, each an image name and three paragraphs, copied verbatim; data with no contract |
| StoryReader.StoryPageView.constructor | ReadingAdventures/Views/StoryPageView.swift:56-71 | the initial state: first page, no words yet, idle at -1, US voice, nothing spoken |
| StoryReader.StoryPageView.PrepareText | ReadingAdventures/Views/StoryPageView.swift:215-221 | the word lists become those of the current page, the flat list their flattening, and the state is PrepareStep of the old one; page, voice and speech log unchanged |
| StoryReader.StoryPageView.StopNarration | ReadingAdventures/Views/StoryPageView.swift:234-238 | the state and log move as StopStep says; word lists, page and voice unchanged |
| StoryReader.StoryPageView.SpeakNext | ReadingAdventures/Views/StoryPageView.swift:240-263 | the state and log move as SpeakNextStep says with the selected voice's locale; the invariant is kept |
| StoryReader.StoryPageView.StartNarration | ReadingAdventures/Views/StoryPageView.swift:228-232 | the state and log move as StartStep says; the invariant is kept |
| StoryReader.StoryPageView.TogglePlayback | ReadingAdventures/Views/StoryPageView.swift:132-134 | the state and log move as ToggleStep says |
| StoryReader.StoryPageView.SelectVoice | ReadingAdventures/Views/StoryPageView.swift:94-98 | the picker sets the voice used by later narration steps |
| StoryReader.StoryPageView.GoPrevious | ReadingAdventures/Views/StoryPageView.swift:178-183 | on the first page nothing changes, including narration; otherwise the page index drops by one, narration stops with one stop sent, and the new page is tokenized; the index stays in range |
| StoryReader.StoryPageView.GoNext | ReadingAdventures/Views/StoryPageView.swift:185-190 | on the last page nothing changes; otherwise the page index rises by one, narration stops with one stop sent, and the new page is tokenized; the index stays in range |
| StoryReader.StoryPageView.AttributedParagraph | ReadingAdventures/Views/StoryPageView.swift:193-213 | the built text is the words joined by single spaces with no trailing space; run 2i is word i, marked iff playing and its flat index is the current index; the runs between words are unmarked spaces |

## Left out

- SwiftUI presentation: the view body and layout (`StoryPageView.swift:74-175`) and `PageDotsView`. The other screens (`MainScreen`, `StoryIntroCard`, `TitleBannerView`, `StorySelectionCard`, `SplashScreen`, `ContentView`), `FlexibleView` geometry and the font wrappers are left out too. None of them holds logic.
- `StoryRowCard.swift` and `WrapWordsView.swift` are left out because they are commented out. `Story` and `StoryPage` are plain records with a UUID and no behaviour.
- The AVFoundation speech engine is a foreign API. It appears only as the ghost `speech` log of `Speak(word, locale)` and `StopSpeaking` events. Utterance timing, audio and completion are not modelled.
- Timing values are floats with no logical content: the speech rate 0.38, the pre-utterance delay 0.08 and the 0.45 s re-scheduling delay.
- The `asyncAfter` timer chain is not modelled, nor concurrency in general. A stop followed by a quick restart can leave an old pending `speakNext` alive, giving two chains that each advance the index. The model only covers calls made one at a time. A second chain therefore shows up only as extra explicit `SpeakNext` calls.
- `StoryReader.StoryPageView.constructor` takes the page list as a parameter. The source hard-codes three pages; that data is `StoryReader.StoryPages`. Image names are carried but never used.
- `AttributedString` is modelled as a list of runs, each a text and a highlighted flag. Swift's merging of adjacent runs with equal attributes and the highlight colour are not modelled.
- Strings are sequences of Dafny characters. Swift compares `Character`s, which are grapheme clusters, so a space combined with a following combining mark is not a separator in Swift. The model does not capture that case.
