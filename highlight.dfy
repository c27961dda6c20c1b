/** The highlight rule: which word of the page is marked while narration
    plays, and the plain text a highlighted paragraph carries. */
module Highlight {
  import opened Tokenizer

  /** One run of an attributed string: its text and whether it carries the
      highlight background. */
  datatype Segment = Segment(text: string, highlighted: bool)

  /** Word `index` of the paragraph starting at flat index
      `paragraphStartIndex` is marked. */
  predicate Highlighted(isPlaying: bool, currentWordIndex: int, paragraphStartIndex: int, index: int) {
    isPlaying && paragraphStartIndex + index == currentWordIndex
  }

  /** The characters of an attributed string, without its attributes. */
  function PlainText(segments: seq<Segment>): string {
    if segments == [] then ""
    else PlainText(segments[..|segments| - 1]) + segments[|segments| - 1].text
  }

  /** A word of the page is marked exactly when narration plays and the
      current flat index locates to that word, which is then the word at the
      current index. Hence nothing is marked while stopped. */
  lemma HighlightedIsCurrentWord(pw: seq<seq<string>>, isPlaying: bool, currentWordIndex: int, p: nat, k: nat)
    requires p < |pw| && k < |pw[p]|
    ensures Highlighted(isPlaying, currentWordIndex, StartIndex(pw, p), k)
            <==> isPlaying && Locate(pw, currentWordIndex) == Some(Position(p, k))
    ensures Highlighted(isPlaying, currentWordIndex, StartIndex(pw, p), k) ==>
              0 <= currentWordIndex < |Flatten(pw)| && Flatten(pw)[currentWordIndex] == pw[p][k]
  {
    LocateStartIndex(pw, p, k);
    FlattenAt(pw, p, k);
  }

  /** At most one word of the page is marked. */
  lemma AtMostOneHighlighted(pw: seq<seq<string>>, isPlaying: bool, currentWordIndex: int,
                             p1: nat, k1: nat, p2: nat, k2: nat)
    requires p1 < |pw| && k1 < |pw[p1]|
    requires p2 < |pw| && k2 < |pw[p2]|
    requires Highlighted(isPlaying, currentWordIndex, StartIndex(pw, p1), k1)
    requires Highlighted(isPlaying, currentWordIndex, StartIndex(pw, p2), k2)
    ensures p1 == p2 && k1 == k2
  {
    PositionUnique(pw, p1, k1, p2, k2);
  }

  /** While narration plays a word of the page, that word is marked. */
  lemma CurrentWordIsHighlighted(pw: seq<seq<string>>, currentWordIndex: int)
    requires 0 <= currentWordIndex < |Flatten(pw)|
    ensures var pos := Locate(pw, currentWordIndex).value;
            && pos.paragraph < |pw| && pos.offset < |pw[pos.paragraph]|
            && Highlighted(true, currentWordIndex, StartIndex(pw, pos.paragraph), pos.offset)
  {
  }

  lemma PlainTextAppend(segments: seq<Segment>, s: Segment)
    ensures PlainText(segments + [s]) == PlainText(segments) + s.text
  {
    assert (segments + [s])[..|segments|] == segments;
  }

  lemma JoinAppend(ws: seq<string>, n: nat)
    requires 0 < n < |ws|
    ensures Join(ws[..n + 1]) == Join(ws[..n]) + " " + ws[n]
  {
    assert ws[..n + 1][..n] == ws[..n];
  }

  /** The runs built for the first `index` words of a paragraph: each word
      followed by a separator unless it is the paragraph's last word. */
  predicate BuiltUpTo(result: seq<Segment>, words: seq<string>, index: nat,
                      isPlaying: bool, currentWordIndex: int, paragraphStartIndex: int)
  {
    && index <= |words|
    && |result| == (if 0 < index == |words| then 2 * index - 1 else 2 * index)
    && PlainText(result) == Join(words[..index]) + (if 0 < index < |words| then " " else "")
    && forall i :: 0 <= i < index ==>
         && result[2 * i] == Segment(words[i], Highlighted(isPlaying, currentWordIndex, paragraphStartIndex, i))
         && (i < |words| - 1 ==> result[2 * i + 1] == Segment(" ", false))
  }

  /** One iteration of the paragraph builder keeps BuiltUpTo. */
  lemma AppendWord(before: seq<Segment>, words: seq<string>, index: nat,
                   isPlaying: bool, currentWordIndex: int, paragraphStartIndex: int)
    requires index < |words|
    requires BuiltUpTo(before, words, index, isPlaying, currentWordIndex, paragraphStartIndex)
    ensures var part := Segment(words[index], Highlighted(isPlaying, currentWordIndex, paragraphStartIndex, index));
            var after := before + [part] + (if index < |words| - 1 then [Segment(" ", false)] else []);
            BuiltUpTo(after, words, index + 1, isPlaying, currentWordIndex, paragraphStartIndex)
  {
    var part := Segment(words[index], Highlighted(isPlaying, currentWordIndex, paragraphStartIndex, index));
    AppendWordText(words, index, before, part);
    AppendWordRuns(before, words, index, part);
  }

  lemma AppendWordRuns(before: seq<Segment>, words: seq<string>, index: nat, part: Segment)
    requires index < |words|
    requires |before| == 2 * index
    ensures var after := before + [part] + (if index < |words| - 1 then [Segment(" ", false)] else []);
            && |after| == (if index + 1 == |words| then 2 * index + 1 else 2 * index + 2)
            && after[2 * index] == part
            && (index < |words| - 1 ==> after[2 * index + 1] == Segment(" ", false))
            && forall j :: 0 <= j < 2 * index ==> after[j] == before[j]
  {
  }

  /** Appending a word, and a separator unless it is the last word, extends
      the plain text by that word. */
  lemma AppendWordText(words: seq<string>, index: nat, before: seq<Segment>, part: Segment)
    requires index < |words| && part.text == words[index]
    requires PlainText(before) == Join(words[..index]) + (if 0 < index then " " else "")
    ensures var after := before + [part] + (if index < |words| - 1 then [Segment(" ", false)] else []);
            PlainText(after) == Join(words[..index + 1]) + (if index + 1 < |words| then " " else "")
  {
    PlainTextAppend(before, part);
    if index > 0 {
      JoinAppend(words, index);
    } else {
      assert words[..1] == [words[0]];
    }
    if index < |words| - 1 {
      PlainTextAppend(before + [part], Segment(" ", false));
    } else {
      assert before + [part] + [] == before + [part];
    }
  }
}
