/** The text side of the story reader: splitting a paragraph into words,
    flattening a page's paragraphs into one word list, and the flat index
    of a paragraph's first word. */
module Tokenizer {

  datatype Option<T> = None | Some(value: T)

  /** Where a word sits on the page: its paragraph and its offset in it. */
  datatype Position = Position(paragraph: nat, offset: nat)

  /** What the tokenizer emits: non-empty and free of the separator. */
  predicate IsWord(w: string) {
    |w| > 0 && ' ' !in w
  }

  predicate AllWords(ws: seq<string>) {
    forall i :: 0 <= i < |ws| ==> IsWord(ws[i])
  }

  /** Length of the longest space-free prefix of `s`. */
  function WordLength(s: string): (n: nat)
    ensures n <= |s|
    ensures forall i :: 0 <= i < n ==> s[i] != ' '
    ensures n < |s| ==> s[n] == ' '
  {
    if s == [] || s[0] == ' ' then 0 else 1 + WordLength(s[1..])
  }

  /** Splitting on the single space character, dropping empty pieces, as
      `split(separator: " ")` does with its default settings. */
  function Split(s: string): (words: seq<string>)
    ensures AllWords(words)
    decreases |s|
  {
    if s == [] then []
    else if s[0] == ' ' then Split(s[1..])
    else
      var n := WordLength(s);
      [s[..n]] + Split(s[n..])
  }

  /** The characters of `s` other than the separator, in order. */
  function NonSpace(s: string): string {
    if s == [] then []
    else (if s[0] == ' ' then [] else [s[0]]) + NonSpace(s[1..])
  }

  /** Words joined by single spaces, with no trailing space. */
  function Join(ws: seq<string>): (s: string)
    ensures AllWords(ws) && |ws| > 0 ==> |s| > 0 && s[0] != ' ' && s[|s| - 1] != ' '
  {
    if |ws| == 0 then ""
    else if |ws| == 1 then ws[0]
    else Join(ws[..|ws| - 1]) + " " + ws[|ws| - 1]
  }

  /** In-order concatenation, as `flatMap { $0 }`. */
  function Flatten<T>(xss: seq<seq<T>>): seq<T> {
    if xss == [] then [] else xss[0] + Flatten(xss[1..])
  }

  /** Sum of the lengths of the inner sequences. */
  function TotalCount<T>(xss: seq<seq<T>>): nat {
    if xss == [] then 0 else |xss[0]| + TotalCount(xss[1..])
  }

  /** Tokenizing every paragraph of a page. */
  function TokenizePage(paragraphs: seq<string>): (pw: seq<seq<string>>)
    ensures |pw| == |paragraphs|
    ensures forall i :: 0 <= i < |pw| ==> pw[i] == Split(paragraphs[i]) && AllWords(pw[i])
  {
    seq(|paragraphs|, i requires 0 <= i < |paragraphs| => Split(paragraphs[i]))
  }

  /** The flat index of the first word of paragraph `p`: the number of words
      in the paragraphs before it (all of them when `p` is past the end). */
  function StartIndex(pw: seq<seq<string>>, p: nat): (r: nat)
    ensures r <= |Flatten(pw)|
    ensures r == TotalCount(pw[..if p <= |pw| then p else |pw|])
  {
    var q := if p <= |pw| then p else |pw|;
    assert pw == pw[..q] + pw[q..];
    FlattenAppend(pw[..q], pw[q..]);
    FlattenLength(pw[..q]);
    |Flatten(pw[..q])|
  }

  /** Maps a flat word index back to its paragraph and offset; None for -1
      and for indices past the last word. */
  function Locate(pw: seq<seq<string>>, i: int): (r: Option<Position>)
    ensures r.Some? <==> 0 <= i < |Flatten(pw)|
    ensures r.Some? ==> r.value.paragraph < |pw|
                        && r.value.offset < |pw[r.value.paragraph]|
                        && StartIndex(pw, r.value.paragraph) + r.value.offset == i
  {
    if i < 0 || pw == [] then None
    else if i < |pw[0]| then
      assert pw[..0] == [];
      Some(Position(0, i))
    else
      match Locate(pw[1..], i - |pw[0]|)
      case None => None
      case Some(pos) =>
        StartIndexTail(pw, pos.paragraph);
        Some(Position(pos.paragraph + 1, pos.offset))
  }

  // ---------------------------------------------------------------------
  // Lemmas about Flatten and TotalCount

  lemma {:induction false} FlattenAppend<T>(a: seq<seq<T>>, b: seq<seq<T>>)
    ensures Flatten(a + b) == Flatten(a) + Flatten(b)
  {
    if a == [] {
      assert a + b == b;
    } else {
      assert (a + b)[0] == a[0];
      assert (a + b)[1..] == a[1..] + b;
      FlattenAppend(a[1..], b);
    }
  }

  /** The flat list has as many elements as the inner lists together. */
  lemma {:induction false} FlattenLength<T>(xss: seq<seq<T>>)
    ensures |Flatten(xss)| == TotalCount(xss)
  {
    if xss != [] {
      FlattenLength(xss[1..]);
    }
  }

  lemma StartIndexTail(pw: seq<seq<string>>, p: nat)
    requires p < |pw|
    ensures StartIndex(pw, p + 1) == |pw[0]| + StartIndex(pw[1..], p)
  {
    assert pw[..p + 1] == [pw[0]] + pw[1..][..p];
    FlattenAppend([pw[0]], pw[1..][..p]);
    assert Flatten([pw[0]]) == pw[0] by {
      assert [pw[0]][1..] == [];
    }
  }

  /** Moving to the next paragraph adds the current paragraph's word count. */
  lemma StartIndexStep(pw: seq<seq<string>>, p: nat)
    requires p < |pw|
    ensures StartIndex(pw, p + 1) == StartIndex(pw, p) + |pw[p]|
  {
    assert pw[..p + 1] == pw[..p] + [pw[p]];
    FlattenAppend(pw[..p], [pw[p]]);
    assert Flatten([pw[p]]) == pw[p] by {
      assert [pw[p]][1..] == [];
    }
  }

  lemma StartIndexMonotone(pw: seq<seq<string>>, p: nat, q: nat)
    requires p <= q
    ensures StartIndex(pw, p) <= StartIndex(pw, q)
  {
    var p' := if p <= |pw| then p else |pw|;
    var q' := if q <= |pw| then q else |pw|;
    assert pw[..q'] == pw[..p'] + pw[p'..q'];
    FlattenAppend(pw[..p'], pw[p'..q']);
  }

  /** Word k of paragraph p sits at flat index StartIndex(p) + k. */
  lemma FlattenAt(pw: seq<seq<string>>, p: nat, k: nat)
    requires p < |pw| && k < |pw[p]|
    ensures StartIndex(pw, p) + k < |Flatten(pw)|
    ensures Flatten(pw)[StartIndex(pw, p) + k] == pw[p][k]
  {
    assert pw == pw[..p] + ([pw[p]] + pw[p + 1..]);
    FlattenAppend(pw[..p], [pw[p]] + pw[p + 1..]);
    FlattenAppend([pw[p]], pw[p + 1..]);
    assert Flatten([pw[p]]) == pw[p] by {
      assert [pw[p]][1..] == [];
    }
  }

  /** Distinct (paragraph, offset) positions have distinct flat indices. */
  lemma PositionUnique(pw: seq<seq<string>>, p1: nat, k1: nat, p2: nat, k2: nat)
    requires p1 < |pw| && k1 < |pw[p1]|
    requires p2 < |pw| && k2 < |pw[p2]|
    requires StartIndex(pw, p1) + k1 == StartIndex(pw, p2) + k2
    ensures p1 == p2 && k1 == k2
  {
    if p1 < p2 {
      StartIndexStep(pw, p1);
      StartIndexMonotone(pw, p1 + 1, p2);
    } else if p2 < p1 {
      StartIndexStep(pw, p2);
      StartIndexMonotone(pw, p2 + 1, p1);
    }
  }

  /** Locate inverts the forward map: a word's own position is found again. */
  lemma LocateStartIndex(pw: seq<seq<string>>, p: nat, k: nat)
    requires p < |pw| && k < |pw[p]|
    ensures Locate(pw, StartIndex(pw, p) + k) == Some(Position(p, k))
  {
    FlattenAt(pw, p, k);
    var pos := Locate(pw, StartIndex(pw, p) + k).value;
    PositionUnique(pw, pos.paragraph, pos.offset, p, k);
  }

  // ---------------------------------------------------------------------
  // Lemmas about Split and Join

  lemma WordLengthUnique(s: string, n: nat)
    requires n <= |s|
    requires forall i :: 0 <= i < n ==> s[i] != ' '
    requires n < |s| ==> s[n] == ' '
    ensures WordLength(s) == n
  {
  }

  /** A single word splits to itself. */
  lemma SplitWord(w: string)
    requires IsWord(w)
    ensures Split(w) == [w]
  {
    WordLengthUnique(w, |w|);
    assert w[..|w|] == w;
    assert w[|w|..] == [];
  }

  /** Splitting on a space is splitting both sides: the tokenizer cuts only at
      spaces and keeps the order of the pieces. */
  lemma {:induction false} SplitAtSpace(a: string, b: string)
    ensures Split(a + " " + b) == Split(a) + Split(b)
    decreases |a|
  {
    var s := a + " " + b;
    if a == [] {
      assert s[1..] == b;
    } else if a[0] == ' ' {
      assert s[1..] == a[1..] + " " + b;
      SplitAtSpace(a[1..], b);
    } else {
      var m := WordLength(a);
      WordLengthUnique(s, m);
      assert s[..m] == a[..m];
      assert s[m..] == a[m..] + " " + b;
      SplitAtSpace(a[m..], b);
    }
  }

  /** Tokenizing joined words gives the words back. */
  lemma {:induction false} SplitJoin(ws: seq<string>)
    requires AllWords(ws)
    ensures Split(Join(ws)) == ws
  {
    if |ws| == 1 {
      SplitWord(ws[0]);
    } else if |ws| > 1 {
      var init := ws[..|ws| - 1];
      SplitJoin(init);
      SplitAtSpace(Join(init), ws[|ws| - 1]);
      SplitWord(ws[|ws| - 1]);
    }
  }

  lemma {:induction false} NonSpaceAppend(a: string, b: string)
    ensures NonSpace(a + b) == NonSpace(a) + NonSpace(b)
  {
    if a == [] {
      assert a + b == b;
    } else {
      assert (a + b)[1..] == a[1..] + b;
      NonSpaceAppend(a[1..], b);
    }
  }

  lemma {:induction false} NonSpaceOfWord(w: string)
    requires ' ' !in w
    ensures NonSpace(w) == w
  {
    if w != [] {
      assert ' ' !in w[1..];
      NonSpaceOfWord(w[1..]);
    }
  }

  /** The words together hold every non-space character, in order: nothing
      but spaces is dropped. */
  lemma {:induction false} SplitKeepsText(s: string)
    ensures Flatten(Split(s)) == NonSpace(s)
    decreases |s|
  {
    if s == [] {
    } else if s[0] == ' ' {
      SplitKeepsText(s[1..]);
    } else {
      var n := WordLength(s);
      var rest := Split(s[n..]);
      assert ([s[..n]] + rest)[0] == s[..n];
      assert ([s[..n]] + rest)[1..] == rest;
      SplitKeepsText(s[n..]);
      assert s == s[..n] + s[n..];
      NonSpaceAppend(s[..n], s[n..]);
      NonSpaceOfWord(s[..n]);
    }
  }
}
