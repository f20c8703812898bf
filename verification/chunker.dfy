/**
 The greedy subtitle chunker `splitTextIntoChunks(text, maxCharsPerLine)` of
 node.js. The text is split on single spaces and the words are placed one by
 one: a word joins the current chunk when the current chunk, a space and the
 word fit the budget, otherwise the current chunk is closed and the word starts
 a new one. The test counts the joining space even when the current chunk is
 still empty, so an over-long first word closes an empty chunk; and the last
 chunk is kept only when it is non-empty.
 */
module Chunker {
  import opened Text

  /** The budget `assembleVideo` passes for every scene. */
  const MaxCharsPerLine: nat := 40

  /** The chunks closed so far and the chunk being filled. */
  datatype Packing = Packing(chunks: seq<string>, current: string)

  /** One step of the `forEach`: place `word` after the chunks packed so far. */
  function Place(p: Packing, word: string, max: nat): Packing
  {
    if |p.current| + 1 + |word| <= max then
      Packing(p.chunks, p.current + (if p.current != "" then " " else "") + word)
    else
      Packing(p.chunks + [p.current], word)
  }

  /** The state after placing all of `words` in order. */
  function Pack(words: seq<string>, max: nat): Packing
  {
    if |words| == 0 then Packing([], "")
    else Place(Pack(words[..|words| - 1], max), words[|words| - 1], max)
  }

  /** Every chunk, closed or current, is within the budget or is one of the words. */
  predicate WithinBudget(p: Packing, words: seq<string>, max: nat)
  {
    && (forall c :: c in p.chunks ==> |c| <= max || c in words)
    && (|p.current| <= max || p.current in words)
  }

  lemma {:induction false} PackWithinBudget(words: seq<string>, max: nat)
    ensures WithinBudget(Pack(words, max), words, max)
    decreases |words|
  {
    if |words| > 0 {
      var init := words[..|words| - 1];
      PackWithinBudget(init, max);
      assert forall c :: c in init ==> c in words;
    }
  }

  /** The chunks: the closed ones, then the current one when it is not empty. */
  function Chunks(p: Packing): seq<string>
  {
    if p.current != "" then p.chunks + [p.current] else p.chunks
  }

  /** `splitTextIntoChunks(text, max)`. */
  function SplitTextIntoChunks(text: string, max: nat): seq<string>
  {
    Chunks(Pack(Split(text, ' '), max))
  }

  /**
   A chunk longer than the budget is a single word of the text, never a piece
   of one, so a chunk holding a space is always within the budget.
   */
  lemma ChunksWithinBudget(text: string, max: nat)
    ensures var chunks := SplitTextIntoChunks(text, max);
      forall c :: c in chunks ==> |c| <= max || (c in Split(text, ' ') && ' ' !in c)
    ensures forall c :: c in SplitTextIntoChunks(text, max) && ' ' in c ==> |c| <= max
  {
    var words := Split(text, ' ');
    PackWithinBudget(words, max);
    SplitPiecesFree(text, ' ');
  }

  /** The first word of a chunk. */
  function FirstWord(chunk: string): string
  {
    Split(chunk, ' ')[0]
  }

  /** Packing words that lack a character other than the space gives chunks that lack it too. */
  lemma {:induction false} PackWithout(words: seq<string>, max: nat, ch: char)
    requires ch != ' '
    requires forall i :: 0 <= i < |words| ==> ch !in words[i]
    ensures forall i :: 0 <= i < |Pack(words, max).chunks| ==> ch !in Pack(words, max).chunks[i]
    ensures ch !in Pack(words, max).current
    decreases |words|
  {
    if |words| > 0 {
      var init, w := words[..|words| - 1], words[|words| - 1];
      assert forall i :: 0 <= i < |init| ==> init[i] == words[i];
      PackWithout(init, max, ch);
      var p := Pack(init, max);
      if |p.current| + 1 + |w| > max {
        assert forall i :: 0 <= i < |p.chunks| ==> (p.chunks + [p.current])[i] == p.chunks[i];
      }
    }
  }

  /**
   Chunking brings in no character but the space: a character the text lacks
   is in none of its chunks.
   */
  lemma ChunksWithout(text: string, max: nat, ch: char)
    requires ch != ' ' && ch !in text
    ensures forall i :: 0 <= i < |SplitTextIntoChunks(text, max)| ==> ch !in SplitTextIntoChunks(text, max)[i]
  {
    var words := Split(text, ' ');
    SplitPiecesWithout(text, ' ', ch);
    PackWithout(words, max, ch);
    var p := Pack(words, max);
    assert forall i :: 0 <= i < |p.chunks| ==> (p.chunks + [p.current])[i] == p.chunks[i];
  }

  /**
   The packing is greedy: every closed chunk was closed because the first word
   of the next chunk did not fit after it.
   */
  predicate Greedy(chunks: seq<string>, max: nat)
  {
    forall i :: 0 <= i < |chunks| - 1 ==> |chunks[i]| + 1 + |FirstWord(chunks[i + 1])| > max
  }

  /** Greedy so far, and the chunk being filled starts with a word that overflowed the last closed chunk. */
  predicate GreedyPacking(p: Packing, max: nat)
  {
    && Greedy(p.chunks, max)
    && (|p.chunks| > 0 ==> |p.chunks[|p.chunks| - 1]| + 1 + |FirstWord(p.current)| > max)
  }

  /** Placing a word without spaces keeps the packing greedy. */
  lemma PlaceGreedy(p: Packing, w: string, max: nat)
    requires GreedyPacking(p, max) && ' ' !in w
    ensures GreedyPacking(Place(p, w, max), max)
  {
    if |p.current| + 1 + |w| <= max {
      if p.current != "" {
        assert FirstWord(p.current + " " + w) == FirstWord(p.current) by {
          assert p.current + " " + w == p.current + [' '] + w;
          SplitHead(p.current, w, ' ');
        }
      } else {
        assert p.current + "" + w == w;
      }
    } else {
      var cs := p.chunks + [p.current];
      assert FirstWord(w) == w;
      assert forall i :: 0 <= i < |p.chunks| ==> cs[i] == p.chunks[i];
    }
  }

  lemma {:induction false} PackGreedy(words: seq<string>, max: nat)
    requires forall i :: 0 <= i < |words| ==> ' ' !in words[i]
    ensures GreedyPacking(Pack(words, max), max)
    decreases |words|
  {
    if |words| > 0 {
      var init := words[..|words| - 1];
      PackGreedy(init, max);
      PlaceGreedy(Pack(init, max), words[|words| - 1], max);
    }
  }

  /**
   Consecutive chunks of `splitTextIntoChunks` could not have been merged: the
   first word of each chunk, with its joining space, would have overflowed the
   chunk before it.
   */
  lemma ChunksGreedy(text: string, max: nat)
    ensures Greedy(SplitTextIntoChunks(text, max), max)
  {
    var words := Split(text, ' ');
    SplitPiecesFree(text, ' ');
    PackGreedy(words, max);
    var p := Pack(words, max);
    if p.current != "" {
      var cs := p.chunks + [p.current];
      assert forall i :: 0 <= i < |p.chunks| ==> cs[i] == p.chunks[i];
    }
  }

  /** Text made of non-empty words separated by single spaces. */
  predicate WellSpaced(text: string)
  {
    forall i :: 0 <= i < |Split(text, ' ')| ==> Split(text, ' ')[i] != ""
  }

  /** The chunks without the empty one an over-long first word closes. */
  function WithoutLeadingEmpty(chunks: seq<string>): seq<string>
  {
    if |chunks| > 0 && chunks[0] == "" then chunks[1..] else chunks
  }

  /** The chunk closed first is the empty one an over-long first word closes. */
  predicate LeadingEmpty(chunks: seq<string>)
  {
    |chunks| > 0 && chunks[0] == ""
  }

  /**
   What packing non-empty `words` keeps: the chunk being filled is not empty,
   only the first closed chunk may be, it is exactly when the first word did
   not fit, and the rest joined with spaces is the words joined with spaces.
   */
  predicate Rebuilds(p: Packing, words: seq<string>, max: nat)
    requires |words| >= 1
  {
    && p.current != ""
    && (forall i :: 0 < i < |p.chunks| ==> p.chunks[i] != "")
    && (LeadingEmpty(p.chunks) <==> |words[0]| + 1 > max)
    && Join(WithoutLeadingEmpty(p.chunks) + [p.current], " ") == Join(words, " ")
  }

  /** Placing one more non-empty word keeps the packing a rebuild of the words. */
  lemma PlaceRebuilds(p: Packing, words: seq<string>, w: string, max: nat)
    requires |words| >= 1 && Rebuilds(p, words, max) && w != ""
    ensures Rebuilds(Place(p, w, max), words + [w], max)
  {
    var body := WithoutLeadingEmpty(p.chunks);
    assert (words + [w])[0] == words[0];
    assert Join(words + [w], " ") == Join(words, " ") + " " + w by {
      JoinSnoc(words, w, " ");
    }
    if |p.current| + 1 + |w| <= max {
      assert Join(body + [p.current + " " + w], " ") == Join(body + [p.current], " ") + " " + w by {
        JoinExtendLast(body, p.current, w, " ");
      }
    } else {
      var cs := p.chunks + [p.current];
      assert WithoutLeadingEmpty(cs) == body + [p.current];
      assert forall i :: 0 < i < |p.chunks| ==> cs[i] == p.chunks[i];
      assert Join(body + [p.current] + [w], " ") == Join(body + [p.current], " ") + " " + w by {
        JoinSnoc(body + [p.current], w, " ");
      }
    }
  }

  lemma {:induction false} PackRebuilds(words: seq<string>, max: nat)
    requires |words| >= 1
    requires forall i :: 0 <= i < |words| ==> words[i] != ""
    ensures Rebuilds(Pack(words, max), words, max)
    decreases |words|
  {
    var init, w := words[..|words| - 1], words[|words| - 1];
    assert words == init + [w];
    if |words| == 1 {
      assert Pack(init, max) == Packing([], "");
      assert "" + "" + w == w;
      assert [] + [w] == words;
    } else {
      PackRebuilds(init, max);
      PlaceRebuilds(Pack(init, max), init, w, max);
    }
  }

  /**
   For well-spaced text the chunks give the text back when joined with single
   spaces, apart from one extra empty chunk in front, which appears exactly when
   the first word and a space exceed the budget. No other chunk is empty.
   */
  lemma ChunksReconstruct(text: string, max: nat)
    requires WellSpaced(text)
    ensures var chunks := SplitTextIntoChunks(text, max);
      && (LeadingEmpty(chunks) <==> |Split(text, ' ')[0]| + 1 > max)
      && Join(WithoutLeadingEmpty(chunks), " ") == text
      && (forall i :: 0 < i < |chunks| ==> chunks[i] != "")
  {
    var words := Split(text, ' ');
    PackRebuilds(words, max);
    JoinSplit(text, ' ');
    var p := Pack(words, max);
    var cs := p.chunks + [p.current];
    assert forall i :: 0 <= i < |p.chunks| ==> cs[i] == p.chunks[i];
    if LeadingEmpty(p.chunks) {
      assert WithoutLeadingEmpty(cs) == WithoutLeadingEmpty(p.chunks) + [p.current];
    }
  }

  /**
   Empty narration gives no chunks under any positive budget: the only word is
   empty, it joins the empty current chunk, and an empty last chunk is dropped.
   */
  lemma EmptyTextNoChunks(max: nat)
    ensures SplitTextIntoChunks("", max) == [] <==> max >= 1
  {
    assert Split("", ' ') == [""];
    assert [""][..0] == [];
    assert "" + "" + "" == "";
    assert Pack([""], max) == if max >= 1 then Packing([], "") else Packing([""], "");
  }

  /** A first word that does not fit with its space gives an empty chunk and then the word. */
  lemma LongWordChunks(word: string, max: nat)
    requires ' ' !in word && word != "" && |word| + 1 > max
    ensures SplitTextIntoChunks(word, max) == ["", word]
  {
    assert Split(word, ' ') == [word];
    assert [word][..0] == [];
    assert Pack([word], max) == Packing([""], word);
  }

  /** A single word that fits with its space is the only chunk. */
  lemma ShortWordChunks(word: string, max: nat)
    requires ' ' !in word && word != "" && |word| + 1 <= max
    ensures SplitTextIntoChunks(word, max) == [word]
  {
    assert Split(word, ' ') == [word];
    assert [word][..0] == [];
    assert "" + "" + word == word;
    assert Pack([word], max) == Packing([], word);
  }
}
