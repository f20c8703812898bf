/**
 The subtitle loop of node.js `assembleVideo`. A cursor starts at 0 and moves
 forward by each scene's duration; the scene's narration is cut into chunks of
 at most 40 characters, and its window `[cursor - d, cursor)` is cut into as
 many equal parts, one cue per chunk. Cue `j` of scene `i` is numbered
 `i * k + j + 1`, `k` being that scene's own chunk count.
 */
module NodeSubtitles {
  import opened Wrappers
  import opened Script
  import opened Chunker
  import opened Srt
  import opened Numerals
  import Timecode

  /** The chunks of a scene's narration. */
  function ChunksOf(scene: Scene): seq<string>
  {
    SplitTextIntoChunks(scene.narration, MaxCharsPerLine)
  }

  /** Cue `j` of scene `i`, the cursor having moved past the scene's duration `d`. */
  function ChunkCue(i: nat, cursor: real, d: real, chunks: seq<string>, j: nat): Cue
    requires j < |chunks|
  {
    var k := |chunks|;
    var share := d / (k as real);
    Cue(i * k + j + 1, cursor - d + share * (j as real), cursor - d + share * ((j + 1) as real), chunks[j])
  }

  /** The first `m` cues of scene `i`. */
  function SceneCuesUpTo(i: nat, cursor: real, d: real, chunks: seq<string>, m: nat): (r: seq<Cue>)
    requires m <= |chunks|
    ensures |r| == m
  {
    if m == 0 then [] else SceneCuesUpTo(i, cursor, d, chunks, m - 1) + [ChunkCue(i, cursor, d, chunks, m - 1)]
  }

  /** All the cues of scene `i`. */
  function SceneCues(i: nat, cursor: real, d: real, chunks: seq<string>): (r: seq<Cue>)
    ensures |r| == |chunks|
  {
    SceneCuesUpTo(i, cursor, d, chunks, |chunks|)
  }

  /** The cues of the first `n` scenes, as the loop writes them. */
  function CuesUpTo(scenes: seq<Scene>, n: nat): seq<Cue>
    requires n <= |scenes|
  {
    if n == 0 then []
    else
      var scene := scenes[n - 1];
      CuesUpTo(scenes, n - 1) + SceneCues(n - 1, StartOf(scenes, n), scene.duration, ChunksOf(scene))
  }

  /** The cues of the whole script. */
  function NodeCues(scenes: seq<Scene>): seq<Cue>
  {
    CuesUpTo(scenes, |scenes|)
  }

  /** `subtitleContent` once the loop is done. */
  function NodeSrt(scenes: seq<Scene>): string
  {
    Render(NodeCues(scenes))
  }

  /** The cues of a scene, in order, are its chunks numbered from `i * k + 1`. */
  lemma {:induction false} SceneCuesIndex(i: nat, cursor: real, d: real, chunks: seq<string>, m: nat, j: nat)
    requires j < m <= |chunks|
    ensures SceneCuesUpTo(i, cursor, d, chunks, m)[j] == ChunkCue(i, cursor, d, chunks, j)
    decreases m
  {
    if j < m - 1 {
      SceneCuesIndex(i, cursor, d, chunks, m - 1, j);
    }
  }

  /** The first `m` cues of a scene cover the first `m` of its `k` equal parts. */
  lemma {:induction false} SceneCuesUpToTile(i: nat, cursor: real, d: real, chunks: seq<string>, m: nat)
    requires 0 < m <= |chunks|
    ensures Tiles(SceneCuesUpTo(i, cursor, d, chunks, m), cursor - d, cursor - d + (d / (|chunks| as real)) * (m as real))
    decreases m
  {
    var c := ChunkCue(i, cursor, d, chunks, m - 1);
    assert Tiles([c], c.start, c.end);
    if m > 1 {
      SceneCuesUpToTile(i, cursor, d, chunks, m - 1);
      TilesConcat(SceneCuesUpTo(i, cursor, d, chunks, m - 1), [c], cursor - d, c.start, c.end);
    } else {
      assert SceneCuesUpTo(i, cursor, d, chunks, m) == [c];
    }
  }

  /**
   A scene with chunks: its cues split the window `[cursor - d, cursor)` into
   equal parts with no gap or overlap, carry the chunks in order, and are
   numbered `i * k + j + 1`.
   */
  lemma SceneCuesTile(i: nat, cursor: real, d: real, chunks: seq<string>)
    requires |chunks| > 0
    ensures var cues := SceneCues(i, cursor, d, chunks);
      && Tiles(cues, cursor - d, cursor)
      && (forall j :: 0 <= j < |cues| ==> cues[j].text == chunks[j] && cues[j].number == i * |chunks| + j + 1)
      && (forall j :: 0 <= j < |cues| ==> cues[j].end - cues[j].start == d / (|chunks| as real))
  {
    var k := |chunks| as real;
    SceneCuesUpToTile(i, cursor, d, chunks, |chunks|);
    assert (d / k) * k == d;
    forall j | 0 <= j < |chunks|
      ensures SceneCues(i, cursor, d, chunks)[j] == ChunkCue(i, cursor, d, chunks, j)
    {
      SceneCuesIndex(i, cursor, d, chunks, |chunks|, j);
    }
  }

  /** Scene `i` is moved past: the cursor after it is where the next scene starts. */
  lemma CursorAfter(scenes: seq<Scene>, i: nat)
    requires i < |scenes|
    ensures StartOf(scenes, i + 1) - scenes[i].duration == StartOf(scenes, i)
  {
  }

  /**
   When every scene's narration gives at least one chunk, the cues cover the
   timeline from 0 to the end of scene `n - 1` with no gap or overlap.
   */
  lemma {:induction false} CuesUpToTile(scenes: seq<Scene>, n: nat)
    requires n <= |scenes|
    requires forall i :: 0 <= i < n ==> |ChunksOf(scenes[i])| > 0
    ensures Tiles(CuesUpTo(scenes, n), 0.0, StartOf(scenes, n))
    decreases n
  {
    if n > 0 {
      var scene := scenes[n - 1];
      var here := SceneCues(n - 1, StartOf(scenes, n), scene.duration, ChunksOf(scene));
      SceneCuesTile(n - 1, StartOf(scenes, n), scene.duration, ChunksOf(scene));
      CursorAfter(scenes, n - 1);
      CuesUpToTile(scenes, n - 1);
      TilesConcat(CuesUpTo(scenes, n - 1), here, 0.0, StartOf(scenes, n - 1), StartOf(scenes, n));
    }
  }

  /** The cues of a script whose every narration gives chunks cover `[0, total)` exactly. */
  lemma NodeCuesTile(scenes: seq<Scene>)
    requires forall i :: 0 <= i < |scenes| ==> |ChunksOf(scenes[i])| > 0
    ensures Tiles(NodeCues(scenes), 0.0, Total(scenes))
  {
    CuesUpToTile(scenes, |scenes|);
  }

  /** The cues of a scene whose window starts at or after 0 and whose chunks are one line each can be read back. */
  lemma SceneCuesReadable(i: nat, cursor: real, d: real, chunks: seq<string>)
    requires d >= 0.0 && cursor - d >= 0.0
    requires forall j :: 0 <= j < |chunks| ==> '\n' !in chunks[j]
    ensures forall j :: 0 <= j < |chunks| ==> Readable(SceneCues(i, cursor, d, chunks)[j])
  {
    forall j | 0 <= j < |chunks|
      ensures Readable(SceneCues(i, cursor, d, chunks)[j])
    {
      SceneCuesIndex(i, cursor, d, chunks, |chunks|, j);
      ChunkCueReadable(i, cursor, d, chunks, j);
    }
  }

  /** One cue of such a scene can be read back. */
  lemma ChunkCueReadable(i: nat, cursor: real, d: real, chunks: seq<string>, j: nat)
    requires d >= 0.0 && cursor - d >= 0.0 && j < |chunks| && '\n' !in chunks[j]
    ensures Readable(ChunkCue(i, cursor, d, chunks, j))
  {
    var share := d / (|chunks| as real);
    assert share >= 0.0;
    ProductNonNegative(share, j as real);
    ProductNonNegative(share, (j + 1) as real);
  }

  /** Sign of a product of reals, kept apart so that the cue arithmetic stays small. */
  lemma ProductNonNegative(a: real, b: real)
    requires a >= 0.0 && b >= 0.0
    ensures a * b >= 0.0
  {
  }

  /** With no negative durations and one-line narrations, every cue of the first `n` scenes can be read back. */
  lemma {:induction false} CuesUpToReadable(scenes: seq<Scene>, n: nat)
    requires n <= |scenes|
    requires forall k :: 0 <= k < |scenes| ==> scenes[k].duration >= 0.0 && '\n' !in scenes[k].narration
    ensures forall m :: 0 <= m < |CuesUpTo(scenes, n)| ==> Readable(CuesUpTo(scenes, n)[m])
    decreases n
  {
    if n > 0 {
      CuesUpToReadable(scenes, n - 1);
      var scene := scenes[n - 1];
      var chunks := ChunksOf(scene);
      ChunksWithout(scene.narration, MaxCharsPerLine, '\n');
      CursorAfter(scenes, n - 1);
      StartOfMonotone(scenes, n - 1, n);
      SceneCuesReadable(n - 1, StartOf(scenes, n), scene.duration, chunks);
      var before, here := CuesUpTo(scenes, n - 1), SceneCues(n - 1, StartOf(scenes, n), scene.duration, chunks);
      forall m | 0 <= m < |before + here|
        ensures Readable((before + here)[m])
      {
        if m >= |before| {
          assert (before + here)[m] == here[m - |before|];
        }
      }
    }
  }

  /**
   With no negative durations and one-line narrations, the file node.js writes
   reads back as its cues in order: each cue's number as written, its window in
   whole milliseconds and its chunk of narration.
   */
  lemma NodeSrtReadsBack(scenes: seq<Scene>)
    requires forall k :: 0 <= k < |scenes| ==> scenes[k].duration >= 0.0 && '\n' !in scenes[k].narration
    ensures ParseSrt(NodeSrt(scenes)) == Some(ShownAll(NodeCues(scenes)))
  {
    CuesUpToReadable(scenes, |scenes|);
    ParseRender(NodeCues(scenes));
  }

  /**
   A scene with an empty narration writes no cues, yet the scenes after it
   still start after its duration: its window is left without subtitles.
   */
  lemma EmptyNarrationSkipped(scenes: seq<Scene>, n: nat)
    requires 0 < n <= |scenes| && scenes[n - 1].narration == ""
    ensures CuesUpTo(scenes, n) == CuesUpTo(scenes, n - 1)
    ensures StartOf(scenes, n) == StartOf(scenes, n - 1) + scenes[n - 1].duration
  {
    EmptyTextNoChunks(MaxCharsPerLine);
    assert CuesUpTo(scenes, n - 1) + [] == CuesUpTo(scenes, n - 1);
  }

  /** Appending cues numbered on from the ones before keeps the list numbered from `first`. */
  lemma NumberedAppend(a: seq<Cue>, b: seq<Cue>, first: int)
    requires NumberedFrom(a, first) && NumberedFrom(b, first + |a|)
    ensures NumberedFrom(a + b, first)
  {
    var ab := a + b;
    assert forall i :: 0 <= i < |a| ==> ab[i] == a[i];
    assert forall i :: |a| <= i < |ab| ==> ab[i] == b[i - |a|];
  }

  /** The cues of scene `i` with `k` chunks are numbered `i * k + 1`, `i * k + 2`, ... */
  lemma SceneCuesNumbered(i: nat, cursor: real, d: real, chunks: seq<string>)
    ensures NumberedFrom(SceneCues(i, cursor, d, chunks), i * |chunks| + 1)
  {
    forall j | 0 <= j < |chunks|
      ensures SceneCues(i, cursor, d, chunks)[j].number == i * |chunks| + 1 + j
    {
      SceneCuesIndex(i, cursor, d, chunks, |chunks|, j);
    }
  }

  /** Every one of the first `n` scenes has `k` chunks. */
  predicate UniformChunks(scenes: seq<Scene>, n: nat, k: nat)
    requires n <= |scenes|
  {
    forall i :: 0 <= i < n ==> |ChunksOf(scenes[i])| == k
  }

  /**
   When every scene has the same number `k` of chunks the numbers run 1, 2, 3,
   ... without gap or repeat, and there are `n * k` cues.
   */
  lemma {:induction false} CuesUpToNumbered(scenes: seq<Scene>, n: nat, k: nat)
    requires n <= |scenes|
    requires UniformChunks(scenes, n, k)
    ensures |CuesUpTo(scenes, n)| == n * k
    ensures NumberedFrom(CuesUpTo(scenes, n), 1)
    decreases n
  {
    if n > 0 {
      var scene := scenes[n - 1];
      var chunks := ChunksOf(scene);
      var prev := CuesUpTo(scenes, n - 1);
      var here := SceneCues(n - 1, StartOf(scenes, n), scene.duration, chunks);
      assert CuesUpTo(scenes, n) == prev + here;
      CuesUpToNumbered(scenes, n - 1, k);
      assert |chunks| == k;
      assert |prev| == (n - 1) * k;
      assert (n - 1) * k + k == n * k;
      SceneCuesNumbered(n - 1, StartOf(scenes, n), scene.duration, chunks);
      NumberedAppend(prev, here, 1);
    }
  }

  lemma NodeCuesNumberedWhenUniform(scenes: seq<Scene>, k: nat)
    requires UniformChunks(scenes, |scenes|, k)
    ensures |NodeCues(scenes)| == |scenes| * k
    ensures NumberedFrom(NodeCues(scenes), 1)
  {
    CuesUpToNumbered(scenes, |scenes|, k);
  }

  /**
   As written, numbers repeat when chunk counts differ: a first scene with two
   chunks gives numbers `0 * 2 + 1` and `0 * 2 + 2`, a second scene with one
   chunk gives `1 * 1 + 0 + 1`, 2 again.
   */
  lemma NumbersCollideTwoThenOne(scenes: seq<Scene>)
    requires |scenes| == 2 && |ChunksOf(scenes[0])| == 2 && |ChunksOf(scenes[1])| == 1
    ensures var cues := NodeCues(scenes);
      |cues| == 3 && cues[0].number == 1 && cues[1].number == 2 && cues[2].number == 2
  {
    var first := SceneCues(0, StartOf(scenes, 1), scenes[0].duration, ChunksOf(scenes[0]));
    var second := SceneCues(1, StartOf(scenes, 2), scenes[1].duration, ChunksOf(scenes[1]));
    SceneCuesNumbered(0, StartOf(scenes, 1), scenes[0].duration, ChunksOf(scenes[0]));
    SceneCuesNumbered(1, StartOf(scenes, 2), scenes[1].duration, ChunksOf(scenes[1]));
    assert CuesUpTo(scenes, 1) == [] + first;
    assert NodeCues(scenes) == first + second;
  }

  /**
   Such a script: a first narration of one word too long to fit with its
   leading space gives the chunks `""` and the word; a second narration `ok`
   gives one chunk.
   */
  lemma NodeNumbersCollide(word: string, v1: string, v2: string, d1: real, d2: real)
    requires ' ' !in word && |word| >= MaxCharsPerLine
    ensures var cues := NodeCues([Scene(word, v1, d1), Scene("ok", v2, d2)]);
      |cues| == 3 && cues[0].number == 1 && cues[1].number == 2 && cues[2].number == 2
  {
    LongWordChunks(word, MaxCharsPerLine);
    ShortWordChunks("ok", MaxCharsPerLine);
    NumbersCollideTwoThenOne([Scene(word, v1, d1), Scene("ok", v2, d2)]);
  }

  /** The cues numbered `first`, `first + 1`, ... in order, times and texts unchanged. */
  function Renumber(cues: seq<Cue>, first: int): (r: seq<Cue>)
    ensures |r| == |cues|
  {
    if |cues| == 0 then [] else [cues[0].(number := first)] + Renumber(cues[1..], first + 1)
  }

  /** Renumbering numbers the cues consecutively and changes nothing else. */
  lemma {:induction false} RenumberNumbers(cues: seq<Cue>, first: int)
    ensures NumberedFrom(Renumber(cues, first), first)
    ensures forall i :: 0 <= i < |cues| ==>
      var c := Renumber(cues, first)[i];
      c.start == cues[i].start && c.end == cues[i].end && c.text == cues[i].text
    decreases |cues|
  {
    if |cues| > 0 {
      RenumberNumbers(cues[1..], first + 1);
      var r := Renumber(cues, first);
      assert forall i :: 1 <= i < |cues| ==> r[i] == Renumber(cues[1..], first + 1)[i - 1];
    }
  }

  /** Cues already numbered consecutively are left as they are. */
  lemma {:induction false} RenumberIdentity(cues: seq<Cue>, first: int)
    requires NumberedFrom(cues, first)
    ensures Renumber(cues, first) == cues
    decreases |cues|
  {
    if |cues| > 0 {
      assert NumberedFrom(cues[1..], first + 1) by {
        assert forall i :: 0 <= i < |cues| - 1 ==> cues[1..][i] == cues[i + 1];
      }
      RenumberIdentity(cues[1..], first + 1);
      assert cues[0].(number := first) == cues[0];
      assert cues == [cues[0]] + cues[1..];
    }
  }

  /**
   The cues as evidently intended: the same windows and texts, numbered 1, 2,
   3, ... over the whole file. They agree with the cues as written whenever
   every scene has the same chunk count.
   */
  function NodeCuesNumbered(scenes: seq<Scene>): seq<Cue>
  {
    Renumber(NodeCues(scenes), 1)
  }

  lemma NodeCuesNumberedCorrect(scenes: seq<Scene>)
    ensures NumberedFrom(NodeCuesNumbered(scenes), 1)
    ensures |NodeCuesNumbered(scenes)| == |NodeCues(scenes)|
    ensures forall i :: 0 <= i < |NodeCues(scenes)| ==>
      var c := NodeCuesNumbered(scenes)[i];
      c.start == NodeCues(scenes)[i].start && c.end == NodeCues(scenes)[i].end && c.text == NodeCues(scenes)[i].text
  {
    RenumberNumbers(NodeCues(scenes), 1);
  }

  lemma NodeCuesNumberedAgrees(scenes: seq<Scene>, k: nat)
    requires UniformChunks(scenes, |scenes|, k)
    ensures NodeCuesNumbered(scenes) == NodeCues(scenes)
  {
    NodeCuesNumberedWhenUniform(scenes, k);
    RenumberIdentity(NodeCues(scenes), 1);
  }

  /** The body of the inner loop: the cue's number, its timing line and its text, then an empty line. */
  method AppendCueBlock(content: string, c: Cue) returns (r: string)
    ensures r == content + Block(c)
  {
    var chunkStartTime := Timecode.Format(c.start);
    var chunkEndTime := Timecode.Format(c.end);
    var number := IntToString(c.number);
    assert content + number + "\n" + chunkStartTime + " --> " + chunkEndTime + "\n" + c.text + "\n\n"
        == content + (number + "\n" + (chunkStartTime + " --> " + chunkEndTime) + "\n" + c.text + "\n\n");
    r := content + IntToString(c.number) + "\n";
    r := r + chunkStartTime + " --> " + chunkEndTime + "\n";
    r := r + c.text + "\n\n";
  }

  /** The inner loop: each chunk of scene `i` gets its share of the scene's window and its block. */
  method AppendSceneCues(content: string, i: nat, currentTime: real, d: real, chunks: seq<string>) returns (r: string)
    ensures r == content + Render(SceneCues(i, currentTime, d, chunks))
  {
    var k := |chunks|;
    r := content;
    var j := 0;
    while j < k
      invariant j <= k
      invariant r == content + Render(SceneCuesUpTo(i, currentTime, d, chunks, j))
    {
      ghost var done := SceneCuesUpTo(i, currentTime, d, chunks, j);
      var c := ChunkCue(i, currentTime, d, chunks, j);
      ghost var before := r;
      r := AppendCueBlock(r, c);
      RenderStep(content, before, done, c, r);
      assert SceneCuesUpTo(i, currentTime, d, chunks, j + 1) == done + [c];
      j := j + 1;
    }
  }

  /** Appending the cues of scene `i` keeps the text equal to the rendered cues of the scenes so far. */
  lemma SceneStep(scenes: seq<Scene>, i: nat, cursor: real, chunks: seq<string>, before: string, after: string)
    requires i < |scenes| && before == Render(CuesUpTo(scenes, i))
    requires cursor == StartOf(scenes, i + 1) && chunks == ChunksOf(scenes[i])
    requires after == before + Render(SceneCues(i, cursor, scenes[i].duration, chunks))
    ensures after == Render(CuesUpTo(scenes, i + 1))
  {
    var here := SceneCues(i, cursor, scenes[i].duration, chunks);
    assert CuesUpTo(scenes, i + 1) == CuesUpTo(scenes, i) + here;
    RenderAppend(CuesUpTo(scenes, i), here);
  }

  /**
   One pass of the outer loop: the cursor moves past scene `i`, then the
   scene's narration is chunked and its cues appended.
   */
  method AppendScene(scenes: seq<Scene>, i: nat, content: string, currentTime: real) returns (content': string, currentTime': real)
    requires i < |scenes|
    requires currentTime == StartOf(scenes, i) && content == Render(CuesUpTo(scenes, i))
    ensures currentTime' == StartOf(scenes, i + 1) && content' == Render(CuesUpTo(scenes, i + 1))
  {
    var scene := scenes[i];
    currentTime' := currentTime + scene.duration;
    var chunks := SplitTextIntoChunks(scene.narration, MaxCharsPerLine);
    content' := AppendSceneCues(content, i, currentTime', scene.duration, chunks);
    SceneStep(scenes, i, currentTime', chunks, content, content');
  }

  /** The loop of `assembleVideo` that fills `subtitleContent`, scene by scene. */
  method BuildNodeSubtitles(scenes: seq<Scene>) returns (content: string)
    ensures content == NodeSrt(scenes)
  {
    content := "";
    var currentTime := 0.0;
    var i := 0;
    while i < |scenes|
      invariant i <= |scenes|
      invariant currentTime == StartOf(scenes, i)
      invariant content == Render(CuesUpTo(scenes, i))
    {
      content, currentTime := AppendScene(scenes, i, content, currentTime);
      i := i + 1;
    }
  }
}
