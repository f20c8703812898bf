/**
 The subtitle loop of server.js `assembleVideo`: one cue per scene, numbered
 `i + 1`, from the cursor before the scene to the cursor after it, carrying
 the whole narration.
 */
module ServerSubtitles {
  import opened Script
  import opened Srt
  import opened Numerals
  import Timecode

  /** The cue of scene `i`. */
  function SceneCue(scenes: seq<Scene>, i: nat): Cue
    requires i < |scenes|
  {
    Cue(i + 1, StartOf(scenes, i), StartOf(scenes, i) + scenes[i].duration, scenes[i].narration)
  }

  /** The cues of the first `n` scenes. */
  function CuesUpTo(scenes: seq<Scene>, n: nat): (r: seq<Cue>)
    requires n <= |scenes|
    ensures |r| == n
  {
    if n == 0 then [] else CuesUpTo(scenes, n - 1) + [SceneCue(scenes, n - 1)]
  }

  /** The cues of the whole script. */
  function ServerCues(scenes: seq<Scene>): seq<Cue>
  {
    CuesUpTo(scenes, |scenes|)
  }

  /** `subtitleContent` once the loop is done. */
  function ServerSrt(scenes: seq<Scene>): string
  {
    Render(ServerCues(scenes))
  }

  /** Cue `j` of the first `n` is the cue of scene `j`. */
  lemma {:induction false} CuesUpToIndex(scenes: seq<Scene>, n: nat, j: nat)
    requires j < n <= |scenes|
    ensures CuesUpTo(scenes, n)[j] == SceneCue(scenes, j)
    decreases n
  {
    if j < n - 1 {
      CuesUpToIndex(scenes, n - 1, j);
    }
  }

  /**
   Cue `i` is numbered `i + 1`, runs from where scene `i` starts to where
   scene `i + 1` starts, and carries scene `i`'s narration whole.
   */
  lemma ServerCueAt(scenes: seq<Scene>, i: nat)
    requires i < |scenes|
    ensures |ServerCues(scenes)| == |scenes|
    ensures ServerCues(scenes)[i].number == i + 1
    ensures ServerCues(scenes)[i].start == StartOf(scenes, i)
    ensures ServerCues(scenes)[i].end == StartOf(scenes, i + 1)
    ensures ServerCues(scenes)[i].text == scenes[i].narration
  {
    CuesUpToIndex(scenes, |scenes|, i);
  }

  /** One cue per scene, numbered 1, 2, 3, ... without gap or repeat. */
  lemma ServerCuesNumbered(scenes: seq<Scene>)
    ensures |ServerCues(scenes)| == |scenes|
    ensures NumberedFrom(ServerCues(scenes), 1)
  {
    forall i | 0 <= i < |scenes|
      ensures ServerCues(scenes)[i].number == 1 + i
    {
      ServerCueAt(scenes, i);
    }
  }

  /** Cues of consecutive scenes abut: the first `n` cover `[0, start of scene n)` with no gap or overlap. */
  lemma {:induction false} CuesUpToTile(scenes: seq<Scene>, n: nat)
    requires 0 < n <= |scenes|
    ensures Tiles(CuesUpTo(scenes, n), 0.0, StartOf(scenes, n))
    decreases n
  {
    var c := SceneCue(scenes, n - 1);
    assert Tiles([c], c.start, c.end);
    if n > 1 {
      CuesUpToTile(scenes, n - 1);
      TilesConcat(CuesUpTo(scenes, n - 1), [c], 0.0, StartOf(scenes, n - 1), StartOf(scenes, n));
    } else {
      assert CuesUpTo(scenes, n) == [c];
    }
  }

  /** The cues cover the whole timeline, from 0 to the total duration. */
  lemma ServerCuesTile(scenes: seq<Scene>)
    ensures Tiles(ServerCues(scenes), 0.0, Total(scenes))
  {
    if |scenes| > 0 {
      CuesUpToTile(scenes, |scenes|);
    }
  }

  /** The file is the blocks `<i + 1>`, `<start> --> <end>`, `<narration>`, empty line, of the scenes in order. */
  lemma ServerSrtBlocks(scenes: seq<Scene>, n: nat)
    requires 0 < n <= |scenes|
    ensures Render(CuesUpTo(scenes, n)) == Render(CuesUpTo(scenes, n - 1)) + Block(SceneCue(scenes, n - 1))
  {
    RenderSnoc(CuesUpTo(scenes, n - 1), SceneCue(scenes, n - 1));
  }

  /** What a reader sees of scene `i`'s cue. */
  function ShownScene(scenes: seq<Scene>, i: nat): ShownCue
    requires i < |scenes|
  {
    ShownCue(i + 1, Timecode.Millis(StartOf(scenes, i)), Timecode.Millis(StartOf(scenes, i + 1)), scenes[i].narration)
  }

  /** With no negative durations and one-line narrations, every cue can be written and read back. */
  lemma ServerCuesReadable(scenes: seq<Scene>, i: nat)
    requires forall k :: 0 <= k < |scenes| ==> scenes[k].duration >= 0.0 && '\n' !in scenes[k].narration
    requires i < |scenes|
    ensures Readable(ServerCues(scenes)[i])
  {
    ServerCueAt(scenes, i);
    StartOfMonotone(scenes, i, i + 1);
  }

  /** What a reader sees of cue `i` is what scene `i` promises. */
  lemma ServerShownAt(scenes: seq<Scene>, i: nat)
    requires i < |scenes|
    ensures ShownAll(ServerCues(scenes))[i] == ShownScene(scenes, i)
  {
    ServerCueAt(scenes, i);
    ShownAllIndex(ServerCues(scenes), i);
  }

  /**
   With no negative durations and one-line narrations, the file reads back as
   one cue per scene: its number, its window in whole milliseconds, its narration.
   */
  lemma ServerSrtReadsBack(scenes: seq<Scene>)
    requires forall k :: 0 <= k < |scenes| ==> scenes[k].duration >= 0.0 && '\n' !in scenes[k].narration
    ensures ParseSrt(ServerSrt(scenes)).Some?
    ensures |ParseSrt(ServerSrt(scenes)).value| == |scenes|
    ensures forall i :: 0 <= i < |scenes| ==> ParseSrt(ServerSrt(scenes)).value[i] == ShownScene(scenes, i)
  {
    var cues := ServerCues(scenes);
    forall i | 0 <= i < |cues|
      ensures Readable(cues[i])
    {
      ServerCuesReadable(scenes, i);
    }
    ParseRender(cues);
    forall i | 0 <= i < |scenes|
      ensures ShownAll(cues)[i] == ShownScene(scenes, i)
    {
      ServerShownAt(scenes, i);
    }
  }

  /** One pass of the loop: the scene's block, written as one template string. */
  method AppendSceneCue(scenes: seq<Scene>, i: nat, content: string, currentTime: real) returns (content': string, currentTime': real)
    requires i < |scenes|
    requires currentTime == StartOf(scenes, i) && content == Render(CuesUpTo(scenes, i))
    ensures currentTime' == StartOf(scenes, i + 1) && content' == Render(CuesUpTo(scenes, i + 1))
  {
    var scene := scenes[i];
    var startTime := Timecode.Format(currentTime);
    currentTime' := currentTime + scene.duration;
    var endTime := Timecode.Format(currentTime');
    content' := content + (IntToString(i + 1) + "\n" + startTime + " --> " + endTime + "\n" + scene.narration + "\n\n");
    ghost var c := SceneCue(scenes, i);
    BlockOf(c, i + 1, currentTime, currentTime', scene.narration);
    RenderStep("", content, CuesUpTo(scenes, i), c, content');
    assert CuesUpTo(scenes, i + 1) == CuesUpTo(scenes, i) + [c];
  }

  /** The loop of `assembleVideo` that fills `subtitleContent`. */
  method BuildServerSubtitles(scenes: seq<Scene>) returns (content: string)
    ensures content == ServerSrt(scenes)
  {
    content := "";
    var currentTime := 0.0;
    var i := 0;
    while i < |scenes|
      invariant i <= |scenes|
      invariant currentTime == StartOf(scenes, i)
      invariant content == Render(CuesUpTo(scenes, i))
    {
      content, currentTime := AppendSceneCue(scenes, i, content, currentTime);
      i := i + 1;
    }
  }
}
