/**
 `assembleVideo` as a whole, minus its I/O: the three paths it derives from the
 output directory, the two files it writes there, the argument vector it runs
 ffmpeg with and the outcome of the run. The directory name (built from the
 clock), the voiceover path and the exit code are inputs.
 */
module Assembly {
  import opened Wrappers
  import opened Script
  import opened Srt
  import opened Media
  import opened Manifest
  import opened Ffmpeg
  import NodeSubtitles
  import ServerSubtitles

  /** `path.join(outputDir, 'final_video.mp4')`. */
  function OutputPath(dir: string): string
  {
    dir + "/final_video.mp4"
  }

  /** `path.join(outputDir, 'ffmpeg_commands.txt')`. */
  function ManifestPath(dir: string): string
  {
    dir + "/ffmpeg_commands.txt"
  }

  /** `path.join(outputDir, 'subtitles.srt')`. */
  function SubtitlePath(dir: string): string
  {
    dir + "/subtitles.srt"
  }

  /** The three paths under one directory are pairwise different, so no file overwrites another. */
  lemma PathsDistinct(dir: string)
    ensures OutputPath(dir) != ManifestPath(dir)
    ensures OutputPath(dir) != SubtitlePath(dir)
    ensures ManifestPath(dir) != SubtitlePath(dir)
  {
    assert |OutputPath(dir)| == |dir| + 16 && |ManifestPath(dir)| == |dir| + 20 && |SubtitlePath(dir)| == |dir| + 14;
  }

  /** What one run prepares: the files written, keyed by path, and the ffmpeg arguments. */
  datatype Job = Job(files: map<string, string>, args: seq<string>, output: string)

  /** The job node.js prepares, the subtitles numbered as its loop numbers them. */
  function NodeJob(media: seq<MediaItem>, voiceover: string, scenes: seq<Scene>, dir: string, num: real -> string): Job
  {
    Job(
      map[ManifestPath(dir) := NodeManifest(media, num), SubtitlePath(dir) := NodeSubtitles.NodeSrt(scenes)],
      Args(ManifestPath(dir), voiceover, SubtitlePath(dir), OutputPath(dir)),
      OutputPath(dir))
  }

  /** The job node.js evidently means to prepare: the same, with the cues numbered 1, 2, 3, ... over the file. */
  function IntendedNodeJob(media: seq<MediaItem>, voiceover: string, scenes: seq<Scene>, dir: string, num: real -> string): Job
  {
    Job(
      map[ManifestPath(dir) := NodeManifest(media, num), SubtitlePath(dir) := Render(NodeSubtitles.NodeCuesNumbered(scenes))],
      Args(ManifestPath(dir), voiceover, SubtitlePath(dir), OutputPath(dir)),
      OutputPath(dir))
  }

  /** The job server.js prepares. */
  function ServerJob(media: seq<MediaItem>, voiceover: string, scenes: seq<Scene>, dir: string, num: real -> string): Job
  {
    Job(
      map[ManifestPath(dir) := ServerManifest(media, num), SubtitlePath(dir) := ServerSubtitles.ServerSrt(scenes)],
      Args(ManifestPath(dir), voiceover, SubtitlePath(dir), OutputPath(dir)),
      OutputPath(dir))
  }

  /** The promise `assembleVideo` returns, once ffmpeg has exited with `code`. */
  function Finish(job: Job, code: Option<int>): Result<string, string>
  {
    ExitOutcome(code, job.output)
  }

  /**
   The job's arguments name the manifest, the voiceover, the subtitles and the
   output, in that order; both files are written under their own paths, the
   output path is neither of them, and the run succeeds exactly on exit code 0,
   with the output path.
   */
  lemma JobWiring(job: Job, voiceover: string, dir: string, code: Option<int>)
    requires job.args == Args(ManifestPath(dir), voiceover, SubtitlePath(dir), OutputPath(dir)) && job.output == OutputPath(dir)
    requires job.files.Keys == {ManifestPath(dir), SubtitlePath(dir)}
    ensures DecodeArgs(job.args) == Some(Plan(ManifestPath(dir), voiceover, SubtitlePath(dir), job.output))
    ensures |job.files| == 2 && job.output !in job.files
    ensures Finish(job, code).Ok? <==> code == Some(0)
    ensures Finish(job, code).Ok? ==> Finish(job, code).value == OutputPath(dir)
  {
    ArgsRoundTrip(ManifestPath(dir), voiceover, SubtitlePath(dir), OutputPath(dir));
    PathsDistinct(dir);
    ExitOutcomeFaithful(code, job.output);
  }

  /**
   node.js: the manifest reads back as the media in list order with the
   durations of the images; the subtitle file is the one its loop builds and,
   with no negative durations and one-line narrations, reads back cue by cue;
   the job is wired as `JobWiring` says.
   */
  lemma NodeJobContents(media: seq<MediaItem>, voiceover: string, scenes: seq<Scene>, dir: string, num: real -> string, code: Option<int>)
    requires OneLine(media, num)
    ensures var job := NodeJob(media, voiceover, scenes, dir, num);
      && ParseManifest(job.files[ManifestPath(dir)]) == Some(NodeEntries(media, num))
      && job.files[SubtitlePath(dir)] == NodeSubtitles.NodeSrt(scenes)
      && ((forall k :: 0 <= k < |scenes| ==> scenes[k].duration >= 0.0 && '\n' !in scenes[k].narration) ==>
            ParseSrt(job.files[SubtitlePath(dir)]) == Some(ShownAll(NodeSubtitles.NodeCues(scenes))))
      && DecodeArgs(job.args) == Some(Plan(ManifestPath(dir), voiceover, SubtitlePath(dir), job.output))
      && (Finish(job, code).Ok? <==> code == Some(0))
  {
    var job := NodeJob(media, voiceover, scenes, dir, num);
    PathsDistinct(dir);
    NodeManifestRoundTrip(media, num);
    if forall k :: 0 <= k < |scenes| ==> scenes[k].duration >= 0.0 && '\n' !in scenes[k].narration {
      NodeSubtitles.NodeSrtReadsBack(scenes);
    }
    JobWiring(job, voiceover, dir, code);
  }

  /**
   The intended job differs from node.js's only in its subtitle file, whose
   cues are numbered 1, 2, 3, ... and keep every window and text of the loop's.
   */
  lemma IntendedNodeJobNumbered(media: seq<MediaItem>, voiceover: string, scenes: seq<Scene>, dir: string, num: real -> string)
    ensures var job, asWritten := IntendedNodeJob(media, voiceover, scenes, dir, num), NodeJob(media, voiceover, scenes, dir, num);
      var cues := NodeSubtitles.NodeCuesNumbered(scenes);
      && job.args == asWritten.args && job.output == asWritten.output
      && job.files.Keys == asWritten.files.Keys
      && job.files[ManifestPath(dir)] == asWritten.files[ManifestPath(dir)]
      && job.files[SubtitlePath(dir)] == Render(cues)
      && NumberedFrom(cues, 1)
      && |cues| == |NodeSubtitles.NodeCues(scenes)|
      && (forall i :: 0 <= i < |cues| ==>
            && cues[i].start == NodeSubtitles.NodeCues(scenes)[i].start
            && cues[i].end == NodeSubtitles.NodeCues(scenes)[i].end
            && cues[i].text == NodeSubtitles.NodeCues(scenes)[i].text)
  {
    PathsDistinct(dir);
    NodeSubtitles.NodeCuesNumberedCorrect(scenes);
  }

  /** When every scene gives the same number of chunks, the intended job is the one node.js prepares. */
  lemma IntendedNodeJobAgrees(media: seq<MediaItem>, voiceover: string, scenes: seq<Scene>, dir: string, num: real -> string, k: nat)
    requires NodeSubtitles.UniformChunks(scenes, |scenes|, k)
    ensures IntendedNodeJob(media, voiceover, scenes, dir, num) == NodeJob(media, voiceover, scenes, dir, num)
  {
    NodeSubtitles.NodeCuesNumberedAgrees(scenes, k);
  }

  /**
   server.js: the manifest reads back as every item's path and duration in list
   order; the subtitle file is the one its loop builds and, with no negative
   durations and one-line narrations, reads back as one cue per scene, with the
   scene's number, window and narration; the job is wired as `JobWiring` says.
   */
  lemma ServerJobContents(media: seq<MediaItem>, voiceover: string, scenes: seq<Scene>, dir: string, num: real -> string, code: Option<int>)
    requires OneLine(media, num)
    ensures var job := ServerJob(media, voiceover, scenes, dir, num);
      && ParseManifest(job.files[ManifestPath(dir)]) == Some(ServerEntries(media, num))
      && job.files[SubtitlePath(dir)] == ServerSubtitles.ServerSrt(scenes)
      && ((forall k :: 0 <= k < |scenes| ==> scenes[k].duration >= 0.0 && '\n' !in scenes[k].narration) ==>
            && ParseSrt(job.files[SubtitlePath(dir)]).Some?
            && |ParseSrt(job.files[SubtitlePath(dir)]).value| == |scenes|
            && (forall i :: 0 <= i < |scenes| ==>
                  ParseSrt(job.files[SubtitlePath(dir)]).value[i] == ServerSubtitles.ShownScene(scenes, i)))
      && DecodeArgs(job.args) == Some(Plan(ManifestPath(dir), voiceover, SubtitlePath(dir), job.output))
      && (Finish(job, code).Ok? <==> code == Some(0))
  {
    var job := ServerJob(media, voiceover, scenes, dir, num);
    PathsDistinct(dir);
    ServerManifestRoundTrip(media, num);
    if forall k :: 0 <= k < |scenes| ==> scenes[k].duration >= 0.0 && '\n' !in scenes[k].narration {
      ServerSubtitles.ServerSrtReadsBack(scenes);
    }
    JobWiring(job, voiceover, dir, code);
  }

  /**
   server.js collects images only, so on its own media its manifest is the
   one node.js would write for the same list.
   */
  lemma ServerImagesManifest(scenes: seq<Scene>, niche: string, mediaDir: string, imageFound: (nat, string) -> bool, num: real -> string)
    ensures var media := CollectImages(scenes, niche, mediaDir, imageFound);
      ServerManifest(media, num) == NodeManifest(media, num)
  {
    if |scenes| > 0 {
      CollectImagesWell(scenes, niche, mediaDir, imageFound, 0);
    }
    ImagesOnlyAgree(CollectImages(scenes, niche, mediaDir, imageFound), num);
  }
}
