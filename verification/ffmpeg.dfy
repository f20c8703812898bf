/**
 The ffmpeg run that ends `assembleVideo`: the argument vector it is spawned
 with, and how the exit code of the process becomes the promise's outcome.
 Spawning the process and ffmpeg itself are outside the model; the exit code is
 an input, `None` standing for the `null` code of a process ended by a signal.
 */
module Ffmpeg {
  import opened Wrappers
  import opened Numerals

  /** The argument vector: concat the manifest, add the voiceover, burn in the subtitles, write the output. */
  function Args(concatFile: string, voiceover: string, subtitles: string, output: string): seq<string>
  {
    [ "-f", "concat",
      "-safe", "0",
      "-i", concatFile,
      "-i", voiceover,
      "-c:v", "libx264",
      "-c:a", "aac",
      "-map", "0:v",
      "-map", "1:a",
      "-shortest",
      "-vf", "subtitles=" + subtitles,
      output ]
  }

  /** The four files an argument vector names. */
  datatype Plan = Plan(concatFile: string, voiceover: string, subtitles: string, output: string)

  /** The arguments every run passes, at their positions. */
  predicate FixedArgs(args: seq<string>)
  {
    && |args| == 20
    && args[0] == "-f" && args[1] == "concat"
    && args[2] == "-safe" && args[3] == "0"
    && args[4] == "-i" && args[6] == "-i"
    && args[8] == "-c:v" && args[9] == "libx264"
    && args[10] == "-c:a" && args[11] == "aac"
    && args[12] == "-map" && args[13] == "0:v"
    && args[14] == "-map" && args[15] == "1:a"
    && args[16] == "-shortest"
    && args[17] == "-vf"
    && |args[18]| >= 10 && args[18][..10] == "subtitles="
  }

  /** Reads back the files from an argument vector of this shape. */
  function DecodeArgs(args: seq<string>): Option<Plan>
  {
    if FixedArgs(args) then Some(Plan(args[5], args[7], args[18][10..], args[19])) else None
  }

  /**
   Every argument vector has the fixed shape, ends with `-shortest`, the
   subtitle filter and the output path, and gives back exactly the files it
   was built from.
   */
  lemma ArgsRoundTrip(concatFile: string, voiceover: string, subtitles: string, output: string)
    ensures var args := Args(concatFile, voiceover, subtitles, output);
      && FixedArgs(args)
      && args[|args| - 4..] == ["-shortest", "-vf", "subtitles=" + subtitles, output]
      && DecodeArgs(args) == Some(Plan(concatFile, voiceover, subtitles, output))
  {
    var filter := "subtitles=" + subtitles;
    assert filter[..10] == "subtitles=";
    assert filter[10..] == subtitles;
  }

  /** Different files give different argument vectors. */
  lemma ArgsInjective(a: Plan, b: Plan)
    requires Args(a.concatFile, a.voiceover, a.subtitles, a.output) == Args(b.concatFile, b.voiceover, b.subtitles, b.output)
    ensures a == b
  {
    ArgsRoundTrip(a.concatFile, a.voiceover, a.subtitles, a.output);
    ArgsRoundTrip(b.concatFile, b.voiceover, b.subtitles, b.output);
  }

  const ExitPrefix: string := "FFmpeg process exited with code "

  /** `${code}` for an exit code, `null` when the process had none. */
  function CodeText(code: Option<int>): string
  {
    match code
    case None => "null"
    case Some(c) => IntToString(c)
  }

  /**
   The `close` handler: exit code 0 resolves with the output path, anything
   else, a missing code included, rejects with an error naming the code.
   */
  function ExitOutcome(code: Option<int>, outputPath: string): Result<string, string>
  {
    if code == Some(0) then Ok(outputPath) else Err(ExitPrefix + CodeText(code))
  }

  /** Reads the exit code back out of the error message. */
  function ParseExitMessage(message: string): Option<Option<int>>
  {
    if |message| < |ExitPrefix| || message[..|ExitPrefix|] != ExitPrefix then None
    else
      var rest := message[|ExitPrefix|..];
      if rest == "null" then Some(None)
      else
        var c := ParseInt(rest);
        if c.Some? then Some(Some(c.value)) else None
  }

  /**
   The outcome is a success exactly for exit code 0, and then carries the
   output path; a failure's message gives back the exit code it reports.
   */
  lemma ExitOutcomeFaithful(code: Option<int>, outputPath: string)
    ensures ExitOutcome(code, outputPath).Ok? <==> code == Some(0)
    ensures ExitOutcome(code, outputPath).Ok? ==> ExitOutcome(code, outputPath).value == outputPath
    ensures ExitOutcome(code, outputPath).Err? ==> ParseExitMessage(ExitOutcome(code, outputPath).error) == Some(code)
  {
    if code != Some(0) {
      var message := ExitPrefix + CodeText(code);
      assert message[..|ExitPrefix|] == ExitPrefix;
      assert message[|ExitPrefix|..] == CodeText(code);
      if code.Some? {
        IntToStringRoundTrip(code.value);
        assert CodeText(code) != "null" by {
          NatToStringDigits(if code.value < 0 then -code.value else code.value);
          if code.value >= 0 {
            assert IsDigit(CodeText(code)[0]);
          } else {
            assert CodeText(code)[0] == '-';
          }
        }
      }
    }
  }
}
