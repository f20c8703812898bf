# extrayt video assembly, modelled in Dafny

extrayt turns a generated script into a narrated short video. Its two servers,
`node.js` and `server.js`, share one pipeline:

- collect a picture or clip per scene;
- write the voiceover text;
- write an ffmpeg concat list and a SubRip (`.srt`) subtitle file;
- run ffmpeg to burn the subtitles into the concatenated video.

This project models the pure part of that pipeline and proves what it does.
It leaves out the network and the file system.

Seconds are exact `real`s. A script is a sequence of `Scene(narration,
visualDescription, duration)`. A scene's window starts at the prefix sum of
the durations before it.

| module | file | what it models |
|---|---|---|
| `Wrappers` | wrappers.dfy | `Option` and `Result` |
| `Text` | text.dfy | JavaScript `split` with a one-character separator, `join`, `substring(0, n)`, `trim` |
| `LexOrder` | lex.dfy | string order, as `<` compares strings |
| `Numerals` | numerals.dfy | integer-to-decimal printing, `padStart`, reading decimals back |
| `Timecode` | timecode.dfy | `formatSrtTime` (node.js and server.js hold the same function) |
| `Script` | script.dfy | scene windows and the voiceover text `fullScript` |
| `Chunker` | chunker.dfy | `splitTextIntoChunks` |
| `Srt` | srt.dfy | SubRip cue blocks and a reader for them |
| `Media` | media.dfy | the search query and the media list `collectMedia` returns |
| `Manifest` | manifest.dfy | the concat list of both servers and a reader for it |
| `Ffmpeg` | ffmpeg.dfy | the ffmpeg argument vector and the exit-code outcome |
| `NodeSubtitles` | node_subtitles.dfy | the node.js subtitle loop: one cue per chunk |
| `ServerSubtitles` | server_subtitles.dfy | the server.js subtitle loop: one cue per scene |
| `Upload` | upload.dfy | the tag list of the upload metadata |
| `Assembly` | assembly.dfy | `assembleVideo` end to end: paths, files, arguments, outcome |

Some behaviour is a parameter rather than modelled:

- The Pexels lookups are a function from a scene index and its query to what was found.
- The printing of a duration into the concat list is a function `num: real -> string`.
- The output directory, the voiceover path and ffmpeg's exit code are inputs.

## Model

| member | source | states |
|---|---|---|
| Timecode.FieldsBounds | node.js:437-441 | For s ≥ 0: hours = ⌊s/3600⌋ ≥ 0, minutes and seconds lie in [0, 60) and milliseconds in [0, 1000). Also h·3600000 + m·60000 + s·1000 + ms = ⌊1000·s⌋. |
| Timecode.FieldsOfMillis | server.js:276-281 | The server.js copy computes, for s ≥ 0, the fields of the truncated millisecond count ⌊1000·s⌋. Those are hours, minutes, seconds and milliseconds by division with remainder. |
| Timecode.FormatIsFixed | node.js:437-444 | Below 100 hours the timecode is the 12-character `HH:MM:SS,mmm` layout of ⌊1000·s⌋. |
| Timecode.FormatOrder | node.js:437-444 | Below 100 hours, timecodes compare as strings exactly as their truncated millisecond counts compare, in both directions. |
| Timecode.FormatMonotone | node.js:437-444 | 0 ≤ s ≤ t < 100 h implies format(s) ≤ format(t) as strings. |
| Timecode.FormatOrderBreaksAtHundredHours | node.js:443 | Hours are padded to at least 2 characters and never truncated, so string order fails at 100 h: format(360000) < format(359999). |
| Timecode.FormatZero | node.js:437-444 | format(0) = `00:00:00,000`. |
| Timecode.FormatExample | node.js:437-444 | format(3661.5) = `01:01:01,500`. |
| Timecode.FormatPlain | node.js:443 | A timecode holds no space and no line break. |
| Timecode.ParseFormat | node.js:437-444 | Reading a timecode of s ≥ 0 back gives ⌊1000·s⌋: the format loses only sub-millisecond time. |
| Numerals.IntToStringRoundTrip | node.js:336 | An integer printed in decimal, sign included, reads back as itself. This is how cue numbers and exit codes appear in text. |
| Numerals.ParsePadded | node.js:443 | A natural number printed and left-padded with `0` to any width reads back as itself. |
| Script.StartOfMonotone | node.js:320-325 | With no negative duration, scene starts are non-decreasing and lie in [0, total]. |
| Script.StartOfPrefix | node.js:322-325 | A scene's start depends only on the scenes before it. |
| Script.FullScriptWords | server.js:185 | Splitting the voiceover text on spaces gives every narration's words, scene by scene. |
| Chunker.ChunksWithinBudget | node.js:452-458 | Every chunk fits the budget or is one whole word of the text. A chunk holding a space always fits, so words are never split. |
| Chunker.ChunksGreedy | node.js:452-458 | A chunk is closed only when the next word, with its space, would overflow it. |
| Chunker.ChunksReconstruct | node.js:447-466 | For text of non-empty words joined by single spaces, a leading `""` chunk appears exactly when the first word plus one exceeds the budget. The other chunks joined with spaces give the text back, and none of them is empty. |
| Chunker.ChunksWithout | node.js:447-466 | Chunking adds no character except the space: a character missing from the text is in no chunk. |
| Chunker.EmptyTextNoChunks | node.js:461-463 | Empty text gives no chunks exactly when the budget is at least 1. |
| Chunker.LongWordChunks | node.js:453-458 | A single word that does not fit with its space gives `["", word]`. |
| Chunker.ShortWordChunks | node.js:453-455 | A single word that fits gives `[word]`. |
| Srt.RenderAppend | node.js:336-338 | The file of two cue lists is the file of the first followed by the file of the second. |
| Srt.TilesConcat | node.js:333-334 | Two runs of abutting cues, the second starting where the first ends, form one run. |
| Srt.ParseCueOf | server.js:227 | One block reads back as its cue's number, its window in whole milliseconds and its text. |
| Srt.ParseRender | node.js:336-338 | Cues with one-line texts and non-negative times are written as a file. A SubRip reader gets back every cue in order, with its number, its window in whole milliseconds and its text. |
| NodeSubtitles.SceneCuesTile | node.js:332-338 | Scene i has k > 0 chunks. Its cues split the scene's window into k equal parts with no gap or overlap, cue j carries chunk j, and cue j is numbered i·k + j + 1. |
| NodeSubtitles.NodeCuesTile | node.js:320-340 | When every narration gives chunks, the cues cover [0, total duration] with no gap or overlap. |
| NodeSubtitles.EmptyNarrationSkipped | node.js:325-332 | An empty narration writes no cue, yet the next scene still starts after its duration. |
| NodeSubtitles.NodeCuesNumberedWhenUniform | node.js:336 | When every scene has the same chunk count k, there are n·k cues, numbered 1, 2, … without gap or repeat. |
| NodeSubtitles.NodeNumbersCollide | node.js:336 | Take a first narration that is one word of at least 40 characters, then a second narration `ok`. The cue numbers are 1, 2, 2. |
| NodeSubtitles.NodeCuesNumberedCorrect | node.js:336 | The renumbered cues are numbered 1, 2, 3, … over the whole file. They keep every window and text of the loop's cues. |
| NodeSubtitles.NodeCuesNumberedAgrees | node.js:336 | With a uniform chunk count the renumbered cues are the loop's own cues. |
| NodeSubtitles.NodeSrtReadsBack | node.js:318-341 | With no negative durations and one-line narrations, the file reads back as the loop's cues in order. Each gives its number as written, its window in whole milliseconds and its chunk. |
| NodeSubtitles.AppendSceneCues | node.js:332-339 | The inner loop appends exactly the blocks of the scene's cues. |
| NodeSubtitles.BuildNodeSubtitles | node.js:319-340 | The loop's `subtitleContent` is the file of the modelled cues. |
| ServerSubtitles.ServerCueAt | server.js:222-227 | Cue i is numbered i + 1, runs from scene i's start to scene i + 1's start, and carries the narration unsplit. |
| ServerSubtitles.ServerCuesNumbered | server.js:222-227 | There is one cue per scene, numbered 1, 2, 3, … without gap or repeat. |
| ServerSubtitles.ServerCuesTile | server.js:221-226 | Consecutive cues abut and together cover [0, total duration]. |
| ServerSubtitles.ServerSrtBlocks | server.js:227 | Each scene adds the block `<i+1>`, `<start> --> <end>`, `<narration>`, then an empty line, after the blocks of the scenes before it. |
| ServerSubtitles.ServerSrtReadsBack | server.js:219-229 | With no negative durations and one-line narrations, the file reads back as one cue per scene. Each cue gives its number, its window in whole milliseconds and its narration. |
| ServerSubtitles.BuildServerSubtitles | server.js:220-228 | The loop's `subtitleContent` is the file of the modelled cues. |
| Media.SearchQuery | node.js:124 | The query is `niche + " " + description` whole when that is at most 100 characters, and exactly its first 100 characters otherwise. |
| Media.CollectWell | node.js:110-216 | There is at most one item per scene, scene indices strictly increase, and every item is what its own scene's lookup produced. |
| Media.RecordedItem | node.js:142-204 | An item's kind is what its scene's lookup found. Its path is `<dir>/scene_<i>_image.jpg` or `_video.mp4`, and its duration is its scene's. |
| Media.CollectComplete | node.js:120-212 | A scene has an item exactly when its lookup found something. |
| Media.CollectImagesWell | server.js:154-178 | server.js collects images only, in increasing scene order, and a scene has one exactly when its image search found a photo. |
| Media.CollectPathsDistinct | node.js:142-182 | No two collected items share a path. |
| Manifest.LineCounts | node.js:304-313 | node.js writes one line per item plus one per image. server.js writes two lines per item. |
| Manifest.NodeManifestRoundTrip | node.js:304-315 | The node.js concat list reads back as the items' paths in list order. Images carry their printed durations, videos none. |
| Manifest.ServerManifestRoundTrip | server.js:213-218 | The server.js concat list reads back as every item's path and printed duration, in list order. |
| Manifest.ImagesOnlyAgree | server.js:214-217 | On a list of images only, the two concat lists are the same. |
| Ffmpeg.ArgsRoundTrip | node.js:348-360 | The argument vector has its fixed flags and ends with `-shortest`, `-vf`, `subtitles=<srt>` and the output path. The four file paths read back from it. |
| Ffmpeg.ArgsInjective | server.js:231-243 | Different files give different argument vectors. |
| Ffmpeg.ExitOutcomeFaithful | node.js:366-372 | The run resolves exactly on exit code 0, and then with the output path. Otherwise the error message reads back as the exit code, `null` included. |
| Upload.TagsShape | server.js:258 | Missing or empty keywords give no tags. Otherwise the i-th comma-separated piece gives the i-th tag, trimmed. No tag contains a comma or has whitespace at either end. |
| Text.TrimmedFixed | server.js:258 | `k.trim()` leaves a string unchanged exactly when it has no whitespace at either end. |
| Upload.TagsRoundTrip | server.js:258 | Non-empty keywords written from trimmed, comma-free tags read back as the same tags in order. |
| Assembly.PathsDistinct | node.js:297-318 | The output, the concat list and the subtitle file get three different paths. |
| Assembly.JobWiring | server.js:211-248 | The arguments name the concat list, the voiceover, the subtitles and the output. Both files are written under their own paths, the output is neither of them, and the run succeeds exactly on exit code 0. |
| Assembly.NodeJobContents | node.js:290-378 | node.js writes a concat list that reads back as its media, and the subtitle file its loop builds, cue numbers `i·k + j + 1` included. With no negative durations and one-line narrations that file reads back cue by cue. Its run is wired as above. |
| Assembly.IntendedNodeJobNumbered | node.js:336-341 | The job with corrected numbering differs from node.js's only in its subtitle file. That file's cues are numbered 1, 2, 3, … and keep every window and text of the loop's cues. |
| Assembly.IntendedNodeJobAgrees | node.js:336-341 | When every scene gives the same number of chunks, the corrected job is exactly the one node.js prepares. |
| Assembly.ServerJobContents | server.js:207-250 | server.js writes a concat list that reads back as its media, and its subtitle file is exactly the one its cue loop builds. With no negative durations and one-line narrations, cue `i` of that file reads back as scene `i`: number `i + 1`, its window in whole milliseconds, and its narration. Its run is wired as above. |
| Assembly.ServerImagesManifest | server.js:214-218 | On what server.js collects, its concat list equals the one node.js would write. |

## Left out

- The network and outside services: OpenAI, Pexels, ElevenLabs, the YouTube upload and OAuth. A lookup is a function from scene index and query to its result. A failed download or request is the same as finding nothing, since the per-scene `catch` skips the scene.
- The file system and processes: `mkdirSync`, `writeFileSync`, `Date.now()` directory names and spawning ffmpeg. A written file is a map entry from path to contents. The exception path around `spawn` (node.js:374-377) is left out.
- `path.join`: it is `dir + "/" + name`, with no normalisation of `dir`.
- The Python text-to-speech path of node.js `generateVoiceover` (node.js:254-283) is left out, and so is its exit-code mapping. `pythontts.py` and `public/app.js` are not part of this model.
- Floating point: seconds are exact reals. So `(seconds % 1) * 1000` gives exactly 290 for 0.29, where IEEE-754 arithmetic gives 289. Sums of durations are exact too.
- JavaScript number-to-string: a duration prints through the parameter `num`, and cue numbers are exact integers.
- Characters are Dafny `char`s, not UTF-16 code units. So the 40-character budget and the 100-character query cut count code points.
- The per-scene `startTime`/`endTime` strings that node.js computes and never uses (node.js:324, 326) are left out.
- Manifest.NodeManifestRoundTrip: the round trip requires that paths and printed durations hold no line break. The concat list itself is modelled for every input.
- NodeSubtitles.NodeCuesTile: tiling is stated only when every narration gives at least one chunk. A scene that gives none leaves its window uncovered, which is stated separately by NodeSubtitles.EmptyNarrationSkipped.
- Srt.ParseRender: the reader is stated for one-line cue texts and non-negative times. A narration containing a line break would split its block when read back.
- NodeSubtitles.NodeSrtReadsBack: stated for one-line narrations and non-negative durations, for the same reason. Assembly.NodeJobContents states the read-back under that condition only.
- Assembly.ServerJobContents: the read-back of the subtitle file is stated under the same condition only, through ServerSubtitles.ServerSrtReadsBack. The file's contents are stated for every script.
- Error kinds such as invalid scenes or an empty media list are not modelled: neither server raises them. An empty script writes an empty subtitle file, and an empty media list writes an empty concat list.

## Findings

| source | as written | input that shows it | evidently intended | confidence | as-written member | corrected member |
|---|---|---|---|---|---|---|
| node.js:336 | A cue is numbered `i * chunks.length + j + 1`, where `chunks.length` is the chunk count of scene i alone. | Scene 0's narration is one word of 40 or more characters, which gives the chunks `""` and the word. Scene 1's narration is `ok`. The numbers are 1, 2, 2. | Cues numbered 1, 2, 3, … over the whole file, as SubRip expects and as server.js does. | high (not executed) | NodeSubtitles.NodeNumbersCollide | NodeSubtitles.NodeCuesNumberedCorrect |

`Assembly.NodeJob` writes the file as node.js numbers it, `NodeSubtitles.NodeSrt`.
The corrected numbering `NodeSubtitles.NodeCuesNumbered` keeps every window and
text. `Assembly.IntendedNodeJob` is the job that writes it instead.
`NodeSubtitles.NodeCuesNumberedAgrees` and `Assembly.IntendedNodeJobAgrees` show
that the correction changes nothing when every scene has the same chunk count.
