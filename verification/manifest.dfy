/**
 The concat list `assembleVideo` writes to `ffmpeg_commands.txt` for ffmpeg's
 concat demuxer: a `file '<path>'` line per media item in list order, each
 followed by a `duration <d>` line, joined with line breaks and with no line
 break at the end. node.js writes the duration line for images only; server.js
 writes it for every item.

 How a duration prints (`${media.duration}`, JavaScript's number-to-string) is
 the parameter `num`.
 */
module Manifest {
  import opened Wrappers
  import opened Text
  import opened Media

  /** `` `file '${media.path}'` ``. */
  function FileLine(path: string): string
  {
    "file '" + path + "'"
  }

  /** `` `duration ${media.duration}` ``. */
  function DurationLine(d: real, num: real -> string): string
  {
    "duration " + num(d)
  }

  /** The lines node.js pushes for the items: a duration line after an image's file line only. */
  function NodeLines(media: seq<MediaItem>, num: real -> string): seq<string>
  {
    if |media| == 0 then []
    else
      var m := media[0];
      (if m.kind == Image then [FileLine(m.path), DurationLine(m.duration, num)] else [FileLine(m.path)])
        + NodeLines(media[1..], num)
  }

  /** The lines server.js pushes for the items: a file line and a duration line for every item. */
  function ServerLines(media: seq<MediaItem>, num: real -> string): seq<string>
  {
    if |media| == 0 then []
    else [FileLine(media[0].path), DurationLine(media[0].duration, num)] + ServerLines(media[1..], num)
  }

  /** The contents of `ffmpeg_commands.txt` as node.js writes it. */
  function NodeManifest(media: seq<MediaItem>, num: real -> string): string
  {
    Join(NodeLines(media, num), "\n")
  }

  /** The contents of `ffmpeg_commands.txt` as server.js writes it. */
  function ServerManifest(media: seq<MediaItem>, num: real -> string): string
  {
    Join(ServerLines(media, num), "\n")
  }

  /** How many of the items are images. */
  function ImageCount(media: seq<MediaItem>): (n: nat)
    ensures n <= |media|
  {
    if |media| == 0 then 0 else (if media[0].kind == Image then 1 else 0) + ImageCount(media[1..])
  }

  /** node.js writes one line per item and one more per image; server.js two per item. */
  lemma {:induction false} LineCounts(media: seq<MediaItem>, num: real -> string)
    ensures |NodeLines(media, num)| == |media| + ImageCount(media)
    ensures |ServerLines(media, num)| == 2 * |media|
    decreases |media|
  {
    if |media| > 0 {
      LineCounts(media[1..], num);
    }
  }

  /** On a list of images only, the two variants write the same manifest. */
  lemma {:induction false} ImagesOnlyAgree(media: seq<MediaItem>, num: real -> string)
    requires forall k :: 0 <= k < |media| ==> media[k].kind == Image
    ensures NodeLines(media, num) == ServerLines(media, num)
    ensures NodeManifest(media, num) == ServerManifest(media, num)
    decreases |media|
  {
    if |media| > 0 {
      ImagesOnlyAgree(media[1..], num);
    }
  }

  /** One entry of a concat list as the demuxer reads it: a file and, when given, the text of its duration. */
  datatype Entry = Entry(path: string, duration: Option<string>)

  predicate IsFileLine(line: string)
  {
    |line| >= 7 && line[..6] == "file '" && line[|line| - 1] == '\''
  }

  /** The path between the quotes of a file line. */
  function FilePath(line: string): string
    requires IsFileLine(line)
  {
    line[6..|line| - 1]
  }

  predicate IsDurationLine(line: string)
  {
    |line| >= 9 && line[..9] == "duration "
  }

  /** Reads lines into entries: a file line, optionally followed by a duration line. */
  function ParseEntries(lines: seq<string>): Option<seq<Entry>>
    decreases |lines|
  {
    if |lines| == 0 then Some([])
    else if !IsFileLine(lines[0]) then None
    else
      var path := FilePath(lines[0]);
      if |lines| >= 2 && IsDurationLine(lines[1]) then
        var rest := ParseEntries(lines[2..]);
        if rest.Some? then Some([Entry(path, Some(lines[1][9..]))] + rest.value) else None
      else
        var rest := ParseEntries(lines[1..]);
        if rest.Some? then Some([Entry(path, None)] + rest.value) else None
  }

  /** Reads a concat list; the empty file lists nothing. */
  function ParseManifest(s: string): Option<seq<Entry>>
  {
    if s == "" then Some([]) else ParseEntries(Split(s, '\n'))
  }

  /** The entries node.js means to write: every item's path, and the duration of images. */
  function NodeEntries(media: seq<MediaItem>, num: real -> string): (r: seq<Entry>)
    ensures |r| == |media|
  {
    if |media| == 0 then []
    else
      var m := media[0];
      [Entry(m.path, if m.kind == Image then Some(num(m.duration)) else None)] + NodeEntries(media[1..], num)
  }

  /** The entries server.js means to write: every item's path and duration. */
  function ServerEntries(media: seq<MediaItem>, num: real -> string): (r: seq<Entry>)
    ensures |r| == |media|
  {
    if |media| == 0 then [] else [Entry(media[0].path, Some(num(media[0].duration)))] + ServerEntries(media[1..], num)
  }

  /** A file line reads back as its path, and is not a duration line. */
  lemma FileLineShape(path: string)
    ensures IsFileLine(FileLine(path)) && FilePath(FileLine(path)) == path
    ensures !IsDurationLine(FileLine(path))
  {
    var line := FileLine(path);
    assert line == "file '" + (path + "'");
    assert line[..6] == "file '";
    assert line[6..|line| - 1] == path;
    assert line[0] == 'f';
  }

  /** A duration line reads back as the printed duration. */
  lemma DurationLineShape(d: real, num: real -> string)
    ensures IsDurationLine(DurationLine(d, num)) && DurationLine(d, num)[9..] == num(d)
  {
    var line := DurationLine(d, num);
    assert line[..9] == "duration ";
  }

  /** Paths and printed durations without line breaks: every line is one line. */
  predicate OneLine(media: seq<MediaItem>, num: real -> string)
  {
    forall k :: 0 <= k < |media| ==> '\n' !in media[k].path && '\n' !in num(media[k].duration)
  }

  lemma {:induction false} NodeLinesRead(media: seq<MediaItem>, num: real -> string)
    ensures ParseEntries(NodeLines(media, num)) == Some(NodeEntries(media, num))
    decreases |media|
  {
    if |media| > 0 {
      var m, rest := media[0], NodeLines(media[1..], num);
      NodeLinesRead(media[1..], num);
      FileLineShape(m.path);
      DurationLineShape(m.duration, num);
      if m.kind == Image {
        var lines := [FileLine(m.path), DurationLine(m.duration, num)] + rest;
        assert lines[2..] == rest;
      } else {
        var lines := [FileLine(m.path)] + rest;
        assert lines[1..] == rest;
        if |rest| > 0 {
          FileLineShape(media[1].path);
        }
      }
    }
  }

  lemma {:induction false} ServerLinesRead(media: seq<MediaItem>, num: real -> string)
    ensures ParseEntries(ServerLines(media, num)) == Some(ServerEntries(media, num))
    decreases |media|
  {
    if |media| > 0 {
      var m, rest := media[0], ServerLines(media[1..], num);
      ServerLinesRead(media[1..], num);
      FileLineShape(m.path);
      DurationLineShape(m.duration, num);
      var lines := [FileLine(m.path), DurationLine(m.duration, num)] + rest;
      assert lines[2..] == rest;
    }
  }

  /** The two lines of an item hold no line break when its path and printed duration hold none. */
  lemma ItemLinesOneLine(m: MediaItem, num: real -> string)
    requires '\n' !in m.path && '\n' !in num(m.duration)
    ensures '\n' !in FileLine(m.path) && '\n' !in DurationLine(m.duration, num)
  {
  }

  lemma {:induction false} NodeLinesOneLine(media: seq<MediaItem>, num: real -> string)
    requires OneLine(media, num)
    ensures forall i :: 0 <= i < |NodeLines(media, num)| ==> '\n' !in NodeLines(media, num)[i]
    decreases |media|
  {
    if |media| > 0 {
      var m := media[0];
      NodeLinesOneLine(media[1..], num);
      ItemLinesOneLine(m, num);
      var head := if m.kind == Image then [FileLine(m.path), DurationLine(m.duration, num)] else [FileLine(m.path)];
      PiecesFreeAppend(head, NodeLines(media[1..], num), '\n');
    }
  }

  lemma {:induction false} ServerLinesOneLine(media: seq<MediaItem>, num: real -> string)
    requires OneLine(media, num)
    ensures forall i :: 0 <= i < |ServerLines(media, num)| ==> '\n' !in ServerLines(media, num)[i]
    decreases |media|
  {
    if |media| > 0 {
      var m := media[0];
      ServerLinesOneLine(media[1..], num);
      ItemLinesOneLine(m, num);
      PiecesFreeAppend([FileLine(m.path), DurationLine(m.duration, num)], ServerLines(media[1..], num), '\n');
    }
  }

  /** A join of lines whose first line is not empty is not empty. */
  lemma JoinNotEmpty(lines: seq<string>)
    requires |lines| >= 1 && lines[0] != ""
    ensures Join(lines, "\n") != ""
  {
  }

  /**
   The node.js manifest reads back, line for line, as the items' paths in list
   order with the printed duration of each image and of nothing else.
   */
  lemma NodeManifestRoundTrip(media: seq<MediaItem>, num: real -> string)
    requires OneLine(media, num)
    ensures ParseManifest(NodeManifest(media, num)) == Some(NodeEntries(media, num))
  {
    NodeLinesRead(media, num);
    if |media| > 0 {
      var lines := NodeLines(media, num);
      NodeLinesOneLine(media, num);
      JoinNotEmpty(lines);
      SplitJoin(lines, '\n');
    }
  }

  /** The server.js manifest reads back as every item's path with its printed duration, in list order. */
  lemma ServerManifestRoundTrip(media: seq<MediaItem>, num: real -> string)
    requires OneLine(media, num)
    ensures ParseManifest(ServerManifest(media, num)) == Some(ServerEntries(media, num))
  {
    ServerLinesRead(media, num);
    if |media| > 0 {
      var lines := ServerLines(media, num);
      ServerLinesOneLine(media, num);
      JoinNotEmpty(lines);
      SplitJoin(lines, '\n');
    }
  }
}
