/**
 SubRip subtitle files as `assembleVideo` writes them: one block per cue, each
 block being the cue number, the line `start --> end` and the cue text, each
 on its own line and followed by an empty line. The file is the blocks
 concatenated in cue order.
 */
module Srt {
  import opened Wrappers
  import opened Text
  import opened Numerals
  import opened Timecode

  /** A subtitle cue: its number, its time window in seconds and its text. */
  datatype Cue = Cue(number: int, start: real, end: real, text: string)

  /** The template literal of one cue block. */
  function Block(c: Cue): string
  {
    IntToString(c.number) + "\n" + Timing(c) + "\n" + c.text + "\n\n"
  }

  /** The timing line of a cue: `start --> end`. */
  function Timing(c: Cue): string
  {
    Format(c.start) + " --> " + Format(c.end)
  }

  /** The file: the blocks of the cues, in order. */
  function Render(cues: seq<Cue>): string
  {
    if |cues| == 0 then "" else Block(cues[0]) + Render(cues[1..])
  }

  /** Rendering distributes over concatenation of cue lists. */
  lemma {:induction false} RenderAppend(a: seq<Cue>, b: seq<Cue>)
    ensures Render(a + b) == Render(a) + Render(b)
    decreases |a|
  {
    if |a| > 0 {
      assert (a + b)[1..] == a[1..] + b;
      RenderAppend(a[1..], b);
    } else {
      assert a + b == b;
    }
  }

  /** Appending a block to the file so far renders one more cue. */
  lemma RenderSnoc(cues: seq<Cue>, c: Cue)
    ensures Render(cues + [c]) == Render(cues) + Block(c)
  {
    RenderAppend(cues, [c]);
    assert Render([c]) == Block(c) + Render([]);
  }

  /**
   The cues cover the window `[from, to)` with no gap and no overlap: the first
   starts at `from`, each ends where the next starts, and the last ends at `to`.
   No cues cover only an empty window.
   */
  predicate Tiles(cues: seq<Cue>, from: real, to: real)
  {
    if |cues| == 0 then from == to
    else
      && cues[0].start == from
      && (forall i :: 0 <= i < |cues| - 1 ==> cues[i].end == cues[i + 1].start)
      && cues[|cues| - 1].end == to
  }

  /** Two tilings that meet tile the union of their windows. */
  lemma TilesConcat(a: seq<Cue>, b: seq<Cue>, from: real, mid: real, to: real)
    requires Tiles(a, from, mid) && Tiles(b, mid, to)
    ensures Tiles(a + b, from, to)
  {
    var ab := a + b;
    if |a| > 0 && |b| > 0 {
      assert forall i :: 0 <= i < |a| ==> ab[i] == a[i];
      assert forall i :: |a| <= i < |ab| ==> ab[i] == b[i - |a|];
      assert ab[|a| - 1].end == ab[|a|].start;
    } else if |a| == 0 {
      assert ab == b;
    } else {
      assert ab == a;
    }
  }

  /** The cues are numbered `first`, `first + 1`, ... in order. */
  predicate NumberedFrom(cues: seq<Cue>, first: int)
  {
    forall i :: 0 <= i < |cues| ==> cues[i].number == first + i
  }

  /** What a reader of the file sees of a cue: its number, its window in whole milliseconds, its text. */
  datatype ShownCue = ShownCue(number: int, startMillis: int, endMillis: int, text: string)

  /** A cue a reader can recover from its block: a non-negative number and times, a one-line text. */
  predicate Readable(c: Cue)
  {
    c.number >= 0 && c.start >= 0.0 && c.end >= 0.0 && '\n' !in c.text
  }

  function Shown(c: Cue): ShownCue
  {
    ShownCue(c.number, Millis(c.start), Millis(c.end), c.text)
  }

  /** Reads a file back into cues: groups of number, timing and text lines, each group ended by an empty line. */
  function ParseSrt(s: string): Option<seq<ShownCue>>
  {
    ParseLines(Split(s, '\n'))
  }

  function ParseLines(lines: seq<string>): Option<seq<ShownCue>>
    decreases |lines|
  {
    if lines == [""] then Some([])
    else if |lines| < 5 || lines[3] != "" then None
    else
      var first := ParseCue(lines[0], lines[1], lines[2]);
      var rest := ParseLines(lines[4..]);
      if first.Some? && rest.Some? then Some([first.value] + rest.value) else None
  }

  /** One cue from its number line, its timing line `start --> end` and its text line. */
  function ParseCue(numberLine: string, timing: string, text: string): Option<ShownCue>
  {
    var parts := Split(timing, ' ');
    if |parts| != 3 || parts[1] != "-->" then None
    else
      var n, s, e := ParseDigits(numberLine), ParseTimecode(parts[0]), ParseTimecode(parts[2]);
      if n.Some? && s.Some? && e.Some? then Some(ShownCue(n.value, s.value, e.value, text)) else None
  }

  /** The lines of the file: number, timing, text and an empty line per cue, then the empty last line. */
  function CueLines(cues: seq<Cue>): (r: seq<string>)
    ensures |r| == 4 * |cues| + 1
  {
    if |cues| == 0 then [""]
    else [IntToString(cues[0].number), Timing(cues[0]), cues[0].text, ""] + CueLines(cues[1..])
  }

  /** A block in front of joined lines is its three lines and an empty line in front of them. */
  lemma BlockJoin(n: string, t: string, x: string, more: seq<string>)
    requires |more| >= 1
    ensures n + "\n" + t + "\n" + x + "\n\n" + Join(more, "\n") == Join([n, t, x, ""] + more, "\n")
  {
    var r := Join(more, "\n");
    assert [n, t, x, ""] + more == [n] + ([t] + ([x] + ([""] + more)));
    JoinCons("", more, "\n");
    JoinCons(x, [""] + more, "\n");
    JoinCons(t, [x] + ([""] + more), "\n");
    JoinCons(n, [t] + ([x] + ([""] + more)), "\n");
    BlockRegroup(n, t, x, r);
  }

  /** The file is its lines joined with line breaks. */
  lemma {:induction false} RenderLines(cues: seq<Cue>)
    ensures Render(cues) == Join(CueLines(cues), "\n")
    decreases |cues|
  {
    if |cues| > 0 {
      var c := cues[0];
      RenderLines(cues[1..]);
      BlockJoin(IntToString(c.number), Timing(c), c.text, CueLines(cues[1..]));
    }
  }

  /** The lines of readable cues hold no line break. */
  lemma {:induction false} CueLinesPlain(cues: seq<Cue>)
    requires forall i :: 0 <= i < |cues| ==> Readable(cues[i])
    ensures forall i :: 0 <= i < |CueLines(cues)| ==> '\n' !in CueLines(cues)[i]
    decreases |cues|
  {
    if |cues| > 0 {
      var c := cues[0];
      var n, t := IntToString(c.number), Timing(c);
      CueLinesPlain(cues[1..]);
      assert '\n' !in n by {
        NatToStringDigits(c.number);
        DigitsPlain(n);
      }
      assert '\n' !in t by {
        FormatPlain(c.start);
        FormatPlain(c.end);
      }
      PiecesFreeAppend([n, t, c.text, ""], CueLines(cues[1..]), '\n');
    }
  }

  /** A timing line of two space-free timecodes splits on spaces into the timecodes and the arrow. */
  lemma TimingShape(a: string, b: string)
    requires ' ' !in a && ' ' !in b
    ensures Split(a + " --> " + b, ' ') == [a, "-->", b]
  {
    assert Join([a, "-->", b], " ") == a + " --> " + b by {
      JoinCons("-->", [b], " ");
      JoinCons(a, ["-->", b], " ");
      assert [a] + ["-->", b] == [a, "-->", b];
      assert ["-->"] + [b] == ["-->", b];
    }
    SplitJoin([a, "-->", b], ' ');
  }

  /** The three lines of a readable cue read back as the cue, as a reader sees it. */
  lemma ParseCueOf(c: Cue)
    requires Readable(c)
    ensures ParseCue(IntToString(c.number), Timing(c), c.text) == Some(Shown(c))
  {
    FormatPlain(c.start);
    FormatPlain(c.end);
    TimingShape(Format(c.start), Format(c.end));
    NatToStringRoundTrip(c.number);
    ParseFormat(c.start);
    ParseFormat(c.end);
  }

  /** A group of three lines and an empty one, followed by more lines, reads as one cue and then the rest. */
  lemma ParseLinesCons(a: string, b: string, c: string, more: seq<string>, first: ShownCue, rest: seq<ShownCue>)
    requires ParseCue(a, b, c) == Some(first) && ParseLines(more) == Some(rest)
    ensures ParseLines([a, b, c, ""] + more) == Some([first] + rest)
  {
    var lines := [a, b, c, ""] + more;
    assert |more| >= 1;
    assert lines != [""] && |lines| >= 5;
    assert lines[0] == a && lines[1] == b && lines[2] == c && lines[3] == "";
    assert lines[4..] == more;
  }

  /** The cues as a reader sees them, in order. */
  function ShownAll(cues: seq<Cue>): (r: seq<ShownCue>)
    ensures |r| == |cues|
  {
    if |cues| == 0 then [] else [Shown(cues[0])] + ShownAll(cues[1..])
  }

  /** The `i`-th cue read back is what a reader sees of the `i`-th cue. */
  lemma {:induction false} ShownAllIndex(cues: seq<Cue>, i: nat)
    requires i < |cues|
    ensures ShownAll(cues)[i] == Shown(cues[i])
    decreases i
  {
    if i > 0 {
      ShownAllIndex(cues[1..], i - 1);
    }
  }

  /** The lines of readable cues read back as those cues. */
  lemma {:induction false} ParseCueLines(cues: seq<Cue>)
    requires forall i :: 0 <= i < |cues| ==> Readable(cues[i])
    ensures ParseLines(CueLines(cues)) == Some(ShownAll(cues))
    decreases |cues|
  {
    if |cues| > 0 {
      var c, tail := cues[0], cues[1..];
      var n, t := IntToString(c.number), Timing(c);
      ParseCueLines(tail);
      ParseCueOf(c);
      ParseLinesCons(n, t, c.text, CueLines(tail), Shown(c), ShownAll(tail));
    }
  }

  /** Every file of readable cues reads back as those cues, as a reader sees them. */
  lemma ParseRender(cues: seq<Cue>)
    requires forall i :: 0 <= i < |cues| ==> Readable(cues[i])
    ensures ParseSrt(Render(cues)) == Some(ShownAll(cues))
  {
    RenderLines(cues);
    CueLinesPlain(cues);
    SplitJoin(CueLines(cues), '\n');
    ParseCueLines(cues);
  }

  /** Appending the block of the next cue keeps the text equal to the rendered cues so far. */
  lemma RenderStep(content: string, before: string, done: seq<Cue>, c: Cue, after: string)
    requires before == content + Render(done) && after == before + Block(c)
    ensures after == content + Render(done + [c])
  {
    RenderSnoc(done, c);
    ConcatStep(content, before, Render(done), Block(c), Render(done + [c]), after);
  }

  /*
   Sequence-associativity steps. They are lemmas over plain strings so that the
   rendered cues and blocks of their callers stay out of the regrouping.
   */

  /** The block template, regrouped line by line. */
  lemma BlockRegroup(n: string, t: string, x: string, r: string)
    ensures n + "\n" + t + "\n" + x + "\n\n" + r == n + "\n" + (t + "\n" + (x + "\n" + ("" + "\n" + r)))
  {
  }

  /** Regrouping a string that grows by one block. */
  lemma ConcatStep(content: string, before: string, rendered: string, block: string, next: string, after: string)
    requires before == content + rendered && next == rendered + block && after == before + block
    ensures after == content + next
  {
  }

  /** A block spelled out from the strings of its parts. */
  lemma BlockOf(c: Cue, number: int, start: real, end: real, text: string)
    requires c == Cue(number, start, end, text)
    ensures Block(c) == IntToString(number) + "\n" + Format(start) + " --> " + Format(end) + "\n" + text + "\n\n"
  {
  }
}
