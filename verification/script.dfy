/**
 The generated script as the assembler reads it: a sequence of scenes, each
 with its narration, a description of the visuals to search for, and a
 duration in seconds. The durations laid end to end give every scene its
 window on the timeline; the narrations joined by spaces are the voiceover text.
 */
module Script {
  import opened Text

  /** One scene of `script.scenes`. */
  datatype Scene = Scene(narration: string, visualDescription: string, duration: real)

  /** Where scene `i` starts: the durations of the scenes before it, added up. */
  function StartOf(scenes: seq<Scene>, i: nat): real
    requires i <= |scenes|
  {
    if i == 0 then 0.0 else StartOf(scenes, i - 1) + scenes[i - 1].duration
  }

  /** The length of the whole timeline. */
  function Total(scenes: seq<Scene>): real
  {
    StartOf(scenes, |scenes|)
  }

  /** The start of a scene depends only on the scenes before it. */
  lemma {:induction false} StartOfPrefix(scenes: seq<Scene>, more: seq<Scene>, i: nat)
    requires i <= |scenes|
    ensures StartOf(scenes + more, i) == StartOf(scenes, i)
    decreases i
  {
    if i > 0 {
      StartOfPrefix(scenes, more, i - 1);
      assert (scenes + more)[i - 1] == scenes[i - 1];
    }
  }

  /** With no negative durations, scene windows start in timeline order and within the whole. */
  lemma {:induction false} StartOfMonotone(scenes: seq<Scene>, i: nat, j: nat)
    requires i <= j <= |scenes|
    requires forall k :: 0 <= k < |scenes| ==> scenes[k].duration >= 0.0
    ensures 0.0 <= StartOf(scenes, i) <= StartOf(scenes, j) <= Total(scenes)
    decreases |scenes| - i
  {
    if i < |scenes| {
      StartOfMonotone(scenes, i + 1, |scenes|);
      if i < j {
        StartOfMonotone(scenes, i + 1, j);
      }
    }
    if i > 0 {
      StartOfNonNegative(scenes, i);
    }
  }

  lemma {:induction false} StartOfNonNegative(scenes: seq<Scene>, i: nat)
    requires i <= |scenes|
    requires forall k :: 0 <= k < |scenes| ==> scenes[k].duration >= 0.0
    ensures StartOf(scenes, i) >= 0.0
    decreases i
  {
    if i > 0 {
      StartOfNonNegative(scenes, i - 1);
    }
  }

  /** The narrations in scene order. */
  function Narrations(scenes: seq<Scene>): (r: seq<string>)
    ensures |r| == |scenes|
    ensures forall i :: 0 <= i < |scenes| ==> r[i] == scenes[i].narration
  {
    seq(|scenes|, i requires 0 <= i < |scenes| => scenes[i].narration)
  }

  /** `fullScript`: the narrations joined with single spaces. */
  function FullScript(scenes: seq<Scene>): string
  {
    Join(Narrations(scenes), " ")
  }

  /** All the words of all the narrations, scene by scene. */
  function NarrationWords(scenes: seq<Scene>): seq<string>
  {
    if |scenes| == 0 then [] else NarrationWords(scenes[..|scenes| - 1]) + Split(scenes[|scenes| - 1].narration, ' ')
  }

  /**
   The voiceover text holds the narrations' words and nothing else: splitting it
   on spaces gives every scene's words, in scene order.
   */
  lemma {:induction false} FullScriptWords(scenes: seq<Scene>)
    requires |scenes| >= 1
    ensures Split(FullScript(scenes), ' ') == NarrationWords(scenes)
    decreases |scenes|
  {
    var init, last := scenes[..|scenes| - 1], scenes[|scenes| - 1];
    if |scenes| == 1 {
      assert Narrations(scenes) == [last.narration];
      assert init == [];
    } else {
      FullScriptWords(init);
      assert Narrations(scenes) == Narrations(init) + [last.narration];
      assert FullScript(scenes) == FullScript(init) + [' '] + last.narration by {
        JoinSnoc(Narrations(init), last.narration, " ");
      }
      SplitAppend(FullScript(init), last.narration, ' ');
    }
  }
}
