/**
 The media list `collectMedia` hands to the assembler. For every scene, in
 order, the stock-media search is asked for the scene's query; a hit is
 downloaded into the media directory as `scene_<i>_image.jpg` or
 `scene_<i>_video.mp4` and recorded with the scene's index and duration. A miss
 or an error records nothing for that scene. node.js falls back to a video
 search when no image is found; server.js searches images only.

 The search, the download and every error they raise are one oracle: for a
 scene index and its query it says which kind of file ended up on disk, if any.
 */
module Media {
  import opened Wrappers
  import opened Text
  import opened Numerals
  import opened Script

  datatype MediaKind = Image | Video

  /** One entry of `mediaFiles`: `{ type, path, scene, duration }`. */
  datatype MediaItem = MediaItem(kind: MediaKind, path: string, scene: nat, duration: real)

  /** The longest search query sent. */
  const MaxQueryLength: nat := 100

  /** `` `${niche} ${scene.visual_description}`.substring(0, 100) ``. */
  function SearchQuery(niche: string, visualDescription: string): (q: string)
    ensures |q| <= MaxQueryLength
    ensures q <= niche + " " + visualDescription
    ensures |niche + " " + visualDescription| <= MaxQueryLength ==> q == niche + " " + visualDescription
    ensures |niche + " " + visualDescription| > MaxQueryLength ==> q == (niche + " " + visualDescription)[..MaxQueryLength]
  {
    Take(niche + " " + visualDescription, MaxQueryLength)
  }

  /** The file name a hit of the given kind is saved under, after the directory and a `/`. */
  function FileName(i: nat, kind: MediaKind): string
  {
    "scene_" + NatToString(i) + Ending(kind)
  }

  /** `path.join(mediaDir, name)`, for a directory name that needs no normalising. */
  function ScenePath(dir: string, i: nat, kind: MediaKind): string
  {
    dir + "/" + FileName(i, kind)
  }

  /** What scene `i` contributes: its file when the search found one, nothing otherwise. */
  function ItemsFor(scenes: seq<Scene>, niche: string, dir: string, found: (nat, string) -> Option<MediaKind>, i: nat): seq<MediaItem>
    requires i < |scenes|
  {
    match found(i, SearchQuery(niche, scenes[i].visualDescription))
    case None => []
    case Some(kind) => [MediaItem(kind, ScenePath(dir, i, kind), i, scenes[i].duration)]
  }

  /** The media list after the loop has visited the first `n` scenes. */
  function CollectUpTo(scenes: seq<Scene>, niche: string, dir: string, found: (nat, string) -> Option<MediaKind>, n: nat): seq<MediaItem>
    requires n <= |scenes|
  {
    if n == 0 then [] else CollectUpTo(scenes, niche, dir, found, n - 1) + ItemsFor(scenes, niche, dir, found, n - 1)
  }

  /** node.js `collectMedia`: an image, else a video, else nothing, for every scene. */
  function Collect(scenes: seq<Scene>, niche: string, dir: string, found: (nat, string) -> Option<MediaKind>): seq<MediaItem>
  {
    CollectUpTo(scenes, niche, dir, found, |scenes|)
  }

  /** server.js `collectMedia`: only the image search, so a scene has an image or nothing. */
  function CollectImages(scenes: seq<Scene>, niche: string, dir: string, imageFound: (nat, string) -> bool): seq<MediaItem>
  {
    Collect(scenes, niche, dir, (i: nat, q: string) => if imageFound(i, q) then Some(Image) else None)
  }

  /** The query the loop sends for scene `i`. */
  function QueryOf(scenes: seq<Scene>, niche: string, i: nat): string
    requires i < |scenes|
  {
    SearchQuery(niche, scenes[i].visualDescription)
  }

  /** The item is exactly what its scene contributes to the list. */
  predicate Recorded(item: MediaItem, scenes: seq<Scene>, niche: string, dir: string, found: (nat, string) -> Option<MediaKind>)
  {
    item.scene < |scenes| && ItemsFor(scenes, niche, dir, found, item.scene) == [item]
  }

  /** The items come from scenes below `bound`, in strictly increasing scene order. */
  predicate ScenesIncreasing(items: seq<MediaItem>, bound: nat)
  {
    && (forall k :: 0 <= k < |items| ==> items[k].scene < bound)
    && (forall a, b :: 0 <= a < b < |items| ==> items[a].scene < items[b].scene)
  }

  /** Every item is what its scene contributed. */
  predicate AllRecorded(items: seq<MediaItem>, scenes: seq<Scene>, niche: string, dir: string, found: (nat, string) -> Option<MediaKind>)
  {
    forall k :: 0 <= k < |items| ==> Recorded(items[k], scenes, niche, dir, found)
  }

  /** What one scene contributes belongs to that scene, and is at most one item. */
  lemma ItemsForScene(scenes: seq<Scene>, niche: string, dir: string, found: (nat, string) -> Option<MediaKind>, i: nat)
    requires i < |scenes|
    ensures var here := ItemsFor(scenes, niche, dir, found, i);
      |here| <= 1 && forall k :: 0 <= k < |here| ==> here[k].scene == i
  {
  }

  /** A scene contributes an item exactly when its search hit. */
  lemma ItemsForHit(scenes: seq<Scene>, niche: string, dir: string, found: (nat, string) -> Option<MediaKind>, i: nat)
    requires i < |scenes|
    ensures |ItemsFor(scenes, niche, dir, found, i)| == 1 <==> found(i, QueryOf(scenes, niche, i)).Some?
  {
  }

  /** Appending at most one item of scene `n - 1` to items of earlier scenes keeps scenes increasing. */
  lemma AppendIncreasing(before: seq<MediaItem>, here: seq<MediaItem>, n: nat)
    requires 0 < n && ScenesIncreasing(before, n - 1)
    requires |here| <= 1 && forall k :: 0 <= k < |here| ==> here[k].scene == n - 1
    ensures ScenesIncreasing(before + here, n)
  {
    var items := before + here;
    assert forall k :: 0 <= k < |before| ==> items[k] == before[k];
    assert forall k :: |before| <= k < |items| ==> items[k] == here[k - |before|];
  }

  /** Appending recorded items to recorded items keeps every item recorded. */
  lemma AppendRecorded(before: seq<MediaItem>, here: seq<MediaItem>, scenes: seq<Scene>, niche: string, dir: string, found: (nat, string) -> Option<MediaKind>)
    requires AllRecorded(before, scenes, niche, dir, found) && AllRecorded(here, scenes, niche, dir, found)
    ensures AllRecorded(before + here, scenes, niche, dir, found)
  {
    var items := before + here;
    assert forall k :: 0 <= k < |before| ==> items[k] == before[k];
    assert forall k :: |before| <= k < |items| ==> items[k] == here[k - |before|];
  }

  /** What one scene contributes is recorded for that scene. */
  lemma ItemsForRecorded(scenes: seq<Scene>, niche: string, dir: string, found: (nat, string) -> Option<MediaKind>, i: nat)
    requires i < |scenes|
    ensures AllRecorded(ItemsFor(scenes, niche, dir, found, i), scenes, niche, dir, found)
  {
  }

  lemma {:induction false} CollectUpToIncreasing(scenes: seq<Scene>, niche: string, dir: string, found: (nat, string) -> Option<MediaKind>, n: nat)
    requires n <= |scenes|
    ensures ScenesIncreasing(CollectUpTo(scenes, niche, dir, found, n), n)
    ensures |CollectUpTo(scenes, niche, dir, found, n)| <= n
    decreases n
  {
    if n > 0 {
      var before, here := CollectUpTo(scenes, niche, dir, found, n - 1), ItemsFor(scenes, niche, dir, found, n - 1);
      CollectUpToIncreasing(scenes, niche, dir, found, n - 1);
      ItemsForScene(scenes, niche, dir, found, n - 1);
      AppendIncreasing(before, here, n);
    }
  }

  lemma {:induction false} CollectUpToRecorded(scenes: seq<Scene>, niche: string, dir: string, found: (nat, string) -> Option<MediaKind>, n: nat)
    requires n <= |scenes|
    ensures AllRecorded(CollectUpTo(scenes, niche, dir, found, n), scenes, niche, dir, found)
    decreases n
  {
    if n > 0 {
      var before, here := CollectUpTo(scenes, niche, dir, found, n - 1), ItemsFor(scenes, niche, dir, found, n - 1);
      CollectUpToRecorded(scenes, niche, dir, found, n - 1);
      ItemsForRecorded(scenes, niche, dir, found, n - 1);
      AppendRecorded(before, here, scenes, niche, dir, found);
    }
  }

  /**
   The media list of node.js: at most one item per scene, in strictly
   increasing scene order, each being what its scene's search contributed.
   */
  lemma CollectWell(scenes: seq<Scene>, niche: string, dir: string, found: (nat, string) -> Option<MediaKind>)
    ensures var items := Collect(scenes, niche, dir, found);
      && |items| <= |scenes|
      && ScenesIncreasing(items, |scenes|)
      && AllRecorded(items, scenes, niche, dir, found)
  {
    CollectUpToIncreasing(scenes, niche, dir, found, |scenes|);
    CollectUpToRecorded(scenes, niche, dir, found, |scenes|);
  }

  /**
   A recorded item carries the kind the search found for its scene, the path
   that kind is saved under and the scene's duration.
   */
  lemma RecordedItem(item: MediaItem, scenes: seq<Scene>, niche: string, dir: string, found: (nat, string) -> Option<MediaKind>)
    requires Recorded(item, scenes, niche, dir, found)
    ensures found(item.scene, QueryOf(scenes, niche, item.scene)) == Some(item.kind)
    ensures item.path == ScenePath(dir, item.scene, item.kind)
    ensures item.duration == scenes[item.scene].duration
  {
  }

  /** Some item of the list belongs to scene `i`. */
  predicate HasScene(items: seq<MediaItem>, i: nat)
  {
    exists k :: 0 <= k < |items| && items[k].scene == i
  }

  /** After appending what scene `n - 1` contributes, an earlier scene has an item iff it had one before. */
  lemma AppendHasScene(before: seq<MediaItem>, here: seq<MediaItem>, n: nat, i: nat)
    requires i < n && ScenesIncreasing(before, n - 1)
    requires forall k :: 0 <= k < |here| ==> here[k].scene == n - 1
    ensures HasScene(before + here, i) <==> if i < n - 1 then HasScene(before, i) else |here| > 0
  {
    var items := before + here;
    assert forall k :: 0 <= k < |before| ==> items[k] == before[k];
    assert forall k :: |before| <= k < |items| ==> items[k] == here[k - |before|];
    if HasScene(items, i) {
      var k :| 0 <= k < |items| && items[k].scene == i;
      if i < n - 1 {
        assert before[k].scene == i;
      }
    }
    if i < n - 1 && HasScene(before, i) {
      var k :| 0 <= k < |before| && before[k].scene == i;
      assert items[k].scene == i;
    }
    if i == n - 1 && |here| > 0 {
      assert items[|before|].scene == i;
    }
  }

  /** A scene has an item exactly when the search found a file for it. */
  lemma {:induction false} CollectUpToComplete(scenes: seq<Scene>, niche: string, dir: string, found: (nat, string) -> Option<MediaKind>, n: nat, i: nat)
    requires i < n <= |scenes|
    ensures found(i, QueryOf(scenes, niche, i)).Some? <==> HasScene(CollectUpTo(scenes, niche, dir, found, n), i)
    decreases n
  {
    var before, here := CollectUpTo(scenes, niche, dir, found, n - 1), ItemsFor(scenes, niche, dir, found, n - 1);
    CollectUpToIncreasing(scenes, niche, dir, found, n - 1);
    ItemsForScene(scenes, niche, dir, found, n - 1);
    AppendHasScene(before, here, n, i);
    if i < n - 1 {
      CollectUpToComplete(scenes, niche, dir, found, n - 1, i);
    } else {
      ItemsForHit(scenes, niche, dir, found, n - 1);
    }
  }

  /** Whether scene `i` has an item is exactly whether its search hit. */
  lemma CollectComplete(scenes: seq<Scene>, niche: string, dir: string, found: (nat, string) -> Option<MediaKind>, i: nat)
    requires i < |scenes|
    ensures found(i, QueryOf(scenes, niche, i)).Some? <==> HasScene(Collect(scenes, niche, dir, found), i)
  {
    CollectUpToComplete(scenes, niche, dir, found, |scenes|, i);
  }

  /** The media list of server.js holds images only, one for each scene whose image search hit. */
  lemma CollectImagesWell(scenes: seq<Scene>, niche: string, dir: string, imageFound: (nat, string) -> bool, i: nat)
    requires i < |scenes|
    ensures var items := CollectImages(scenes, niche, dir, imageFound);
      && |items| <= |scenes|
      && (forall k :: 0 <= k < |items| ==> items[k].kind == Image)
      && (forall a, b :: 0 <= a < b < |items| ==> items[a].scene < items[b].scene)
      && (imageFound(i, QueryOf(scenes, niche, i)) <==> HasScene(items, i))
  {
    var found: (nat, string) -> Option<MediaKind> := (j: nat, q: string) => if imageFound(j, q) then Some(Image) else None;
    CollectWell(scenes, niche, dir, found);
    CollectComplete(scenes, niche, dir, found, i);
  }

  /** A run of digits followed by a non-digit is determined by the whole string. */
  lemma DigitsThenMark(d1: string, s1: string, d2: string, s2: string)
    requires AllDigits(d1) && AllDigits(d2)
    requires |s1| > 0 && |s2| > 0 && !IsDigit(s1[0]) && !IsDigit(s2[0])
    requires d1 + s1 == d2 + s2
    ensures d1 == d2
  {
    var k := if |d1| < |d2| then |d1| else |d2|;
    assert (d1 + s1)[k] == (d2 + s2)[k];
    assert |d1| == |d2|;
    assert d1 == (d1 + s1)[..|d1|];
    assert d2 == (d2 + s2)[..|d2|];
  }

  /** A common prefix cancels. */
  lemma PrefixCancel(p: string, x: string, y: string)
    requires p + x == p + y
    ensures x == y
  {
    assert x == (p + x)[|p|..];
    assert y == (p + y)[|p|..];
  }

  /** The two kinds are saved with different endings. */
  function Ending(kind: MediaKind): string
  {
    if kind == Image then "_image.jpg" else "_video.mp4"
  }

  /** Paths built from digit runs and endings that start with `_` determine the run and the ending. */
  lemma PathPartsInjective(dir: string, ni: string, ei: string, nj: string, ej: string)
    requires AllDigits(ni) && AllDigits(nj)
    requires |ei| > 0 && |ej| > 0 && ei[0] == '_' && ej[0] == '_'
    requires dir + "/" + ("scene_" + ni + ei) == dir + "/" + ("scene_" + nj + ej)
    ensures ni == nj && ei == ej
  {
    PrefixCancel(dir + "/", "scene_" + ni + ei, "scene_" + nj + ej);
    assert "scene_" + ni + ei == "scene_" + (ni + ei);
    assert "scene_" + nj + ej == "scene_" + (nj + ej);
    PrefixCancel("scene_", ni + ei, nj + ej);
    DigitsThenMark(ni, ei, nj, ej);
    PrefixCancel(ni, ei, ej);
  }

  /** Files of different scenes never share a path, whatever their kinds. */
  lemma ScenePathInjective(dir: string, i: nat, ki: MediaKind, j: nat, kj: MediaKind)
    requires ScenePath(dir, i, ki) == ScenePath(dir, j, kj)
    ensures i == j && ki == kj
  {
    NatToStringDigits(i);
    NatToStringDigits(j);
    PathPartsInjective(dir, NatToString(i), Ending(ki), NatToString(j), Ending(kj));
    NatToStringInjective(i, j);
    assert Ending(ki)[1] == Ending(kj)[1];
  }

  /** No two items of a media list are saved under the same path. */
  lemma CollectPathsDistinct(scenes: seq<Scene>, niche: string, dir: string, found: (nat, string) -> Option<MediaKind>)
    ensures var items := Collect(scenes, niche, dir, found);
      forall a, b :: 0 <= a < b < |items| ==> items[a].path != items[b].path
  {
    var items := Collect(scenes, niche, dir, found);
    CollectWell(scenes, niche, dir, found);
    forall a, b | 0 <= a < b < |items|
      ensures items[a].path != items[b].path
    {
      if items[a].path == items[b].path {
        ScenePathInjective(dir, items[a].scene, items[a].kind, items[b].scene, items[b].kind);
      }
    }
  }
}
