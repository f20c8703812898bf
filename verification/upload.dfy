/**
 The tag list of the upload metadata in server.js `uploadToYouTube`:
 `keywords.split(',')` with every piece trimmed, or no tags at all when the
 keywords are missing or empty. The upload itself is outside the model.
 */
module Upload {
  import opened Wrappers
  import opened Text

  /** Every string of `xs` trimmed, in order. */
  function TrimAll(xs: seq<string>): seq<string>
  {
    seq(|xs|, i requires 0 <= i < |xs| => Trim(xs[i]))
  }

  /** The tags for the given keywords; `None` stands for a missing field. */
  function Tags(keywords: Option<string>): seq<string>
  {
    match keywords
    case None => []
    case Some(k) => if k == "" then [] else TrimAll(Split(k, ','))
  }

  /** Trimming strings already trimmed changes nothing. */
  lemma TrimAllFixed(xs: seq<string>)
    requires forall i :: 0 <= i < |xs| ==> Trim(xs[i]) == xs[i]
    ensures TrimAll(xs) == xs
  {
  }

  /** A slice holds no character its string does not. */
  lemma SliceFree(s: string, i: nat, j: nat, ch: char)
    requires i <= j <= |s| && ch !in s
    ensures ch !in s[i..j]
  {
    assert forall k :: 0 <= k < j - i ==> s[i..j][k] == s[i + k];
  }

  /** Trimming only drops characters. */
  lemma TrimDrops(s: string, ch: char)
    requires ch !in s
    ensures ch !in Trim(s)
  {
    TrimSlice(s);
    var i, j :| 0 <= i <= j <= |s| && Trim(s) == s[i..j];
    SliceFree(s, i, j, ch);
  }

  /**
   Missing or empty keywords give no tags. Otherwise there is one tag per
   comma-separated piece, the `i`-th the `i`-th piece trimmed, so no tag holds
   a comma or starts or ends with whitespace, and trimming a tag again leaves it as is.
   */
  lemma TagsShape(keywords: Option<string>)
    ensures keywords == None || keywords == Some("") ==> Tags(keywords) == []
    ensures keywords.Some? && keywords.value != "" ==>
      var tags := Tags(keywords);
      && |tags| == |Split(keywords.value, ',')| >= 1
      && (forall i :: 0 <= i < |tags| ==> tags[i] == Trim(Split(keywords.value, ',')[i]))
      && (forall i :: 0 <= i < |tags| ==> ',' !in tags[i] && Trim(tags[i]) == tags[i])
  {
    if keywords.Some? && keywords.value != "" {
      var pieces := Split(keywords.value, ',');
      SplitPiecesFree(keywords.value, ',');
      forall i | 0 <= i < |pieces|
        ensures TrimAll(pieces)[i] == Trim(pieces[i])
        ensures ',' !in Trim(pieces[i]) && Trim(Trim(pieces[i])) == Trim(pieces[i])
      {
        TrimDrops(pieces[i], ',');
        TrimIdempotent(pieces[i]);
      }
    }
  }

  /**
   Tags that are already trimmed and hold no comma, written as comma-separated
   keywords, come back as the same tags in the same order.
   */
  lemma TagsRoundTrip(tags: seq<string>)
    requires |tags| > 1 || (|tags| == 1 && tags[0] != "")
    requires forall i :: 0 <= i < |tags| ==> ',' !in tags[i] && Trimmed(tags[i])
    ensures Tags(Some(Join(tags, ","))) == tags
  {
    assert Join(tags, ",") != "" by {
      if |tags| > 1 {
        assert Join(tags, ",")[|tags[0]|] == ',';
      }
    }
    SplitJoin(tags, ',');
    forall i | 0 <= i < |tags|
      ensures Trim(tags[i]) == tags[i]
    {
      TrimmedFixed(tags[i]);
    }
    TrimAllFixed(tags);
  }
}
