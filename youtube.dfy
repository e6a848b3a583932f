/**
 * The thumbnail address derived from a lesson's video address: the video id is taken from a
 * "youtube.com/watch?v=" or a "youtu.be/" address by splitting the address with a regular
 * expression and cutting the second piece at the start of the query.
 */
module YouTube {
  import opened Nullable
  import Text

  const WatchMarker: string := "youtube.com/watch?v="
  const ShortMarker: string := "youtu.be/"
  const ThumbnailPrefix: string := "https://img.youtube.com/vi/"
  const ThumbnailSuffix: string := "/mqdefault.jpg"

  /** A match of the regular expression `v=` at `i`. */
  predicate WatchSplitAt(s: string, i: int) {
    0 <= i && i + 2 <= |s| && s[i] == 'v' && s[i + 1] == '='
  }

  /**
   * The characters a regular-expression dot does not match in Java: the line terminators
   * '\n', '\r', U+0085, U+2028 and U+2029.
   */
  predicate LineTerminator(c: char) {
    c == '\n' || c == '\r' || c == '\U{85}' || c == '\U{2028}' || c == '\U{2029}'
  }

  /**
   * A match of the regular expression `youtu.be/` at `i`: the dot stands for any one
   * character other than a line terminator.
   */
  predicate ShortSplitAt(s: string, i: int) {
    0 <= i && i + 9 <= |s| && s[i..i + 5] == "youtu" && !LineTerminator(s[i + 5]) && s[i + 6..i + 9] == "be/"
  }

  /** A line break where the dot stands is no match, while any other character is. */
  lemma DotSkipsLineBreaks()
    ensures !ShortSplitAt("youtu\nbe/", 0) && ShortSplitAt("youtu-be/", 0)
  {
    assert "youtu\nbe/"[5] == '\n';
    assert "youtu-be/"[0..5] == "youtu" && "youtu-be/"[6..9] == "be/";
  }

  /** The first position at or after `from` where `at` matches, or -1. */
  function FirstMatch(s: string, from: nat, at: (string, int) -> bool): (r: int)
    ensures r == -1 || (from <= r <= |s| && at(s, r))
    ensures forall k :: from <= k <= |s| && (r == -1 || k < r) ==> !at(s, k)
    decreases |s| + 1 - from
  {
    if from > |s| then -1
    else if at(s, from) then from
    else FirstMatch(s, from + 1, at)
  }

  /**
   * `s.split(regex)[1]`: the text between the first and the second match, or the rest of
   * `s` when there is one match only. The split pieces are scanned from left to right
   * without overlap. Where Java's split has no second piece (no match, or only empty pieces
   * after the first) the result here is empty, which leads to the same missing thumbnail.
   */
  function SecondPiece(s: string, at: (string, int) -> bool, width: nat): (r: string)
    ensures var i := FirstMatch(s, 0, at);
      i >= 0 && i + width <= |s| ==> Text.StartsWith(s[i + width..], r)
  {
    var i := FirstMatch(s, 0, at);
    if i < 0 || i + width > |s| then []
    else
      var j := FirstMatch(s, i + width, at);
      if j < 0 || j > |s| then s[i + width..] else s[i + width..j]
  }

  /** The video id of a YouTube address, empty when there is none. */
  function VideoId(url: string): (id: string)
    ensures Text.Contains(url, WatchMarker) ==> '&' !in id
    ensures !Text.Contains(url, WatchMarker) && Text.Contains(url, ShortMarker) ==> '?' !in id
    ensures !Text.Contains(url, WatchMarker) && !Text.Contains(url, ShortMarker) ==> id == []
  {
    if Text.Contains(url, WatchMarker) then Text.BeforeFirst(SecondPiece(url, WatchSplitAt, 2), '&')
    else if Text.Contains(url, ShortMarker) then Text.BeforeFirst(SecondPiece(url, ShortSplitAt, 9), '?')
    else []
  }

  /**
   * `extractYouTubeThumbnail`: the medium-quality thumbnail address for a non-empty id, and
   * nothing (never an exception) otherwise.
   */
  function Thumbnail(url: string): (r: Option<string>)
    ensures r.None? <==> VideoId(url) == []
    ensures r.Some? ==> r.value == ThumbnailPrefix + VideoId(url) + ThumbnailSuffix
  {
    var id := VideoId(url);
    if id != [] then Some(ThumbnailPrefix + id + ThumbnailSuffix) else None
  }

  /**
   * A watch address: whatever comes before the host (without an '='), the id up to the next
   * '&' becomes the thumbnail's id.
   */
  lemma WatchAddress(host: string, id: string, query: string)
    requires '=' !in host
    requires id != [] && '&' !in id && '=' !in id
    requires query == [] || query[0] == '&'
    ensures Thumbnail(host + WatchMarker + id + query) == Some(ThumbnailPrefix + id + ThumbnailSuffix)
  {
    var url := host + WatchMarker + id + query;
    var m := |host| + |WatchMarker| - 2;
    assert url == host + WatchMarker + (id + query);
    assert Text.OccursAt(url, WatchMarker, |host|) by {
      assert url[|host|..|host| + |WatchMarker|] == WatchMarker;
    }
    WatchSplitFound(host, id + query);
    var piece := SecondPiece(url, WatchSplitAt, 2);
    WatchIdUnsplit(url, m + 2, id, query);
    assert url[m + 2..] == id + query;
    assert piece == id + query[..|piece| - |id|];
    BeforeAmpersand(id, query[..|piece| - |id|]);
  }

  /** In a watch address the first `v=` is the one that ends the marker. */
  lemma WatchSplitFound(host: string, rest: string)
    requires '=' !in host
    ensures FirstMatch(host + WatchMarker + rest, 0, WatchSplitAt) == |host| + |WatchMarker| - 2
  {
    var url := host + WatchMarker + rest;
    var m := |host| + |WatchMarker| - 2;
    assert WatchSplitAt(url, m) by {
      assert url[m] == WatchMarker[18] && url[m + 1] == WatchMarker[19];
    }
    forall k | 0 <= k < m
      ensures !WatchSplitAt(url, k)
    {
      if k + 1 < |host| {
        assert url[k + 1] == host[k + 1];
      } else {
        assert url[k + 1] == WatchMarker[k + 1 - |host|];
      }
    }
  }

  /** No `v=` starts inside an id without '=' that is followed by nothing or by '&'. */
  lemma WatchIdUnsplit(url: string, start: nat, id: string, query: string)
    requires start <= |url| && url[start..] == id + query
    requires '=' !in id && (query == [] || query[0] == '&')
    ensures var j := FirstMatch(url, start, WatchSplitAt); j == -1 || j >= start + |id|
  {
    forall k | start <= k < start + |id|
      ensures !WatchSplitAt(url, k)
    {
      if k + 1 < start + |id| {
        assert url[k + 1] == url[start..][k + 1 - start] == id[k + 1 - start];
      } else if k + 1 < |url| {
        assert url[k + 1] == url[start..][|id|] == query[0];
      }
    }
  }

  /** Cutting at the first '&' keeps exactly an id without '&' that is followed by nothing or by '&'. */
  lemma BeforeAmpersand(id: string, tail: string)
    requires '&' !in id && (tail == [] || tail[0] == '&')
    ensures Text.BeforeFirst(id + tail, '&') == id
  {
    var piece := id + tail;
    assert piece[..|id|] == id;
    if tail != [] {
      assert piece[|id|] == '&';
    } else {
      assert piece == id;
    }
  }

  /**
   * A short address: with no 'y' before the host and no '/' after it, the id up to the
   * next '?' becomes the thumbnail's id, provided the address does not also hold a watch
   * marker (which is looked for first).
   */
  lemma ShortAddress(host: string, id: string, query: string)
    requires 'y' !in host
    requires id != [] && '?' !in id && '/' !in id
    requires query == [] || (query[0] == '?' && '/' !in query)
    requires !Text.Contains(host + ShortMarker + id + query, WatchMarker)
    ensures Thumbnail(host + ShortMarker + id + query) == Some(ThumbnailPrefix + id + ThumbnailSuffix)
  {
    var url := host + ShortMarker + id + query;
    assert Text.OccursAt(url, ShortMarker, |host|) by {
      assert url[|host|..|host| + |ShortMarker|] == ShortMarker;
    }
    var piece := SecondPiece(url, ShortSplitAt, 9);
    ShortPiece(host, id, query);
    assert Text.BeforeFirst(piece, '?') == id by {
      assert piece[..|id|] == id;
      if |piece| > |id| {
        assert piece[|id|] == '?';
      }
    }
  }

  /** The piece after the short marker runs to the end of the address. */
  lemma ShortPiece(host: string, id: string, query: string)
    requires 'y' !in host && '/' !in id && '/' !in query
    ensures SecondPiece(host + ShortMarker + id + query, ShortSplitAt, 9) == id + query
  {
    var url := host + ShortMarker + id + query;
    var m := |host|;
    assert ShortSplitAt(url, m) by {
      assert url[m..m + 9] == ShortMarker;
      assert url[m + 5] == ShortMarker[5] == '.';
    }
    forall k | 0 <= k < m
      ensures !ShortSplitAt(url, k)
    {
      if k + 9 <= |url| {
        assert url[k..k + 5][0] == url[k] == host[k];
      }
    }
    assert FirstMatch(url, 0, ShortSplitAt) == m;
    forall k | m + 9 <= k <= |url|
      ensures !ShortSplitAt(url, k)
    {
      if k + 9 <= |url| {
        assert url[k + 6..k + 9][2] == url[k + 8];
        if k + 8 < m + 9 + |id| {
          assert url[k + 8] == id[k + 8 - (m + 9)];
        } else {
          assert url[k + 8] == query[k + 8 - (m + 9 + |id|)];
        }
      }
    }
    assert FirstMatch(url, m + 9, ShortSplitAt) == -1;
    assert url[m + 9..] == id + query;
  }

  /** An address of neither form has no thumbnail. */
  lemma OtherAddress(url: string)
    requires !Text.Contains(url, WatchMarker) && !Text.Contains(url, ShortMarker)
    ensures Thumbnail(url).None?
  {
  }
}
