/** `StreamManager.extractEventSourceStreamIdFromUrl_`: the stream id is the
    part of the event-source URL after its last `/`. */
module WicaStreamId {

  /** `s.lastIndexOf(c)`: the index of the last occurrence of c, or -1. */
  function LastIndexOf(s: string, c: char): (r: int)
    ensures -1 <= r < |s|
    ensures r >= 0 ==> s[r] == c
    ensures forall k :: r < k < |s| ==> s[k] != c
  {
    if s == [] then -1
    else if s[|s| - 1] == c then |s| - 1
    else LastIndexOf(s[..|s| - 1], c)
  }

  /** `url.substr(url.lastIndexOf("/") + 1)`: a URL without a `/` is its own id. */
  function ExtractStreamId(url: string): (id: string)
    ensures |id| <= |url| && id == url[|url| - |id|..]
    ensures '/' !in id
    ensures '/' in url ==> url[|url| - |id| - 1] == '/'
    ensures '/' !in url ==> id == url
  {
    var start := LastIndexOf(url, '/') + 1;
    assert forall k :: 0 <= k < |url| - start ==> url[start..][k] == url[start + k];
    url[start..]
  }

  /** The id the server appends to the stream URL is the one extracted from it. */
  lemma ExtractStreamIdInverse(base: string, id: string)
    requires '/' !in id
    ensures ExtractStreamId(base + "/" + id) == id
  {
    var url := base + "/" + id;
    assert url[|base|] == '/';
    assert url[|url| - |id|..] == id;
  }
}
