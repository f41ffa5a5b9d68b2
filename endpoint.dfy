/**
 * The records of src/endpoint.rs and its play URL, built from the base URL
 * and the authentication parameters of the client in src/mod.rs.
 */
module Endpoint {
  import opened Wrappers
  import QueryString

  /** Rust's `i32` and `u32`. */
  newtype int32 = x: int | -0x8000_0000 <= x < 0x8000_0000
  newtype uint32 = x: int | 0 <= x < 0x1_0000_0000

  datatype Artist = Artist(id: string, name: string, albumCount: int32)

  datatype Album = Album(id: string, name: string, artist: string, songCount: int32)

  /** A song; `duration` is in seconds. */
  datatype Song = Song(id: string, title: string, artist: string, album: string, duration: uint32, path: string)

  /**
   * The client as `get_play_url` sees it: the base URL as it prints, and the
   * authentication parameters in the order the map hands them out.
   */
  datatype NavidromeClient = NavidromeClient(baseUrl: string, authParams: seq<QueryString.Pair>)

  /**
   * The play URL of the song with id `songId`. With at least one
   * authentication parameter it is a query of the song id followed by the
   * parameters, in order: one `&` between neighbours, and no separator
   * after the last parameter's `k=v`.
   * Without one it ends in the `&` right after the song id.
   */
  function PlayUrl(c: NavidromeClient, songId: string): (r: string)
    ensures c.authParams == [] ==> r == c.baseUrl + "/rest/stream?id=" + songId + "&"
    ensures c.authParams != [] ==>
      r == c.baseUrl + "/rest/stream?" + QueryString.Encode([("id", songId)] + c.authParams)
  {
    var r := c.baseUrl + "/rest/stream?id=" + songId + "&" + QueryString.Join("&", QueryString.Segments(c.authParams));
    if c.authParams == [] then r
    else
      QueryString.EncodeCons(("id", songId), c.authParams);
      r
  }

  /** What every play URL of `songId` starts with. */
  function PlayPrefix(c: NavidromeClient, songId: string): string
  {
    c.baseUrl + "/rest/stream?id=" + songId + "&"
  }

  /** The part of a play URL after its prefix, if it has that prefix. */
  function AuthPart(c: NavidromeClient, songId: string, url: string): (r: Option<string>)
    ensures r.Some? <==> |PlayPrefix(c, songId)| <= |url| && url[..|PlayPrefix(c, songId)|] == PlayPrefix(c, songId)
    ensures r.Some? ==> url == PlayPrefix(c, songId) + r.value
  {
    var p := PlayPrefix(c, songId);
    if |p| <= |url| && url[..|p|] == p then
      assert url == url[..|p|] + url[|p|..];
      Some(url[|p|..])
    else
      None
  }

  /** A play URL starts with its prefix, and what follows is the authentication parameters joined with `&`. */
  lemma PlayUrlPrefix(c: NavidromeClient, songId: string)
    ensures AuthPart(c, songId, PlayUrl(c, songId)) == Some(QueryString.Encode(c.authParams))
  {
    var p, url := PlayPrefix(c, songId), PlayUrl(c, songId);
    assert url == p + QueryString.Encode(c.authParams);
    assert url[..|p|] == p;
  }

  /** The URL ends with the last parameter's `k=v`: no separator follows it. */
  lemma PlayUrlEndsWithLastParam(c: NavidromeClient, songId: string)
    requires c.authParams != []
    ensures var url, last := PlayUrl(c, songId), QueryString.Render(c.authParams[|c.authParams| - 1]);
      |last| <= |url| && url[|url| - |last|..] == last
  {
    var segs := QueryString.Segments(c.authParams);
    var j := QueryString.Join("&", segs);
    var url := PlayUrl(c, songId);
    assert url == PlayPrefix(c, songId) + j;
    assert segs[|segs| - 1] == QueryString.Render(c.authParams[|c.authParams| - 1]);
    assert url[|url| - |segs[|segs| - 1]|..] == j[|j| - |segs[|segs| - 1]|..];
  }

  /**
   * When no key or value holds `&` and no key holds `=`, the part after the
   * prefix splits into exactly one `k=v` segment per parameter, and decoding
   * it gives back the parameters in iteration order.
   */
  lemma PlayUrlDecodes(c: NavidromeClient, songId: string)
    requires c.authParams != []
    requires forall k :: 0 <= k < |c.authParams| ==> QueryString.Plain(c.authParams[k])
    ensures var part := AuthPart(c, songId, PlayUrl(c, songId));
      part.Some? &&
      |QueryString.Split(part.value, '&')| == |c.authParams| &&
      QueryString.Decode(part.value) == Some(c.authParams)
  {
    PlayUrlPrefix(c, songId);
    QueryString.DecodeEncode(c.authParams);
  }
}
