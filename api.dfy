/**
 * The Subsonic client of src/api.rs after the HTTP fetch and XML decode:
 * the `getArtists` and `stream` URLs it builds, and how it turns a decoded
 * `subsonic-response` into the list of `(name, id)` pairs the UI shows.
 */
module Api {
  import opened Wrappers
  import QueryString

  /** The Subsonic protocol version and client name the URLs announce. */
  const ApiVersion := "1.16.1"
  const ClientName := "termnavi-0.1.0"

  /** An `<artist name=".." id=".."/>` element; absent attributes decode to "". */
  datatype Artist = Artist(name: string, id: string)

  /** An `<index>` group of artists. */
  datatype Index = Index(artists: seq<Artist>)

  /** The `<artists>` element: its `<index>` groups and the artists listed directly in it. */
  datatype Artists = Artists(indexes: seq<Index>, directArtists: seq<Artist>)

  /** The decoded `<subsonic-response status="..">`, with its optional `<artists>` child. */
  datatype SubsonicResponse = SubsonicResponse(status: string, artists: Option<Artists>)

  /** Server URL and `(username, password)`, as `NavidromeClient::new` stores them. */
  datatype NavidromeClient = NavidromeClient(serverUrl: string, auth: (string, string))

  /** `anyhow::bail!("API error: {}", status)`. */
  datatype ApiError = ApiError(status: string)

  /** One `(name, id)` entry of the artist list. */
  type Entry = (string, string)

  // ---------------------------------------------------------------------
  // URLs
  // ---------------------------------------------------------------------

  /**
   * The `getArtists` request URL: the server URL, the endpoint path, and
   * the five parameters `u`, `p`, `v`, `c`, `f` rendered as a query.
   */
  function ArtistsUrl(c: NavidromeClient): (r: string)
    ensures r == c.serverUrl + "/rest/getArtists?" + QueryString.Encode(ArtistsQuery(c))
  {
    var u, p := ("u", c.auth.0), ("p", c.auth.1);
    var v, n, f := ("v", ApiVersion), ("c", ClientName), ("f", "xml");
    assert QueryString.Encode([f]) == QueryString.Render(f) by {
      assert QueryString.Segments([f]) == [QueryString.Render(f)];
    }
    QueryString.EncodeCons(n, [f]);
    assert [n] + [f] == [n, f];
    QueryString.EncodeCons(v, [n, f]);
    assert [v] + [n, f] == [v, n, f];
    QueryString.EncodeCons(p, [v, n, f]);
    assert [p] + [v, n, f] == [p, v, n, f];
    QueryString.EncodeCons(u, [p, v, n, f]);
    assert [u] + [p, v, n, f] == [u, p, v, n, f];
    ArtistsUrlHead();
    ArtistsUrlTail();
    Regroup5(c.serverUrl, "/rest/getArtists?", "u", c.auth.0, "p", c.auth.1,
      "v=1.16.1", "c=termnavi-0.1.0", "f=xml");
    c.serverUrl + "/rest/getArtists?u=" + c.auth.0 + "&p=" + c.auth.1 + "&v=1.16.1&c=termnavi-0.1.0&f=xml"
  }

  /** The query parameters of the `getArtists` request, in the order the URL lists them. */
  function ArtistsQuery(c: NavidromeClient): seq<QueryString.Pair>
  {
    [("u", c.auth.0), ("p", c.auth.1), ("v", ApiVersion), ("c", ClientName), ("f", "xml")]
  }

  /**
   * The URL the player is given for the song with id `id`: the server URL,
   * the endpoint path, and the parameters `id`, `u`, `p`, `c` rendered as a
   * query.
   */
  function StreamUrl(c: NavidromeClient, id: string): (r: string)
    ensures r == c.serverUrl + "/rest/stream?" + QueryString.Encode(StreamQuery(c, id))
  {
    var i, u, p, n := ("id", id), ("u", c.auth.0), ("p", c.auth.1), ("c", ClientName);
    assert QueryString.Encode([n]) == QueryString.Render(n) by {
      assert QueryString.Segments([n]) == [QueryString.Render(n)];
    }
    QueryString.EncodeCons(p, [n]);
    assert [p] + [n] == [p, n];
    QueryString.EncodeCons(u, [p, n]);
    assert [u] + [p, n] == [u, p, n];
    QueryString.EncodeCons(i, [u, p, n]);
    assert [i] + [u, p, n] == [i, u, p, n];
    StreamUrlLiterals();
    Regroup4(c.serverUrl, "/rest/stream?", "id", id, "u", c.auth.0, "p", c.auth.1, "c=termnavi-0.1.0");
    c.serverUrl + "/rest/stream?id=" + id + "&u=" + c.auth.0 + "&p=" + c.auth.1 + "&c=termnavi-0.1.0"
  }

  /** The query parameters of a stream URL, in the order the URL lists them. */
  function StreamQuery(c: NavidromeClient, id: string): seq<QueryString.Pair>
  {
    [("id", id), ("u", c.auth.0), ("p", c.auth.1), ("c", ClientName)]
  }

  // The next five lemmas only cut the URL literals into their `k=v` pieces
  // and regroup the concatenations, so that the proofs of `ArtistsUrl` and
  // `StreamUrl` stay small enough for the solver.

  lemma ArtistsUrlTail()
    ensures "&v=1.16.1&c=termnavi-0.1.0&f=xml" == "&" + "v=1.16.1" + "&" + "c=termnavi-0.1.0" + "&" + "f=xml"
    ensures "v=1.16.1" == QueryString.Render(("v", ApiVersion))
    ensures "c=termnavi-0.1.0" == QueryString.Render(("c", ClientName))
    ensures "f=xml" == QueryString.Render(("f", "xml"))
  {
  }

  lemma ArtistsUrlHead()
    ensures "/rest/getArtists?u=" == "/rest/getArtists?" + "u" + "="
    ensures "&p=" == "&" + "p" + "="
  {
  }

  lemma Regroup5(s: string, path: string, k0: string, v0: string, k1: string, v1: string, r2: string, r3: string, r4: string)
    ensures s + (path + k0 + "=") + v0 + ("&" + k1 + "=") + v1 + ("&" + r2 + "&" + r3 + "&" + r4) ==
      s + path + ((k0 + "=" + v0) + "&" + ((k1 + "=" + v1) + "&" + (r2 + "&" + (r3 + "&" + r4))))
  {
  }

  lemma StreamUrlLiterals()
    ensures "/rest/stream?id=" == "/rest/stream?" + "id" + "="
    ensures "&u=" == "&" + "u" + "="
    ensures "&p=" == "&" + "p" + "="
    ensures "&c=termnavi-0.1.0" == "&" + "c=termnavi-0.1.0"
    ensures "c=termnavi-0.1.0" == QueryString.Render(("c", ClientName))
  {
  }

  lemma Regroup4(s: string, path: string, k0: string, v0: string, k1: string, v1: string, k2: string, v2: string, r3: string)
    ensures s + (path + k0 + "=") + v0 + ("&" + k1 + "=") + v1 + ("&" + k2 + "=") + v2 + ("&" + r3) ==
      s + path + ((k0 + "=" + v0) + "&" + ((k1 + "=" + v1) + "&" + ((k2 + "=" + v2) + "&" + r3)))
  {
  }

  /** When the credentials hold no `&`, the `getArtists` query decodes to exactly its five parameters. */
  lemma ArtistsUrlDecodes(c: NavidromeClient)
    requires '&' !in c.auth.0 && '&' !in c.auth.1
    ensures QueryString.Decode(QueryString.Encode(ArtistsQuery(c))) == Some(ArtistsQuery(c))
  {
    QueryString.DecodeEncode(ArtistsQuery(c));
  }

  /** What a stream URL holds before the song id. */
  function StreamPrefix(c: NavidromeClient): string
  {
    c.serverUrl + "/rest/stream?id="
  }

  /** What a stream URL holds after the song id. */
  function StreamSuffix(c: NavidromeClient): string
  {
    "&u=" + c.auth.0 + "&p=" + c.auth.1 + "&c=termnavi-0.1.0"
  }

  /** The song id a stream URL of client `c` was built for, if `url` is one. */
  function StreamIdOf(c: NavidromeClient, url: string): (r: Option<string>)
    ensures r.Some? ==> url == StreamPrefix(c) + r.value + StreamSuffix(c)
  {
    var p, q := StreamPrefix(c), StreamSuffix(c);
    if |p| + |q| <= |url| && url[..|p|] == p && url[|url| - |q|..] == q then
      var id := url[|p|..|url| - |q|];
      assert url == url[..|p|] + id + url[|url| - |q|..];
      Some(id)
    else
      None
  }

  /** `StreamIdOf` recovers the id from every stream URL. */
  lemma StreamIdOfStreamUrl(c: NavidromeClient, id: string)
    ensures StreamIdOf(c, StreamUrl(c, id)) == Some(id)
  {
    var p, q, url := StreamPrefix(c), StreamSuffix(c), StreamUrl(c, id);
    assert url == p + id + q;
    assert url[..|p|] == p;
    assert url[|url| - |q|..] == q;
    assert url[|p|..|url| - |q|] == id;
  }

  /** Every URL `StreamIdOf` accepts is the stream URL of the id it returns. */
  lemma StreamUrlOfStreamId(c: NavidromeClient, url: string)
    requires StreamIdOf(c, url).Some?
    ensures StreamUrl(c, StreamIdOf(c, url).value) == url
  {
  }

  /** For fixed credentials, different song ids give different stream URLs. */
  lemma StreamUrlInjective(c: NavidromeClient, id1: string, id2: string)
    requires StreamUrl(c, id1) == StreamUrl(c, id2)
    ensures id1 == id2
  {
    StreamIdOfStreamUrl(c, id1);
    StreamIdOfStreamUrl(c, id2);
  }

  // ---------------------------------------------------------------------
  // The artist list
  // ---------------------------------------------------------------------

  /** `indexes.into_iter().flat_map(|i| i.artists)`: every group's artists, group by group. */
  function Flatten(indexes: seq<Index>): (r: seq<Artist>)
    ensures forall a :: a in r <==> exists i :: 0 <= i < |indexes| && a in indexes[i].artists
  {
    if indexes == [] then []
    else
      var rest := Flatten(indexes[1..]);
      assert forall i :: 1 <= i < |indexes| ==> indexes[i] == indexes[1..][i - 1];
      indexes[0].artists + rest
  }

  /** The artists of the `match response.artists`: the index groups' artists, then the direct ones; none when absent. */
  function Collect(artists: Option<Artists>): (r: seq<Artist>)
    ensures artists.None? ==> r == []
    ensures artists.Some? ==> var direct := artists.value.directArtists;
      |direct| <= |r| && r[|r| - |direct|..] == direct
    ensures artists.Some? ==> forall a :: a in r <==>
      a in artists.value.directArtists ||
      exists i :: 0 <= i < |artists.value.indexes| && a in artists.value.indexes[i].artists
  {
    match artists
    case Some(Artists(indexes, direct)) => Flatten(indexes) + direct
    case None => []
  }

  /** `.filter(|a| !a.name.is_empty())`: the artists with a nonempty name, in order. */
  function Named(s: seq<Artist>): (r: seq<Artist>)
    ensures |r| <= |s|
    ensures forall a :: a in r <==> a in s && a.name != ""
  {
    if s == [] then []
    else
      var rest := Named(s[1..]);
      assert forall a :: a in s <==> a == s[0] || a in s[1..];
      if s[0].name != "" then [s[0]] + rest else rest
  }

  /** `.map(|a| (a.name, a.id))`. */
  function Entries(s: seq<Artist>): (r: seq<Entry>)
    ensures |r| == |s|
  {
    seq(|s|, i requires 0 <= i < |s| => (s[i].name, s[i].id))
  }

  /**
   * The part of `get_artists` after the decode: a status other than "ok" is
   * an error; otherwise the named artists of the response as `(name, id)`.
   */
  function GetArtists(resp: SubsonicResponse): (r: Result<seq<Entry>, ApiError>)
    ensures r.Failure? <==> resp.status != "ok"
    ensures r.Failure? ==> r.error == ApiError(resp.status)
    ensures r.Success? ==> |r.value| <= |Collect(resp.artists)|
    ensures r.Success? ==> forall k :: 0 <= k < |r.value| ==> r.value[k].0 != ""
    ensures r.Success? && resp.artists.None? ==> r.value == []
  {
    if resp.status != "ok" then Failure(ApiError(resp.status))
    else
      var kept := Named(Collect(resp.artists));
      assert forall k :: 0 <= k < |kept| ==> kept[k] in kept;
      Success(Entries(kept))
  }

  lemma {:induction false} FlattenAppend(a: seq<Index>, b: seq<Index>)
    ensures Flatten(a + b) == Flatten(a) + Flatten(b)
  {
    if a != [] {
      assert (a + b)[1..] == a[1..] + b;
      FlattenAppend(a[1..], b);
    } else {
      assert a + b == b;
    }
  }

  lemma {:induction false} NamedAppend(a: seq<Artist>, b: seq<Artist>)
    ensures Named(a + b) == Named(a) + Named(b)
  {
    if a != [] {
      assert (a + b)[1..] == a[1..] + b;
      NamedAppend(a[1..], b);
    } else {
      assert a + b == b;
    }
  }

  /** A named artist at input position `i` lands at output position `|Named(s[..i])|`. */
  lemma NamedPosition(s: seq<Artist>, i: nat)
    requires i < |s| && s[i].name != ""
    ensures |Named(s[..i])| < |Named(s)|
    ensures Named(s)[|Named(s[..i])|] == s[i]
  {
    assert s == s[..i] + ([s[i]] + s[i + 1..]);
    NamedAppend(s[..i], [s[i]] + s[i + 1..]);
    NamedAppend([s[i]], s[i + 1..]);
  }

  /** Output positions grow with input positions: the filter keeps the order of what it keeps. */
  lemma NamedOrder(s: seq<Artist>, i: nat, j: nat)
    requires i < j <= |s| && s[i].name != ""
    ensures |Named(s[..i])| < |Named(s[..j])|
  {
    assert s[..j] == s[..i] + ([s[i]] + s[i + 1..j]);
    NamedAppend(s[..i], [s[i]] + s[i + 1..j]);
    NamedAppend([s[i]], s[i + 1..j]);
  }

  /** Every output position holds the named artist of some input position, `i`. */
  lemma {:induction false} NamedOrigin(s: seq<Artist>, k: nat) returns (i: nat)
    requires k < |Named(s)|
    ensures i < |s| && s[i].name != "" && |Named(s[..i])| == k
  {
    assert s == [s[0]] + s[1..];
    NamedAppend([s[0]], s[1..]);
    if s[0].name != "" && k == 0 {
      i := 0;
    } else {
      var i' := NamedOrigin(s[1..], if s[0].name != "" then k - 1 else k);
      i := i' + 1;
      assert s[..i] == [s[0]] + s[1..][..i'];
      NamedAppend([s[0]], s[1..][..i']);
    }
  }

  lemma EntriesAppend(a: seq<Artist>, b: seq<Artist>)
    ensures Entries(a + b) == Entries(a) + Entries(b)
  {
  }

  /** With status "ok" and an `<artists>` element, the index groups' entries come first, then the direct artists'. */
  lemma GetArtistsIndexesFirst(resp: SubsonicResponse)
    requires resp.status == "ok" && resp.artists.Some?
    ensures GetArtists(resp) == Success(
      Entries(Named(Flatten(resp.artists.value.indexes))) + Entries(Named(resp.artists.value.directArtists)))
  {
    var a := resp.artists.value;
    NamedAppend(Flatten(a.indexes), a.directArtists);
    EntriesAppend(Named(Flatten(a.indexes)), Named(a.directArtists));
  }

  /** Groups are flattened in order: the artists of `a` before those of `b`. */
  lemma GetArtistsGroupOrder(status: string, a: seq<Index>, b: seq<Index>, direct: seq<Artist>)
    requires status == "ok"
    ensures GetArtists(SubsonicResponse(status, Some(Artists(a + b, direct)))) == Success(
      Entries(Named(Flatten(a))) + Entries(Named(Flatten(b))) + Entries(Named(direct)))
  {
    FlattenAppend(a, b);
    NamedAppend(Flatten(a) + Flatten(b), direct);
    NamedAppend(Flatten(a), Flatten(b));
    EntriesAppend(Named(Flatten(a)) + Named(Flatten(b)), Named(direct));
    EntriesAppend(Named(Flatten(a)), Named(Flatten(b)));
  }

  /**
   * Two named artists at positions `i < j` of the collected input appear in
   * the result as `(name, id)` at positions `p < q`.
   */
  lemma GetArtistsKeepsOrder(resp: SubsonicResponse, i: nat, j: nat)
    requires resp.status == "ok"
    requires i < j < |Collect(resp.artists)|
    requires Collect(resp.artists)[i].name != "" && Collect(resp.artists)[j].name != ""
    ensures var s, out := Collect(resp.artists), GetArtists(resp).value;
      var p, q := |Named(s[..i])|, |Named(s[..j])|;
      p < q < |out| && out[p] == (s[i].name, s[i].id) && out[q] == (s[j].name, s[j].id)
  {
    var s := Collect(resp.artists);
    NamedPosition(s, i);
    NamedPosition(s, j);
    NamedOrder(s, i, j);
  }

  /** Every entry of the result is the `(name, id)` of a named artist of the collected input. */
  lemma GetArtistsOrigin(resp: SubsonicResponse, k: nat)
    requires resp.status == "ok" && k < |GetArtists(resp).value|
    ensures exists i :: (0 <= i < |Collect(resp.artists)| && Collect(resp.artists)[i].name != "" &&
      GetArtists(resp).value[k] == (Collect(resp.artists)[i].name, Collect(resp.artists)[i].id))
  {
    var s := Collect(resp.artists);
    var i := NamedOrigin(s, k);
    NamedPosition(s, i);
  }

  /** Nothing is dropped but nameless artists: with all names nonempty, every artist is in the result, in order. */
  lemma {:induction false} GetArtistsAllNamed(resp: SubsonicResponse)
    requires resp.status == "ok"
    requires forall k :: 0 <= k < |Collect(resp.artists)| ==> Collect(resp.artists)[k].name != ""
    ensures GetArtists(resp) == Success(Entries(Collect(resp.artists)))
  {
    NamedAllKept(Collect(resp.artists));
  }

  lemma {:induction false} NamedAllKept(s: seq<Artist>)
    requires forall k :: 0 <= k < |s| ==> s[k].name != ""
    ensures Named(s) == s
  {
    if s != [] {
      NamedAllKept(s[1..]);
    }
  }
}
