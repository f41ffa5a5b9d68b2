# TerminalDrome core, modelled in Dafny

TerminalDrome is a terminal client for a Subsonic/Navidrome music server.
This project models three small pieces of its early source and proves
properties about them:

- **The artist list selection** (`src/ui.rs`). A `UI` holds a list of artist
  names and a cursor, `selected`. `handle_input` maps a key event to an
  optional action and moves the cursor in place. Down and Up move it with
  wrap-around, `q` quits, `p` plays the selected artist, and every other
  event is ignored. Here `Ui.UI` is a class with those two fields. Its
  `HandleInput` method is proved against the pure transition function
  `Ui.Step`. The lemmas about `Step` and about `Run` (a fold of `Step` over
  a sequence of events) state the invariant and the wrap-around behaviour.
- **The artist list and the URLs of the Subsonic client** (`src/api.rs`).
  `Api.GetArtists` takes an already-decoded `subsonic-response` and does
  four things. It rejects any status other than `"ok"`. It collects the
  artists of every index group, in order, then the directly listed
  artists. It drops the artists with an empty name. It projects each one
  to `(name, id)`. `Api.ArtistsUrl` and `Api.StreamUrl` are the two
  `format!` URLs. Each is proved equal to a query assembled from its
  parameters. The stream URL also has an inverse, `Api.StreamIdOf`.
- **The play URL** (`src/endpoint.rs`, `get_play_url`). This is the base
  URL, then `/rest/stream?id=<song id>&`, then the authentication
  parameters as `k=v` joined with `&`. The parameters live in a
  `HashMap`, whose iteration order is unspecified. The model takes them
  as a sequence of pairs in that iteration order.

The module `QueryString` holds the `k=v&k=v` rendering that
`get_play_url` uses (`Join` is Rust's `[String]::join`). The two URLs of
`src/api.rs` are fixed `format!` strings, and the model proves them equal
to that rendering. It also holds a decoder
(`Split`, `SplitOnce`, `Decode`), which the source does not have. The
decoder serves as the inverse that the renderings are proved against.

This version of the source wraps around (`src/ui.rs:28`, `src/ui.rs:36`),
and the model wraps.

Files: `wrappers.dfy` (Option, Result), `query_string.dfy`, `api.dfy`,
`endpoint.dfy`, `ui.dfy`.

## Model

| member | source | states |
|---|---|---|
| `Ui.UI.constructor` | src/ui.rs:10-15 | `UI::new` keeps the given artist list unchanged, puts the cursor at 0 and establishes the invariant |
| `Ui.UI.HandleInput` | src/ui.rs:17-52 | updates the cursor in place and returns the action that `Step` gives for the old state. It never changes the artist list and keeps the cursor in range |
| `Ui.Next` | src/ui.rs:27-28 | Down on `n > 0` artists: the result is below `n`. From an in-range cursor it is the next index, and from the last index it is 0 |
| `Ui.Prev` | src/ui.rs:35-36 | Up on `n > 0` artists: the result is below `n`. From an in-range cursor it is the previous index, and from 0 it is `n - 1` |
| `Ui.Step` | src/ui.rs:17-52 | no event changes the artist list, and the cursor stays in range. The action is `Quit` exactly for `q`, and `Play` exactly for `p` on a nonempty list, naming the selected artist. Only Up or Down on more than one artist changes the state |
| `Ui.StepDown` | src/ui.rs:23-31 | Down on a nonempty list moves the cursor to the next artist, wrapping from the last to the first. It returns no action and keeps the list |
| `Ui.StepUp` | src/ui.rs:32-39 | Up on a nonempty list moves the cursor to the previous artist, wrapping from the first to the last. It returns no action and keeps the list |
| `Ui.DownUpInverse` | src/ui.rs:28-36 | Down then Up, and Up then Down, restore an in-range cursor |
| `Ui.StepEmpty` | src/ui.rs:27-48 | on an empty list, Down and Up leave the state unchanged and `p` returns no action |
| `Ui.StepQuitPlay` | src/ui.rs:19-46 | `q` returns `Quit`, and `p` on a nonempty list returns `Play` of the selected name. Neither changes the state |
| `Ui.StepOther` | src/ui.rs:50 | any event that is not `q`, `p`, Up or Down returns no action and changes nothing |
| `Ui.RunInRange` | src/ui.rs:17-52 | after any sequence of events the artist list is the same and the cursor is still in range |
| `Ui.RunEmpty` | src/ui.rs:27-48 | on an empty list no sequence of events moves the cursor |
| `Ui.RunDowns` | src/ui.rs:23-31 | `k` presses of Down move the cursor to `(selected + k) % n` |
| `Ui.DownsCycle` | src/ui.rs:28 | `n` presses of Down on `n` artists restore the state |
| `Ui.Replay` | src/ui.rs:10-52 | a fresh `UI` fed one event at a time ends with the cursor that `Run` predicts from cursor 0 |
| `Api.ArtistsUrl` | src/api.rs:50-53 | the `getArtists` URL is the server URL, `/rest/getArtists?`, and then `u`, `p`, `v=1.16.1`, `c=termnavi-0.1.0`, `f=xml` as a `&`-joined query |
| `Api.ArtistsUrlDecodes` | src/api.rs:50-53 | that query decodes back to exactly those five parameters, in order, when the credentials hold no `&` |
| `Api.StreamUrl` | src/api.rs:79-84 | the stream URL is the server URL, `/rest/stream?`, and then `id`, `u`, `p`, `c=termnavi-0.1.0` as a `&`-joined query |
| `Api.StreamIdOf` | src/api.rs:79-84 | an id it extracts sits between the stream URL's fixed prefix and suffix |
| `Api.StreamIdOfStreamUrl` | src/api.rs:79-84 | extracting the id from the stream URL of `id` gives back `id` |
| `Api.StreamUrlOfStreamId` | src/api.rs:79-84 | every URL from which an id can be extracted is the stream URL of that id |
| `Api.StreamUrlInjective` | src/api.rs:79-84 | for fixed credentials, equal stream URLs have equal ids |
| `Api.Flatten` | src/api.rs:67 | an artist is in the flattened list exactly when it is in some index group |
| `Api.Collect` | src/api.rs:65-71 | with no `<artists>` there are no artists. Otherwise the direct artists come last, and an artist is collected exactly when it is a direct artist or in some index group |
| `Api.Named` | src/api.rs:74 | the kept artists are exactly the input artists with a nonempty name, and there are no more of them than inputs |
| `Api.Entries` | src/api.rs:75 | the projection gives one `(name, id)` per artist |
| `Api.FlattenAppend` | src/api.rs:67 | flattening distributes over concatenating the groups: earlier groups come first |
| `Api.NamedAppend` | src/api.rs:74 | the filter distributes over concatenation |
| `Api.NamedPosition` | src/api.rs:74 | a named artist at input position `i` sits at the output position equal to the number of named artists before `i` |
| `Api.NamedOrder` | src/api.rs:74 | a named artist before position `j` gets an output position before that of position `j` |
| `Api.NamedOrigin` | src/api.rs:74 | every output position is the position of some named input artist |
| `Api.GetArtists` | src/api.rs:61-76 | the result is an error exactly when the status is not `"ok"`, and the error carries the status. A list has only nonempty names, is no longer than the collected input, and is empty when the response has no `<artists>` |
| `Api.GetArtistsIndexesFirst` | src/api.rs:65-76 | the result is the entries of the index groups' named artists, then those of the direct artists |
| `Api.GetArtistsGroupOrder` | src/api.rs:67-68 | the artists of earlier index groups come before those of later ones |
| `Api.GetArtistsKeepsOrder` | src/api.rs:65-76 | two named artists at input positions `i < j` appear as their `(name, id)` at output positions `p < q` |
| `Api.GetArtistsOrigin` | src/api.rs:73-76 | every output entry is the `(name, id)` of a named input artist |
| `Api.GetArtistsAllNamed` | src/api.rs:73-76 | when no name is empty, nothing is dropped: the result is every collected artist, in order |
| `Endpoint.AuthPart` | src/endpoint.rs:68-70 | finds the text after the prefix `base + "/rest/stream?id=" + song_id + "&"` exactly when the URL starts with that prefix |
| `Endpoint.PlayUrlPrefix` | src/endpoint.rs:67-76 | every play URL starts with that prefix, and the rest is the parameters' `k=v` joined with `&` |
| `Endpoint.PlayUrl` | src/endpoint.rs:67-76 | with at least one authentication parameter, the URL is `base + "/rest/stream?"` and then a query of `id` followed by the parameters in iteration order. With none, it ends with the `&` right after the song id |
| `Endpoint.PlayUrlEndsWithLastParam` | src/endpoint.rs:71-74 | with at least one parameter, the URL ends with the last parameter's `k=v`: no separator follows it |
| `Endpoint.PlayUrlDecodes` | src/endpoint.rs:71-74 | when no key or value holds `&` and no key holds `=`, the text after the prefix splits into one segment per parameter and decodes to the parameters in order |
| `QueryString.Render` | src/endpoint.rs:72 | a segment holds exactly the characters of the key and the value, plus `=` |
| `QueryString.SplitOnceRender` | src/endpoint.rs:72 | when the key holds no `=`, splitting a segment at its first `=` gives back the key and the value |
| `QueryString.Join` | src/endpoint.rs:74 | a nonempty join starts with its first part and ends with its last |
| `QueryString.Segments` | src/endpoint.rs:71-73 | one rendered `k=v` segment per pair |
| `QueryString.JoinSnoc` | src/endpoint.rs:74 | joining one more part appends the separator and that part, so no separator follows the last part |
| `QueryString.SplitJoin` | src/endpoint.rs:74 | splitting at the separator undoes the join when no part contains the separator |
| `QueryString.DecodeEncode` | src/endpoint.rs:71-74 | decoding the encoding of a nonempty sequence of plain pairs gives back the same pairs in the same order |

## Left out

- The HTTP requests, the XML decoding with `quick_xml`/serde and the debug print of the raw XML (`src/api.rs:55-59`) are I/O and foreign libraries. The model starts from the decoded `SubsonicResponse` value. A missing `name` or `id` on an `<artist>` decodes to `""` (`src/api.rs:30-33`). A response without `status` fails to decode (`src/api.rs:8-9`, `src/api.rs:59`) and never reaches the status test, so `Api.SubsonicResponse` always has a status.
- `NavidromeClient::new` in `src/api.rs` only stores its arguments. The datatype constructor `Api.NavidromeClient` plays its part.
- The async `get_artists`, `get_albums` and `get_songs` of `src/endpoint.rs` are network calls, and only their record types `Endpoint.Artist`, `Endpoint.Album` and `Endpoint.Song` are modelled. `i32` and `u32` are modelled as bounded newtypes.
- `src/mod.rs` (client construction, the md5 token, `Url::join`, the percent-encoding `query_pairs_mut`) is not part of this model. `Endpoint.NavidromeClient.baseUrl` stands for the base URL as it prints. Its authentication map is a sequence of pairs in the map's iteration order, which the source leaves unspecified.
- `src/main.rs` (terminal setup, drawing, polling, and the loop that stops at `Quit`), `src/audio.rs` (spawning and killing `mpv`) and `src/config.rs` (config file lookup and TOML parsing) are I/O and process plumbing and are not part of this model.
- Ui.UI.HandleInput: requires the class invariant (cursor in range when the list is nonempty), which the constructor establishes and every call keeps. The fields are public in the source. A direct write that breaks the invariant would make `p` panic on an out-of-bounds index. That case is not modelled.
- Ui.Next: the cursor is an unbounded `nat`, so `usize` overflow in `selected + 1` and `selected + len - 1` is not modelled. Under the invariant, both sums are below twice the list length and cannot overflow.
- Only the key code of a key event matters to `handle_input`, since its patterns ignore modifiers, kind and state. Key codes the UI does not match are collapsed into a few constructors. Mouse events carry no fields here.
