/**
 * The `k=v&k=v` text the client puts after `?` in its request URLs, and a
 * decoder for it. The client never decodes; the decoder is here as the
 * inverse that the renderings are proved against.
 */
module QueryString {
  import opened Wrappers

  type Pair = (string, string)

  /**
   * Rust's `[String]::join(sep)`: the parts with `sep` between neighbours,
   * and no separator before the first part or after the last, so a nonempty
   * join starts with its first part and ends with its last.
   */
  function Join(sep: string, parts: seq<string>): (r: string)
    ensures parts != [] ==> |parts[0]| <= |r| && r[..|parts[0]|] == parts[0]
    ensures parts != [] ==> var last := parts[|parts| - 1];
      |last| <= |r| && r[|r| - |last|..] == last
  {
    if |parts| == 0 then ""
    else if |parts| == 1 then parts[0]
    else
      var t := Join(sep, parts[1..]);
      var r := parts[0] + sep + t;
      var last := parts[|parts| - 1];
      assert parts[1..][|parts[1..]| - 1] == last;
      assert r[|r| - |last|..] == t[|t| - |last|..];
      r
  }

  /** One `format!("{}={}", k, v)` segment: the key, `=`, the value, and no other character. */
  function Render(p: Pair): (r: string)
    ensures forall ch :: ch in r <==> ch == '=' || ch in p.0 || ch in p.1
  {
    p.0 + "=" + p.1
  }

  /** `pairs.iter().map(|(k, v)| format!("{}={}", k, v)).collect::<Vec<_>>()`: one segment per pair, in order. */
  function Segments(pairs: seq<Pair>): (r: seq<string>)
    ensures |r| == |pairs|
  {
    seq(|pairs|, i requires 0 <= i < |pairs| => Render(pairs[i]))
  }

  /** The segments of `pairs` joined with `&`. */
  function Encode(pairs: seq<Pair>): string
  {
    Join("&", Segments(pairs))
  }

  /** Rust's `str::split(sep)`: the maximal pieces between separators; "" gives [""]. */
  function Split(s: string, sep: char): (r: seq<string>)
    ensures |r| >= 1
    ensures forall k :: 0 <= k < |r| ==> sep !in r[k]
  {
    if s == [] then [""]
    else if s[0] == sep then [""] + Split(s[1..], sep)
    else
      var rest := Split(s[1..], sep);
      [[s[0]] + rest[0]] + rest[1..]
  }

  /** Rust's `str::split_once('=')`: the text before and after the first `=`, if there is one. */
  function SplitOnce(s: string, sep: char): (r: Option<Pair>)
    ensures r.Some? <==> sep in s
    ensures r.Some? ==> sep !in r.value.0 && s == r.value.0 + [sep] + r.value.1
  {
    if s == [] then None
    else if s[0] == sep then Some(("", s[1..]))
    else match SplitOnce(s[1..], sep)
      case None => None
      case Some(p) => Some(([s[0]] + p.0, p.1))
  }

  /** Each segment split at its first `=`; None if some segment has no `=`. */
  function DecodeSegments(segments: seq<string>): (r: Option<seq<Pair>>)
    ensures r.Some? ==> |r.value| == |segments|
  {
    if segments == [] then Some([])
    else match (SplitOnce(segments[0], '='), DecodeSegments(segments[1..]))
      case (Some(p), Some(ps)) => Some([p] + ps)
      case _ => None
  }

  /** The pairs of a query string. */
  function Decode(query: string): Option<seq<Pair>>
  {
    DecodeSegments(Split(query, '&'))
  }

  /** A pair that `Encode` can carry unambiguously: no `&` anywhere and no `=` in the key. */
  predicate Plain(p: Pair)
  {
    '&' !in p.0 && '&' !in p.1 && '=' !in p.0
  }

  lemma {:induction false} JoinCons(sep: string, x: string, rest: seq<string>)
    requires rest != []
    ensures Join(sep, [x] + rest) == x + sep + Join(sep, rest)
  {
    assert ([x] + rest)[1..] == rest;
  }

  /** The last part ends the joined text: no separator follows the last part. */
  lemma {:induction false} JoinSnoc(sep: string, parts: seq<string>, x: string)
    requires parts != []
    ensures Join(sep, parts + [x]) == Join(sep, parts) + sep + x
  {
    if |parts| == 1 {
      assert (parts + [x])[1..] == [x];
    } else {
      assert (parts + [x])[1..] == parts[1..] + [x];
      JoinSnoc(sep, parts[1..], x);
    }
  }

  lemma {:induction false} SplitNoSep(x: string, sep: char)
    requires sep !in x
    ensures Split(x, sep) == [x]
  {
    if x != [] {
      SplitNoSep(x[1..], sep);
      assert [x[0]] + x[1..] == x;
    }
  }

  lemma {:induction false} SplitAfterFirst(x: string, sep: char, t: string)
    requires sep !in x
    ensures Split(x + [sep] + t, sep) == [x] + Split(t, sep)
  {
    var s := x + [sep] + t;
    if x == [] {
      assert s[0] == sep && s[1..] == t;
    } else {
      assert s[0] == x[0];
      assert s[1..] == x[1..] + [sep] + t;
      SplitAfterFirst(x[1..], sep, t);
      assert [x[0]] + x[1..] == x;
    }
  }

  /** Splitting undoes joining when no part contains the separator. */
  lemma {:induction false} SplitJoin(parts: seq<string>, sep: char)
    requires parts != []
    requires forall k :: 0 <= k < |parts| ==> sep !in parts[k]
    ensures Split(Join([sep], parts), sep) == parts
  {
    if |parts| == 1 {
      SplitNoSep(parts[0], sep);
    } else {
      SplitJoin(parts[1..], sep);
      SplitAfterFirst(parts[0], sep, Join([sep], parts[1..]));
      assert [parts[0]] + parts[1..] == parts;
    }
  }

  /** Splitting a segment at its first `=` gives back its pair when the key holds no `=`. */
  lemma {:induction false} SplitOnceRender(p: Pair)
    requires '=' !in p.0
    ensures SplitOnce(Render(p), '=') == Some(p)
    decreases |p.0|
  {
    var s := Render(p);
    if p.0 == [] {
      assert s[0] == '=' && s[1..] == p.1;
    } else {
      assert s[0] == p.0[0];
      assert s[1..] == Render((p.0[1..], p.1));
      SplitOnceRender((p.0[1..], p.1));
      assert [p.0[0]] + p.0[1..] == p.0;
    }
  }

  lemma {:induction false} DecodeRendered(pairs: seq<Pair>)
    requires forall k :: 0 <= k < |pairs| ==> '=' !in pairs[k].0
    ensures DecodeSegments(Segments(pairs)) == Some(pairs)
  {
    if pairs != [] {
      assert Segments(pairs)[0] == Render(pairs[0]);
      assert Segments(pairs)[1..] == Segments(pairs[1..]);
      SplitOnceRender(pairs[0]);
      DecodeRendered(pairs[1..]);
      assert [pairs[0]] + pairs[1..] == pairs;
    }
  }

  /**
   * Decoding an encoded nonempty collection of plain pairs gives back the
   * same pairs in the same order: the number of `&`-separated segments is
   * the number of pairs, and each segment is one `k=v`.
   */
  lemma DecodeEncode(pairs: seq<Pair>)
    requires pairs != []
    requires forall k :: 0 <= k < |pairs| ==> Plain(pairs[k])
    ensures Decode(Encode(pairs)) == Some(pairs)
  {
    var segs := Segments(pairs);
    forall k | 0 <= k < |segs|
      ensures '&' !in segs[k]
    {
      assert segs[k] == pairs[k].0 + "=" + pairs[k].1;
    }
    SplitJoin(segs, '&');
    DecodeRendered(pairs);
  }

  lemma EncodeCons(p: Pair, rest: seq<Pair>)
    requires rest != []
    ensures Encode([p] + rest) == Render(p) + "&" + Encode(rest)
  {
    assert Segments([p] + rest) == [Render(p)] + Segments(rest);
    JoinCons("&", Render(p), Segments(rest));
  }
}
