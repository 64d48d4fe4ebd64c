/** The URL and cookie helpers of the minimal UTM tracker: its fallback
    query parser, the Google client id read from the `_ga` cookie, and the
    fallback branch that rebuilds the page URL without the tracked
    parameters. `decodeURIComponent` is a parameter; `None` stands for the
    `URIError` it throws. */
module TrackerUrl {
  import opened Common
  import opened CookieMatch

  type Codec = string -> Option<string>

  // ---------- parseUrlParamsFallback ----------

  /** `.replace(/^\?/, '')`: one leading `?` removed. */
  function StripQuestion(s: string): (r: string)
    ensures s != "" && s[0] == '?' ==> s == "?" + r
    ensures !(s != "" && s[0] == '?') ==> r == s
  {
    if s != "" && s[0] == '?' then s[1..] else s
  }

  /** The entry one non-empty segment writes: the decoded text before the
      first `=` and the decoded text after it, or the decoded segment and `''`
      when there is no `=`. `None` when a decoding throws. */
  function SegmentEntry(p: string, decode: Codec): Option<(string, string)>
  {
    var idx := Find(p, '=');
    if idx == |p| then
      match decode(p)
      case Some(k) => Some((k, ""))
      case None => None
    else
      match (decode(p[..idx]), decode(p[idx + 1..]))
      case (Some(k), Some(v)) => Some((k, v))
      case _ => None
  }

  /** The map after the segments `segs`, starting from `acc`: empty segments
      are skipped, and the first decoding error ends the parse. */
  function ParseSegments(segs: seq<string>, decode: Codec, acc: map<string, string>): map<string, string>
    decreases |segs|
  {
    if segs == [] then acc
    else if segs[0] == "" then ParseSegments(segs[1..], decode, acc)
    else
      match SegmentEntry(segs[0], decode)
      case None => acc
      case Some((k, v)) => ParseSegments(segs[1..], decode, acc[k := v])
  }

  /** What `parseUrlParamsFallback` returns for `window.location.search`. */
  function ParseUrlParams(search: string, decode: Codec): map<string, string>
  {
    var q := StripQuestion(search);
    if q == "" then map[] else ParseSegments(Split(q, '&'), decode, map[])
  }

  /** `parseUrlParamsFallback()`: the `forEach` over the segments, with the
      enclosing `try` ending it at the first decoding error. */
  method ParseUrlParamsFallback(search: string, decode: Codec) returns (params: map<string, string>)
    ensures params == ParseUrlParams(search, decode)
  {
    params := map[];
    var q := StripQuestion(search);
    if q == "" {
      return;
    }
    var segs := Split(q, '&');
    var i := 0;
    while i < |segs|
      invariant 0 <= i <= |segs|
      invariant ParseSegments(segs, decode, map[]) == ParseSegments(segs[i..], decode, params)
    {
      assert segs[i..][1..] == segs[i + 1..];
      var p := segs[i];
      if p != "" {
        var entry := SegmentEntry(p, decode);
        if entry.None? {
          return;
        }
        params := params[entry.value.0 := entry.value.1];
      }
      i := i + 1;
    }
  }

  /** Every non-empty segment of `segs` decodes. */
  predicate AllDecode(segs: seq<string>, decode: Codec)
  {
    forall i :: 0 <= i < |segs| ==> segs[i] == "" || SegmentEntry(segs[i], decode).Some?
  }

  /** A segment `k=v` keeps everything after the first `=`, later `=` included. */
  lemma ValueKeepsLaterEquals(k: string, v: string, decode: Codec)
    requires '=' !in k
    requires decode(k).Some? && decode(v).Some?
    ensures SegmentEntry(k + "=" + v, decode) == Some((decode(k).value, decode(v).value))
  {
    var p := k + "=" + v;
    assert p[..|k|] == k;
    FindAt(p, '=', |k|);
    assert p[|k| + 1..] == v;
  }

  /** A segment without `=` maps its decoded text to `''`. */
  lemma NoEqualsMapsToEmpty(p: string, decode: Codec)
    requires '=' !in p && decode(p).Some?
    ensures SegmentEntry(p, decode) == Some((decode(p).value, ""))
  {
    FindAbsent(p, '=');
  }

  /** Parsing `a + b` is parsing `b` after `a` when everything in `a` decodes. */
  lemma {:induction false} ParseAppend(a: seq<string>, b: seq<string>, decode: Codec, acc: map<string, string>)
    requires AllDecode(a, decode)
    ensures ParseSegments(a + b, decode, acc) == ParseSegments(b, decode, ParseSegments(a, decode, acc))
    decreases |a|
  {
    if a == [] {
      assert a + b == b;
    } else {
      assert (a + b)[0] == a[0];
      assert (a + b)[1..] == a[1..] + b;
      assert AllDecode(a[1..], decode) by {
        forall i | 0 <= i < |a[1..]| ensures a[1..][i] == "" || SegmentEntry(a[1..][i], decode).Some? {
          assert a[1..][i] == a[i + 1];
        }
      }
      if a[0] == "" {
        ParseAppend(a[1..], b, decode, acc);
      } else {
        assert SegmentEntry(a[0], decode).Some?;
        var (k, v) := SegmentEntry(a[0], decode).value;
        ParseAppend(a[1..], b, decode, acc[k := v]);
      }
    }
  }

  /** A later duplicate key overwrites an earlier one: the last segment's entry wins. */
  lemma LastSegmentWins(a: seq<string>, p: string, decode: Codec, acc: map<string, string>)
    requires AllDecode(a, decode)
    requires p != "" && SegmentEntry(p, decode).Some?
    ensures var (k, v) := SegmentEntry(p, decode).value;
      var r := ParseSegments(a + [p], decode, acc);
      k in r && r[k] == v
  {
    ParseAppend(a, [p], decode, acc);
  }

  /** A segment that fails to decode ends the parse: the entries read before it are kept, nothing after it is read. */
  lemma DecodeErrorKeepsPrefix(a: seq<string>, p: string, b: seq<string>, decode: Codec, acc: map<string, string>)
    requires AllDecode(a, decode)
    requires p != "" && SegmentEntry(p, decode).None?
    ensures ParseSegments(a + [p] + b, decode, acc) == ParseSegments(a, decode, acc)
  {
    assert a + [p] + b == a + ([p] + b);
    ParseAppend(a, [p] + b, decode, acc);
  }

  // ---------- readGoogleClientIdFromCookie ----------

  /** `readGoogleClientIdFromCookie()`: the first group of
      `/_ga=GA\d+\.\d+\.(\d+\.\d+|\d+)/`, trimmed. */
  function ReadGoogleClientId(cookie: string): (r: Option<string>)
    ensures r.Some? ==> ClientIdShape(r.value)
  {
    match Match(GaDigitRuns, cookie)
    case Some(id) =>
      ShapeTrim(id);
      Some(Trim(id))
    case None => None
  }

  /** Two digit runs, each followed by a dot, are consumed whole. */
  lemma DottedRuns(s: string, at: nat, x: string, y: string, rest: string)
    requires x != "" && AllDigits(x) && y != "" && AllDigits(y)
    requires at + |x| + |y| + 2 + |rest| == |s|
    requires s[at..] == x + ("." + (y + ("." + rest)))
    ensures Run(s, at, Digits) == |x| && s[at + |x|] == '.'
    ensures Run(s, at + |x| + 1, Digits) == |y| && s[at + |x| + 1 + |y|] == '.'
    ensures s[at + |x| + |y| + 2..] == rest
  {
    DigitsThen(s, at, x, "." + (y + ("." + rest)));
    DotThen(s, at + |x|, y + ("." + rest));
    DigitsThen(s, at + |x| + 1, y, "." + rest);
    DotThen(s, at + |x| + 1 + |y|, rest);
    assert at + |x| + 1 + |y| + 1 == at + |x| + |y| + 2;
  }

  /** The last two runs `x.y`, ended by a non-digit, form the captured id. */
  lemma TailRuns(s: string, c: nat, x: string, y: string, post: string)
    requires x != "" && AllDigits(x) && y != "" && AllDigits(y)
    requires post == "" || !IsDigit(post[0])
    requires c + |x| + 1 + |y| + |post| == |s|
    requires s[c..] == x + ("." + (y + post))
    ensures Run(s, c, Digits) == |x| && s[c + |x|] == '.'
    ensures Run(s, c + |x| + 1, Digits) == |y|
    ensures s[c..c + |x| + 1 + |y|] == x + "." + y
  {
    DigitsThen(s, c, x, "." + (y + post));
    DotThen(s, c + |x|, y + post);
    DigitsThen(s, c + |x| + 1, y, post);
    JoinedSlice(s, c, x, y, post);
  }

  /** A `.` at `at` followed by `rest`. */
  lemma DotThen(s: string, at: nat, rest: string)
    requires at <= |s| && s[at..] == "." + rest
    ensures at < |s| && s[at] == '.' && s[at + 1..] == rest
  {
    assert s[at + 1..] == s[at..][1..];
  }

  /** The slice of `s` over `x.y` when `s[c..]` is `x.y` followed by `post`. */
  lemma JoinedSlice(s: string, c: nat, x: string, y: string, post: string)
    requires c <= |s| && s[c..] == x + ("." + (y + post))
    ensures c + |x| + 1 + |y| <= |s| && s[c..c + |x| + 1 + |y|] == x + "." + y
  {
    assert s[c..c + |x| + 1 + |y|] == s[c..][..|x| + 1 + |y|];
    assert (x + ("." + (y + post)))[..|x| + 1 + |y|] == x + "." + y;
  }

  /** A digit run `v` followed by `rest` that does not start with a digit is consumed whole. */
  lemma DigitsThen(s: string, at: nat, v: string, rest: string)
    requires v != "" && AllDigits(v) && (rest == "" || !IsDigit(rest[0]))
    requires at + |v| + |rest| == |s| && s[at..] == v + rest
    ensures Run(s, at, Digits) == |v| && s[at + |v|..] == rest
  {
    RunOver(s, at, Digits, v, rest);
    assert s[at + |v|..] == s[at..][|v|..];
  }

  /** The id read is the pattern's capture itself: trimming never changes it. */
  lemma ReadGoogleOfMatch(cookie: string)
    requires Match(GaDigitRuns, cookie).Some?
    ensures ReadGoogleClientId(cookie) == Match(GaDigitRuns, cookie)
  {
    ShapeTrim(Match(GaDigitRuns, cookie).value);
  }

  /** `GaDigitRunsAt` once the two version runs and the dots after them are known. */
  lemma GaRunsAt(s: string, i: nat, na: nat, nb: nat)
    requires i <= |s| && StartsWith(s[i..], GaPrefix)
    requires na > 0 && Run(s, i + 6, Digits) == na && i + 6 + na < |s| && s[i + 6 + na] == '.'
    requires nb > 0 && Run(s, i + 7 + na, Digits) == nb && i + 7 + na + nb < |s| && s[i + 7 + na + nb] == '.'
    ensures GaDigitRunsAt(s, i) == GaIdAt(s, i + 8 + na + nb)
  {
  }

  /** The group of `_ga` at `c` when two digit runs joined by a dot start there. */
  lemma GaIdTwoRuns(s: string, c: nat, nx: nat, ny: nat)
    requires c <= |s| && nx > 0 && Run(s, c, Digits) == nx
    requires c + nx < |s| && s[c + nx] == '.'
    requires ny > 0 && Run(s, c + nx + 1, Digits) == ny
    ensures GaIdAt(s, c) == Some(s[c..c + nx + 1 + ny])
  {
  }

  /** The group at `c` over `<x>.<y>` ended by a non-digit is `<x>.<y>`. */
  lemma GaIdOver(s: string, c: nat, x: string, y: string, post: string)
    requires x != "" && AllDigits(x) && y != "" && AllDigits(y)
    requires post == "" || !IsDigit(post[0])
    requires c <= |s| && s[c..] == x + ("." + (y + post))
    ensures GaIdAt(s, c) == Some(x + "." + y)
  {
    TailRuns(s, c, x, y, post);
    GaIdTwoRuns(s, c, |x|, |y|);
  }

  /** The prefix and the two version runs of `_ga=GA<v1>.<v2>.<tail>` at `i`. */
  lemma GaVersionRuns(s: string, i: nat, v1: string, v2: string, tail: string)
    requires v1 != "" && AllDigits(v1) && v2 != "" && AllDigits(v2)
    requires i <= |s| && s[i..] == GaPrefix + (v1 + ("." + (v2 + ("." + tail))))
    ensures StartsWith(s[i..], GaPrefix)
    ensures Run(s, i + 6, Digits) == |v1| && i + 6 + |v1| < |s| && s[i + 6 + |v1|] == '.'
    ensures Run(s, i + 7 + |v1|, Digits) == |v2| && i + 7 + |v1| + |v2| < |s| && s[i + 7 + |v1| + |v2|] == '.'
    ensures s[i + 8 + |v1| + |v2|..] == tail
  {
    var t := v1 + ("." + (v2 + ("." + tail)));
    assert StartsWith(s[i..], GaPrefix) by {
      assert s[i..][..|GaPrefix|] == GaPrefix;
    }
    var at := i + 6;
    assert s[at..] == t && at + |v1| + |v2| + 2 + |tail| == |s| by {
      assert s[at..] == s[i..][6..];
    }
    assert && Run(s, i + 6, Digits) == |v1| && i + 6 + |v1| < |s| && s[i + 6 + |v1|] == '.'
           && Run(s, i + 7 + |v1|, Digits) == |v2| && i + 7 + |v1| + |v2| < |s| && s[i + 7 + |v1| + |v2|] == '.'
           && s[i + 8 + |v1| + |v2|..] == tail
    by {
      DottedRuns(s, at, v1, v2, tail);
      assert i + 7 + |v1| == at + |v1| + 1;
      assert i + 8 + |v1| + |v2| == at + |v1| + |v2| + 2;
    }
  }

  /** After the prefix and the version runs, `<x>.<y>` followed by a non-digit is captured. */
  lemma GaTwoRunsAt(s: string, i: nat, na: nat, nb: nat, x: string, y: string, post: string)
    requires i <= |s| && StartsWith(s[i..], GaPrefix)
    requires na > 0 && Run(s, i + 6, Digits) == na && i + 6 + na < |s| && s[i + 6 + na] == '.'
    requires nb > 0 && Run(s, i + 7 + na, Digits) == nb && i + 7 + na + nb < |s| && s[i + 7 + na + nb] == '.'
    requires x != "" && AllDigits(x) && y != "" && AllDigits(y)
    requires post == "" || !IsDigit(post[0])
    requires s[i + 8 + na + nb..] == x + ("." + (y + post))
    ensures GaDigitRunsAt(s, i) == Some(x + "." + y)
  {
    GaRunsAt(s, i, na, nb);
    GaIdOver(s, i + 8 + na + nb, x, y, post);
  }

  /** The pattern tried right after `pre` in `pre _ga=GA<v1>.<v2>.<x>.<y> post`. */
  lemma GaCookieAt(pre: string, v1: string, v2: string, x: string, y: string, post: string)
    requires v1 != "" && AllDigits(v1) && v2 != "" && AllDigits(v2)
    requires x != "" && AllDigits(x) && y != "" && AllDigits(y)
    requires post == "" || !IsDigit(post[0])
    ensures GaDigitRunsAt(pre + (GaPrefix + (v1 + ("." + (v2 + ("." + (x + ("." + (y + post)))))))), |pre|) == Some(x + "." + y)
  {
    var rest := GaPrefix + (v1 + ("." + (v2 + ("." + (x + ("." + (y + post)))))));
    assert (pre + rest)[|pre|..] == rest;
    GaRestAt(pre + rest, |pre|, v1, v2, x, y, post);
  }

  /** `GaCookieAt` for any string holding `_ga=GA<v1>.<v2>.<x>.<y> post` at `i`. */
  lemma GaRestAt(s: string, i: nat, v1: string, v2: string, x: string, y: string, post: string)
    requires v1 != "" && AllDigits(v1) && v2 != "" && AllDigits(v2)
    requires x != "" && AllDigits(x) && y != "" && AllDigits(y)
    requires post == "" || !IsDigit(post[0])
    requires i <= |s| && s[i..] == GaPrefix + (v1 + ("." + (v2 + ("." + (x + ("." + (y + post)))))))
    ensures GaDigitRunsAt(s, i) == Some(x + "." + y)
  {
    GaVersionRuns(s, i, v1, v2, x + ("." + (y + post)));
    GaTwoRunsAt(s, i, |v1|, |v2|, x, y, post);
  }

  /** The leftmost match in a cookie `pre _ga=GA<v1>.<v2>.<x>.<y> post`. */
  lemma GaCookieMatch(pre: string, v1: string, v2: string, x: string, y: string, post: string)
    requires '_' !in pre
    requires v1 != "" && AllDigits(v1) && v2 != "" && AllDigits(v2)
    requires x != "" && AllDigits(x) && y != "" && AllDigits(y)
    requires post == "" || !IsDigit(post[0])
    ensures Match(GaDigitRuns, pre + (GaPrefix + (v1 + ("." + (v2 + ("." + (x + ("." + (y + post))))))))) == Some(x + "." + y)
  {
    GaCookieAt(pre, v1, v2, x, y, post);
    MatchAfterPrefix(GaDigitRuns, pre, GaPrefix + (v1 + ("." + (v2 + ("." + (x + ("." + (y + post))))))));
  }

  /** A `_ga` cookie with two digit runs after the version fields yields both runs joined by the dot. */
  lemma GaCookieTwoRuns(pre: string, v1: string, v2: string, x: string, y: string, post: string)
    requires '_' !in pre
    requires v1 != "" && AllDigits(v1) && v2 != "" && AllDigits(v2)
    requires x != "" && AllDigits(x) && y != "" && AllDigits(y)
    requires post == "" || !IsDigit(post[0])
    ensures ReadGoogleClientId(pre + GaPrefix + v1 + "." + v2 + "." + x + "." + y + post) == Some(x + "." + y)
  {
    var s := pre + (GaPrefix + (v1 + ("." + (v2 + ("." + (x + ("." + (y + post))))))));
    assert pre + GaPrefix + v1 + "." + v2 + "." + x + "." + y + post == s;
    GaCookieMatch(pre, v1, v2, x, y, post);
    ReadGoogleOfMatch(s);
  }

  // ---------- getPageUrlWithoutParams, fallback branch ----------

  /** The parts of `window.location` the fallback reads; `origin` is already
      `location.origin || protocol + '//' + host`. */
  datatype Location = Location(origin: string, pathname: string, search: string, hash: string, href: string)

  /** `p.split('=')[0]`: the text before the first `=`. */
  function PairKey(p: string): string
  {
    Split(p, '=')[0]
  }

  /** `pairs.filter(Boolean)` followed by the filter on `exclude`, in order. */
  function KeptPairs(pairs: seq<string>, exclude: seq<string>): (out: seq<string>)
    ensures |out| <= |pairs|
  {
    if pairs == [] then []
    else
      var rest := KeptPairs(pairs[1..], exclude);
      if pairs[0] != "" && PairKey(pairs[0]) !in exclude then [pairs[0]] + rest else rest
  }

  /** The filter keeps exactly the non-empty pairs whose key is not excluded. */
  lemma {:induction false} KeptPairsMembers(pairs: seq<string>, exclude: seq<string>)
    ensures forall p :: p in KeptPairs(pairs, exclude) <==> p in pairs && p != "" && PairKey(p) !in exclude
  {
    if pairs != [] {
      KeptPairsMembers(pairs[1..], exclude);
      assert forall p :: p in pairs <==> p == pairs[0] || p in pairs[1..];
    }
  }

  /** The query part the fallback emits: `?` and the kept pairs joined by `&`,
      or nothing when no pair is kept. */
  function QueryWithout(search: string, exclude: seq<string>): string
  {
    var s := StripQuestion(search);
    if s == "" then ""
    else
      var out := KeptPairs(Split(s, '&'), exclude);
      if out == [] then "" else "?" + Join(out, "&")
  }

  /** `getPageUrlWithoutParams(exclude)` in browsers without `URL`: origin,
      path, the kept query and the hash, or `location.href` when all of that is empty. */
  function PageUrlWithoutParams(loc: Location, exclude: seq<string>): (r: string)
    ensures r == "" ==> loc.href == ""
  {
    var u := loc.origin + loc.pathname + QueryWithout(loc.search, exclude) + loc.hash;
    if u == "" then loc.href else u
  }

  /** Pairs that are all kept come through the filter unchanged. */
  lemma {:induction false} KeptPairsIdentity(pairs: seq<string>, exclude: seq<string>)
    requires forall p :: p in pairs ==> p != "" && PairKey(p) !in exclude
    ensures KeptPairs(pairs, exclude) == pairs
  {
    if pairs != [] {
      assert pairs[0] in pairs;
      assert forall p :: p in pairs[1..] ==> p in pairs;
      KeptPairsIdentity(pairs[1..], exclude);
    }
  }

  /** The filter keeps the pairs in their original order: filtering a
      concatenation is concatenating the filtered parts. */
  lemma {:induction false} KeptPairsAppend(a: seq<string>, b: seq<string>, exclude: seq<string>)
    ensures KeptPairs(a + b, exclude) == KeptPairs(a, exclude) + KeptPairs(b, exclude)
  {
    if a != [] {
      assert (a + b)[1..] == a[1..] + b;
      assert (a + b)[0] == a[0];
      KeptPairsAppend(a[1..], b, exclude);
    } else {
      assert a + b == b;
    }
  }

  /** The rebuilt query is empty exactly when no pair is kept; otherwise it is
      `?` followed by text that splits on `&` back into the kept pairs. */
  lemma QuerySplitsBack(search: string, exclude: seq<string>)
    ensures var kept := KeptPairs(Split(StripQuestion(search), '&'), exclude);
      QueryWithout(search, exclude) == "" <==> kept == []
    ensures var kept := KeptPairs(Split(StripQuestion(search), '&'), exclude);
      var qs := QueryWithout(search, exclude);
      qs != "" ==> qs[0] == '?' && Split(qs[1..], '&') == kept
  {
    var s := StripQuestion(search);
    var pieces := Split(s, '&');
    var out := KeptPairs(pieces, exclude);
    if s == "" {
      assert pieces == [""];
      assert out == [];
    } else if out != [] {
      KeptPairsMembers(pieces, exclude);
      assert forall i :: 0 <= i < |out| ==> '&' !in out[i] by {
        forall i | 0 <= i < |out| ensures '&' !in out[i] {
          assert out[i] in pieces;
        }
      }
      SplitJoin(out, '&');
      assert ("?" + Join(out, "&"))[1..] == Join(out, "&");
    }
  }

  /** Rebuilding the query again changes nothing: its pairs are already the
      non-empty pairs with a key outside `exclude`. */
  lemma QueryWithoutIdempotent(search: string, exclude: seq<string>)
    ensures QueryWithout(QueryWithout(search, exclude), exclude) == QueryWithout(search, exclude)
  {
    var once := QueryWithout(search, exclude);
    if once != "" {
      var pieces := Split(StripQuestion(search), '&');
      var out := KeptPairs(pieces, exclude);
      QuerySplitsBack(search, exclude);
      assert StripQuestion(once) == once[1..];
      KeptPairsMembers(pieces, exclude);
      KeptPairsIdentity(out, exclude);
      assert once[1..] == Join(out, "&");
    }
  }

  /** Origin, path and hash are kept verbatim around the rebuilt query, which
      is empty exactly when no pair is kept and otherwise is `?` followed by
      the kept pairs joined by `&`; only when all of that is empty does
      `location.href` stand in. */
  lemma PageUrlKeepsParts(loc: Location, exclude: seq<string>)
    ensures var head := loc.origin + loc.pathname;
      var kept := KeptPairs(Split(StripQuestion(loc.search), '&'), exclude);
      head + loc.hash == "" && kept == [] ==> PageUrlWithoutParams(loc, exclude) == loc.href
    ensures var head := loc.origin + loc.pathname;
      var kept := KeptPairs(Split(StripQuestion(loc.search), '&'), exclude);
      var r := PageUrlWithoutParams(loc, exclude);
      !(head + loc.hash == "" && kept == []) ==>
        && |head| + |loc.hash| <= |r|
        && r[..|head|] == head
        && r[|r| - |loc.hash|..] == loc.hash
        && (r[|head|..|r| - |loc.hash|] == "" <==> kept == [])
        && (r[|head|..|r| - |loc.hash|] != "" ==>
              r[|head|] == '?' && Split(r[|head| + 1..|r| - |loc.hash|], '&') == kept)
  {
    var head := loc.origin + loc.pathname;
    var q := QueryWithout(loc.search, exclude);
    var u := head + q + loc.hash;
    QuerySplitsBack(loc.search, exclude);
    if u != "" {
      assert u[..|head|] == head;
      assert u[|u| - |loc.hash|..] == loc.hash;
      assert u[|head|..|u| - |loc.hash|] == q;
      if q != "" {
        assert u[|head| + 1..|u| - |loc.hash|] == q[1..];
      }
    }
  }

  /** No pair of the rebuilt query has an excluded key. */
  lemma NoExcludedKeyRemains(search: string, exclude: seq<string>, p: string)
    requires p in KeptPairs(Split(StripQuestion(search), '&'), exclude)
    ensures p != "" && PairKey(p) !in exclude
  {
    KeptPairsMembers(Split(StripQuestion(search), '&'), exclude);
  }
}
