/** Hand-written matchers for the regular expressions the scripts run against
    `document.cookie`. A regular-expression search finds the leftmost position
    where the pattern matches; `Search` is that scan and `MatchAt` is the
    pattern tried at one position. */
module CookieMatch {
  import opened Common

  /** The character classes used in the patterns: `\d`, `[^;]` and `[\d\.]`. */
  datatype CharClass = Digits | NotSemicolon | DigitsOrDots

  predicate InClass(c: char, cls: CharClass)
  {
    match cls
    case Digits => IsDigit(c)
    case NotSemicolon => c != ';'
    case DigitsOrDots => IsDigit(c) || c == '.'
  }

  /** The patterns:
      - `Capture(prefix, cls)` is `/prefix(cls+)/`, as in `/_fbp=([^;]+)/` and `/_ym_uid=(\d+)/`;
      - `GaOneDigit` is `/_ga=GA\d\.\d\.([\d\.]+)/`;
      - `GaDigitRuns` is `/_ga=GA\d+\.\d+\.(\d+\.\d+|\d+)/`. */
  datatype Pattern = Capture(prefix: string, cls: CharClass) | GaOneDigit | GaDigitRuns

  const GaPrefix: string := "_ga=GA"

  /** Length of the longest run of `cls` characters starting at `i`
      (what a greedy `cls+` or `cls*` consumes). */
  function Run(s: string, i: nat, cls: CharClass): (n: nat)
    requires i <= |s|
    ensures i + n <= |s|
    ensures forall j :: i <= j < i + n ==> InClass(s[j], cls)
    ensures i + n == |s| || !InClass(s[i + n], cls)
    decreases |s| - i
  {
    if i < |s| && InClass(s[i], cls) then 1 + Run(s, i + 1, cls) else 0
  }

  predicate AllDigits(t: string)
  {
    forall j :: 0 <= j < |t| ==> IsDigit(t[j])
  }

  /** The shape of a client ID captured by `GaDigitRuns`: one or two
      non-empty digit runs joined by one dot. */
  predicate ClientIdShape(id: string)
  {
    && id != ""
    && IsDigit(id[0]) && IsDigit(id[|id| - 1])
    && (forall j :: 0 <= j < |id| ==> IsDigit(id[j]) || id[j] == '.')
    && (forall j, k :: 0 <= j < k < |id| && id[j] == '.' ==> id[k] != '.')
  }

  /** Shapes of the ids built from one or two digit runs. */
  lemma DigitRunShape(x: string)
    requires x != "" && AllDigits(x)
    ensures ClientIdShape(x)
  {
  }

  lemma DottedShape(x: string, y: string)
    requires x != "" && AllDigits(x) && y != "" && AllDigits(y)
    ensures ClientIdShape(x + "." + y)
  {
    var id := x + "." + y;
    forall j | 0 <= j < |id| && j != |x| ensures IsDigit(id[j]) {
      if j < |x| {
        assert id[j] == x[j];
      } else {
        assert id[j] == y[j - |x| - 1];
      }
    }
  }

  /** A client id has no white space at either end, so trimming keeps it. */
  lemma ShapeTrim(id: string)
    requires ClientIdShape(id)
    ensures Trim(id) == id
  {
    TrimNoSpace(id);
  }

  /** `/prefix(cls+)/` tried at position `i`. */
  function CaptureAt(prefix: string, cls: CharClass, s: string, i: nat): (r: Option<string>)
    requires i <= |s|
    ensures r.Some? ==> StartsWith(s[i..], prefix) && r.value != ""
    ensures r.Some? ==> forall j :: 0 <= j < |r.value| ==> InClass(r.value[j], cls)
  {
    if !StartsWith(s[i..], prefix) then None
    else
      var at := i + |prefix|;
      var n := Run(s, at, cls);
      if n == 0 then None else Some(s[at..at + n])
  }

  /** `/_ga=GA\d\.\d\.([\d\.]+)/` tried at position `i`. */
  function GaOneDigitAt(s: string, i: nat): (r: Option<string>)
    requires i <= |s|
    ensures r.Some? ==> StartsWith(s[i..], GaPrefix) && r.value != ""
    ensures r.Some? ==> forall j :: 0 <= j < |r.value| ==> IsDigit(r.value[j]) || r.value[j] == '.'
  {
    if !StartsWith(s[i..], GaPrefix) || i + 10 > |s| then None
    else if !IsDigit(s[i + 6]) || s[i + 7] != '.' || !IsDigit(s[i + 8]) || s[i + 9] != '.' then None
    else
      var n := Run(s, i + 10, DigitsOrDots);
      if n == 0 then None else Some(s[i + 10..i + 10 + n])
  }

  /** The group `(\d+\.\d+|\d+)` at position `c`. Digit runs are taken
      whole: a shorter run would leave a digit where the pattern needs a
      dot, so backtracking cannot produce another match. The first
      alternative `\d+\.\d+` is tried before `\d+`. */
  function GaIdAt(s: string, c: nat): (r: Option<string>)
    requires c <= |s|
    ensures r.Some? ==> ClientIdShape(r.value)
  {
    var nc := Run(s, c, Digits);
    if nc == 0 then None
    else
      var d := c + nc;
      if d < |s| && s[d] == '.' && Run(s, d + 1, Digits) > 0 then
        var e := d + 1 + Run(s, d + 1, Digits);
        assert s[c..e] == s[c..d] + "." + s[d + 1..e];
        DottedShape(s[c..d], s[d + 1..e]);
        Some(s[c..e])
      else
        DigitRunShape(s[c..d]);
        Some(s[c..d])
  }

  /** `/_ga=GA\d+\.\d+\.(\d+\.\d+|\d+)/` tried at position `i`. */
  function GaDigitRunsAt(s: string, i: nat): (r: Option<string>)
    requires i <= |s|
    ensures r.Some? ==> StartsWith(s[i..], GaPrefix) && ClientIdShape(r.value)
  {
    if !StartsWith(s[i..], GaPrefix) then None
    else
      var a := i + 6;
      var na := Run(s, a, Digits);
      if na == 0 || a + na == |s| || s[a + na] != '.' then None
      else
        var b := a + na + 1;
        var nb := Run(s, b, Digits);
        if nb == 0 || b + nb == |s| || s[b + nb] != '.' then None
        else GaIdAt(s, b + nb + 1)
  }

  /** The first capture group when pattern `p` matches `s` starting exactly at `i`. */
  function MatchAt(p: Pattern, s: string, i: nat): (r: Option<string>)
    requires i <= |s|
    ensures r.Some? ==> StartsWith(s[i..], if p.Capture? then p.prefix else GaPrefix)
  {
    match p
    case Capture(prefix, cls) => CaptureAt(prefix, cls, s, i)
    case GaOneDigit => GaOneDigitAt(s, i)
    case GaDigitRuns => GaDigitRunsAt(s, i)
  }

  /** The leftmost position at or after `from` where `p` matches. */
  function SearchFrom(p: Pattern, s: string, from: nat): (r: Option<nat>)
    requires from <= |s|
    ensures r.Some? ==> from <= r.value <= |s| && MatchAt(p, s, r.value).Some?
    ensures r.Some? ==> forall k :: from <= k < r.value ==> MatchAt(p, s, k).None?
    ensures r.None? ==> forall k :: from <= k <= |s| ==> MatchAt(p, s, k).None?
    decreases |s| - from
  {
    if MatchAt(p, s, from).Some? then Some(from)
    else if from == |s| then None
    else SearchFrom(p, s, from + 1)
  }

  /** `s.match(p)`, giving the first capture group of the leftmost match. */
  function Match(p: Pattern, s: string): Option<string>
  {
    match SearchFrom(p, s, 0)
    case Some(k) => MatchAt(p, s, k)
    case None => None
  }

  /** There is no match exactly when the pattern matches at no position,
      and a match is the capture at the leftmost position where it matches. */
  lemma MatchLeftmost(p: Pattern, s: string)
    ensures Match(p, s).None? <==> forall k :: 0 <= k <= |s| ==> MatchAt(p, s, k).None?
    ensures Match(p, s).Some? ==>
      exists k :: 0 <= k <= |s| && Match(p, s) == MatchAt(p, s, k) && (forall j :: 0 <= j < k ==> MatchAt(p, s, j).None?)
  {
  }

  /** No match can start inside a prefix that lacks the pattern's first character. */
  lemma NoMatchInside(p: Pattern, pre: string, rest: string)
    requires (if p.Capture? then p.prefix else GaPrefix) != ""
    requires (if p.Capture? then p.prefix else GaPrefix)[0] !in pre
    ensures forall k :: 0 <= k < |pre| ==> MatchAt(p, pre + rest, k).None?
  {
    var s := pre + rest;
    var first := if p.Capture? then p.prefix else GaPrefix;
    forall k | 0 <= k < |pre| ensures MatchAt(p, s, k).None? {
      assert s[k] == pre[k];
    }
  }

  /** When no match starts inside `pre` and one starts right after it, that one is the result. */
  lemma {:induction false} MatchAfterPrefix(p: Pattern, pre: string, rest: string)
    requires (if p.Capture? then p.prefix else GaPrefix) != ""
    requires (if p.Capture? then p.prefix else GaPrefix)[0] !in pre
    requires MatchAt(p, pre + rest, |pre|).Some?
    ensures Match(p, pre + rest) == MatchAt(p, pre + rest, |pre|)
  {
    NoMatchInside(p, pre, rest);
    var s := pre + rest;
    var r := SearchFrom(p, s, 0);
    assert r.Some?;
    assert r.value == |pre|;
  }

  /** A run of `cls` characters followed by a character outside `cls` is consumed whole. */
  lemma RunOver(s: string, at: nat, cls: CharClass, v: string, post: string)
    requires at + |v| + |post| == |s|
    requires s[at..] == v + post
    requires forall j :: 0 <= j < |v| ==> InClass(v[j], cls)
    requires post == "" || !InClass(post[0], cls)
    ensures Run(s, at, cls) == |v| && s[at..at + |v|] == v
  {
    var n := Run(s, at, cls);
    forall j | at <= j < at + |v| ensures InClass(s[j], cls) {
      assert s[j] == s[at..][j - at] == v[j - at];
    }
    assert s[at..at + |v|] == s[at..][..|v|];
  }

  /** The capture of a cookie `prefix v` placed at position `|pre|`. */
  lemma CaptureAtCookie(prefix: string, cls: CharClass, pre: string, v: string, post: string)
    requires v != "" && forall j :: 0 <= j < |v| ==> InClass(v[j], cls)
    requires post == "" || !InClass(post[0], cls)
    ensures CaptureAt(prefix, cls, pre + prefix + v + post, |pre|) == Some(v)
  {
    var s := pre + prefix + v + post;
    assert s[|pre|..] == prefix + v + post;
    assert s[|pre| + |prefix|..] == v + post;
    RunOver(s, |pre| + |prefix|, cls, v, post);
  }

  /** A cookie `name=value` whose value is a non-empty run of `cls` characters
      ended by the end of the header or by a character outside `cls`, with no
      earlier position where the name could start. */
  lemma CaptureCookie(prefix: string, cls: CharClass, pre: string, v: string, post: string)
    requires prefix != "" && prefix[0] !in pre
    requires v != "" && forall j :: 0 <= j < |v| ==> InClass(v[j], cls)
    requires post == "" || !InClass(post[0], cls)
    ensures Match(Capture(prefix, cls), pre + prefix + v + post) == Some(v)
  {
    var rest := prefix + v + post;
    assert pre + prefix + v + post == pre + rest;
    CaptureAtCookie(prefix, cls, pre, v, post);
    MatchAfterPrefix(Capture(prefix, cls), pre, rest);
  }
}
