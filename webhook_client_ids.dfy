/** The `ClientIds` object of the form-interception script: advertising and
    analytics client identifiers read from `document.cookie`, and the
    Pinterest click id, which a URL parameter may override. */
module WebhookClientIds {
  import opened Common
  import opened CookieMatch

  /** The fallback's test on one `;`-separated piece of the cookie header:
      a trimmed piece `_ga=<value>` whose value has at least four dot-separated
      fields, the first starting with `GA`, gives the third and fourth fields. */
  function GaPiece(piece: string): (r: Option<string>)
    ensures r.Some? ==> StartsWith(Trim(piece), "_ga=") && r.value != ""
  {
    GaValue(Trim(piece))
  }

  /** The test on a piece already trimmed. */
  function GaValue(trimmed: string): (r: Option<string>)
    ensures r.Some? ==> StartsWith(trimmed, "_ga=") && r.value != ""
  {
    if !StartsWith(trimmed, "_ga=") || trimmed[4..] == "" then None
    else GaOfFields(Split(trimmed[4..], '.'))
  }

  /** The test on the dot-separated fields of a `_ga` value. */
  function GaOfFields(parts: seq<string>): (r: Option<string>)
    ensures r.Some? ==> r.value != ""
  {
    if |parts| >= 4 && StartsWith(parts[0], "GA") then Some(parts[2] + "." + parts[3]) else None
  }

  /** What a piece gives is two dot-free fields joined by one dot. */
  lemma GaPieceTwoFields(piece: string)
    requires GaPiece(piece).Some?
    ensures |Split(GaPiece(piece).value, '.')| == 2
  {
    var trimmed := Trim(piece);
    var parts := Split(trimmed[4..], '.');
    assert GaPiece(piece) == GaOfFields(parts);
    SplitCons(parts[2], '.', parts[3]);
    FindAbsent(parts[3], '.');
  }

  /** The first piece that passes `GaPiece`. */
  function GaFromPieces(pieces: seq<string>): (r: Option<string>)
    ensures r.Some? ==> r.value != ""
    ensures r.Some? ==> exists i :: 0 <= i < |pieces| && r == GaPiece(pieces[i])
  {
    if |pieces| == 0 then None
    else if GaPiece(pieces[0]).Some? then GaPiece(pieces[0])
    else
      var r := GaFromPieces(pieces[1..]);
      assert r.Some? ==> exists i :: 1 <= i < |pieces| && r == GaPiece(pieces[i]) by {
        if r.Some? {
          var j :| 0 <= j < |pieces[1..]| && r == GaPiece(pieces[1..][j]);
          assert pieces[1..][j] == pieces[j + 1];
        }
      }
      r
  }

  /** `ClientIds.google()`: the regular expression `/_ga=GA\d\.\d\.([\d\.]+)/`,
      else the piece-by-piece fallback. */
  function Google(cookie: string): (r: Option<string>)
    ensures r.Some? ==> r.value != ""
  {
    match Match(GaOneDigit, cookie)
    case Some(id) => Some(id)
    case None => GaFromPieces(Split(cookie, ';'))
  }

  /** `ClientIds.google()`, with the fallback's loop over the cookie pieces. */
  method GoogleClientId(cookie: string) returns (id: Option<string>)
    ensures id == Google(cookie)
  {
    var m := Match(GaOneDigit, cookie);
    if m.Some? {
      return m;
    }
    var pieces := Split(cookie, ';');
    var i := 0;
    while i < |pieces|
      invariant 0 <= i <= |pieces|
      invariant GaFromPieces(pieces[i..]) == GaFromPieces(pieces)
    {
      var g := GaPiece(pieces[i]);
      if g.Some? {
        return g;
      }
      assert pieces[i..][1..] == pieces[i + 1..];
      i := i + 1;
    }
    return None;
  }

  /** `ClientIds.yandex()`: `/_ym_uid=(\d+)/`. */
  function Yandex(cookie: string): (r: Option<string>)
    ensures r.Some? ==> r.value != "" && AllDigits(r.value)
  {
    Match(Capture("_ym_uid=", Digits), cookie)
  }

  /** `ClientIds.facebook()`: `/_fbp=([^;]+)/`. */
  function Facebook(cookie: string): (r: Option<string>)
    ensures r.Some? ==> r.value != "" && ';' !in r.value
  {
    var m := Match(Capture("_fbp=", NotSemicolon), cookie);
    assert m.Some? ==> forall j :: 0 <= j < |m.value| ==> m.value[j] != ';';
    m
  }

  /** `ClientIds.pinterest()`: a non-blank `epik` URL parameter, trimmed, wins
      over the `_epik` cookie. */
  function Pinterest(q: Query, cookie: string): (r: Option<string>)
    ensures r.Some? ==> r.value != ""
    ensures NonBlank(Get(q, "epik")).Some? ==> r == NonBlank(Get(q, "epik"))
  {
    match NonBlank(Get(q, "epik"))
    case Some(v) => Some(v)
    case None => Match(Capture("_epik=", NotSemicolon), cookie)
  }

  datatype ClientIdSet = ClientIdSet(google: Option<string>, yandex: Option<string>,
                                     facebook: Option<string>, pinterest: Option<string>)

  /** `ClientIds.getAll()`. */
  function GetAll(q: Query, cookie: string): (r: ClientIdSet)
    ensures r.google.Some? ==> r.google.value != ""
    ensures r.yandex.Some? ==> r.yandex.value != ""
    ensures r.facebook.Some? ==> r.facebook.value != ""
    ensures r.pinterest.Some? ==> r.pinterest.value != ""
  {
    ClientIdSet(Google(cookie), Yandex(cookie), Facebook(cookie), Pinterest(q, cookie))
  }

  /** A standard `_ga` cookie `GA<d>.<d>.<id>`: the regular expression captures the
      id, up to the first character that is neither a digit nor a dot. */
  lemma StandardGaCookie(pre: string, d1: char, d2: char, v: string, post: string)
    requires '_' !in pre
    requires IsDigit(d1) && IsDigit(d2)
    requires v != "" && forall j :: 0 <= j < |v| ==> IsDigit(v[j]) || v[j] == '.'
    requires post == "" || !(IsDigit(post[0]) || post[0] == '.')
    ensures Google(pre + GaPrefix + [d1, '.', d2, '.'] + v + post) == Some(v)
  {
    var rest := GaPrefix + [d1, '.', d2, '.'] + v + post;
    var s := pre + rest;
    assert pre + GaPrefix + [d1, '.', d2, '.'] + v + post == s;
    var i := |pre|;
    assert s[i..] == rest;
    assert s[i..][..|GaPrefix|] == GaPrefix;
    assert s[i + 6] == d1 && s[i + 7] == '.' && s[i + 8] == d2 && s[i + 9] == '.';
    assert s[i + 10..] == v + post;
    RunOver(s, i + 10, DigitsOrDots, v, post);
    assert GaOneDigitAt(s, i) == Some(v);
    MatchAfterPrefix(GaOneDigit, pre, rest);
  }

  /** Dot-free fields joined by dots split back into the fields. */
  lemma TwoFields(c: string, d: string)
    requires '.' !in c && '.' !in d
    ensures Split(c + "." + d, '.') == [c, d]
  {
    FindAbsent(d, '.');
    SplitCons(c, '.', d);
  }

  lemma ThreeFields(b: string, c: string, d: string)
    requires '.' !in b && '.' !in c && '.' !in d
    ensures Split(b + "." + (c + "." + d), '.') == [b, c, d]
  {
    TwoFields(c, d);
    SplitCons(b, '.', c + "." + d);
  }

  lemma FourFields(a: string, b: string, c: string, d: string)
    requires '.' !in a && '.' !in b && '.' !in c && '.' !in d
    ensures Split(a + "." + (b + "." + (c + "." + d)), '.') == [a, b, c, d]
  {
    ThreeFields(b, c, d);
    SplitCons(a, '.', b + "." + (c + "." + d));
  }

  /** The fallback on one piece `_ga=<a>.<b>.<c>.<d>` with dot-free fields and
      `a` starting with `GA` gives `<c>.<d>`; it is how an id with a
      multi-digit version field such as `GA10.2.111.222` is still found. */
  lemma GaPieceFields(a: string, b: string, c: string, d: string)
    requires StartsWith(a, "GA")
    requires '.' !in a && '.' !in b && '.' !in c && '.' !in d
    requires d != "" && !IsJsSpace(d[|d| - 1])
    ensures GaPiece("_ga=" + a + "." + b + "." + c + "." + d) == Some(c + "." + d)
  {
    var piece := "_ga=" + (a + "." + (b + "." + (c + "." + d)));
    assert "_ga=" + a + "." + b + "." + c + "." + d == piece;
    GaValueFields(a, b, c, d);
    assert piece[0] == '_' && piece[|piece| - 1] == d[|d| - 1];
    TrimNoSpace(piece);
  }

  lemma GaValueFields(a: string, b: string, c: string, d: string)
    requires StartsWith(a, "GA")
    requires '.' !in a && '.' !in b && '.' !in c && '.' !in d
    ensures GaValue("_ga=" + (a + "." + (b + "." + (c + "." + d)))) == Some(c + "." + d)
  {
    var value := a + "." + (b + "." + (c + "." + d));
    GaPrefixParts(value);
    FourFields(a, b, c, d);
  }

  lemma GaPrefixParts(value: string)
    ensures StartsWith("_ga=" + value, "_ga=") && ("_ga=" + value)[4..] == value
  {
    assert ("_ga=" + value)[..4] == "_ga=";
  }

  /** The fallback returns what the first qualifying piece gives. */
  lemma {:induction false} FallbackFirstPiece(pieces: seq<string>, i: nat)
    requires i < |pieces| && GaPiece(pieces[i]).Some?
    requires forall j :: 0 <= j < i ==> GaPiece(pieces[j]).None?
    ensures GaFromPieces(pieces) == GaPiece(pieces[i])
  {
    if i > 0 {
      FallbackFirstPiece(pieces[1..], i - 1);
    }
  }

  /** Without a qualifying piece the fallback finds nothing. */
  lemma {:induction false} FallbackNone(pieces: seq<string>)
    requires forall j :: 0 <= j < |pieces| ==> GaPiece(pieces[j]).None?
    ensures GaFromPieces(pieces) == None
  {
    if |pieces| > 0 {
      FallbackNone(pieces[1..]);
    }
  }

  /** A `_ym_uid` cookie of digits is read whole. */
  lemma YandexCookie(pre: string, v: string, post: string)
    requires '_' !in pre
    requires v != "" && AllDigits(v)
    requires post == "" || !IsDigit(post[0])
    ensures Yandex(pre + "_ym_uid=" + v + post) == Some(v)
  {
    CaptureCookie("_ym_uid=", Digits, pre, v, post);
  }

  /** A `_fbp` cookie is read up to the next `;`. */
  lemma FacebookCookie(pre: string, v: string, post: string)
    requires '_' !in pre
    requires v != "" && ';' !in v
    requires post == "" || post[0] == ';'
    ensures Facebook(pre + "_fbp=" + v + post) == Some(v)
  {
    CaptureCookie("_fbp=", NotSemicolon, pre, v, post);
  }

  /** Without a usable `epik` URL parameter the `_epik` cookie is read up to the next `;`. */
  lemma PinterestCookie(q: Query, pre: string, v: string, post: string)
    requires NonBlank(Get(q, "epik")).None?
    requires '_' !in pre
    requires v != "" && ';' !in v
    requires post == "" || post[0] == ';'
    ensures Pinterest(q, pre + "_epik=" + v + post) == Some(v)
  {
    CaptureCookie("_epik=", NotSemicolon, pre, v, post);
  }
}
