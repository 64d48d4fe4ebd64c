/** The `Utils` object of the form-interception script: its fallback query
    parser (used when `URLSearchParams` is missing), `sanitizeValue` and
    `createFormDataString`. `decodeURIComponent` and `encodeURIComponent`
    are parameters: `None` stands for the `URIError` they throw. */
module WebhookUtils {
  import opened Common

  type Codec = string -> Option<string>

  // ---------- fallback query parser ----------

  /** `window.location.search.substring(1)`: drops the first character, whatever it is. */
  function QueryText(search: string): string
  {
    if |search| == 0 then "" else search[1..]
  }

  /** `const [key, value] = pair.split('=')`: the text before the first `=`
      and the text between the first and the second `=` (`value || ''`). */
  function RawPair(pair: string): (string, string)
  {
    var parts := Split(pair, '=');
    (parts[0], if |parts| >= 2 then parts[1] else "")
  }

  /** The entry one pair writes: both halves decoded, or both raw when either decoding throws. */
  function PairEntry(pair: string, decode: Codec): (string, string)
  {
    var (key, value) := RawPair(pair);
    match (decode(key), decode(value))
    case (Some(k), Some(v)) => (k, v)
    case _ => (key, value)
  }

  /** The parameter object after the pairs in `pairs`, in order; pairs with an empty key are skipped. */
  function PairsToParams(pairs: seq<string>, decode: Codec): map<string, string>
  {
    if pairs == [] then map[]
    else
      var before := PairsToParams(pairs[..|pairs| - 1], decode);
      var last := pairs[|pairs| - 1];
      if RawPair(last).0 == "" then before
      else before[PairEntry(last, decode).0 := PairEntry(last, decode).1]
  }

  /** The parser of the fallback branch of `getUrlParams`, filling the object pair by pair. */
  method ParseQueryFallback(search: string, decode: Codec) returns (params: map<string, string>)
    ensures params == PairsToParams(Split(QueryText(search), '&'), decode)
  {
    params := map[];
    var text := QueryText(search);
    var pairs := Split(text, '&');
    if text == "" {
      assert pairs == [""] && pairs[..0] == [];
      return;
    }
    var i := 0;
    while i < |pairs|
      invariant 0 <= i <= |pairs|
      invariant params == PairsToParams(pairs[..i], decode)
    {
      assert pairs[..i + 1][..i] == pairs[..i];
      var pair := pairs[i];
      var (key, value) := RawPair(pair);
      if key != "" {
        match (decode(key), decode(value)) {
          case (Some(k), Some(v)) => params := params[k := v];
          case _ => params := params[key := value];
        }
      }
      i := i + 1;
    }
    assert pairs[..i] == pairs;
  }

  /** `get`: the value, or null when the key is missing or its value is empty. */
  function QueryGet(params: map<string, string>, key: string): Option<string>
  {
    Get(params, key)
  }

  /** `has`: whether the key was present at all. */
  predicate QueryHas(params: map<string, string>, key: string)
  {
    key in params
  }

  /** A key given with an empty value is reported by `has` but not by `get`. */
  lemma EmptyValueHasButNoGet(key: string, decode: Codec)
    requires key != "" && '=' !in key && '&' !in key
    requires decode(key) == Some(key) && decode("") == Some("")
    ensures var params := PairsToParams(Split(QueryText("?" + key + "="), '&'), decode);
      QueryHas(params, key) && QueryGet(params, key) == None
  {
    var text := key + "=";
    assert QueryText("?" + key + "=") == text;
    FindAbsent(text, '&');
    var pairs := Split(text, '&');
    assert pairs == [text];
    SplitCons(key, '=', "");
    FindAbsent("", '=');
    assert Split(text, '=') == [key, ""];
    assert pairs[..0] == [];
  }

  /** The value is only the text between the first and the second `=`. */
  lemma {:induction false} ValueStopsAtSecondEquals(k: string, v: string, rest: string, decode: Codec)
    requires '=' !in k && '=' !in v && k != ""
    requires decode(k).Some? && decode(v).Some?
    ensures RawPair(k + "=" + v + "=" + rest) == (k, v)
    ensures PairEntry(k + "=" + v + "=" + rest, decode) == (decode(k).value, decode(v).value)
  {
    var pair := k + "=" + v + "=" + rest;
    assert pair == k + ['='] + (v + ['='] + rest);
    SplitCons(k, '=', v + ['='] + rest);
    SplitCons(v, '=', rest);
  }

  /** When decoding either half throws, the raw key and value are stored. */
  lemma DecodeFailureKeepsRaw(pair: string, decode: Codec)
    requires decode(RawPair(pair).0).None? || decode(RawPair(pair).1).None?
    ensures PairEntry(pair, decode) == RawPair(pair)
  {
  }

  /** The last pair naming a key decides its value: a later duplicate overwrites an earlier one. */
  lemma {:induction false} LastPairWins(pairs: seq<string>, decode: Codec, i: nat)
    requires i < |pairs| && RawPair(pairs[i]).0 != ""
    requires forall j :: i < j < |pairs| && RawPair(pairs[j]).0 != "" ==>
      PairEntry(pairs[j], decode).0 != PairEntry(pairs[i], decode).0
    ensures PairEntry(pairs[i], decode).0 in PairsToParams(pairs, decode)
    ensures PairsToParams(pairs, decode)[PairEntry(pairs[i], decode).0] == PairEntry(pairs[i], decode).1
    decreases |pairs|
  {
    var init := pairs[..|pairs| - 1];
    if i < |pairs| - 1 {
      assert init[i] == pairs[i];
      forall j | i < j < |init| && RawPair(init[j]).0 != ""
        ensures PairEntry(init[j], decode).0 != PairEntry(init[i], decode).0
      {
        assert init[j] == pairs[j];
      }
      LastPairWins(init, decode, i);
    }
  }

  /** Every stored key comes from some pair with a non-empty raw key. */
  lemma {:induction false} KeysFromPairs(pairs: seq<string>, decode: Codec, key: string)
    requires key in PairsToParams(pairs, decode)
    ensures exists i :: 0 <= i < |pairs| && RawPair(pairs[i]).0 != "" && PairEntry(pairs[i], decode).0 == key
    decreases |pairs|
  {
    var init := pairs[..|pairs| - 1];
    var last := pairs[|pairs| - 1];
    if RawPair(last).0 != "" && PairEntry(last, decode).0 == key {
    } else {
      KeysFromPairs(init, decode, key);
      var i :| 0 <= i < |init| && RawPair(init[i]).0 != "" && PairEntry(init[i], decode).0 == key;
      assert pairs[i] == init[i];
    }
  }

  // ---------- sanitizeValue ----------

  const MaxKeyLength: nat := 100
  const MaxValueLength: nat := 1000

  /** The characters removed by `/[\x00-\x1f\x7f-\x9f]/g`. */
  predicate IsControl(c: char)
  {
    c <= '\U{1F}' || ('\U{7F}' <= c <= '\U{9F}')
  }

  predicate NoControls(s: string)
  {
    forall i :: 0 <= i < |s| ==> !IsControl(s[i])
  }

  /** `str.replace(/[\x00-\x1f\x7f-\x9f]/g, '')`. */
  function StripControls(s: string): (r: string)
    ensures |r| <= |s|
    ensures NoControls(r)
    ensures NoControls(s) ==> r == s
  {
    if s == [] then []
    else if IsControl(s[0]) then StripControls(s[1..])
    else [s[0]] + StripControls(s[1..])
  }

  /** The replacement works character by character: the result for a
      concatenation is the concatenation of the results. */
  lemma {:induction false} StripControlsAppend(a: string, b: string)
    ensures StripControls(a + b) == StripControls(a) + StripControls(b)
  {
    if a != [] {
      assert (a + b)[0] == a[0] && (a + b)[1..] == a[1..] + b;
      StripControlsAppend(a[1..], b);
    } else {
      assert a + b == b;
    }
  }

  /** A control character is removed; any other character is kept. */
  lemma StripControlsChar(c: char)
    ensures StripControls([c]) == if IsControl(c) then [] else [c]
  {
    assert [c][1..] == [];
  }

  predicate AllControls(s: string)
  {
    forall i :: 0 <= i < |s| ==> IsControl(s[i])
  }

  /** Stripping leaves nothing exactly when the string is made only of
      control characters. */
  lemma {:induction false} StripAllControls(s: string)
    ensures StripControls(s) == "" <==> AllControls(s)
  {
    if s != [] {
      assert AllControls(s) <==> IsControl(s[0]) && AllControls(s[1..]) by {
        forall i | 0 <= i < |s| - 1 ensures s[1..][i] == s[i + 1] {
        }
      }
      StripAllControls(s[1..]);
    }
  }

  /** `String(value).substring(0, maxLength)`. */
  function Prefix(s: string, maxLength: nat): (r: string)
  {
    if |s| <= maxLength then s else s[..maxLength]
  }

  /** `sanitizeValue(value, maxLength)`: null and undefined become `''`;
      anything else is cut to `maxLength` characters, then stripped of
      control characters. */
  function SanitizeValue(v: JsValue, maxLength: nat): (r: string)
    ensures |r| <= maxLength
    ensures NoControls(r)
    ensures (v.Null? || v.Undefined?) ==> r == ""
    ensures !v.Null? && !v.Undefined? && |ToJsString(v)| <= maxLength && NoControls(ToJsString(v))
      ==> r == ToJsString(v)
    ensures !v.Null? && !v.Undefined? && |ToJsString(v)| <= maxLength ==> r == StripControls(ToJsString(v))
    ensures !v.Null? && !v.Undefined? && |ToJsString(v)| > maxLength
      ==> r == StripControls(ToJsString(v)[..maxLength])
  {
    if v.Null? || v.Undefined? then "" else StripControls(Prefix(ToJsString(v), maxLength))
  }

  /** Sanitizing an already sanitized value changes nothing. */
  lemma SanitizeIdempotent(v: JsValue, maxLength: nat)
    ensures SanitizeValue(Str(SanitizeValue(v, maxLength)), maxLength) == SanitizeValue(v, maxLength)
  {
  }

  // ---------- createFormDataString ----------

  /** One `[key, value]` entry of `Object.entries(params)`. */
  type Entry = (string, JsValue)

  /** The entries that produce a pair: non-empty key, value not null, undefined or `''`. */
  predicate Emits(e: Entry)
  {
    e.0 != "" && !e.1.Null? && !e.1.Undefined? && e.1 != Str("")
  }

  /** The `k=v` text of one entry; `None` when encoding throws, which skips the entry. */
  function EncodedPair(e: Entry, encode: Codec): Option<string>
  {
    match (encode(SanitizeValue(Str(e.0), MaxKeyLength)), encode(SanitizeValue(e.1, MaxValueLength)))
    case (Some(k), Some(v)) => Some(k + "=" + v)
    case _ => None
  }

  /** The pairs pushed for `entries`, in entry order. */
  function FormPairs(entries: seq<Entry>, encode: Codec): (pairs: seq<string>)
    ensures |pairs| <= |entries|
  {
    if entries == [] then []
    else
      var before := FormPairs(entries[..|entries| - 1], encode);
      var e := entries[|entries| - 1];
      if Emits(e) && EncodedPair(e, encode).Some? then before + [EncodedPair(e, encode).value] else before
  }

  /** `createFormDataString(params)`: the pairs of the emitting entries joined by `&`. */
  method CreateFormDataString(entries: seq<Entry>, encode: Codec) returns (body: string)
    ensures body == Join(FormPairs(entries, encode), "&")
  {
    var pairs: seq<string> := [];
    var i := 0;
    while i < |entries|
      invariant 0 <= i <= |entries|
      invariant pairs == FormPairs(entries[..i], encode)
    {
      assert entries[..i + 1][..i] == entries[..i];
      var (key, value) := entries[i];
      if key != "" && !value.Null? && !value.Undefined? && value != Str("") {
        var sanitizedKey := SanitizeValue(Str(key), MaxKeyLength);
        var sanitizedValue := SanitizeValue(value, MaxValueLength);
        match (encode(sanitizedKey), encode(sanitizedValue)) {
          case (Some(k), Some(v)) => pairs := pairs + [k + "=" + v];
          case _ =>
        }
      }
      i := i + 1;
    }
    assert entries[..i] == entries;
    body := Join(pairs, "&");
  }

  /** Entries are handled independently and in order. */
  lemma {:induction false} FormPairsAppend(a: seq<Entry>, b: seq<Entry>, encode: Codec)
    ensures FormPairs(a + b, encode) == FormPairs(a, encode) + FormPairs(b, encode)
    decreases |b|
  {
    if b == [] {
      assert a + b == a;
    } else {
      var b' := b[..|b| - 1];
      assert (a + b)[..|a + b| - 1] == a + b';
      FormPairsAppend(a, b', encode);
    }
  }

  /** An entry that does not emit adds nothing to the body. */
  lemma SkippedEntry(e: Entry, encode: Codec)
    requires !Emits(e)
    ensures FormPairs([e], encode) == []
  {
    assert [e][..0] == [];
  }

  /** When the encoder never writes `&` or `=` (as `encodeURIComponent` does not),
      the body splits back into the emitted pairs, and each pair into its
      encoded key and value. */
  lemma {:induction false} FormBodySplits(entries: seq<Entry>, encode: Codec)
    requires forall s :: encode(s).Some? ==> '&' !in encode(s).value && '=' !in encode(s).value
    requires FormPairs(entries, encode) != []
    ensures Split(Join(FormPairs(entries, encode), "&"), '&') == FormPairs(entries, encode)
    ensures forall i :: 0 <= i < |FormPairs(entries, encode)| ==> |Split(FormPairs(entries, encode)[i], '=')| == 2
  {
    var pairs := FormPairs(entries, encode);
    forall i | 0 <= i < |pairs| ensures '&' !in pairs[i] && |Split(pairs[i], '=')| == 2 {
      var j := PairSource(entries, encode, i);
      EncodedPairSplits(entries[j], encode);
    }
    SplitJoin(pairs, '&');
  }

  /** One encoded pair has no `&` and exactly one `=`. */
  lemma EncodedPairSplits(e: Entry, encode: Codec)
    requires forall s :: encode(s).Some? ==> '&' !in encode(s).value && '=' !in encode(s).value
    requires EncodedPair(e, encode).Some?
    ensures '&' !in EncodedPair(e, encode).value && |Split(EncodedPair(e, encode).value, '=')| == 2
  {
    var k := encode(SanitizeValue(Str(e.0), MaxKeyLength)).value;
    var v := encode(SanitizeValue(e.1, MaxValueLength)).value;
    assert EncodedPair(e, encode).value == k + ['='] + v;
    SplitCons(k, '=', v);
    FindAbsent(v, '=');
  }

  /** The entry a pair of the body comes from: pair `i` is the encoded pair
      of an emitting entry at or after position `i`. */
  lemma {:induction false} PairSource(entries: seq<Entry>, encode: Codec, i: nat) returns (j: nat)
    requires i < |FormPairs(entries, encode)|
    ensures i <= j < |entries| && Emits(entries[j])
    ensures EncodedPair(entries[j], encode) == Some(FormPairs(entries, encode)[i])
    decreases |entries|
  {
    var init := entries[..|entries| - 1];
    var last := entries[|entries| - 1];
    var before := FormPairs(init, encode);
    var pairs := FormPairs(entries, encode);
    var encoded := EncodedPair(last, encode);
    var added := if Emits(last) && encoded.Some? then [encoded.value] else [];
    assert pairs == before + added;
    if i < |before| {
      j := PairSource(init, encode, i);
      assert entries[j] == init[j] && pairs[i] == before[i];
    } else {
      assert added != [] && pairs[i] == added[0];
      j := |entries| - 1;
    }
  }

  /** Every pair in the body is the encoded pair of some emitting entry. */
  lemma {:induction false} PairsAreEncoded(entries: seq<Entry>, encode: Codec)
    ensures forall i :: 0 <= i < |FormPairs(entries, encode)| ==>
      exists j :: 0 <= j < |entries| && Emits(entries[j]) && EncodedPair(entries[j], encode) == Some(FormPairs(entries, encode)[i])
  {
    var pairs := FormPairs(entries, encode);
    forall i | 0 <= i < |pairs|
      ensures exists j :: 0 <= j < |entries| && Emits(entries[j]) && EncodedPair(entries[j], encode) == Some(pairs[i])
    {
      var j := PairSource(entries, encode, i);
    }
  }
}
