/** Values and string operations shared by both scripts: optional values,
    the JavaScript `String.prototype.trim`, single-character `split`, `join`,
    and the falsy-string conventions the scripts use when reading maps. */
module Common {

  datatype Option<+T> = None | Some(value: T)

  /** A URL query as seen through `get`: the value `get` would return for each key. */
  type Query = map<string, string>

  /** The characters `String.prototype.trim` removes: the WhiteSpace and
      LineTerminator code points of ECMAScript. */
  predicate IsJsSpace(c: char)
  {
    || c == '\t' || c == '\n' || c == '\U{000B}' || c == '\U{000C}' || c == '\r'
    || c == ' ' || c == '\U{00A0}' || c == '\U{1680}'
    || ('\U{2000}' <= c <= '\U{200A}')
    || c == '\U{2028}' || c == '\U{2029}' || c == '\U{202F}' || c == '\U{205F}'
    || c == '\U{3000}' || c == '\U{FEFF}'
  }

  /** The ASCII digits matched by the regular-expression class `\d`. */
  predicate IsDigit(c: char)
  {
    '0' <= c <= '9'
  }

  predicate AllSpaces(s: string)
  {
    forall i :: 0 <= i < |s| ==> IsJsSpace(s[i])
  }

  function TrimStart(s: string): (r: string)
    ensures |r| <= |s| && r == s[|s| - |r|..]
    ensures r == "" || !IsJsSpace(r[0])
  {
    if s != [] && IsJsSpace(s[0]) then TrimStart(s[1..]) else s
  }

  /** What `TrimStart` cuts off is white space. */
  lemma {:induction false} TrimStartCut(s: string)
    ensures AllSpaces(s[..|s| - |TrimStart(s)|])
  {
    if s != [] && IsJsSpace(s[0]) {
      var r := TrimStart(s[1..]);
      TrimStartCut(s[1..]);
      assert s[..|s| - |r|] == [s[0]] + s[1..][..|s| - 1 - |r|];
    }
  }

  function TrimEnd(s: string): (r: string)
    ensures |r| <= |s| && r == s[..|r|]
    ensures r == "" || !IsJsSpace(r[|r| - 1])
  {
    if s != [] && IsJsSpace(s[|s| - 1]) then TrimEnd(s[..|s| - 1]) else s
  }

  /** What `TrimEnd` cuts off is white space. */
  lemma {:induction false} TrimEndCut(s: string)
    ensures AllSpaces(s[|TrimEnd(s)|..])
  {
    if s != [] && IsJsSpace(s[|s| - 1]) {
      var r := TrimEnd(s[..|s| - 1]);
      TrimEndCut(s[..|s| - 1]);
      assert s[|r|..] == s[..|s| - 1][|r|..] + [s[|s| - 1]];
    }
  }

  /** `String.prototype.trim`: the infix left after removing white space at both ends. */
  function Trim(s: string): (r: string)
    ensures |r| <= |s|
    ensures r == "" || (!IsJsSpace(r[0]) && !IsJsSpace(r[|r| - 1]))
    ensures r == "" <==> AllSpaces(s)
  {
    TrimStartBlank(s);
    TrimEndBlank(TrimStart(s));
    TrimEnd(TrimStart(s))
  }

  /** The trimmed text is the slice `s[i..j]` between the leading and the
      trailing white space of `s`. */
  lemma TrimSlice(s: string) returns (i: nat, j: nat)
    ensures i <= j <= |s| && Trim(s) == s[i..j]
    ensures AllSpaces(s[..i]) && AllSpaces(s[j..])
  {
    var t := TrimStart(s);
    var r := TrimEnd(t);
    i := |s| - |t|;
    j := i + |r|;
    assert Trim(s) == s[i..j] && s[j..] == t[|r|..] by {
      SuffixSlice(s, t, r, i);
    }
    assert AllSpaces(s[..i]) by {
      TrimStartCut(s);
    }
    assert AllSpaces(s[j..]) by {
      TrimEndCut(t);
    }
  }

  /** A prefix `r` of the suffix `t == s[i..]` is the slice of `s` after `i`. */
  lemma SuffixSlice(s: string, t: string, r: string, i: nat)
    requires i <= |s| && t == s[i..] && |r| <= |t| && r == t[..|r|]
    ensures r == s[i..i + |r|] && s[i + |r|..] == t[|r|..]
  {
  }

  /** Trimming removes white space at both ends and nothing else: the result
      is a slice of `s` with only white space before and after it. */
  lemma TrimInfix(s: string)
    ensures exists i, j :: 0 <= i <= j <= |s| && Trim(s) == s[i..j] && AllSpaces(s[..i]) && AllSpaces(s[j..])
  {
    var i, j := TrimSlice(s);
    BlankAround(s, Trim(s), i, j);
  }

  /** Introduces the existential of `TrimInfix` from explicit bounds. */
  lemma BlankAround(s: string, r: string, i: nat, j: nat)
    requires i <= j <= |s| && r == s[i..j] && AllSpaces(s[..i]) && AllSpaces(s[j..])
    ensures exists i, j :: 0 <= i <= j <= |s| && r == s[i..j] && AllSpaces(s[..i]) && AllSpaces(s[j..])
  {
  }

  lemma {:induction false} TrimStartBlank(s: string)
    ensures TrimStart(s) == "" <==> AllSpaces(s)
  {
    if s != [] && IsJsSpace(s[0]) {
      TrimStartBlank(s[1..]);
      assert AllSpaces(s) <==> AllSpaces(s[1..]);
    }
  }

  lemma {:induction false} TrimEndBlank(s: string)
    ensures TrimEnd(s) == "" <==> AllSpaces(s)
  {
    if s != [] && IsJsSpace(s[|s| - 1]) {
      TrimEndBlank(s[..|s| - 1]);
      assert AllSpaces(s) <==> AllSpaces(s[..|s| - 1]);
    }
  }

  /** Trimming twice is trimming once. */
  lemma TrimIdempotent(s: string)
    ensures Trim(Trim(s)) == Trim(s)
  {
    var r := Trim(s);
    if r != "" {
      assert TrimStart(r) == r;
      assert TrimEnd(r) == r;
    }
  }

  /** A string without white space at either end is its own trim. */
  lemma TrimNoSpace(s: string)
    requires s == "" || (!IsJsSpace(s[0]) && !IsJsSpace(s[|s| - 1]))
    ensures Trim(s) == s
  {
    assert TrimStart(s) == s;
  }

  /** The trimmed value of a JavaScript `v && String(v).trim()` test:
      present only when the input is present and not blank. */
  function NonBlank(v: Option<string>): (r: Option<string>)
    ensures r.Some? <==> v.Some? && !AllSpaces(v.value)
    ensures r.Some? ==> r.value == Trim(v.value) && r.value != ""
  {
    if v.Some? && Trim(v.value) != "" then Some(Trim(v.value)) else None
  }

  /** `m[k] || null` on a JavaScript object of strings: the empty string reads as absent. */
  function Get(m: map<string, string>, k: string): (r: Option<string>)
    ensures r.Some? <==> k in m && m[k] != ""
    ensures r.Some? ==> r.value == m[k]
  {
    if k in m && m[k] != "" then Some(m[k]) else None
  }

  /** `s.startsWith(prefix)`. */
  predicate StartsWith(s: string, prefix: string)
  {
    |prefix| <= |s| && s[..|prefix|] == prefix
  }

  /** Position of the first `c` in `s`, or `|s|` when there is none
      (`indexOf`, with `|s|` in place of -1). */
  function Find(s: string, c: char): (i: nat)
    ensures i <= |s|
    ensures i < |s| ==> s[i] == c
    ensures c !in s[..i]
  {
    if s == [] || s[0] == c then 0
    else
      var j := Find(s[1..], c);
      assert s[..j + 1] == [s[0]] + s[1..][..j];
      j + 1
  }

  lemma FindAbsent(s: string, c: char)
    requires c !in s
    ensures Find(s, c) == |s|
  {
  }

  /** The first `c` is at `k` when `s[k]` is `c` and no earlier character is. */
  lemma FindAt(s: string, c: char, k: nat)
    requires k < |s| && s[k] == c && c !in s[..k]
    ensures Find(s, c) == k
  {
  }

  /** `s.split(sep)` for a one-character separator: the pieces between
      occurrences of `sep`; the empty string splits into one empty piece. */
  function Split(s: string, sep: char): (parts: seq<string>)
    ensures |parts| >= 1
    ensures forall i :: 0 <= i < |parts| ==> sep !in parts[i]
    decreases |s|
  {
    var i := Find(s, sep);
    if i == |s| then [s] else [s[..i]] + Split(s[i + 1..], sep)
  }

  /** `parts.join(sep)`. */
  function Join(parts: seq<string>, sep: string): string
  {
    if |parts| == 0 then ""
    else if |parts| == 1 then parts[0]
    else parts[0] + sep + Join(parts[1..], sep)
  }

  /** Joining the pieces of a split gives back the string. */
  lemma {:induction false} JoinSplit(s: string, sep: char)
    ensures Join(Split(s, sep), [sep]) == s
    decreases |s|
  {
    var i := Find(s, sep);
    if i < |s| {
      var rest := s[i + 1..];
      var parts := Split(rest, sep);
      JoinSplit(rest, sep);
      assert Split(s, sep) == [s[..i]] + parts;
      assert ([s[..i]] + parts)[1..] == parts;
      assert Join([s[..i]] + parts, [sep]) == s[..i] + [sep] + Join(parts, [sep]);
      assert s == s[..i] + [sep] + rest;
    }
  }

  /** Split of a string that starts with a separator-free piece and a separator. */
  lemma SplitCons(a: string, sep: char, b: string)
    requires sep !in a
    ensures Split(a + [sep] + b, sep) == [a] + Split(b, sep)
  {
    var s := a + [sep] + b;
    assert s[..|a|] == a;
    FindAt(s, sep, |a|);
    assert s[|a| + 1..] == b;
  }

  /** Splitting a join of separator-free pieces gives back the pieces. */
  lemma {:induction false} SplitJoin(parts: seq<string>, sep: char)
    requires |parts| >= 1
    requires forall i :: 0 <= i < |parts| ==> sep !in parts[i]
    ensures Split(Join(parts, [sep]), sep) == parts
  {
    if |parts| == 1 {
      FindAbsent(parts[0], sep);
    } else {
      SplitCons(parts[0], sep, Join(parts[1..], [sep]));
      SplitJoin(parts[1..], sep);
    }
  }

  /** A JavaScript value as `String(v)` and the emptiness tests of the scripts see it. */
  datatype JsValue = Undefined | Null | Str(s: string) | Int(i: int) | Bool(b: bool)

  /** Decimal digits of a natural number, as `String(n)` writes it. */
  function NatToString(n: nat): (r: string)
    ensures |r| >= 1
    ensures forall i :: 0 <= i < |r| ==> IsDigit(r[i])
  {
    var d := ['0' + (n % 10) as char];
    if n < 10 then d else NatToString(n / 10) + d
  }

  /** The number a string of decimal digits spells. */
  function DigitsValue(r: string): nat
    requires forall i :: 0 <= i < |r| ==> IsDigit(r[i])
  {
    if r == [] then 0
    else
      assert IsDigit(r[|r| - 1]);
      10 * DigitsValue(r[..|r| - 1]) + (r[|r| - 1] as int - '0' as int)
  }

  /** `String(n)` spells `n` in decimal, without a leading zero unless `n` is zero. */
  lemma {:induction false} NatToStringValue(n: nat)
    ensures DigitsValue(NatToString(n)) == n
    ensures NatToString(n)[0] == '0' <==> n == 0
  {
    var r := NatToString(n);
    if n >= 10 {
      var p := NatToString(n / 10);
      NatToStringValue(n / 10);
      assert r == p + ['0' + (n % 10) as char];
      assert r[..|r| - 1] == p;
      assert r[0] == p[0];
    }
  }

  /** `String(v)`. */
  function ToJsString(v: JsValue): string
  {
    match v
    case Undefined => "undefined"
    case Null => "null"
    case Str(s) => s
    case Int(i) => if i < 0 then "-" + NatToString(-i) else NatToString(i)
    case Bool(b) => if b then "true" else "false"
  }
}
