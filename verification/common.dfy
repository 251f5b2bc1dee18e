/** Values as they reach the handlers: JSON request fields, JavaScript
    truthiness, `String.prototype.trim`, and the decimal renderings and parses
    that happen when a JavaScript value meets a SQL column. */
module Common {

  datatype Option<+T> = None | Some(value: T)

  datatype Result<+T, +E> = Ok(value: T) | Err(error: E)

  /** A field of a JSON request body. An absent field is `Undefined`.
      Numbers are whole numbers. */
  datatype JsValue = Undefined | Null | Bool(b: bool) | Num(n: int) | Str(s: string)

  /** JavaScript truthiness: `!v` holds exactly when `v` is falsy. */
  predicate Truthy(v: JsValue) {
    match v
    case Undefined => false
    case Null => false
    case Bool(b) => b
    case Num(n) => n != 0
    case Str(s) => s != ""
  }

  /** Truthiness of a query/path parameter or header, which is a string or absent. */
  predicate Given(o: Option<string>) {
    o.Some? && o.value != ""
  }

  /** A destructuring default `{ x = d } = body` replaces `undefined` only;
      an explicit `null` is kept. */
  function WithDefault(v: JsValue, d: JsValue): JsValue {
    if v.Undefined? then d else v
  }

  // ---------------------------------------------------------------------------
  // String.prototype.trim

  /** ECMAScript WhiteSpace and LineTerminator code points, the set `trim` strips. */
  predicate IsJsWhitespace(c: char) {
    || c == '\t' || c == '\n' || c == '\U{B}' || c == '\U{C}' || c == '\r' || c == ' '
    || c == '\U{A0}' || c == '\U{1680}' || ('\U{2000}' <= c <= '\U{200A}')
    || c == '\U{2028}' || c == '\U{2029}' || c == '\U{202F}' || c == '\U{205F}'
    || c == '\U{3000}' || c == '\U{FEFF}'
  }

  predicate AllWhitespace(s: string) {
    forall i :: 0 <= i < |s| ==> IsJsWhitespace(s[i])
  }

  /** Drops the leading whitespace: the result is a suffix of `s` that is empty
      or starts with a non-whitespace character, and what was dropped is all
      whitespace. */
  function TrimStart(s: string): (r: string)
    ensures |r| <= |s| && r == s[|s| - |r|..]
    ensures AllWhitespace(s[..|s| - |r|])
    ensures r == "" || !IsJsWhitespace(r[0])
  {
    if s != [] && IsJsWhitespace(s[0]) then TrimStart(s[1..]) else s
  }

  /** Drops the trailing whitespace: the result is a prefix of `s` that is empty
      or ends with a non-whitespace character, and what was dropped is all
      whitespace. */
  function TrimEnd(s: string): (r: string)
    ensures |r| <= |s| && r == s[..|r|]
    ensures AllWhitespace(s[|r|..])
    ensures r == "" || !IsJsWhitespace(r[|r| - 1])
  {
    if s != [] && IsJsWhitespace(s[|s| - 1]) then TrimEnd(s[..|s| - 1]) else s
  }

  /** `s.trim()`. */
  function Trim(s: string): string {
    TrimEnd(TrimStart(s))
  }

  /** The trimmed string is the middle slice of `s` left once the whitespace
      is dropped from both ends. */
  lemma TrimSlice(s: string) returns (a: nat, b: nat)
    ensures a <= b <= |s| && Trim(s) == s[a..b]
    ensures AllWhitespace(s[..a]) && AllWhitespace(s[b..])
    ensures Trim(s) == "" || (!IsJsWhitespace(Trim(s)[0]) && !IsJsWhitespace(Trim(s)[|Trim(s)| - 1]))
  {
    var t := TrimStart(s);
    var r := TrimEnd(t);
    a := |s| - |t|;
    b := a + |r|;
    assert r == s[a..b];
    assert s[b..] == t[|r|..];
  }

  /** A string trims to nothing exactly when it is all whitespace. */
  lemma TrimEmptyIffBlank(s: string)
    ensures Trim(s) == "" <==> AllWhitespace(s)
  {
    var r := Trim(s);
    var a, b := TrimSlice(s);
    if r == "" {
      forall i | 0 <= i < |s|
        ensures IsJsWhitespace(s[i])
      {
        if i < a {
          assert s[..a][i] == s[i];
        } else {
          assert s[b..][i - b] == s[i];
        }
      }
    } else {
      assert r[0] == s[a] && !IsJsWhitespace(s[a]);
    }
  }

  // ---------------------------------------------------------------------------
  // String.prototype.replace with a string pattern

  /** `pat` occurs in `s` starting at position `i`. */
  predicate MatchesAt(s: string, pat: string, i: nat) {
    i + |pat| <= |s| && s[i..i + |pat|] == pat
  }

  /** The first position at or after `from` where `pat` occurs. */
  function IndexOf(s: string, pat: string, from: nat): (r: Option<nat>)
    requires from <= |s|
    ensures r.Some? ==> from <= r.value && MatchesAt(s, pat, r.value)
    ensures r.Some? ==> forall i :: from <= i < r.value ==> !MatchesAt(s, pat, i)
    ensures r.None? ==> forall i :: from <= i ==> !MatchesAt(s, pat, i)
    decreases |s| - from
  {
    if MatchesAt(s, pat, from) then Some(from)
    else if from == |s| then None
    else IndexOf(s, pat, from + 1)
  }

  /** `s.replace(pat, rep)`: only the first occurrence is replaced. */
  function ReplaceFirst(s: string, pat: string, rep: string): string {
    match IndexOf(s, pat, 0)
    case None => s
    case Some(i) => s[..i] + rep + s[i + |pat|..]
  }

  /** Removing a pattern that `s` starts with removes exactly that prefix,
      even when the pattern occurs again later. */
  lemma ReplacePrefix(s: string, pat: string)
    requires pat <= s
    ensures ReplaceFirst(s, pat, "") == s[|pat|..]
    ensures s == pat + ReplaceFirst(s, pat, "")
  {
    assert MatchesAt(s, pat, 0);
  }

  /** Where `pat` does not occur, nothing is replaced; where it does, the
      result has the replacement in place of the first occurrence. */
  lemma ReplaceFirstSplits(s: string, pat: string, rep: string)
    ensures IndexOf(s, pat, 0).None? ==> ReplaceFirst(s, pat, rep) == s
    ensures IndexOf(s, pat, 0).Some? ==>
      exists a, b :: && s == a + pat + b && ReplaceFirst(s, pat, rep) == a + rep + b
                     && forall i: nat :: i < |a| ==> !MatchesAt(s, pat, i)
  {
    if IndexOf(s, pat, 0).Some? {
      var i := IndexOf(s, pat, 0).value;
      var a, b := s[..i], s[i + |pat|..];
      assert s == a + pat + b;
      assert ReplaceFirst(s, pat, rep) == a + rep + b;
    }
  }

  // ---------------------------------------------------------------------------
  // Decimal text, as the database driver sends a number and as PostgreSQL
  // reads a text parameter given for a numeric column.

  predicate IsDigit(c: char) {
    '0' <= c <= '9'
  }

  function DigitValue(c: char): nat
    requires IsDigit(c)
  {
    (c as int) - ('0' as int)
  }

  function DigitChar(d: nat): (c: char)
    requires d < 10
    ensures IsDigit(c) && DigitValue(c) == d
  {
    (('0' as int) + d) as char
  }

  /** The value of a non-empty run of decimal digits; anything else is `None`. */
  function ParseDigits(s: string): (r: Option<nat>)
    ensures r.Some? <==> s != "" && forall i :: 0 <= i < |s| ==> IsDigit(s[i])
  {
    if s == [] then None
    else if !IsDigit(s[|s| - 1]) then None
    else if |s| == 1 then Some(DigitValue(s[0]))
    else match ParseDigits(s[..|s| - 1])
      case None => None
      case Some(v) => Some(v * 10 + DigitValue(s[|s| - 1]))
  }

  /** The decimal digits of `n`, most significant first, without leading zeros. */
  function NatToString(n: nat): (s: string)
    ensures s != "" && forall i :: 0 <= i < |s| ==> IsDigit(s[i])
    decreases n
  {
    if n < 10 then [DigitChar(n)] else NatToString(n / 10) + [DigitChar(n % 10)]
  }

  /** `String(n)` for an integer. */
  function IntToString(n: int): string {
    if n < 0 then "-" + NatToString(-n) else NatToString(n)
  }

  /** An integer literal: an optional `-` and a run of decimal digits. */
  function ParseInt(s: string): Option<int> {
    if s != [] && s[0] == '-' then
      match ParseDigits(s[1..])
      case None => None
      case Some(v) => Some(-(v as int))
    else
      match ParseDigits(s)
      case None => None
      case Some(v) => Some(v)
  }

  lemma {:induction false} ParseNatToString(n: nat)
    ensures ParseDigits(NatToString(n)) == Some(n)
    decreases n
  {
    if n >= 10 {
      var s := NatToString(n);
      ParseNatToString(n / 10);
      assert s[..|s| - 1] == NatToString(n / 10);
    }
  }

  /** Sending an integer as text and reading it back gives the integer. */
  lemma ParseIntToString(n: int)
    ensures ParseInt(IntToString(n)) == Some(n)
  {
    if n < 0 {
      ParseNatToString(-n);
      assert IntToString(n)[1..] == NatToString(-n);
    } else {
      ParseNatToString(n);
      assert NatToString(n)[0] != '-';
    }
  }

  /** A money amount in cents read from text: digits, optionally followed by a
      point and one or two fraction digits, optionally preceded by `-`. */
  function ParseCents(s: string): Option<int> {
    if s != [] && s[0] == '-' then
      match ParseUnsignedCents(s[1..])
      case None => None
      case Some(v) => Some(-(v as int))
    else
      match ParseUnsignedCents(s)
      case None => None
      case Some(v) => Some(v)
  }

  function ParseUnsignedCents(s: string): Option<nat> {
    if |s| >= 3 && s[|s| - 3] == '.' then
      match (ParseDigits(s[..|s| - 3]), ParseDigits(s[|s| - 2..]))
      case (Some(w), Some(f)) => Some(w * 100 + f)
      case _ => None
    else if |s| >= 2 && s[|s| - 2] == '.' then
      match (ParseDigits(s[..|s| - 2]), ParseDigits(s[|s| - 1..]))
      case (Some(w), Some(f)) => Some(w * 100 + f * 10)
      case _ => None
    else
      match ParseDigits(s)
      case None => None
      case Some(w) => Some(w * 100)
  }

  /** The digits of a natural number read as whole units of money. */
  lemma ParseUnsignedCentsNatToString(m: nat)
    ensures ParseUnsignedCents(NatToString(m)) == Some(m * 100)
  {
    var s := NatToString(m);
    ParseNatToString(m);
    assert |s| >= 3 ==> IsDigit(s[|s| - 3]);
    assert |s| >= 2 ==> IsDigit(s[|s| - 2]);
  }

  /** A whole number sent as text reads back, in a money column, as that
      many units: a hundred times as many cents. */
  lemma ParseCentsIntToString(n: int)
    ensures ParseCents(IntToString(n)) == Some(n * 100)
  {
    var s := IntToString(n);
    if n < 0 {
      var m: nat := -n;
      ParseUnsignedCentsNatToString(m);
      assert s[0] == '-' && s[1..] == NatToString(m);
      assert -(m * 100) == n * 100;
    } else {
      ParseUnsignedCentsNatToString(n);
      assert IsDigit(s[0]);
    }
  }
}

/** Sequence helpers shared by the table operations. */
module Seqs {

  /** The elements of `s` that satisfy `keep`, in their original order. */
  function Keep<T(!new)>(s: seq<T>, keep: T -> bool): (r: seq<T>)
    ensures |r| <= |s|
    ensures forall x :: x in r <==> x in s && keep(x)
    ensures forall x :: multiset(r)[x] == if keep(x) then multiset(s)[x] else 0
  {
    if s == [] then []
    else
      assert s == [s[0]] + s[1..];
      (if keep(s[0]) then [s[0]] else []) + Keep(s[1..], keep)
  }

  /** No two rows of `s` share a key. */
  predicate KeysDistinct<T, K(==)>(s: seq<T>, key: T -> K) {
    forall i, j :: 0 <= i < j < |s| ==> key(s[i]) != key(s[j])
  }

  lemma ConsKeysDistinct<T, K>(x: T, s: seq<T>, key: T -> K)
    requires KeysDistinct(s, key)
    requires forall y :: y in s ==> key(y) != key(x)
    ensures KeysDistinct([x] + s, key)
  {
    var r := [x] + s;
    forall i, j | 0 <= i < j < |r|
      ensures key(r[i]) != key(r[j])
    {
      assert r[j] == s[j - 1];
      if i > 0 {
        assert r[i] == s[i - 1];
      }
    }
  }

  /** Keys that are pairwise different stay so in any selection of the rows. */
  lemma {:induction false} KeepKeepsKeysDistinct<T(!new), K>(s: seq<T>, keep: T -> bool, key: T -> K)
    requires KeysDistinct(s, key)
    ensures KeysDistinct(Keep(s, keep), key)
  {
    if s != [] {
      assert KeysDistinct(s[1..], key) by {
        forall i, j | 0 <= i < j < |s| - 1
          ensures key(s[1..][i]) != key(s[1..][j])
        {
          assert s[1..][i] == s[i + 1] && s[1..][j] == s[j + 1];
        }
      }
      KeepKeepsKeysDistinct(s[1..], keep, key);
      var rest := Keep(s[1..], keep);
      if keep(s[0]) {
        forall y | y in rest
          ensures key(y) != key(s[0])
        {
          var k :| 0 <= k < |s| - 1 && s[1..][k] == y;
          assert s[k + 1] == y;
        }
        ConsKeysDistinct(s[0], rest, key);
      }
    }
  }

  /** Rows whose keys agree position by position are distinct together. */
  lemma SameKeysDistinct<T, K>(s: seq<T>, t: seq<T>, key: T -> K)
    requires KeysDistinct(s, key)
    requires |t| == |s| && forall i :: 0 <= i < |s| ==> key(t[i]) == key(s[i])
    ensures KeysDistinct(t, key)
  {
  }
}
