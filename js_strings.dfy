/**
 * The JavaScript string built-ins the search page relies on, as functions on
 * strings: `String.prototype.trim`, `Array.prototype.join`, the decimal text a
 * template literal gives a non-negative integer, and the split that undoes a join.
 */
module JsStrings {

  import opened Options

  /** The characters `trim` removes: ECMAScript WhiteSpace and LineTerminator. */
  predicate IsWhiteSpace(c: char)
  {
    c == '\t' || c == '\n' || c == '\U{000B}' || c == '\U{000C}' || c == '\r' || c == ' '
    || c == '\U{00A0}' || c == '\U{1680}' || ('\U{2000}' <= c <= '\U{200A}')
    || c == '\U{2028}' || c == '\U{2029}' || c == '\U{202F}' || c == '\U{205F}'
    || c == '\U{3000}' || c == '\U{FEFF}'
  }

  /** Every character of `s` is white space (vacuously true of the empty string). */
  predicate IsBlank(s: string)
  {
    forall i :: 0 <= i < |s| ==> IsWhiteSpace(s[i])
  }

  /** `s` with its leading white space removed. */
  function TrimStart(s: string): (r: string)
    ensures |r| <= |s| && r == s[|s| - |r|..]
    ensures r == [] || !IsWhiteSpace(r[0])
    ensures IsBlank(s[..|s| - |r|])
    decreases |s|
  {
    if |s| > 0 && IsWhiteSpace(s[0]) then TrimStart(s[1..]) else s
  }

  /** `s` with its trailing white space removed. */
  function TrimEnd(s: string): (r: string)
    ensures |r| <= |s| && r == s[..|r|]
    ensures r == [] || !IsWhiteSpace(r[|r| - 1])
    ensures IsBlank(s[|r|..])
    decreases |s|
  {
    if |s| > 0 && IsWhiteSpace(s[|s| - 1]) then TrimEnd(s[..|s| - 1]) else s
  }

  /** `s.trim()`: a piece of `s` that neither starts nor ends with white space. */
  function Trim(s: string): (r: string)
    ensures |r| <= |s|
    ensures r == [] || (!IsWhiteSpace(r[0]) && !IsWhiteSpace(r[|r| - 1]))
  {
    var t := TrimStart(s);
    var u := TrimEnd(t);
    assert u != [] ==> u[0] == t[0];
    u
  }

  /** `!s.trim()` holds exactly when `s` is empty or only white space. */
  lemma TrimEmptyIffBlank(s: string)
    ensures Trim(s) == [] <==> IsBlank(s)
  {
    var t := TrimStart(s);
    if Trim(s) == [] {
      assert t[0..] == t;
      assert s[..|s| - |t|] == s;
    }
  }

  /** `parts.join(sep)`: the parts in order with `sep` between neighbours. */
  function Join(parts: seq<string>, sep: string): (r: string)
    ensures |parts| == 0 ==> r == []
    ensures |parts| == 1 ==> r == parts[0]
    ensures |parts| > 0 ==> parts[0] <= r
    decreases |parts|
  {
    if |parts| == 0 then []
    else if |parts| == 1 then parts[0]
    else parts[0] + sep + Join(parts[1..], sep)
  }

  /** Joining one more part appends the separator and that part. With the cases
      of no part and of one part, this determines the joined text of every list. */
  lemma {:induction false} JoinAppend(parts: seq<string>, p: string, sep: string)
    requires |parts| > 0
    ensures Join(parts + [p], sep) == Join(parts, sep) + sep + p
    decreases |parts|
  {
    if |parts| > 1 {
      assert (parts + [p])[1..] == parts[1..] + [p];
      JoinAppend(parts[1..], p, sep);
      assert parts[0] + sep + (Join(parts[1..], sep) + sep + p)
          == (parts[0] + sep + Join(parts[1..], sep)) + sep + p;
    } else {
      assert (parts + [p])[1..] == [p];
    }
  }

  /** `sep` occurs in `s` starting at position `m`. */
  predicate SeparatorAt(s: string, sep: string, m: nat)
  {
    m + |sep| <= |s| && s[m..m + |sep|] == sep
  }

  /** The first position at or after `from` where `sep` occurs in `s`. */
  function FindSeparator(s: string, sep: string, from: nat): (r: Option<nat>)
    requires |sep| > 0
    ensures r.Some? ==> from <= r.value && SeparatorAt(s, sep, r.value)
    ensures r.Some? ==> forall m: nat :: from <= m < r.value ==> !SeparatorAt(s, sep, m)
    ensures r.None? ==> forall m: nat :: from <= m ==> !SeparatorAt(s, sep, m)
    decreases |s| - from
  {
    if from + |sep| > |s| then None
    else if s[from..from + |sep|] == sep then Some(from)
    else FindSeparator(s, sep, from + 1)
  }

  /** `s.split(sep)`: the pieces of `s` between occurrences of `sep`. */
  function Split(s: string, sep: string): (parts: seq<string>)
    requires |sep| > 0
    ensures |parts| > 0
    decreases |s|
  {
    match FindSeparator(s, sep, 0)
    case None => [s]
    case Some(i) => [s[..i]] + Split(s[i + |sep|..], sep)
  }

  /** Splitting a joined list gives the list back, provided no part contains the
      separator's first character. */
  lemma {:induction false} SplitJoin(parts: seq<string>, sep: string)
    requires |sep| > 0 && |parts| > 0
    ensures (forall p :: p in parts ==> sep[0] !in p) ==> Split(Join(parts, sep), sep) == parts
    decreases |parts|
  {
    if forall p :: p in parts ==> sep[0] !in p {
      SplitJoinNoSeparator(parts, sep);
    }
  }

  lemma {:induction false} SplitJoinNoSeparator(parts: seq<string>, sep: string)
    requires |sep| > 0 && |parts| > 0
    requires forall p :: p in parts ==> sep[0] !in p
    ensures Split(Join(parts, sep), sep) == parts
    decreases |parts|
  {
    var s := Join(parts, sep);
    var p := parts[0];
    assert p in parts;
    if |parts| == 1 {
      assert s == p;
      forall m: nat | m < |p| ensures !SeparatorAt(s, sep, m) {
        assert p[m] in p;
      }
      assert FindSeparator(s, sep, 0).None?;
    } else {
      var rest := Join(parts[1..], sep);
      assert s == p + sep + rest;
      assert s[|p|..|p| + |sep|] == sep;
      assert SeparatorAt(s, sep, |p|);
      forall m: nat | m < |p| ensures !SeparatorAt(s, sep, m) {
        assert p[m] in p && s[m] == p[m];
      }
      assert FindSeparator(s, sep, 0) == Some(|p|);
      assert s[..|p|] == p;
      assert s[|p| + |sep|..] == rest;
      SplitJoinNoSeparator(parts[1..], sep);
    }
  }

  /** The decimal digit character for `d`. */
  function DigitChar(d: nat): (c: char)
    requires d < 10
    ensures '0' <= c <= '9' && c as int - '0' as int == d
  {
    (d + '0' as int) as char
  }

  /** All characters of `s` are decimal digits. */
  predicate IsDigits(s: string)
  {
    forall i :: 0 <= i < |s| ==> '0' <= s[i] <= '9'
  }

  /** The text `${n}` gives a non-negative integer: its decimal digits, without
      leading zeros. */
  function NatToString(n: nat): (s: string)
    ensures |s| > 0 && IsDigits(s)
    ensures |s| > 1 ==> s[0] != '0'
    decreases n
  {
    if n < 10 then [DigitChar(n)] else NatToString(n / 10) + [DigitChar(n % 10)]
  }

  /** The value of a string of decimal digits. */
  function ParseDigits(s: string): (n: nat)
    requires IsDigits(s)
    decreases |s|
  {
    if s == [] then 0 else ParseDigits(s[..|s| - 1]) * 10 + (s[|s| - 1] as int - '0' as int)
  }

  /** Reading back the decimal text of `n` gives `n`, so distinct numbers have distinct texts. */
  lemma {:induction false} ParseNatToString(n: nat)
    ensures ParseDigits(NatToString(n)) == n
    decreases n
  {
    if n >= 10 {
      var s := NatToString(n);
      assert s[..|s| - 1] == NatToString(n / 10);
      ParseNatToString(n / 10);
    }
  }
}
