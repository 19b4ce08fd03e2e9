/**
 * Removing markup from a show summary: `summary.replace(/<[^>]*>/g, '')`.
 *
 * The pattern matches a `<`, then any run of characters other than `>`, then
 * a `>`; so a match runs from a `<` to the first `>` after it. The global
 * replace scans left to right, deletes each match and resumes right after it;
 * where no match starts, the character is kept and the scan moves on by one.
 */
module Markup {

  import opened Options

  /** No `>` at any position of `s` in [lo, hi). */
  predicate NoCloseIn(s: string, lo: nat, hi: nat)
  {
    forall m :: lo <= m < hi && m < |s| ==> s[m] != '>'
  }

  /** The first `>` in `s` at or after position `from`. */
  function FindClose(s: string, from: nat): (r: Option<nat>)
    ensures r.Some? ==> from <= r.value < |s| && s[r.value] == '>' && NoCloseIn(s, from, r.value)
    ensures r.None? ==> NoCloseIn(s, from, |s|)
    decreases |s| - from
  {
    if from >= |s| then None
    else if s[from] == '>' then Some(from)
    else FindClose(s, from + 1)
  }

  /** The global replace of `<[^>]*>` by the empty string. */
  function StripTags(s: string): (r: string)
    ensures |r| <= |s|
    ensures forall c :: c in r ==> c in s
    decreases |s|
  {
    if s == [] then []
    else
      var close := if s[0] == '<' then FindClose(s, 1) else None;
      if close.Some? then StripTags(s[close.value + 1..])
      else [s[0]] + StripTags(s[1..])
  }

  /** No `<` in `s` is followed, anywhere later, by a `>`: nothing left to strip. */
  predicate TagFree(s: string)
  {
    forall i, j :: 0 <= i < j < |s| && s[i] == '<' ==> s[j] != '>'
  }

  /*
   * A reference description of the result, position by position: a character
   * of the input is deleted exactly when it lies between a `<` and the first
   * `>` after that `<` (both included).
   */

  /** Position `k` of `s` is deleted: some `<` at or before `k` has no `>`
      between it and `k`, and a `>` comes at or after `k`. */
  ghost predicate InTag(s: string, k: nat)
  {
    (exists i :: 0 <= i <= k && i < |s| && s[i] == '<' && NoCloseIn(s, i, k))
    && !NoCloseIn(s, k, |s|)
  }

  /** The characters of `s` from position `k` on that are not deleted, in order. */
  ghost function OutsideTags(s: string, k: nat): (kept: string)
    decreases |s| - k
  {
    if k >= |s| then [] else (if InTag(s, k) then [] else [s[k]]) + OutsideTags(s, k + 1)
  }

  /** No tag that opens before position `k` is still open at `k` and closes later:
      the scan may restart at `k` as if `s` began there. */
  ghost predicate FreshAt(s: string, k: nat)
  {
    forall i :: 0 <= i < k && i < |s| && s[i] == '<' && NoCloseIn(s, i, k) ==> NoCloseIn(s, k, |s|)
  }

  lemma NoCloseInShift(s: string, k: nat, lo: nat, hi: nat)
    requires k <= lo <= hi <= |s|
    ensures NoCloseIn(s, lo, hi) <==> NoCloseIn(s[k..], lo - k, hi - k)
  {
    var t := s[k..];
    if NoCloseIn(s, lo, hi) {
      forall m | lo - k <= m < hi - k && m < |t| ensures t[m] != '>' {
        assert t[m] == s[m + k];
      }
    }
    if NoCloseIn(t, lo - k, hi - k) {
      forall m | lo <= m < hi && m < |s| ensures s[m] != '>' {
        assert s[m] == t[m - k];
      }
    }
  }

  lemma InTagShift(s: string, k: nat, m: nat)
    requires FreshAt(s, k) && k <= m < |s|
    ensures InTag(s, m) <==> InTag(s[k..], m - k)
  {
    var t := s[k..];
    NoCloseInShift(s, k, m, |s|);
    if InTag(s, m) {
      var i :| 0 <= i <= m && i < |s| && s[i] == '<' && NoCloseIn(s, i, m);
      if i < k {
        assert NoCloseIn(s, i, k);
        assert false;
      }
      NoCloseInShift(s, k, i, m);
      assert t[i - k] == '<';
    }
    if InTag(t, m - k) {
      var i :| 0 <= i <= m - k && i < |t| && t[i] == '<' && NoCloseIn(t, i, m - k);
      NoCloseInShift(s, k, i + k, m);
      assert s[i + k] == '<';
    }
  }

  lemma {:induction false} OutsideTagsShift(s: string, k: nat, m: nat)
    requires FreshAt(s, k) && k <= m <= |s|
    ensures OutsideTags(s, m) == OutsideTags(s[k..], m - k)
    decreases |s| - m
  {
    if m < |s| {
      var t := s[k..];
      InTagShift(s, k, m);
      OutsideTagsShift(s, k, m + 1);
      assert s[m] == t[m - k];
      assert OutsideTags(s, m) == (if InTag(s, m) then [] else [s[m]]) + OutsideTags(s, m + 1);
      assert OutsideTags(t, m - k) == (if InTag(t, m - k) then [] else [t[m - k]]) + OutsideTags(t, m - k + 1);
    }
  }

  /** Inside the tag that opens at 0 and closes at `j`, nothing survives. */
  lemma {:induction false} OutsideTagsSkipsTag(s: string, j: nat, a: nat)
    requires |s| > 0 && s[0] == '<' && FindClose(s, 1) == Some(j) && a <= j + 1
    ensures OutsideTags(s, a) == OutsideTags(s, j + 1)
    decreases j + 1 - a
  {
    if a <= j {
      assert NoCloseIn(s, 0, a);
      assert InTag(s, a);
      OutsideTagsSkipsTag(s, j, a + 1);
    }
  }

  /** A tag at the front: the reference keeps nothing of it and restarts after it. */
  lemma OutsideTagsAfterTag(s: string, j: nat)
    requires |s| > 0 && s[0] == '<' && FindClose(s, 1) == Some(j)
    ensures OutsideTags(s, 0) == OutsideTags(s[j + 1..], 0)
  {
    OutsideTagsSkipsTag(s, j, 0);
    assert FreshAt(s, j + 1);
    OutsideTagsShift(s, j + 1, j + 1);
  }

  /** No tag at the front: the reference keeps the first character and restarts after it. */
  lemma OutsideTagsAfterChar(s: string)
    requires |s| > 0 && (s[0] == '<' ==> FindClose(s, 1).None?)
    ensures OutsideTags(s, 0) == [s[0]] + OutsideTags(s[1..], 0)
  {
    assert !InTag(s, 0);
    assert FreshAt(s, 1);
    OutsideTagsShift(s, 1, 1);
  }

  /** The replace deletes exactly the characters that lie in a tag, and keeps
      every other character in its original order. */
  lemma {:induction false} StripTagsDeletesExactlyTags(s: string)
    ensures StripTags(s) == OutsideTags(s, 0)
    decreases |s|
  {
    if s != [] {
      var close := if s[0] == '<' then FindClose(s, 1) else None;
      if close.Some? {
        OutsideTagsAfterTag(s, close.value);
        StripTagsDeletesExactlyTags(s[close.value + 1..]);
      } else {
        OutsideTagsAfterChar(s);
        StripTagsDeletesExactlyTags(s[1..]);
      }
    }
  }

  /** The result never holds a `<` with a `>` after it. */
  lemma {:induction false} StripTagsIsTagFree(s: string)
    ensures TagFree(StripTags(s))
    decreases |s|
  {
    if s != [] {
      var close := if s[0] == '<' then FindClose(s, 1) else None;
      if close.Some? {
        StripTagsIsTagFree(s[close.value + 1..]);
      } else {
        StripTagsIsTagFree(s[1..]);
        var r := StripTags(s);
        var rest := StripTags(s[1..]);
        assert r == [s[0]] + rest;
        forall i, j | 0 <= i < j < |r| && r[i] == '<' ensures r[j] != '>' {
          if i == 0 {
            assert r[j] in rest && '>' !in s[1..];
          } else {
            assert r[i] == rest[i - 1] && r[j] == rest[j - 1];
          }
        }
      }
    }
  }

  /** Text with nothing to strip comes back unchanged. */
  lemma {:induction false} StripTagFreeIsIdentity(s: string)
    requires TagFree(s)
    ensures StripTags(s) == s
    decreases |s|
  {
    if s != [] {
      if s[0] == '<' {
        assert NoCloseIn(s, 1, |s|);
      }
      assert TagFree(s[1..]);
      StripTagFreeIsIdentity(s[1..]);
    }
  }

  /** Stripping twice is stripping once. */
  lemma StripTagsIdempotent(s: string)
    ensures StripTags(StripTags(s)) == StripTags(s)
  {
    StripTagsIsTagFree(s);
    StripTagFreeIsIdentity(StripTags(s));
  }

  /** Text with no `>` appended to `a` cannot close a tag of `a`: the first `>`
      from any position is the same as in `a`. */
  lemma {:induction false} FindCloseExtend(a: string, c: string, from: nat)
    requires '>' !in c
    ensures FindClose(a + c, from) == FindClose(a, from)
    decreases |a| + |c| - from
  {
    var s := a + c;
    if from < |a| {
      assert s[from] == a[from];
      FindCloseExtend(a, c, from + 1);
    } else if from < |s| {
      assert s[from] == c[from - |a|] && c[from - |a|] in c;
      FindCloseExtend(a, c, from + 1);
    }
  }

  /** Text without any `>` at the end survives whole, after what the text
      before it strips to. */
  lemma {:induction false} StripTagsNoCloseSuffix(a: string, c: string)
    requires '>' !in c
    ensures StripTags(a + c) == StripTags(a) + c
    decreases |a|
  {
    var s := a + c;
    if a == [] {
      assert s == c;
      forall i, j | 0 <= i < j < |c| && c[i] == '<' ensures c[j] != '>' {
        assert c[j] in c;
      }
      StripTagFreeIsIdentity(c);
    } else {
      assert s[0] == a[0];
      FindCloseExtend(a, c, 1);
      var close := if a[0] == '<' then FindClose(a, 1) else None;
      if close.Some? {
        var j := close.value;
        assert s[j + 1..] == a[j + 1..] + c;
        StripTagsNoCloseSuffix(a[j + 1..], c);
      } else {
        assert s[1..] == a[1..] + c;
        StripTagsNoCloseSuffix(a[1..], c);
        assert [a[0]] + (StripTags(a[1..]) + c) == ([a[0]] + StripTags(a[1..])) + c;
      }
    }
  }

  /** A `<` with no `>` anywhere after it survives, with everything after it;
      a `>` with no `<` before it survives too. */
  lemma StrayBracketsSurvive(a: string, b: string)
    ensures '>' !in b ==> StripTags(a + "<" + b) == StripTags(a) + "<" + b
    ensures '<' !in a ==> StripTags(a + ">" + b) == a + ">" + StripTags(b)
  {
    if '>' !in b {
      assert a + "<" + b == a + ("<" + b);
      assert '>' !in "<" + b;
      StripTagsNoCloseSuffix(a, "<" + b);
      assert StripTags(a) + ("<" + b) == StripTags(a) + "<" + b;
    }
    if '<' !in a {
      assert '<' !in a + ">";
      StripTagsPlainPrefix(a + ">", b);
    }
  }

  /** Text without any `<` passes through, and stripping goes on after it. */
  lemma {:induction false} StripTagsPlainPrefix(a: string, b: string)
    requires '<' !in a
    ensures StripTags(a + b) == a + StripTags(b)
    decreases |a|
  {
    if a != [] {
      var s := a + b;
      assert a[0] in a;
      assert s[0] == a[0] && s[1..] == a[1..] + b;
      assert StripTags(s) == [s[0]] + StripTags(s[1..]);
      StripTagsPlainPrefix(a[1..], b);
      assert a == [a[0]] + a[1..];
      assert [a[0]] + (a[1..] + StripTags(b)) == a + StripTags(b);
    } else {
      assert a + b == b;
    }
  }

  /** `t` is one complete tag: a `<`, no `>`, then a `>`. */
  predicate IsTag(t: string)
  {
    |t| >= 2 && t[0] == '<' && t[|t| - 1] == '>' && '>' !in t[..|t| - 1]
  }

  /** A complete tag at the front is deleted, whatever follows it. */
  lemma StripTagsTagPrefix(a: string, b: string)
    requires IsTag(a)
    ensures StripTags(a + b) == StripTags(b)
  {
    var s := a + b;
    assert s[|a| - 1] == '>';
    forall m | 1 <= m < |a| - 1 ensures s[m] != '>' {
      assert s[m] == a[..|a| - 1][m];
    }
    assert FindClose(s, 1) == Some(|a| - 1);
    assert s[|a|..] == b;
  }

  lemma ExampleInPieces()
    ensures "<p>Great <b>show</b></p>" == "<p>" + ("Great " + ("<b>" + ("show" + ("</b>" + "</p>"))))
  {
    var pieces := "<p>" + ("Great " + ("<b>" + ("show" + ("</b>" + "</p>"))));
    assert |pieces| == 24;
    forall i | 0 <= i < 24 ensures pieces[i] == "<p>Great <b>show</b></p>"[i] {
    }
  }

  /** The summary example: tags deleted, the text and its inner space kept. */
  lemma StripTagsExample()
    ensures StripTags("<p>Great <b>show</b></p>") == "Great show"
  {
    var r5 := "</p>" + [];
    var r4 := "</b>" + r5;
    var r3 := "show" + r4;
    var r2 := "<b>" + r3;
    var r1 := "Great " + r2;
    ExampleInPieces();
    assert "<p>Great <b>show</b></p>" == "<p>" + r1;
    calc {
      StripTags("<p>" + r1);
      { StripTagsTagPrefix("<p>", r1); }
      StripTags(r1);
      { StripTagsPlainPrefix("Great ", r2); }
      "Great " + StripTags(r2);
      { StripTagsTagPrefix("<b>", r3); }
      "Great " + StripTags(r3);
      { StripTagsPlainPrefix("show", r4); }
      "Great " + ("show" + StripTags(r4));
      { StripTagsTagPrefix("</b>", r5); }
      "Great " + ("show" + StripTags(r5));
      { StripTagsTagPrefix("</p>", []); }
      "Great " + ("show" + StripTags([]));
      "Great show";
    }
  }
}
