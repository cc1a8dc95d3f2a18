/** `cleanId` of js/recherche.js: `title.toLowerCase()` followed by
    `.replace(/[^a-z0-9]+/g, '-')`, which turns every maximal run of
    characters outside `[a-z0-9]` into one `-`.  Case folding is ASCII
    only; every other character is a separator. */
module Slug {

  predicate IsAlnum(c: char) {
    ('a' <= c <= 'z') || ('0' <= c <= '9')
  }

  /** The characters a slug is made of. */
  predicate IsSlugChar(c: char) {
    IsAlnum(c) || c == '-'
  }

  function LowerChar(c: char): (d: char)
    ensures 'A' <= c <= 'Z' ==> 'a' <= d <= 'z' && d as int == c as int + 32
    ensures !('A' <= c <= 'Z') ==> d == c
  {
    if 'A' <= c <= 'Z' then (c as int + 32) as char else c
  }

  function Lower(s: seq<char>): (t: seq<char>)
    ensures |t| == |s|
    ensures forall i :: 0 <= i < |s| ==> t[i] == LowerChar(s[i])
  {
    seq(|s|, i requires 0 <= i < |s| => LowerChar(s[i]))
  }

  /** No `-` follows another. */
  ghost predicate NoDoubleDash(s: seq<char>) {
    forall i :: 0 <= i < |s| - 1 ==> !(s[i] == '-' && s[i + 1] == '-')
  }

  /** A string `cleanId` can produce. */
  ghost predicate IsSlug(s: seq<char>) {
    (forall i :: 0 <= i < |s| ==> IsSlugChar(s[i])) && NoDoubleDash(s)
  }

  /** The alphanumeric characters of `s`, in order. */
  function Alnums(s: seq<char>): (t: seq<char>)
    ensures |t| <= |s|
  {
    if s == [] then []
    else (if IsAlnum(s[0]) then [s[0]] else []) + Alnums(s[1..])
  }

  /** The global replacement: `inRun` says that the previous character
      was a separator, already replaced by a `-` that absorbs this one. */
  function Collapse(s: seq<char>, inRun: bool): (t: seq<char>)
    ensures IsSlug(t)
    ensures inRun ==> t == [] || t[0] != '-'
    ensures Alnums(t) == Alnums(s)
    ensures |t| <= |s|
    ensures !inRun ==> (t == [] <==> s == [])
  {
    if s == [] then []
    else if IsAlnum(s[0]) then
      var t := [s[0]] + Collapse(s[1..], false);
      assert t[1..] == Collapse(s[1..], false);
      t
    else if inRun then Collapse(s[1..], true)
    else
      var t := ['-'] + Collapse(s[1..], true);
      assert t[1..] == Collapse(s[1..], true);
      t
  }

  function CleanId(s: seq<char>): (id: seq<char>)
    ensures IsSlug(id)
    ensures Alnums(id) == Alnums(Lower(s))
    ensures |id| <= |s|
    ensures id == [] <==> s == []
  {
    Collapse(Lower(s), false)
  }

  /** No character of `s` is kept: the whole of `s` is one separator run. */
  predicate NoAlnum(s: seq<char>) {
    forall i :: 0 <= i < |s| ==> !IsAlnum(s[i])
  }

  /** A non-empty run of separators becomes a single `-`, or nothing when
      it continues a run already replaced. */
  lemma {:induction false} CollapseSeparatorRun(s: seq<char>)
    requires NoAlnum(s)
    ensures Collapse(s, true) == []
    ensures s != [] ==> Collapse(s, false) == "-"
  {
    if s != [] {
      assert NoAlnum(s[1..]);
      CollapseSeparatorRun(s[1..]);
    }
  }

  /** Where an alphanumeric character stands between them, the two halves
      are replaced independently. */
  lemma {:induction false} CollapseConcatAt(x: seq<char>, y: seq<char>, inRun: bool)
    requires x != []
    requires IsAlnum(x[|x| - 1]) || (y != [] && IsAlnum(y[0]))
    ensures Collapse(x + y, inRun) == Collapse(x, inRun) + Collapse(y, false)
  {
    assert (x + y)[0] == x[0] && (x + y)[1..] == x[1..] + y;
    if |x| == 1 {
      assert x[1..] == [] && x[1..] + y == y;
      if !IsAlnum(x[0]) {
        assert Collapse(y, true) == Collapse(y, false);
      }
    } else {
      CollapseConcatAt(x[1..], y, !IsAlnum(x[0]));
    }
  }

  /** `replace` works piece by piece: cutting the input next to an
      alphanumeric character cuts the output at the same place. */
  lemma CollapseConcat(x: seq<char>, y: seq<char>)
    requires x == [] || y == [] || IsAlnum(x[|x| - 1]) || IsAlnum(y[0])
    ensures Collapse(x + y, false) == Collapse(x, false) + Collapse(y, false)
  {
    if x == [] {
      assert x + y == y;
    } else if y == [] {
      assert x + y == x;
    } else {
      CollapseConcatAt(x, y, false);
    }
  }

  lemma LowerConcat(x: seq<char>, y: seq<char>)
    ensures Lower(x + y) == Lower(x) + Lower(y)
  {
  }

  /** Two words joined by any non-empty run of characters that lower to
      separators get ids joined by exactly one `-`: "Data Science" and
      "data--science!" both give "data-science". */
  lemma CleanIdJoinsWords(x: seq<char>, sep: seq<char>, y: seq<char>)
    requires x != [] && IsAlnum(LowerChar(x[|x| - 1]))
    requires y != [] && IsAlnum(LowerChar(y[0]))
    requires sep != [] && NoAlnum(Lower(sep))
    ensures CleanId(x + sep + y) == CleanId(x) + "-" + CleanId(y)
  {
    LowerConcat(x + sep, y);
    LowerConcat(x, sep);
    var lx, ls, ly := Lower(x), Lower(sep), Lower(y);
    CollapseConcat(lx + ls, ly);
    CollapseConcat(lx, ls);
    CollapseSeparatorRun(ls);
  }

  predicate IsAsciiAlnum(c: char) {
    IsAlnum(c) || ('A' <= c <= 'Z')
  }

  /** The ASCII letters and digits of `s`, in order, in their own case. */
  function AsciiAlnums(s: seq<char>): seq<char> {
    if s == [] then []
    else (if IsAsciiAlnum(s[0]) then [s[0]] else []) + AsciiAlnums(s[1..])
  }

  /** The alphanumerics `cleanId` keeps are the ASCII letters and digits of
      its input, in order, letters lowercased. */
  lemma {:induction false} CleanIdKeepsAsciiAlnums(s: seq<char>)
    ensures Alnums(CleanId(s)) == Lower(AsciiAlnums(s))
  {
    AlnumsOfLower(s);
  }

  lemma {:induction false} AlnumsOfLower(s: seq<char>)
    ensures Alnums(Lower(s)) == Lower(AsciiAlnums(s))
  {
    if s != [] {
      assert Lower(s)[0] == LowerChar(s[0]);
      assert Lower(s)[1..] == Lower(s[1..]);
      AlnumsOfLower(s[1..]);
      var head := if IsAsciiAlnum(s[0]) then [s[0]] else [];
      assert Lower(head + AsciiAlnums(s[1..])) == Lower(head) + Lower(AsciiAlnums(s[1..]));
    }
  }

  /** A slug is left as it is: lowering changes none of its characters and
      every `-` is a run of length one. */
  lemma {:induction false} CollapseFixesSlugs(s: seq<char>, inRun: bool)
    requires IsSlug(s)
    requires inRun ==> s == [] || s[0] != '-'
    ensures Collapse(s, inRun) == s
  {
    if s != [] {
      assert IsSlug(s[1..]);
      if IsAlnum(s[0]) {
        CollapseFixesSlugs(s[1..], false);
      } else {
        CollapseFixesSlugs(s[1..], true);
      }
    }
  }

  lemma LowerFixesSlugs(s: seq<char>)
    requires IsSlug(s)
    ensures Lower(s) == s
  {
  }

  /** `cleanId` leaves exactly the slugs unchanged. */
  lemma CleanIdFixesExactlySlugs(s: seq<char>)
    ensures CleanId(s) == s <==> IsSlug(s)
  {
    if IsSlug(s) {
      LowerFixesSlugs(s);
      CollapseFixesSlugs(s, false);
    }
  }

  lemma CleanIdIdempotent(s: seq<char>)
    ensures CleanId(CleanId(s)) == CleanId(s)
  {
    CleanIdFixesExactlySlugs(CleanId(s));
  }

  /** Titles that differ only in punctuation share an identifier, so the
      checkbox ids of a checklist need not be distinct. */
  lemma CleanIdNotInjective()
    ensures CleanId("C++") == CleanId("C#") == "c-"
  {
  }
}
