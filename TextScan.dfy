/**
 * Hand-written scanners for the three string operations the content extractor
 * relies on: `str.strip()`, the search for `<text>(.*?)</text>` with DOTALL,
 * and the substitution of `<.*?>` by nothing (without DOTALL).
 */
module TextScan {
  import opened Wrappers

  // ---------------------------------------------------------------------
  // str.strip()
  // ---------------------------------------------------------------------

  /** The characters for which Python's `str.isspace()` holds. */
  predicate IsSpace(c: char) {
    || ('\t' <= c <= '\r')
    || ('\U{1C}' <= c <= '\U{1F}')
    || c == ' '
    || c == '\U{85}'
    || c == '\U{A0}'
    || c == '\U{1680}'
    || ('\U{2000}' <= c <= '\U{200A}')
    || c == '\U{2028}'
    || c == '\U{2029}'
    || c == '\U{202F}'
    || c == '\U{205F}'
    || c == '\U{3000}'
  }

  /** All characters of s are whitespace */
  predicate AllSpace(s: string) {
    forall i :: 0 <= i < |s| ==> IsSpace(s[i])
  }

  /** Neither the first nor the last character of s is whitespace */
  predicate NoEdgeSpace(s: string) {
    s == [] || (!IsSpace(s[0]) && !IsSpace(s[|s| - 1]))
  }

  /** The index of the first non-space character of s at or after i, or |s| */
  function SkipSpace(s: string, i: nat): (j: nat)
    requires i <= |s|
    ensures i <= j <= |s|
    ensures forall k :: i <= k < j ==> IsSpace(s[k])
    ensures j < |s| ==> !IsSpace(s[j])
    decreases |s| - i
  {
    if i < |s| && IsSpace(s[i]) then SkipSpace(s, i + 1) else i
  }

  /** The end of s[lo..hi] once its trailing whitespace is dropped */
  function SkipSpaceBack(s: string, lo: nat, hi: nat): (j: nat)
    requires lo <= hi <= |s|
    ensures lo <= j <= hi
    ensures forall k :: j <= k < hi ==> IsSpace(s[k])
    ensures lo < j ==> !IsSpace(s[j - 1])
    decreases hi
  {
    if lo < hi && IsSpace(s[hi - 1]) then SkipSpaceBack(s, lo, hi - 1) else hi
  }

  /** Python's `s.strip()`: s without its leading and trailing whitespace */
  function Trim(s: string): (r: string)
    ensures |r| <= |s|
    ensures NoEdgeSpace(r)
  {
    var a := SkipSpace(s, 0);
    s[a..SkipSpaceBack(s, a, |s|)]
  }

  /** Every string is whitespace, then its trimmed form, then whitespace */
  lemma TrimDecomposes(s: string)
    ensures var a, r := SkipSpace(s, 0), Trim(s);
      && a + |r| <= |s|
      && s == s[..a] + r + s[a + |r|..]
      && AllSpace(s[..a]) && AllSpace(s[a + |r|..])
  {
    var a := SkipSpace(s, 0);
    var b := SkipSpaceBack(s, a, |s|);
    assert Trim(s) == s[a..b];
    SpaceSlice(s, 0, a);
    SpaceSlice(s, b, |s|);
    assert s[..a] == s[0..a];
    assert s[b..] == s[b..|s|];
    assert s == s[..a] + s[a..b] + s[b..];
  }

  /** A run of whitespace characters of s is an all-whitespace slice */
  lemma SpaceSlice(s: string, i: nat, j: nat)
    requires i <= j <= |s|
    requires forall k :: i <= k < j ==> IsSpace(s[k])
    ensures AllSpace(s[i..j])
  {
    assert forall k :: 0 <= k < j - i ==> s[i..j][k] == s[i + k];
  }

  /** Trimming keeps no character that s lacks */
  lemma TrimKeepsAbsent(s: string, c: char)
    requires c !in s
    ensures c !in Trim(s)
  {
    var a := SkipSpace(s, 0);
    var r := Trim(s);
    assert forall k :: 0 <= k < |r| ==> r[k] == s[a + k];
  }

  /** SkipSpace stops exactly at the first non-space character */
  lemma {:induction false} SkipSpaceAt(s: string, i: nat, j: nat)
    requires i <= j <= |s|
    requires forall k :: i <= k < j ==> IsSpace(s[k])
    requires j < |s| ==> !IsSpace(s[j])
    ensures SkipSpace(s, i) == j
    decreases j - i
  {
    if i < j {
      SkipSpaceAt(s, i + 1, j);
    }
  }

  /** SkipSpaceBack stops exactly behind the last non-space character */
  lemma {:induction false} SkipSpaceBackAt(s: string, lo: nat, j: nat, hi: nat)
    requires lo <= j <= hi <= |s|
    requires forall k :: j <= k < hi ==> IsSpace(s[k])
    requires lo < j ==> !IsSpace(s[j - 1])
    ensures SkipSpaceBack(s, lo, hi) == j
    decreases hi
  {
    if j < hi {
      SkipSpaceBackAt(s, lo, j, hi - 1);
    }
  }

  /** Trimming is determined by its contract: whitespace around a core without edge whitespace is removed */
  lemma TrimUnique(w1: string, core: string, w2: string)
    requires AllSpace(w1) && AllSpace(w2) && NoEdgeSpace(core)
    ensures Trim(w1 + core + w2) == core
  {
    var s := w1 + core + w2;
    assert forall k :: 0 <= k < |w1| ==> s[k] == w1[k];
    assert forall k :: |w1 + core| <= k < |s| ==> s[k] == w2[k - |w1 + core|];
    if core == [] {
      SkipSpaceAt(s, 0, |s|);
      SkipSpaceBackAt(s, |s|, |s|, |s|);
    } else {
      assert s[|w1|] == core[0];
      assert s[|w1 + core| - 1] == core[|core| - 1];
      SkipSpaceAt(s, 0, |w1|);
      SkipSpaceBackAt(s, |w1|, |w1 + core|, |s|);
      assert s[|w1|..|w1 + core|] == core;
    }
  }

  /** Trimming is idempotent */
  lemma TrimIdempotent(s: string)
    ensures Trim(Trim(s)) == Trim(s)
  {
    TrimUnique([], Trim(s), []);
    assert [] + Trim(s) + [] == Trim(s);
  }

  // ---------------------------------------------------------------------
  // re.search(r'<text>(.*?)</text>', s, re.DOTALL)
  // ---------------------------------------------------------------------

  const OpenTag: string := "<text>"
  const CloseTag: string := "</text>"

  /** pat occurs in s at position i */
  predicate At(s: string, pat: string, i: int) {
    0 <= i && i + |pat| <= |s| && s[i..i + |pat|] == pat
  }

  /** The first position at or after `from` where pat occurs in s */
  function Find(s: string, pat: string, from: nat): (r: Option<nat>)
    ensures r.Some? ==> from <= r.value && At(s, pat, r.value)
    ensures r.Some? ==> forall k :: from <= k < r.value ==> !At(s, pat, k)
    ensures r.None? ==> forall k :: from <= k ==> !At(s, pat, k)
    decreases |s| - from
  {
    if from + |pat| > |s| then None
    else if At(s, pat, from) then Some(from)
    else Find(s, pat, from + 1)
  }

  /**
   * The bounds of the inner text of the first `<text>...</text>` span: the
   * leftmost `<text>` that some later `</text>` follows, and the nearest such
   * `</text>` (the lazy `.*?`, which with DOTALL also crosses line breaks).
   */
  function FindTextSpan(s: string): (r: Option<(nat, nat)>)
    ensures r.Some? ==>
      var (b, e) := r.value;
      && |OpenTag| <= b <= e
      && At(s, OpenTag, b - |OpenTag|) && At(s, CloseTag, e)
      && (forall k :: 0 <= k < b - |OpenTag| ==> !At(s, OpenTag, k))
      && (forall k :: b <= k < e ==> !At(s, CloseTag, k))
    ensures r.None? ==>
      forall i, j :: At(s, OpenTag, i) && At(s, CloseTag, j) ==> j < i + |OpenTag|
  {
    match Find(s, OpenTag, 0)
    case None => None
    case Some(i) =>
      match Find(s, CloseTag, i + |OpenTag|)
      case None => None
      case Some(j) => Some((i + |OpenTag|, j))
  }

  // ---------------------------------------------------------------------
  // re.sub(r'<.*?>', '', s)   (without DOTALL: `.` does not match '\n')
  // ---------------------------------------------------------------------

  /** The text of s before its first line break */
  function LineHead(s: string): (r: string)
    ensures |r| <= |s| && r == s[..|r|] && '\n' !in r
    ensures |r| < |s| ==> s[|r|] == '\n'
  {
    if s == [] || s[0] == '\n' then [] else [s[0]] + LineHead(s[1..])
  }

  /**
   * Where the `.*?>` after a `<` can end: the offset in t of the first '>'
   * that no line break precedes.
   */
  function CloseOnLine(t: string): (r: Option<nat>)
    ensures r.Some? ==> r.value < |t| && t[r.value] == '>' && r.value < |LineHead(t)|
    ensures r.Some? ==> '>' !in t[..r.value]
    ensures r.None? <==> '>' !in LineHead(t)
  {
    if t == [] || t[0] == '\n' then None
    else if t[0] == '>' then Some(0)
    else
      assert LineHead(t) == [t[0]] + LineHead(t[1..]);
      match CloseOnLine(t[1..])
      case None => None
      case Some(q) => assert t[..q + 1] == [t[0]] + t[1..][..q]; Some(q + 1)
  }

  /** Removes, left to right, every `<` up to the nearest `>` on the same line */
  function StripTags(s: string): (r: string)
    ensures |r| <= |s|
    decreases |s|
  {
    if s == [] then []
    else if s[0] == '<' then
      match CloseOnLine(s[1..])
      case Some(q) => StripTags(s[q + 2..])
      case None => [s[0]] + StripTags(s[1..])
    else [s[0]] + StripTags(s[1..])
  }

  /** No `<` of s has a `>` after it on the same line, so `<.*?>` never matches */
  predicate TagFree(s: string) {
    forall i :: 0 <= i < |s| && s[i] == '<' ==> '>' !in LineHead(s[i + 1..])
  }

  /** Stripping keeps "no '>' before the first line break" */
  lemma {:induction false} StripTagsKeepsLineHead(s: string)
    requires '>' !in LineHead(s)
    ensures '>' !in LineHead(StripTags(s))
    decreases |s|
  {
    if s != [] && s[0] != '\n' {
      assert LineHead(s) == [s[0]] + LineHead(s[1..]);
      if s[0] == '<' {
        assert '>' !in LineHead(s[1..]);
        assert CloseOnLine(s[1..]).None?;
      }
      StripTagsKeepsLineHead(s[1..]);
    }
  }

  /** After stripping no tag is left */
  lemma {:induction false} StripTagsTagFree(s: string)
    ensures TagFree(StripTags(s))
    decreases |s|
  {
    if s == [] {
    } else if s[0] == '<' && CloseOnLine(s[1..]).Some? {
      StripTagsTagFree(s[CloseOnLine(s[1..]).value + 2..]);
    } else {
      var rest := StripTags(s[1..]);
      StripTagsTagFree(s[1..]);
      var r := [s[0]] + rest;
      assert StripTags(s) == r;
      forall i | 0 <= i < |r| && r[i] == '<' ensures '>' !in LineHead(r[i + 1..]) {
        if i == 0 {
          StripTagsKeepsLineHead(s[1..]);
          assert r[1..] == rest;
        } else {
          assert r[i + 1..] == rest[i..];
          assert rest[i - 1] == '<';
        }
      }
    }
  }

  /** A tag-free string is left as it is */
  lemma {:induction false} StripTagsOfTagFree(s: string)
    requires TagFree(s)
    ensures StripTags(s) == s
    decreases |s|
  {
    if s != [] {
      assert TagFree(s[1..]) by {
        forall i | 0 <= i < |s[1..]| && s[1..][i] == '<' ensures '>' !in LineHead(s[1..][i + 1..]) {
          assert s[1..][i + 1..] == s[i + 2..];
          assert s[i + 1] == '<';
        }
      }
      if s[0] == '<' {
        assert '>' !in LineHead(s[1..]);
      }
      StripTagsOfTagFree(s[1..]);
      assert s == [s[0]] + s[1..];
    }
  }

  /** Stripping tags is idempotent */
  lemma StripTagsIdempotent(s: string)
    ensures StripTags(StripTags(s)) == StripTags(s)
  {
    StripTagsTagFree(s);
    StripTagsOfTagFree(StripTags(s));
  }

  /** A string without '<' is left as it is */
  lemma StripTagsNoAngle(s: string)
    requires '<' !in s
    ensures StripTags(s) == s
  {
    assert forall i :: 0 <= i < |s| ==> s[i] != '<';
    StripTagsOfTagFree(s);
  }

  /** Text before the first '<' is kept as it is */
  lemma {:induction false} StripTagsKeepsPlainPrefix(u: string, v: string)
    requires '<' !in u
    ensures StripTags(u + v) == u + StripTags(v)
    decreases |u|
  {
    if u == [] {
      assert u + v == v;
    } else {
      assert (u + v)[0] == u[0] != '<' && (u + v)[1..] == u[1..] + v;
      assert u == [u[0]] + u[1..];
      StripTagsKeepsPlainPrefix(u[1..], v);
      assert StripTags(u + v) == [u[0]] + StripTags(u[1..] + v);
    }
  }

  /** A `<` with no `>` after it on its line is kept, and stripping continues behind it */
  lemma StripTagsKeepsOpenAngle(x: string)
    requires '>' !in LineHead(x)
    ensures StripTags("<" + x) == "<" + StripTags(x)
  {
    var s := "<" + x;
    assert s[0] == '<' && s[1..] == x;
    assert CloseOnLine(x).None?;
  }

  /** A tag `<x>` whose inner text has no '>' and no line break is removed entirely */
  lemma StripTagsRemovesTag(x: string, v: string)
    requires '>' !in x && '\n' !in x
    ensures StripTags("<" + x + ">" + v) == StripTags(v)
  {
    var s := "<" + x + ">" + v;
    var t := x + ">" + v;
    assert s[1..] == t;
    CloseOnLineAfter(x, v);
    assert s[|x| + 2..] == v;
  }

  /** In `x>v`, with no '>' and no line break in x, `.*?>` ends at the '>' after x */
  lemma {:induction false} CloseOnLineAfter(x: string, v: string)
    requires '>' !in x && '\n' !in x
    ensures CloseOnLine(x + ">" + v) == Some(|x|)
    decreases |x|
  {
    if x != [] {
      assert (x + ">" + v)[1..] == x[1..] + ">" + v;
      assert x[0] in x;
      assert '>' !in x[1..] && '\n' !in x[1..] by { assert forall c :: c in x[1..] ==> c in x; }
      CloseOnLineAfter(x[1..], v);
    }
  }

  /** The line head of a prefix holds only characters of the longer string's line head */
  lemma {:induction false} LineHeadOfPrefix(p: string, q: string)
    requires |p| <= |q| && p == q[..|p|]
    ensures forall c :: c in LineHead(p) ==> c in LineHead(q)
  {
    if p != [] && p[0] != '\n' {
      assert q[0] == p[0];
      assert p[1..] == q[1..][..|p| - 1];
      LineHeadOfPrefix(p[1..], q[1..]);
      assert LineHead(p) == [p[0]] + LineHead(p[1..]);
      assert LineHead(q) == [q[0]] + LineHead(q[1..]);
    }
  }

  /** Trimming a tag-free string leaves it tag-free */
  lemma TrimKeepsTagFree(s: string)
    requires TagFree(s)
    ensures TagFree(Trim(s))
  {
    var a := SkipSpace(s, 0);
    SliceTagFree(s, a, SkipSpaceBack(s, a, |s|));
  }

  /** Every slice of a tag-free string is tag-free */
  lemma SliceTagFree(s: string, a: nat, b: nat)
    requires a <= b <= |s| && TagFree(s)
    ensures TagFree(s[a..b])
  {
    var t := s[a..b];
    forall i | 0 <= i < |t| && t[i] == '<' ensures '>' !in LineHead(t[i + 1..]) {
      SliceTagFreeAt(s, a, b, i);
    }
  }

  lemma SliceTagFreeAt(s: string, a: nat, b: nat, i: nat)
    requires a <= b <= |s| && TagFree(s) && i < b - a && s[a + i] == '<'
    ensures '>' !in LineHead(s[a..b][i + 1..])
  {
    var q := s[a + i + 1..];
    var p := s[a..b][i + 1..];
    assert p == q[..|p|];
    assert '>' !in LineHead(q);
    LineHeadOfPrefix(p, q);
  }
}
