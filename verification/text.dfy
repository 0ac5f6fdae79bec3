/** Python's string primitives used by the server, over `string` = `seq<char>`:
    `str.strip()`, `str.strip(chars)`, `str.split(sep)` for a one-character
    separator, and the join that inverts the split. */
module Text {

  import Seqs

  /** The characters Python's argument-less `str.strip()` removes: exactly the
      characters for which `str.isspace()` holds. */
  const Whitespace: set<char> := {
    '\t', '\n', '\U{0B}', '\U{0C}', '\r',
    '\U{1C}', '\U{1D}', '\U{1E}', '\U{1F}', ' ',
    '\U{85}', '\U{A0}', '\U{1680}',
    '\U{2000}', '\U{2001}', '\U{2002}', '\U{2003}', '\U{2004}', '\U{2005}',
    '\U{2006}', '\U{2007}', '\U{2008}', '\U{2009}', '\U{200A}',
    '\U{2028}', '\U{2029}', '\U{202F}', '\U{205F}', '\U{3000}'
  }

  /** Every character of `t` is one of `cs`. */
  predicate AllIn(t: string, cs: set<char>) {
    forall i :: 0 <= i < |t| ==> t[i] in cs
  }

  /** `t` neither starts nor ends with a character of `cs`. */
  predicate Stripped(t: string, cs: set<char>) {
    |t| == 0 || (t[0] !in cs && t[|t| - 1] !in cs)
  }

  /** Length of the longest prefix of `s` made of characters of `cs`. */
  function LeadLen(s: string, cs: set<char>): (n: nat)
    ensures n <= |s|
    ensures forall i :: 0 <= i < n ==> s[i] in cs
    ensures n < |s| ==> s[n] !in cs
  {
    if |s| == 0 || s[0] !in cs then 0 else 1 + LeadLen(s[1..], cs)
  }

  /** Length of the longest suffix of `s` made of characters of `cs`. */
  function TrailLen(s: string, cs: set<char>): (n: nat)
    ensures n <= |s|
    ensures forall i :: |s| - n <= i < |s| ==> s[i] in cs
    ensures n < |s| ==> s[|s| - n - 1] !in cs
  {
    if |s| == 0 || s[|s| - 1] !in cs then 0 else 1 + TrailLen(s[..|s| - 1], cs)
  }

  /** Python's `s.strip(chars)` with `chars` given as the set `cs`: the part
      of `s` left after removing every leading and then every trailing
      character of `cs`. */
  function StripChars(s: string, cs: set<char>): (r: string)
    ensures Stripped(r, cs)
    ensures |r| <= |s|
  {
    var t := s[LeadLen(s, cs)..];
    t[..|t| - TrailLen(t, cs)]
  }

  /** Python's `s.strip()`. */
  function Strip(s: string): (r: string)
    ensures Stripped(r, Whitespace)
  {
    StripChars(s, Whitespace)
  }

  /** What `StripChars` removed is `cs` characters only: the result sits in
      `s` between a `cs`-only prefix and a `cs`-only suffix. */
  lemma StripCharsMargins(s: string, cs: set<char>)
    ensures var r, lo := StripChars(s, cs), LeadLen(s, cs);
      && lo + |r| <= |s|
      && r == s[lo..lo + |r|]
      && (forall i :: 0 <= i < lo ==> s[i] in cs)
      && (forall i :: lo + |r| <= i < |s| ==> s[i] in cs)
  {
    var lo := LeadLen(s, cs);
    var t := s[lo..];
    var tl := TrailLen(t, cs);
    assert forall i :: lo + |t| - tl <= i < |s| ==> s[i] == t[i - lo];
  }

  /** `LeadLen` is pinned down by its contract: a `cs`-only prefix followed
      by the end of `s` or a character outside `cs`. */
  lemma LeadLenExact(s: string, cs: set<char>, i: nat)
    requires i <= |s|
    requires forall k :: 0 <= k < i ==> s[k] in cs
    requires i < |s| ==> s[i] !in cs
    ensures LeadLen(s, cs) == i
  {
  }

  /** `TrailLen` is pinned down by its contract in the same way. */
  lemma TrailLenExact(s: string, cs: set<char>, h: nat)
    requires h <= |s|
    requires forall k :: |s| - h <= k < |s| ==> s[k] in cs
    requires h < |s| ==> s[|s| - h - 1] !in cs
    ensures TrailLen(s, cs) == h
  {
  }

  /** Removing characters of `cs` from the two ends is determined by where the
      margins lie: any split of `s` into a `cs`-only prefix, a middle that
      neither starts nor ends with a `cs` character, and a `cs`-only suffix
      has `StripChars(s, cs)` as its middle. */
  lemma StripCharsUnique(s: string, cs: set<char>, i: nat, j: nat)
    requires i <= j <= |s|
    requires forall k :: 0 <= k < i ==> s[k] in cs
    requires forall k :: j <= k < |s| ==> s[k] in cs
    requires Stripped(s[i..j], cs)
    ensures StripChars(s, cs) == s[i..j]
  {
    if i == j {
      LeadLenExact(s, cs, |s|);
    } else {
      assert s[i] == s[i..j][0];
      LeadLenExact(s, cs, i);
      var t := s[i..];
      assert forall k :: j - i <= k < |t| ==> t[k] == s[i + k];
      assert t[j - i - 1] == s[i..j][j - 1 - i];
      TrailLenExact(t, cs, |s| - j);
    }
  }

  /** A string that already neither starts nor ends with a `cs` character is
      left as it is. */
  lemma StripCharsKeepsStripped(t: string, cs: set<char>)
    requires Stripped(t, cs)
    ensures StripChars(t, cs) == t
  {
    assert t[0..|t|] == t;
    StripCharsUnique(t, cs, 0, |t|);
  }

  /** Stripping twice is stripping once. */
  lemma StripCharsIdempotent(s: string, cs: set<char>)
    ensures StripChars(StripChars(s, cs), cs) == StripChars(s, cs)
  {
    StripCharsKeepsStripped(StripChars(s, cs), cs);
  }

  /** Python's `s.split(sep)` for a single-character separator: the maximal
      runs between separators, including empty ones, left to right. */
  function Split(s: string, sep: char): (parts: seq<string>)
    ensures |parts| >= 1
    ensures forall k :: 0 <= k < |parts| ==> sep !in parts[k]
  {
    if |s| == 0 then [""]
    else
      var rest := Split(s[1..], sep);
      if s[0] == sep then [""] + rest
      else [[s[0]] + rest[0]] + rest[1..]
  }

  /** Python's `sep.join(parts)`. */
  function Join(parts: seq<string>, sep: char): string {
    if |parts| == 0 then ""
    else if |parts| == 1 then parts[0]
    else parts[0] + [sep] + Join(parts[1..], sep)
  }

  /** Prepending a character to the first part prepends it to the join. */
  lemma JoinConsFirst(c: char, parts: seq<string>, sep: char)
    requires |parts| >= 1
    ensures Join([[c] + parts[0]] + parts[1..], sep) == [c] + Join(parts, sep)
  {
    var ps := [[c] + parts[0]] + parts[1..];
    assert ps[1..] == parts[1..];
  }

  /** Joining the pieces of a split gives back the original string. */
  lemma {:induction false} JoinSplit(s: string, sep: char)
    ensures Join(Split(s, sep), sep) == s
  {
    if |s| > 0 {
      var rest := Split(s[1..], sep);
      JoinSplit(s[1..], sep);
      if s[0] == sep {
        assert ([""] + rest)[1..] == rest;
      } else {
        JoinConsFirst(s[0], rest, sep);
      }
      assert s == [s[0]] + s[1..];
    }
  }

  /** A separator-free string splits into itself. */
  lemma {:induction false} SplitNoSep(a: string, sep: char)
    requires sep !in a
    ensures Split(a, sep) == [a]
  {
    if |a| > 0 {
      SplitNoSep(a[1..], sep);
      assert a == [a[0]] + a[1..];
    }
  }

  /** Splitting `a + sep + b` with a separator-free `a` yields `a` first. */
  lemma {:induction false} SplitAtSep(a: string, b: string, sep: char)
    requires sep !in a
    ensures Split(a + [sep] + b, sep) == [a] + Split(b, sep)
  {
    var s := a + [sep] + b;
    if |a| == 0 {
      assert s[1..] == b;
    } else {
      assert s[1..] == a[1..] + [sep] + b;
      SplitAtSep(a[1..], b, sep);
      assert a == [a[0]] + a[1..];
    }
  }

  /** Splitting the join of separator-free parts gives back the parts. */
  lemma {:induction false} SplitJoin(parts: seq<string>, sep: char)
    requires |parts| >= 1
    requires forall k :: 0 <= k < |parts| ==> sep !in parts[k]
    ensures Split(Join(parts, sep), sep) == parts
  {
    if |parts| == 1 {
      SplitNoSep(parts[0], sep);
    } else {
      SplitJoin(parts[1..], sep);
      SplitAtSep(parts[0], Join(parts[1..], sep), sep);
      assert parts == [parts[0]] + parts[1..];
    }
  }

  /** Strips every element: Python's `[x.strip() for x in xs]`. */
  function StripEach(xs: seq<string>): (r: seq<string>)
    ensures |r| == |xs|
    ensures forall k :: 0 <= k < |r| ==> r[k] == Strip(xs[k])
  {
    seq(|xs|, k requires 0 <= k < |xs| => Strip(xs[k]))
  }

  /** Python's truthiness of a string. */
  const NonEmpty: string -> bool := (x: string) => x != ""

  /** Python's `[x.strip() for x in xs if x.strip()]`: the stripped elements
      that are not empty, in order, duplicates kept. */
  function TrimmedNonEmpty(xs: seq<string>): (r: seq<string>)
    ensures forall k :: 0 <= k < |r| ==> r[k] != ""
    ensures forall k :: 0 <= k < |r| ==> Strip(r[k]) == r[k]
  {
    var r := Seqs.Filter(StripEach(xs), NonEmpty);
    assert forall k :: 0 <= k < |r| ==> r[k] in StripEach(xs);
    StrippedAll(xs);
    r
  }

  /** Every element of `StripEach(xs)` is a fixed point of `Strip`. */
  lemma StrippedAll(xs: seq<string>)
    ensures forall x :: x in StripEach(xs) ==> Strip(x) == x
  {
    forall x | x in StripEach(xs) ensures Strip(x) == x {
      var k :| 0 <= k < |xs| && StripEach(xs)[k] == x;
      StripCharsIdempotent(xs[k], Whitespace);
    }
  }
  /** An element of `TrimmedNonEmpty(xs)` is exactly a non-empty result of
      stripping some element of `xs`. */
  lemma TrimmedNonEmptyMember(xs: seq<string>, x: string)
    ensures x in TrimmedNonEmpty(xs) <==> x != "" && exists j :: 0 <= j < |xs| && Strip(xs[j]) == x
  {
    var stripped := StripEach(xs);
    Seqs.FilterMember(stripped, NonEmpty, x);
    if x in stripped {
      var j :| 0 <= j < |stripped| && stripped[j] == x;
      assert Strip(xs[j]) == x;
    }
    if exists j :: 0 <= j < |xs| && Strip(xs[j]) == x {
      var j :| 0 <= j < |xs| && Strip(xs[j]) == x;
      assert stripped[j] == x;
    }
  }

  /** Elements that are already stripped and non-empty pass through unchanged. */
  lemma TrimmedNonEmptyKeepsClean(xs: seq<string>)
    requires forall k :: 0 <= k < |xs| ==> xs[k] != "" && Strip(xs[k]) == xs[k]
    ensures TrimmedNonEmpty(xs) == xs
  {
    assert StripEach(xs) == xs;
    Seqs.FilterKeepsAll(xs, NonEmpty);
  }
  /** `TrimmedNonEmpty(xs)` is the order-preserving subsequence of the
      stripped elements that are not empty: the k-th result is the stripped
      element at the k-th kept position, positions ascend, and a position is
      kept if and only if its element does not strip to "". */
  lemma TrimmedNonEmptySelects(xs: seq<string>)
    ensures var r, idx := TrimmedNonEmpty(xs), Seqs.Kept(StripEach(xs), NonEmpty);
      && |r| == |idx|
      && Seqs.Ascending(idx)
      && (forall k :: 0 <= k < |idx| ==> idx[k] < |xs| && r[k] == Strip(xs[idx[k]]))
      && (forall j :: 0 <= j < |xs| ==> (j in idx <==> Strip(xs[j]) != ""))
  {
    Seqs.FilterSelects(StripEach(xs), NonEmpty);
  }

  /** Trimming never deduplicates: a non-empty value occurs in the result as
      often as elements of `xs` strip to it. */
  lemma {:induction false} TrimmedNonEmptyCount(xs: seq<string>, v: string)
    requires v != ""
    ensures multiset(TrimmedNonEmpty(xs))[v] == multiset(StripEach(xs))[v]
  {
    Seqs.FilterCount(StripEach(xs), NonEmpty, v);
  }
  /** Stripping removes exactly the `cs` padding around a middle part that
      neither starts nor ends with a `cs` character. */
  lemma StripCharsPadded(pre: string, mid: string, post: string, cs: set<char>)
    requires AllIn(pre, cs) && AllIn(post, cs)
    requires Stripped(mid, cs)
    ensures StripChars(pre + mid + post, cs) == mid
  {
    var s := pre + mid + post;
    assert forall k :: 0 <= k < |pre| ==> s[k] == pre[k];
    assert forall k :: |pre| + |mid| <= k < |s| ==> s[k] == post[k - |pre| - |mid|];
    assert s[|pre|..|pre| + |mid|] == mid;
    StripCharsUnique(s, cs, |pre|, |pre| + |mid|);
  }

  /** The whitespace case of `StripCharsPadded`. */
  lemma StripPadded(pre: string, mid: string, post: string)
    requires AllIn(pre, Whitespace) && AllIn(post, Whitespace)
    requires Stripped(mid, Whitespace)
    ensures Strip(pre + mid + post) == mid
  {
    StripCharsPadded(pre, mid, post, Whitespace);
  }

  /** `s` is `r` with a prefix and a suffix made only of `cs` characters. */
  ghost predicate PaddedBy(s: string, r: string, cs: set<char>) {
    exists pre, post :: s == pre + r + post && AllIn(pre, cs) && AllIn(post, cs)
  }

  /** `StripChars` only removes padding, and any superset of the stripped
      characters describes it too. */
  lemma StripCharsPaddedBy(s: string, cs: set<char>, deco: set<char>)
    requires cs <= deco
    ensures PaddedBy(s, StripChars(s, cs), deco)
  {
    StripCharsMargins(s, cs);
    var r, lo := StripChars(s, cs), LeadLen(s, cs);
    var pre, post := s[..lo], s[lo + |r|..];
    assert s == pre + r + post;
    assert AllIn(pre, deco);
    assert AllIn(post, deco) by {
      forall k | 0 <= k < |post| ensures post[k] in deco {
        assert post[k] == s[lo + |r| + k];
      }
    }
    PaddedByIntro(s, r, pre, post, deco);
  }

  /** Names the two margins that make `s` a padding of `r`. */
  lemma PaddedByIntro(s: string, r: string, pre: string, post: string, cs: set<char>)
    requires s == pre + r + post && AllIn(pre, cs) && AllIn(post, cs)
    ensures PaddedBy(s, r, cs)
  {
  }

  /** Two strings of `cs` characters glue to a string of `cs` characters. */
  lemma AllInConcat(x: string, y: string, cs: set<char>)
    requires AllIn(x, cs) && AllIn(y, cs)
    ensures AllIn(x + y, cs)
  {
    forall i | 0 <= i < |x + y| ensures (x + y)[i] in cs {
      if i < |x| { assert (x + y)[i] == x[i]; } else { assert (x + y)[i] == y[i - |x|]; }
    }
  }

  /** Regrouping nested padding around a middle part. */
  lemma Regroup(a: string, b: string, c: string, d: string, e: string)
    ensures a + (b + c + d) + e == (a + b) + c + (d + e)
  {
    assert a + (b + c + d) == (a + b) + c + d;
    assert (a + b) + c + d + e == (a + b) + c + (d + e);
  }

  /** Padding around padding is padding. */
  lemma PaddedByTrans(s: string, m: string, r: string, cs: set<char>)
    requires PaddedBy(s, m, cs) && PaddedBy(m, r, cs)
    ensures PaddedBy(s, r, cs)
  {
    var p1, q1 :| s == p1 + m + q1 && AllIn(p1, cs) && AllIn(q1, cs);
    var p2, q2 :| m == p2 + r + q2 && AllIn(p2, cs) && AllIn(q2, cs);
    Regroup(p1, p2, r, q2, q1);
    AllInConcat(p1, p2, cs);
    AllInConcat(q2, q1, cs);
    PaddedByIntro(s, r, p1 + p2, q2 + q1, cs);
  }

  /** One trailing space is stripped. */
  lemma StripTrailingSpace(x: string)
    requires Stripped(x, Whitespace)
    ensures Strip(x + " ") == x
  {
    assert AllIn(" ", Whitespace) && AllIn("", Whitespace);
    assert x + " " == "" + x + " ";
    StripPadded("", x, " ");
  }

  /** One space on either side is stripped. */
  lemma StripSurroundingSpaces(x: string)
    requires Stripped(x, Whitespace)
    ensures Strip(" " + x + " ") == x
  {
    assert AllIn(" ", Whitespace);
    StripPadded(" ", x, " ");
  }

  /** Stripping three parts element by element. */
  lemma StripEachThree(x: string, y: string, z: string)
    ensures StripEach([x, y, z]) == [Strip(x), Strip(y), Strip(z)]
  {
    var r := StripEach([x, y, z]);
    assert r[0] == Strip(x) && r[1] == Strip(y) && r[2] == Strip(z);
  }

  /** Joining unfolds one part at a time. */
  lemma JoinCons(x: string, rest: seq<string>, sep: char)
    requires |rest| >= 1
    ensures Join([x] + rest, sep) == x + [sep] + Join(rest, sep)
  {
    assert ([x] + rest)[1..] == rest;
  }
}
