/** The Python `str` operations the system relies on, over code points
    (Python's `len` counts code points, as `|s|` does here). */
module Strings {

  /** `c.isspace()`: the code points Python treats as whitespace in `strip()`
      and `split()` without arguments. */
  predicate IsSpace(c: char) {
    var n := c as int;
    (9 <= n <= 13) || (28 <= n <= 32) || n == 0x85 || n == 0xA0 || n == 0x1680
    || (0x2000 <= n <= 0x200A) || n == 0x2028 || n == 0x2029 || n == 0x202F
    || n == 0x205F || n == 0x3000
  }

  predicate AllSpace(s: string) {
    forall i :: 0 <= i < |s| ==> IsSpace(s[i])
  }

  predicate NoSpace(s: string) {
    forall i :: 0 <= i < |s| ==> !IsSpace(s[i])
  }

  /** Neither end of `s` is whitespace. */
  predicate IsStripped(s: string) {
    s == [] || (!IsSpace(s[0]) && !IsSpace(s[|s| - 1]))
  }

  /** `s.lstrip()`: a suffix of `s` after a whitespace prefix. */
  function TrimStart(s: string): (r: string)
    ensures |r| <= |s|
    ensures r == [] || !IsSpace(r[0])
  {
    if s != [] && IsSpace(s[0]) then TrimStart(s[1..]) else s
  }

  /** What `lstrip()` drops is whitespace and what it keeps is a suffix. */
  lemma {:induction false} TrimStartSplits(s: string)
    ensures s == s[..|s| - |TrimStart(s)|] + TrimStart(s)
    ensures AllSpace(s[..|s| - |TrimStart(s)|])
  {
    if s != [] && IsSpace(s[0]) {
      var u := s[1..];
      var t := TrimStart(u);
      var k := |u| - |t|;
      TrimStartSplits(u);
      assert TrimStart(s) == t;
      var a := [s[0]] + u[..k];
      assert s[..k + 1] == a;
      assert s == a + t by {
        assert s == [s[0]] + u;
        assert u == u[..k] + t;
        assert [s[0]] + (u[..k] + t) == a + t;
      }
      forall i | 0 <= i < |a|
        ensures IsSpace(a[i])
      {
        if i > 0 {
          assert a[i] == u[..k][i - 1];
        }
      }
    }
  }

  /** `s.rstrip()`: a prefix of `s` before a whitespace suffix. */
  function TrimEnd(s: string): (r: string)
    ensures |r| <= |s|
    ensures r == [] || !IsSpace(r[|r| - 1])
  {
    if s != [] && IsSpace(s[|s| - 1]) then TrimEnd(s[..|s| - 1]) else s
  }

  /** What `rstrip()` drops is whitespace and what it keeps is a prefix. */
  lemma {:induction false} TrimEndSplits(s: string)
    ensures s == TrimEnd(s) + s[|TrimEnd(s)|..]
    ensures AllSpace(s[|TrimEnd(s)|..])
  {
    if s != [] && IsSpace(s[|s| - 1]) {
      TrimEndSplits(s[..|s| - 1]);
    }
  }

  /** `s.strip()` */
  function Strip(s: string): (r: string)
    ensures IsStripped(r) && |r| <= |s|
  {
    var t := TrimStart(s);
    TrimEndSplits(t);
    TrimEnd(t)
  }

  lemma {:induction false} TrimStartSkips(a: string, t: string)
    requires AllSpace(a)
    requires t == [] || !IsSpace(t[0])
    ensures TrimStart(a + t) == t
  {
    if a != [] {
      assert (a + t)[1..] == a[1..] + t;
      TrimStartSkips(a[1..], t);
    }
  }

  lemma {:induction false} TrimEndSkips(t: string, b: string)
    requires AllSpace(b)
    requires t == [] || !IsSpace(t[|t| - 1])
    ensures TrimEnd(t + b) == t
  {
    if b != [] {
      assert (t + b)[..|t + b| - 1] == t + b[..|b| - 1];
      TrimEndSkips(t, b[..|b| - 1]);
    }
  }

  /** `strip()` removes exactly the whitespace around a stripped core: together
      with StripSplits this characterizes Strip completely. */
  lemma StripExact(a: string, m: string, b: string)
    requires AllSpace(a) && AllSpace(b) && IsStripped(m)
    ensures Strip(a + m + b) == m
  {
    if m == [] {
      assert a + m + b == (a + b) + [];
      TrimStartSkips(a + b, []);
    } else {
      assert a + m + b == a + (m + b);
      TrimStartSkips(a, m + b);
      TrimEndSkips(m, b);
    }
  }

  /** `strip()` removes exactly trailing whitespace after a stripped text. */
  lemma StripTail(m: string, b: string)
    requires AllSpace(b) && IsStripped(m)
    ensures Strip(m + b) == m
  {
    if m == [] {
      assert m + b == b + [];
      TrimStartSkips(b, []);
    } else {
      assert (m + b)[0] == m[0];
      assert TrimStart(m + b) == m + b;
      TrimEndSkips(m, b);
    }
  }

  /** Every string is whitespace, its stripped form, whitespace: `s[i..j]`
      is what `strip()` keeps. */
  lemma StripSplits(s: string) returns (i: nat, j: nat)
    ensures i <= j <= |s| && AllSpace(s[..i]) && AllSpace(s[j..]) && s[i..j] == Strip(s)
  {
    var t := TrimStart(s);
    var r := TrimEnd(t);
    i := |s| - |t|;
    j := i + |r|;
    assert AllSpace(s[..i]) && s[i..] == t by {
      TrimStartSplits(s);
    }
    assert AllSpace(t[|r|..]) && t[..|r|] == r by {
      TrimEndSplits(t);
    }
    assert s[i..j] == r by {
      assert s[i..j] == s[i..][..|r|];
    }
    assert s[j..] == t[|r|..] by {
      assert s[j..] == s[i..][|r|..];
    }
    assert r == Strip(s);
  }

  /** `sep.join(parts)` */
  function Join(sep: string, parts: seq<string>): string {
    if |parts| == 0 then ""
    else if |parts| == 1 then parts[0]
    else parts[0] + sep + Join(sep, parts[1..])
  }

  lemma {:induction false} JoinSnoc(sep: string, parts: seq<string>, x: string)
    requires parts != []
    ensures Join(sep, parts + [x]) == Join(sep, parts) + sep + x
  {
    if |parts| > 1 {
      assert (parts + [x])[1..] == parts[1..] + [x];
      JoinSnoc(sep, parts[1..], x);
    }
  }

  lemma {:induction false} JoinAppend(sep: string, a: seq<string>, b: seq<string>)
    requires a != [] && b != []
    ensures Join(sep, a + b) == Join(sep, a) + sep + Join(sep, b)
  {
    if |a| == 1 {
      assert (a + b)[1..] == b;
    } else {
      assert (a + b)[1..] == a[1..] + b;
      JoinAppend(sep, a[1..], b);
    }
  }

  /** The first character of a join is the first character of its first part. */
  lemma JoinStart(sep: string, parts: seq<string>)
    requires parts != [] && parts[0] != []
    ensures Join(sep, parts) != [] && Join(sep, parts)[0] == parts[0][0]
  {
  }

  /** `s.split(sep)` for a non-empty separator: cuts at the leftmost
      non-overlapping occurrences of `sep`, and always yields at least one part. */
  function SplitOn(s: string, sep: string): (parts: seq<string>)
    requires sep != []
    ensures |parts| >= 1
    decreases |s|
  {
    if |s| < |sep| then [s]
    else if s[..|sep|] == sep then [""] + SplitOn(s[|sep|..], sep)
    else
      var rest := SplitOn(s[1..], sep);
      [[s[0]] + rest[0]] + rest[1..]
  }

  /** Gluing a character onto the first part glues it onto the join. */
  lemma JoinGlue(sep: string, c: char, parts: seq<string>)
    requires parts != []
    ensures Join(sep, [[c] + parts[0]] + parts[1..]) == [c] + Join(sep, parts)
  {
    var glued := [[c] + parts[0]] + parts[1..];
    if |parts| > 1 {
      assert glued[1..] == parts[1..];
    }
  }

  /** `s` begins with `p`. */
  predicate StartsWith(s: string, p: string) {
    |p| <= |s| && s[..|p|] == p
  }

  /** `sep` occurs nowhere in `s`. */
  predicate Free(s: string, sep: string) {
    forall k :: 0 <= k <= |s| ==> !StartsWith(s[k..], sep)
  }

  /** A prefix of a string that does not begin with `sep` does not begin with it either. */
  lemma PrefixStartsNot(s: string, p: string, sep: string)
    requires StartsWith(s, p) && !StartsWith(s, sep)
    ensures !StartsWith(p, sep)
  {
    if |sep| <= |p| {
      assert p[..|sep|] == s[..|sep|];
    }
  }

  /** A character in front of a `sep`-free string that does not start an
      occurrence keeps it `sep`-free. */
  lemma FreeCons(c: char, x: string, sep: string)
    requires Free(x, sep) && !StartsWith([c] + x, sep)
    ensures Free([c] + x, sep)
  {
    var y := [c] + x;
    forall k | 1 <= k <= |y|
      ensures !StartsWith(y[k..], sep)
    {
      assert y[k..] == x[k - 1..];
    }
  }

  /** Where `s.split(sep)` cuts: the first part (and, when there is a second,
      the first part and `sep`) begins `s`; no part contains `sep`; and the
      first occurrence of `sep` after a part that is not the last starts
      right at its end. */
  predicate Cuts(s: string, sep: string, parts: seq<string>)
    requires sep != [] && parts != []
  {
    && StartsWith(s, parts[0])
    && (|parts| > 1 ==> StartsWith(s, parts[0] + sep))
    && (forall j :: 0 <= j < |parts| ==> Free(parts[j], sep))
    && (forall j :: 0 <= j < |parts| - 1 ==> Free(parts[j] + sep[..|sep| - 1], sep))
  }

  /** A cut at an occurrence of `sep` at the very start. */
  lemma CutsSep(t: string, sep: string, rest: seq<string>)
    requires sep != [] && rest != [] && Cuts(t, sep, rest)
    ensures Cuts(sep + t, sep, [""] + rest)
  {
    var parts := [""] + rest;
    assert parts[0] + sep == sep;
    assert StartsWith(sep + t, sep) by {
      assert (sep + t)[..|sep|] == sep;
    }
    forall j | 1 <= j < |parts|
      ensures parts[j] == rest[j - 1]
    {
    }
  }

  /** A character that does not start an occurrence of `sep` joins the first part. */
  lemma CutsGlue(c: char, t: string, sep: string, rest: seq<string>)
    requires sep != [] && rest != [] && Cuts(t, sep, rest) && !StartsWith([c] + t, sep)
    ensures Cuts([c] + t, sep, [[c] + rest[0]] + rest[1..])
  {
    var s := [c] + t;
    var p0 := [c] + rest[0];
    var parts := [p0] + rest[1..];
    assert StartsWith(s, p0) by {
      assert s[..|p0|] == [c] + t[..|rest[0]|];
    }
    PrefixStartsNot(s, p0, sep);
    FreeCons(c, rest[0], sep);
    if |rest| > 1 {
      var sep' := sep[..|sep| - 1];
      assert StartsWith(s, p0 + sep) by {
        assert s[..|p0 + sep|] == [c] + t[..|rest[0] + sep|];
      }
      assert StartsWith(s, p0 + sep') by {
        assert (p0 + sep)[..|p0 + sep'|] == p0 + sep';
      }
      PrefixStartsNot(s, p0 + sep', sep);
      assert p0 + sep' == [c] + (rest[0] + sep');
      FreeCons(c, rest[0] + sep', sep);
    }
    forall j | 1 <= j < |parts|
      ensures parts[j] == rest[j]
    {
    }
  }

  lemma {:induction false} SplitOnCuts(s: string, sep: string)
    requires sep != []
    ensures Cuts(s, sep, SplitOn(s, sep))
    decreases |s|
  {
    if |s| < |sep| {
      assert SplitOn(s, sep) == [s];
      assert s[..|s|] == s;
    } else if s[..|sep|] == sep {
      SplitOnCuts(s[|sep|..], sep);
      assert s == sep + s[|sep|..];
      CutsSep(s[|sep|..], sep, SplitOn(s[|sep|..], sep));
    } else {
      SplitOnCuts(s[1..], sep);
      assert s == [s[0]] + s[1..];
      CutsGlue(s[0], s[1..], sep, SplitOn(s[1..], sep));
    }
  }

  /** `s.split(sep)` for a non-empty separator: joining the parts with `sep`
      gives back `s`, no part contains `sep`, and each part but the last
      ends where the next occurrence of `sep` begins. With the round trip
      this leaves only the leftmost non-overlapping cuts. */
  lemma {:induction false} SplitOnJoin(s: string, sep: string)
    requires sep != []
    ensures Join(sep, SplitOn(s, sep)) == s
    ensures forall j :: 0 <= j < |SplitOn(s, sep)| ==> Free(SplitOn(s, sep)[j], sep)
    ensures forall j :: 0 <= j < |SplitOn(s, sep)| - 1 ==>
      Free(SplitOn(s, sep)[j] + sep[..|sep| - 1], sep)
    decreases |s|
  {
    SplitOnCuts(s, sep);
    if |s| < |sep| {
    } else if s[..|sep|] == sep {
      var rest := SplitOn(s[|sep|..], sep);
      assert SplitOn(s, sep) == [""] + rest;
      assert ([""] + rest)[1..] == rest;
      assert s == s[..|sep|] + s[|sep|..];
      SplitOnJoin(s[|sep|..], sep);
    } else {
      var rest := SplitOn(s[1..], sep);
      assert SplitOn(s, sep) == [[s[0]] + rest[0]] + rest[1..];
      assert s == [s[0]] + s[1..];
      SplitOnJoin(s[1..], sep);
      JoinGlue(sep, s[0], rest);
    }
  }

  /** `s.count(c)` */
  function Count(s: string, c: char): (n: nat)
    ensures n <= |s|
  {
    if s == [] then 0 else (if s[0] == c then 1 else 0) + Count(s[1..], c)
  }

  /** Splitting on one character gives one part more than it occurs. */
  lemma {:induction false} SplitOnCount(s: string, c: char)
    ensures |SplitOn(s, [c])| == Count(s, c) + 1
    decreases |s|
  {
    if s != [] {
      SplitOnCount(s[1..], c);
      assert s[..|[c]|] == [c] <==> s[0] == c;
      assert s[|[c]|..] == s[1..];
    }
  }

  /** Length of the run of non-whitespace characters that starts `s`. */
  function WordLength(s: string): (n: nat)
    ensures n <= |s| && NoSpace(s[..n]) && (n == |s| || IsSpace(s[n]))
    ensures s != [] && !IsSpace(s[0]) ==> n > 0
  {
    if s == [] || IsSpace(s[0]) then 0 else 1 + WordLength(s[1..])
  }

  /** `s.split()`: the maximal runs of non-whitespace characters, in order. */
  function Words(s: string): (words: seq<string>)
    ensures forall i :: 0 <= i < |words| ==> words[i] != [] && NoSpace(words[i])
    decreases |s|
  {
    var t := TrimStart(s);
    if t == [] then []
    else
      var n := WordLength(t);
      [t[..n]] + Words(t[n..])
  }

  /** `' '.join(s.split())`: whitespace runs collapsed to one space, none at the ends. */
  function Collapse(s: string): string {
    Join(" ", Words(s))
  }

  /** The only whitespace is a single `' '` with a non-whitespace character on each side. */
  predicate Collapsed(r: string) {
    forall i :: 0 <= i < |r| && IsSpace(r[i]) ==>
      r[i] == ' ' && 0 < i < |r| - 1 && !IsSpace(r[i - 1]) && !IsSpace(r[i + 1])
  }

  /** The non-whitespace characters of `s`, in order. */
  function Visible(s: string): string {
    if s == [] then [] else (if IsSpace(s[0]) then [] else [s[0]]) + Visible(s[1..])
  }

  /** The concatenation of `words`. */
  function Concat(words: seq<string>): string {
    if words == [] then [] else words[0] + Concat(words[1..])
  }

  lemma {:induction false} VisibleAppend(a: string, b: string)
    ensures Visible(a + b) == Visible(a) + Visible(b)
  {
    if a != [] {
      assert (a + b)[0] == a[0];
      assert (a + b)[1..] == a[1..] + b;
      VisibleAppend(a[1..], b);
    } else {
      assert a + b == b;
    }
  }

  lemma {:induction false} VisibleOfSpace(s: string)
    requires AllSpace(s)
    ensures Visible(s) == []
  {
    if s != [] {
      VisibleOfSpace(s[1..]);
    }
  }

  lemma {:induction false} VisibleOfWord(s: string)
    requires NoSpace(s)
    ensures Visible(s) == s
  {
    if s != [] {
      VisibleOfWord(s[1..]);
    }
  }

  /** `lstrip()` drops no visible character. */
  lemma VisibleTrimStart(s: string)
    ensures Visible(TrimStart(s)) == Visible(s)
  {
    var t := TrimStart(s);
    var a := s[..|s| - |t|];
    TrimStartSplits(s);
    VisibleAppend(a, t);
    VisibleOfSpace(a);
    assert [] + Visible(t) == Visible(t);
  }

  /** The leading word of `t` is visible as a whole. */
  lemma VisibleLeadingWord(t: string)
    ensures Visible(t) == t[..WordLength(t)] + Visible(t[WordLength(t)..])
  {
    var n := WordLength(t);
    var w, u := t[..n], t[n..];
    assert t == w + u;
    VisibleAppend(w, u);
    VisibleOfWord(w);
  }

  /** `s.split()` keeps every non-whitespace character, in order. */
  lemma {:induction false} WordsVisible(s: string)
    ensures Concat(Words(s)) == Visible(s)
    decreases |s|
  {
    var t := TrimStart(s);
    VisibleTrimStart(s);
    if t != [] {
      var n := WordLength(t);
      var w, u := t[..n], t[n..];
      assert Words(s) == [w] + Words(u);
      assert Concat([w] + Words(u)) == w + Concat(Words(u)) by {
        assert ([w] + Words(u))[1..] == Words(u);
      }
      VisibleLeadingWord(t);
      WordsVisible(u);
    }
  }

  /** A word, one space and a collapsed text starting with a visible
      character make a collapsed text. */
  lemma CollapsedCons(w: string, rest: string)
    requires w != [] && NoSpace(w)
    requires rest != [] && !IsSpace(rest[0]) && Collapsed(rest)
    ensures Collapsed(w + " " + rest)
  {
    var r := w + " " + rest;
    forall i | 0 <= i < |r| && IsSpace(r[i])
      ensures r[i] == ' ' && 0 < i < |r| - 1 && !IsSpace(r[i - 1]) && !IsSpace(r[i + 1])
    {
      if i == |w| {
        assert r[i - 1] == w[|w| - 1];
        assert r[i + 1] == rest[0];
      } else if i > |w| {
        assert r[i] == rest[i - |w| - 1];
        if i - |w| - 1 > 0 {
          assert r[i - 1] == rest[i - |w| - 2];
        }
        assert r[i + 1] == rest[i - |w|];
      }
    }
  }

  /** Words joined with single spaces: those spaces are the only whitespace. */
  lemma {:induction false} JoinWordsCollapsed(words: seq<string>)
    requires forall i :: 0 <= i < |words| ==> words[i] != [] && NoSpace(words[i])
    ensures Collapsed(Join(" ", words))
  {
    if |words| == 1 {
      assert Join(" ", words) == words[0];
    } else if |words| > 1 {
      var w, tail := words[0], words[1..];
      var rest := Join(" ", tail);
      assert Join(" ", words) == w + " " + rest;
      JoinWordsCollapsed(tail);
      JoinStart(" ", tail);
      CollapsedCons(w, rest);
    }
  }

  /** A word followed by a space keeps only the word visible. */
  lemma VisibleSpaced(w: string, rest: string)
    requires NoSpace(w)
    ensures Visible(w + (" " + rest)) == w + Visible(rest)
  {
    var v := Visible(rest);
    assert Visible(" " + rest) == v by {
      VisibleAppend(" ", rest);
      assert Visible(" ") == [];
      assert [] + v == v;
    }
    VisibleAppend(w, " " + rest);
    VisibleOfWord(w);
  }

  /** Words joined with single spaces keep the words' visible characters. */
  lemma {:induction false} JoinWordsVisible(words: seq<string>)
    requires forall i :: 0 <= i < |words| ==> words[i] != [] && NoSpace(words[i])
    ensures Visible(Join(" ", words)) == Concat(words)
  {
    if |words| == 1 {
      VisibleOfWord(words[0]);
      assert Concat(words[1..]) == [];
    } else if |words| > 1 {
      var w, tail := words[0], words[1..];
      var rest := Join(" ", tail);
      assert Join(" ", words) == w + (" " + rest);
      assert Concat(words) == w + Concat(tail);
      JoinWordsVisible(tail);
      VisibleSpaced(w, rest);
    }
  }

  /** A run of whitespace has no words. */
  lemma WordsOfSpace(s: string)
    requires AllSpace(s)
    ensures Words(s) == []
  {
    TrimStartSkips(s, []);
    assert s + [] == s;
  }

  /** A word ends at the first whitespace character or at the end. */
  lemma {:induction false} WordLengthOf(w: string, b: string)
    requires NoSpace(w) && (b == [] || IsSpace(b[0]))
    ensures WordLength(w + b) == |w|
  {
    if w == [] {
      assert w + b == b;
    } else {
      assert (w + b)[0] == w[0];
      assert (w + b)[1..] == w[1..] + b;
      WordLengthOf(w[1..], b);
    }
  }

  /** `split()` cuts exactly at whitespace runs: after leading whitespace,
      a maximal run of non-whitespace is the first word, and the words of
      what follows are the rest. With WordsOfSpace this fixes `Words`. */
  lemma WordsCons(a: string, w: string, b: string)
    requires AllSpace(a) && w != [] && NoSpace(w) && (b == [] || IsSpace(b[0]))
    ensures Words(a + w + b) == [w] + Words(b)
  {
    assert a + w + b == a + (w + b);
    assert (w + b)[0] == w[0];
    TrimStartSkips(a, w + b);
    WordLengthOf(w, b);
    assert (w + b)[..|w|] == w;
    assert (w + b)[|w|..] == b;
  }

  /** `' '.join(words).split() == words` for words without whitespace. */
  lemma {:induction false} WordsOfJoin(words: seq<string>)
    requires forall i :: 0 <= i < |words| ==> words[i] != [] && NoSpace(words[i])
    ensures Words(Join(" ", words)) == words
  {
    if |words| == 1 {
      WordsCons([], words[0], []);
      assert [] + words[0] + [] == words[0];
    } else if |words| > 1 {
      var w, tail := words[0], words[1..];
      var rest := Join(" ", tail);
      assert Join(" ", words) == [] + w + (" " + rest);
      WordsCons([], w, " " + rest);
      assert Words(" " + rest) == Words(rest) by {
        assert (" " + rest)[1..] == rest;
        assert TrimStart(" " + rest) == TrimStart(rest);
      }
      WordsOfJoin(tail);
      assert words == [w] + tail;
    }
  }

  /** What `' '.join(s.split())` promises: whitespace runs become single spaces,
      nothing at either end, and every other character is kept in order; the
      words are the same words, so collapsing again changes nothing. */
  lemma CollapseSpec(s: string)
    ensures Collapsed(Collapse(s)) && IsStripped(Collapse(s))
    ensures Visible(Collapse(s)) == Visible(s)
    ensures Words(Collapse(s)) == Words(s)
    ensures Collapse(Collapse(s)) == Collapse(s)
  {
    WordsOfJoin(Words(s));
    JoinWordsCollapsed(Words(s));
    JoinWordsVisible(Words(s));
    WordsVisible(s);
  }

  /** `s.endswith(suffix)` */
  predicate EndsWith(s: string, suffix: string) {
    |suffix| <= |s| && s[|s| - |suffix|..] == suffix
  }

  /** `s[:n]` for `n >= 0` */
  function Take(s: string, n: nat): (r: string)
    ensures |r| == if |s| < n then |s| else n
    ensures r <= s
  {
    if |s| < n then s else s[..n]
  }
}
