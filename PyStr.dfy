/** The few Python `str` operations the chat client relies on, over Unicode
    scalar values: `isspace`, `strip`, `split(maxsplit=1)`, `startswith` and
    the ASCII part of `lower`. */
module PyStr {

  /** The characters CPython treats as whitespace in `str.strip()` and
      `str.split()` with no separator argument. */
  predicate IsSpace(c: char) {
    || ('\t' <= c <= '\r')
    || ('\U{1C}' <= c <= ' ')
    || c == '\U{85}' || c == '\U{A0}' || c == '\U{1680}'
    || ('\U{2000}' <= c <= '\U{200A}')
    || c == '\U{2028}' || c == '\U{2029}' || c == '\U{202F}'
    || c == '\U{205F}' || c == '\U{3000}'
  }

  predicate AllSpace(s: string) {
    forall i :: 0 <= i < |s| ==> IsSpace(s[i])
  }

  predicate NoSpace(s: string) {
    forall i :: 0 <= i < |s| ==> !IsSpace(s[i])
  }

  /** Neither starts nor ends with whitespace: what `strip()` returns. */
  predicate IsStripped(s: string) {
    s == [] || (!IsSpace(s[0]) && !IsSpace(s[|s| - 1]))
  }

  predicate StartsWith(s: string, prefix: string) {
    |prefix| <= |s| && s[..|prefix|] == prefix
  }

  /** The first index at or after `i` that holds no whitespace, or `|s|`. */
  function SkipSpace(s: string, i: nat): (j: nat)
    requires i <= |s|
    ensures i <= j <= |s|
    ensures forall k :: i <= k < j ==> IsSpace(s[k])
    ensures j == |s| || !IsSpace(s[j])
    decreases |s| - i
  {
    if i < |s| && IsSpace(s[i]) then SkipSpace(s, i + 1) else i
  }

  /** The first index at or after `i` that holds whitespace, or `|s|`. */
  function SkipWord(s: string, i: nat): (j: nat)
    requires i <= |s|
    ensures i <= j <= |s|
    ensures forall k :: i <= k < j ==> !IsSpace(s[k])
    ensures j == |s| || IsSpace(s[j])
    decreases |s| - i
  {
    if i < |s| && !IsSpace(s[i]) then SkipWord(s, i + 1) else i
  }

  /** Moving back from `j`, but not below `lo`, the first index whose
      predecessor holds no whitespace. */
  function SkipSpaceBack(s: string, lo: nat, j: nat): (k: nat)
    requires lo <= j <= |s|
    ensures lo <= k <= j
    ensures forall m :: k <= m < j ==> IsSpace(s[m])
    ensures k == lo || !IsSpace(s[k - 1])
    decreases j
  {
    if lo < j && IsSpace(s[j - 1]) then SkipSpaceBack(s, lo, j - 1) else j
  }

  /** The index at which the text kept by Strip begins. */
  function StripOffset(s: string): (i: nat)
    ensures i <= |s|
  {
    SkipSpace(s, 0)
  }

  /** `strip()`: drop the leading whitespace, then the trailing whitespace
      of what is left. */
  function Strip(s: string): string {
    var i := SkipSpace(s, 0);
    s[i..SkipSpaceBack(s, i, |s|)]
  }

  /** Strip removes a whitespace prefix and a whitespace suffix and leaves a
      stripped middle. */
  lemma StripSpec(s: string)
    ensures StripOffset(s) + |Strip(s)| <= |s|
    ensures Strip(s) == s[StripOffset(s)..StripOffset(s) + |Strip(s)|]
    ensures AllSpace(s[..StripOffset(s)])
    ensures AllSpace(s[StripOffset(s) + |Strip(s)|..])
    ensures IsStripped(Strip(s))
  {
    var i := SkipSpace(s, 0);
    var k := SkipSpaceBack(s, i, |s|);
    assert forall m :: 0 <= m < i ==> s[..i][m] == s[m];
    assert forall m :: 0 <= m < |s| - k ==> s[k..][m] == s[k + m];
    assert k > i ==> s[i..k][0] == s[i] && s[i..k][k - i - 1] == s[k - 1];
  }

  /** The converse of StripSpec: whitespace around a stripped text is
      exactly what Strip removes. */
  lemma StripSurrounded(pre: string, m: string, post: string)
    requires AllSpace(pre) && AllSpace(post) && IsStripped(m)
    ensures Strip(pre + m + post) == m
  {
    var s := pre + m + post;
    var a, b := |pre|, |pre| + |m|;
    assert forall k :: 0 <= k < a ==> s[k] == pre[k];
    assert forall k :: b <= k < |s| ==> s[k] == post[k - b];
    assert forall k :: a <= k < b ==> s[k] == m[k - a];
    var i := SkipSpace(s, 0);
    var j := SkipSpaceBack(s, i, |s|);
    if m == [] {
      assert i == |s|;
    } else {
      assert s[a] == m[0] && s[b - 1] == m[|m| - 1];
      assert i == a;
      assert j == b;
    }
    assert s[a..b] == m;
  }

  lemma StripIdempotent(s: string)
    ensures Strip(Strip(s)) == Strip(s)
  {
    StripSpec(s);
    var m := Strip(s);
    assert [] + m + [] == m;
    StripSurrounded([], m, []);
  }

  /** `split(maxsplit=1)` with the default separator: skip leading
      whitespace, cut the first word at the next whitespace, skip that run
      of whitespace, and keep everything after it, trailing whitespace
      included, as the second part when it is not empty. */
  function SplitOnce(s: string): seq<string> {
    var i := SkipSpace(s, 0);
    if i == |s| then []
    else
      var j := SkipWord(s, i);
      var k := SkipSpace(s, j);
      if k == |s| then [s[i..j]] else [s[i..j], s[k..]]
  }

  /** What each part of SplitOnce is: at most two parts, a first word free
      of whitespace, and a second part that is a suffix of the input
      starting with a non-space character. */
  lemma SplitOnceSpec(s: string)
    ensures |SplitOnce(s)| <= 2
    ensures SplitOnce(s) == [] <==> AllSpace(s)
    ensures |SplitOnce(s)| >= 1 ==> SplitOnce(s)[0] != [] && NoSpace(SplitOnce(s)[0])
    ensures |SplitOnce(s)| == 2 ==>
      var arg := SplitOnce(s)[1];
      arg != [] && !IsSpace(arg[0]) && |arg| < |s| && arg == s[|s| - |arg|..]
  {
    var i := SkipSpace(s, 0);
    if i < |s| {
      var j := SkipWord(s, i);
      assert forall m :: 0 <= m < j - i ==> s[i..j][m] == s[i + m];
    }
  }

  /** A line made of a word, a run of whitespace and an argument that starts
      with a non-space character splits into exactly that word and that
      argument. */
  lemma SplitOnceWordArgument(w: string, g: string, a: string)
    requires w != [] && NoSpace(w)
    requires g != [] && AllSpace(g)
    requires a != [] && !IsSpace(a[0])
    ensures SplitOnce(w + g + a) == [w, a]
  {
    var s := w + g + a;
    var p, q := |w|, |w| + |g|;
    assert forall k :: 0 <= k < p ==> s[k] == w[k];
    assert forall k :: p <= k < q ==> s[k] == g[k - p];
    assert s[0] == w[0] && s[p] == g[0] && s[q] == a[0];
    assert SkipSpace(s, 0) == 0;
    assert SkipWord(s, 0) == p;
    assert SkipSpace(s, p) == q;
    assert s[..p] == w;
    assert s[q..] == a;
  }

  /** A line of one word, possibly surrounded by whitespace, splits into
      that word alone. */
  lemma SplitOnceWordOnly(pre: string, w: string, post: string)
    requires AllSpace(pre) && AllSpace(post)
    requires w != [] && NoSpace(w)
    ensures SplitOnce(pre + w + post) == [w]
  {
    var s := pre + w + post;
    var p, q := |pre|, |pre| + |w|;
    assert forall k :: 0 <= k < p ==> s[k] == pre[k];
    assert forall k :: p <= k < q ==> s[k] == w[k - p];
    assert forall k :: q <= k < |s| ==> s[k] == post[k - q];
    assert s[p] == w[0];
    assert q < |s| ==> s[q] == post[0];
    assert SkipSpace(s, 0) == p;
    assert SkipWord(s, p) == q;
    assert SkipSpace(s, q) == |s|;
    assert s[p..q] == w;
  }

  /** On a stripped line, split(maxsplit=1) yields a second part exactly
      when the line contains whitespace, and that part is itself stripped. */
  lemma SplitOnceStripped(line: string)
    requires IsStripped(line)
    ensures |SplitOnce(line)| == 2 <==> !NoSpace(line)
    ensures |SplitOnce(line)| == 2 ==> IsStripped(SplitOnce(line)[1])
  {
    if line != [] {
      var n := |line|;
      assert SkipSpace(line, 0) == 0;
      var j := SkipWord(line, 0);
      if j < n {
        assert SkipSpace(line, j) < n;
      }
    }
  }

  function LowerChar(c: char): char {
    if 'A' <= c <= 'Z' then (c as int + 32) as char else c
  }

  function UpperChar(c: char): char {
    if 'a' <= c <= 'z' then (c as int - 32) as char else c
  }

  /** `lower()` on the ASCII letters; every other character is kept. */
  function Lower(s: string): (r: string)
    ensures |r| == |s|
  {
    seq(|s|, i requires 0 <= i < |s| => LowerChar(s[i]))
  }

  predicate IsLowerWord(w: string) {
    forall i :: 0 <= i < |w| ==> 'a' <= w[i] <= 'z'
  }

  /** Both letters of each position may be in either case. */
  predicate MatchesIgnoringCase(s: string, w: string) {
    |s| == |w| && forall i :: 0 <= i < |s| ==> s[i] == w[i] || s[i] == UpperChar(w[i])
  }

  /** Comparing the ASCII `Lower` with a lower-case word accepts that word in
      any mixture of upper and lower case, and nothing else. */
  lemma LowerMatchesWord(s: string, w: string)
    requires IsLowerWord(w)
    ensures Lower(s) == w <==> MatchesIgnoringCase(s, w)
  {
    if MatchesIgnoringCase(s, w) {
      forall i | 0 <= i < |s|
        ensures Lower(s)[i] == w[i]
      {
        assert 'a' <= w[i] <= 'z';
      }
    }
    if Lower(s) == w {
      forall i | 0 <= i < |s|
        ensures s[i] == w[i] || s[i] == UpperChar(w[i])
      {
        assert LowerChar(s[i]) == w[i];
      }
    }
  }
}
