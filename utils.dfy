/**
 * String helpers of the site generator (cmd/utils.go) and the parts of Go's
 * `strings` and `path/filepath` packages that the build and reload code relies on.
 * Strings stand for Go strings, that is, for byte sequences: one `char` per byte.
 */
module Utils {

  datatype Option<+T> = None | Some(value: T)

  /** `p` occurs in `s` starting at index `k`. */
  predicate IsAt(s: string, p: string, k: int)
  {
    0 <= k && k + |p| <= |s| && s[k..k + |p|] == p
  }

  /** strings.Contains */
  predicate Contains(s: string, p: string)
  {
    exists k | 0 <= k <= |s| - |p| :: IsAt(s, p, k)
  }

  /** strings.HasPrefix */
  predicate HasPrefix(s: string, p: string)
  {
    |p| <= |s| && s[..|p|] == p
  }

  /** strings.HasSuffix */
  predicate HasSuffix(s: string, p: string)
  {
    |p| <= |s| && s[|s| - |p|..] == p
  }

  lemma {:induction false} IsAtShift(s: string, p: string, k: int)
    requires |s| > 0 && k >= 0
    ensures IsAt(s[1..], p, k) <==> IsAt(s, p, k + 1)
  {
    if 0 <= k && k + |p| <= |s| - 1 {
      assert s[1..][k..k + |p|] == s[k + 1..k + 1 + |p|];
    }
  }

  /** strings.Index: the first position at which `p` occurs in `s`. */
  function Index(s: string, p: string): (r: Option<nat>)
    ensures r.Some? ==> IsAt(s, p, r.value) && forall m :: 0 <= m < r.value ==> !IsAt(s, p, m)
    ensures r.None? <==> !Contains(s, p)
    decreases |s|
  {
    if |s| < |p| then None
    else if s[..|p|] == p then
      assert IsAt(s, p, 0);
      Some(0)
    else
      var t := Index(s[1..], p);
      TailOccurrences(s, p);
      match t
      case None => None
      case Some(k) =>
        assert forall m :: 1 <= m < k + 1 ==> !IsAt(s, p, m) by {
          forall m | 1 <= m < k + 1 ensures !IsAt(s, p, m) {
            IsAtShift(s, p, m - 1);
          }
        }
        IsAtShift(s, p, k);
        Some(k + 1)
  }

  /** Occurrences in the tail of `s` are the occurrences in `s` after position 0. */
  lemma {:induction false} TailOccurrences(s: string, p: string)
    requires |s| > 0
    requires !IsAt(s, p, 0)
    ensures Contains(s, p) <==> Contains(s[1..], p)
    ensures forall m :: 0 <= m ==> (IsAt(s[1..], p, m) <==> IsAt(s, p, m + 1))
  {
    forall m | 0 <= m
      ensures IsAt(s[1..], p, m) <==> IsAt(s, p, m + 1)
    {
      IsAtShift(s, p, m);
    }
    if Contains(s, p) {
      var k :| 0 <= k <= |s| - |p| && IsAt(s, p, k);
      assert k >= 1;
      IsAtShift(s, p, k - 1);
      assert IsAt(s[1..], p, k - 1);
    }
    if Contains(s[1..], p) {
      var k :| 0 <= k <= |s[1..]| - |p| && IsAt(s[1..], p, k);
      IsAtShift(s, p, k);
      assert IsAt(s, p, k + 1);
    }
  }

  /**
   * strings.Replace(h, a, b, -1), the single primitive behind replaceAWithB
   * (cmd/utils.go:16-18): every non-overlapping occurrence of `a`, found scanning
   * left to right, is replaced by `b`. Every caller passes a non-empty `a`.
   */
  function ReplaceAll(h: string, a: string, b: string): string
    requires |a| > 0
    decreases |h|
  {
    if |h| < |a| then h
    else if h[..|a|] == a then b + ReplaceAll(h[|a|..], a, b)
    else [h[0]] + ReplaceAll(h[1..], a, b)
  }

  /** strings.Count: the number of non-overlapping occurrences of `a` in `h`, scanning left to right. */
  function Count(h: string, a: string): nat
    requires |a| > 0
    decreases |h|
  {
    if |h| < |a| then 0
    else if h[..|a|] == a then 1 + Count(h[|a|..], a)
    else Count(h[1..], a)
  }

  /** A haystack without the needle comes back unchanged. */
  lemma {:induction false} ReplaceAllAbsent(h: string, a: string, b: string)
    requires |a| > 0
    requires !Contains(h, a)
    ensures ReplaceAll(h, a, b) == h
    decreases |h|
  {
    if |h| >= |a| {
      assert !IsAt(h, a, 0);
      TailOccurrences(h, a);
      ReplaceAllAbsent(h[1..], a, b);
    }
  }

  /** Replacing a needle by itself is the identity. */
  lemma {:induction false} ReplaceAllSelf(h: string, a: string)
    requires |a| > 0
    ensures ReplaceAll(h, a, a) == h
    decreases |h|
  {
    if |h| >= |a| {
      if h[..|a|] == a {
        ReplaceAllSelf(h[|a|..], a);
        assert h == h[..|a|] + h[|a|..];
      } else {
        ReplaceAllSelf(h[1..], a);
        assert h == [h[0]] + h[1..];
      }
    }
  }

  /** The length changes by |b| - |a| per non-overlapping occurrence. */
  lemma {:induction false} ReplaceAllLength(h: string, a: string, b: string)
    requires |a| > 0
    ensures |ReplaceAll(h, a, b)| == |h| + Count(h, a) * (|b| - |a|)
    decreases |h|
  {
    if |h| >= |a| {
      if h[..|a|] == a {
        var t := h[|a|..];
        ReplaceAllLength(t, a, b);
        assert ReplaceAll(h, a, b) == b + ReplaceAll(t, a, b);
        assert Count(h, a) == 1 + Count(t, a);
        MulSucc(Count(t, a), |b| - |a|);
      } else {
        ReplaceAllLength(h[1..], a, b);
      }
    }
  }

  lemma {:induction false} MulSucc(c: int, d: int)
    ensures (1 + c) * d == c * d + d
  {
  }

  /** Count sees an occurrence exactly when there is one. */
  lemma {:induction false} CountPositive(h: string, a: string)
    requires |a| > 0
    ensures Count(h, a) > 0 <==> Contains(h, a)
    decreases |h|
  {
    if |h| >= |a| {
      if h[..|a|] == a {
        assert IsAt(h, a, 0);
      } else {
        CountPositive(h[1..], a);
        TailOccurrences(h, a);
      }
    }
  }

  /**
   * Replace-all follows the scan: everything before the first occurrence is kept,
   * the occurrence becomes `b`, and the scan resumes after it.
   */
  lemma {:induction false} ReplaceAllAtFirst(h: string, a: string, b: string, k: nat)
    requires |a| > 0
    requires IsAt(h, a, k) && forall m :: 0 <= m < k ==> !IsAt(h, a, m)
    ensures ReplaceAll(h, a, b) == h[..k] + b + ReplaceAll(h[k + |a|..], a, b)
    decreases k
  {
    if k > 0 {
      var t := h[1..];
      TailStep(h, a, b, k);
      ReplaceAllAtFirst(t, a, b, k - 1);
      Glue(h, k, b, ReplaceAll(h, a, b), ReplaceAll(t, a, b), ReplaceAll(h[k + |a|..], a, b));
    } else {
      ReplaceAllAtStart(h, a, b);
    }
  }

  /** An occurrence at the very start is replaced and the scan resumes after it. */
  lemma {:induction false} ReplaceAllAtStart(h: string, a: string, b: string)
    requires |a| > 0 && IsAt(h, a, 0)
    ensures ReplaceAll(h, a, b) == h[..0] + b + ReplaceAll(h[|a|..], a, b)
  {
    assert h[..|a|] == a;
    assert h[..0] + b == b;
  }

  /** Before the first occurrence the scan keeps the first character and moves on to the tail. */
  lemma {:induction false} TailStep(h: string, a: string, b: string, k: nat)
    requires |a| > 0 && k > 0 && IsAt(h, a, k) && forall m :: 0 <= m < k ==> !IsAt(h, a, m)
    ensures IsAt(h[1..], a, k - 1) && forall m :: 0 <= m < k - 1 ==> !IsAt(h[1..], a, m)
    ensures ReplaceAll(h, a, b) == [h[0]] + ReplaceAll(h[1..], a, b)
    ensures h[1..][k - 1 + |a|..] == h[k + |a|..]
  {
    assert !IsAt(h, a, 0);
    forall m | 0 <= m < k - 1 ensures !IsAt(h[1..], a, m) {
      IsAtShift(h, a, m);
    }
    IsAtShift(h, a, k - 1);
    ReplaceAllSkip(h, a, b);
  }

  lemma {:induction false} Glue(h: string, k: nat, b: string, whole: string, tail: string, r: string)
    requires 0 < k <= |h|
    requires whole == [h[0]] + tail
    requires tail == h[1..][..k - 1] + b + r
    ensures whole == h[..k] + b + r
  {
    assert h[..k] == [h[0]] + h[1..][..k - 1];
  }

  /** Where the needle does not start, the first character is kept and the scan moves on. */
  lemma {:induction false} ReplaceAllSkip(h: string, a: string, b: string)
    requires |a| > 0 && |h| >= |a| && h[..|a|] != a
    ensures ReplaceAll(h, a, b) == [h[0]] + ReplaceAll(h[1..], a, b)
  {
  }

  /** A needle that occurs exactly once, at `k`, is replaced there and nowhere else. */
  lemma {:induction false} ReplaceAllOnlyAt(h: string, a: string, b: string, k: nat)
    requires |a| > 0
    requires IsAt(h, a, k)
    requires forall m :: IsAt(h, a, m) ==> m == k
    ensures ReplaceAll(h, a, b) == h[..k] + b + h[k + |a|..]
  {
    ReplaceAllAtFirst(h, a, b, k);
    var t := h[k + |a|..];
    forall m | 0 <= m <= |t| - |a|
      ensures !IsAt(t, a, m)
    {
      assert t[m..m + |a|] == h[k + |a| + m..k + |a| + m + |a|];
      assert !IsAt(h, a, k + |a| + m);
    }
    ReplaceAllAbsent(t, a, b);
  }

  /** A path ending in ".md" still ends in ".html" after every ".md" became ".html". */
  lemma {:induction false} MarkdownSuffixBecomesHtml(h: string)
    requires HasSuffix(h, ".md")
    ensures HasSuffix(ReplaceAll(h, ".md", ".html"), ".html")
    decreases |h|
  {
    if h[..3] == ".md" {
      if |h| > 3 {
        assert h[1] == 'm' && h[2] == 'd';
        assert h[|h| - 3] == '.';
        assert |h| >= 6;
        assert h[3..][|h[3..]| - 3..] == h[|h| - 3..];
        MarkdownSuffixBecomesHtml(h[3..]);
      }
    } else {
      assert |h| > 3;
      assert h[1..][|h[1..]| - 3..] == h[|h| - 3..];
      MarkdownSuffixBecomesHtml(h[1..]);
    }
  }

  /** Concatenates `parts`, with `sep` between neighbours: the inverse of SplitN. */
  function Join(parts: seq<string>, sep: string): string
    decreases |parts|
  {
    if |parts| == 0 then ""
    else if |parts| == 1 then parts[0]
    else parts[0] + sep + Join(parts[1..], sep)
  }

  /**
   * strings.SplitN(s, sep, n) for n >= 1: the pieces between the first n - 1
   * separators, the last piece being the unsplit rest.
   */
  function SplitN(s: string, sep: string, n: nat): seq<string>
    requires |sep| > 0 && n >= 1
    decreases n
  {
    if n == 1 then [s]
    else
      match Index(s, sep)
      case None => [s]
      case Some(k) => [s[..k]] + SplitN(s[k + |sep|..], sep, n - 1)
  }

  /**
   * `parts` is what strings.SplitN(s, sep, n) promises: 1 to n pieces which,
   * joined with the separator, give back `s`; no piece but the last contains
   * the separator, nor does the last one when fewer than n pieces came out.
   */
  predicate SplitInto(parts: seq<string>, s: string, sep: string, n: nat)
  {
    && 1 <= |parts| <= n
    && Join(parts, sep) == s
    && (forall i :: 0 <= i < |parts| - 1 ==> !Contains(parts[i], sep))
    && (|parts| < n ==> !Contains(parts[|parts| - 1], sep))
  }

  lemma {:induction false} SplitNPieces(s: string, sep: string, n: nat)
    requires |sep| > 0 && n >= 1
    ensures SplitInto(SplitN(s, sep, n), s, sep, n)
    decreases n
  {
    if n > 1 && Index(s, sep).Some? {
      var k := Index(s, sep).value;
      var rest := SplitN(s[k + |sep|..], sep, n - 1);
      SplitNPieces(s[k + |sep|..], sep, n - 1);
      SplitStep(s, sep, n, k, rest);
      assert SplitN(s, sep, n) == [s[..k]] + rest;
    }
  }

  /** The first piece before the first separator, followed by the pieces of the rest, is a split of `s`. */
  lemma {:induction false} SplitStep(s: string, sep: string, n: nat, k: nat, rest: seq<string>)
    requires |sep| > 0 && n >= 2 && Index(s, sep) == Some(k)
    requires SplitInto(rest, s[k + |sep|..], sep, n - 1)
    ensures SplitInto([s[..k]] + rest, s, sep, n)
  {
    var parts := [s[..k]] + rest;
    SplitAround(s, sep, k);
    JoinCons(s[..k], sep, rest);
    PrefixBeforeFirst(s, sep, k);
    PiecesCons(s[..k], sep, rest);
    assert parts[|parts| - 1] == rest[|rest| - 1];
  }

  lemma {:induction false} JoinThree(parts: seq<string>, sep: string)
    requires |parts| == 3
    ensures Join(parts, sep) == parts[0] + sep + parts[1] + sep + parts[2]
  {
    var tail := parts[1..];
    assert tail[1..] == [parts[2]];
    assert Join(tail, sep) == parts[1] + sep + parts[2];
    assert Join(parts, sep) == parts[0] + sep + (parts[1] + sep + parts[2]);
  }

  lemma {:induction false} JoinCons(head: string, sep: string, rest: seq<string>)
    requires |rest| >= 1
    ensures Join([head] + rest, sep) == head + sep + Join(rest, sep)
  {
    assert ([head] + rest)[1..] == rest;
  }

  lemma {:induction false} PiecesCons(head: string, sep: string, rest: seq<string>)
    requires !Contains(head, sep)
    requires forall i :: 0 <= i < |rest| - 1 ==> !Contains(rest[i], sep)
    ensures forall i :: 0 <= i < |rest| ==> !Contains(([head] + rest)[i], sep)
  {
    var parts := [head] + rest;
    forall i | 0 <= i < |rest| ensures !Contains(parts[i], sep) {
      if i > 0 {
        assert parts[i] == rest[i - 1];
      }
    }
  }

  /** An occurrence of `sep` cuts `s` into what comes before it, `sep` and what comes after. */
  lemma {:induction false} SplitAround(s: string, sep: string, k: nat)
    requires IsAt(s, sep, k)
    ensures s == s[..k] + sep + s[k + |sep|..]
  {
    assert s == s[..k] + s[k..k + |sep|] + s[k + |sep|..];
  }

  /** The text before the first occurrence of `sep` does not contain it. */
  lemma {:induction false} PrefixBeforeFirst(s: string, sep: string, k: nat)
    requires |sep| > 0 && Index(s, sep) == Some(k)
    ensures !Contains(s[..k], sep)
  {
    var head := s[..k];
    assert IsAt(s, sep, k);
    forall m | 0 <= m <= |head| - |sep| ensures !IsAt(head, sep, m) {
      assert m < k;
      assert head[m..m + |sep|] == s[m..m + |sep|];
      assert !IsAt(s, sep, m);
    }
  }

  /** strings.TrimSuffix */
  function TrimSuffix(s: string, suffix: string): (r: string)
    ensures HasSuffix(s, suffix) ==> r + suffix == s
    ensures !HasSuffix(s, suffix) ==> r == s
  {
    if HasSuffix(s, suffix) then s[..|s| - |suffix|] else s
  }

  function StripTrailingSlashes(s: string): string
    decreases |s|
  {
    if |s| > 0 && s[|s| - 1] == '/' then StripTrailingSlashes(s[..|s| - 1]) else s
  }

  /** Stripping keeps a prefix of the input that is empty or ends in something other than '/'. */
  lemma {:induction false} StripTrailingSlashesShape(s: string)
    ensures var r := StripTrailingSlashes(s); HasPrefix(s, r) && (r == [] || r[|r| - 1] != '/')
    decreases |s|
  {
    if |s| > 0 && s[|s| - 1] == '/' {
      StripTrailingSlashesShape(s[..|s| - 1]);
    }
  }

  /** The part of `s` after its last '/'. */
  function LastElement(s: string): string
    decreases |s|
  {
    if |s| == 0 then ""
    else if s[|s| - 1] == '/' then ""
    else LastElement(s[..|s| - 1]) + [s[|s| - 1]]
  }

  /** The last element is a slash-free suffix, preceded by a '/' unless it is the whole string. */
  lemma {:induction false} LastElementShape(s: string)
    ensures var r := LastElement(s);
      HasSuffix(s, r) && '/' !in r && (|r| < |s| ==> s[|s| - |r| - 1] == '/')
    decreases |s|
  {
    if |s| > 0 && s[|s| - 1] != '/' {
      var t := LastElement(s[..|s| - 1]);
      LastElementShape(s[..|s| - 1]);
      var r := t + [s[|s| - 1]];
      assert LastElement(s) == r;
      assert s[|s| - |r|..] == s[|s| - 1 - |t|..|s| - 1] + [s[|s| - 1]];
      assert s[..|s| - 1][|s| - 1 - |t|..] == s[|s| - 1 - |t|..|s| - 1];
      forall i | 0 <= i < |r|
        ensures r[i] != '/'
      {
        if i < |t| {
          assert r[i] == t[i] && t[i] in t;
        }
      }
    }
  }

  /** filepath.Base on a Unix path. */
  function Base(path: string): string
  {
    if path == "" then "."
    else
      var e := LastElement(StripTrailingSlashes(path));
      if e == "" then "/" else e
  }

  /** filepath.Base is never empty and, for a path with more than slashes, contains no slash. */
  lemma {:induction false} BaseShape(path: string)
    ensures Base(path) != ""
    ensures path != "" && StripTrailingSlashes(path) != "" ==> '/' !in Base(path)
  {
    if path != "" {
      var stripped := StripTrailingSlashes(path);
      StripTrailingSlashesShape(path);
      LastElementShape(stripped);
      if stripped != "" {
        assert LastElement(stripped) != "";
      }
    }
  }

  /**
   * filepath.Ext on a Unix path: the suffix from the final '.' of the final
   * element, or "" when that element has no '.'.
   */
  function Ext(path: string): string
    decreases |path|
  {
    if |path| == 0 then ""
    else
      var c := path[|path| - 1];
      if c == '/' then ""
      else if c == '.' then "."
      else
        var e := Ext(path[..|path| - 1]);
        if e == "" then "" else e + [c]
  }

  /** filepath.Ext is a suffix of the path; a non-empty one starts with its only dot and contains no slash. */
  lemma {:induction false} ExtShape(path: string)
    ensures var r := Ext(path); HasSuffix(path, r) && (r != "" ==> r[0] == '.' && '.' !in r[1..] && '/' !in r)
    decreases |path|
  {
    if |path| > 0 && path[|path| - 1] != '/' && path[|path| - 1] != '.' {
      var init := path[..|path| - 1];
      ExtShape(init);
      ExtStep(path, init, Ext(init));
    } else if |path| > 0 && path[|path| - 1] == '.' {
      assert path[|path| - 1..] == ".";
    }
  }

  /** ExtShape for a path whose last character extends the extension of the rest. */
  lemma {:induction false} ExtStep(path: string, init: string, e: string)
    requires |path| > 0 && init == path[..|path| - 1] && e == Ext(init)
    requires path[|path| - 1] != '/' && path[|path| - 1] != '.'
    requires HasSuffix(init, e) && (e != "" ==> e[0] == '.' && '.' !in e[1..] && '/' !in e)
    ensures var r := Ext(path); HasSuffix(path, r) && (r != "" ==> r[0] == '.' && '.' !in r[1..] && '/' !in r)
  {
    var c := path[|path| - 1];
    assert path == init + [c];
    assert Ext(path) == if e == "" then "" else e + [c];
    if e != "" {
      var r := e + [c];
      assert init[|path| - 1 - |e|..] == path[|path| - 1 - |e|..|path| - 1];
      assert path[|path| - |r|..] == path[|path| - 1 - |e|..|path| - 1] + [c];
      assert r[0] == '.';
      assert r[1..] == e[1..] + [c];
      assert '.' !in r[1..] && '/' !in r;
    }
  }

  /**
   * The name a layout or snippet file is known by: its base name with the
   * extension trimmed (cmd/build.go:166-167 and 245-246).
   */
  function NameOf(path: string): string
  {
    var base := Base(path);
    TrimSuffix(base, Ext(base))
  }

  /** A file's name followed by its extension is its base name. */
  lemma {:induction false} NameThenExtIsBase(path: string)
    ensures NameOf(path) + Ext(Base(path)) == Base(path)
  {
    ExtShape(Base(path));
  }

  /**
   * sliceContains (cmd/utils.go:7-14): a linear search that stops at the first
   * element equal to `str`.
   */
  method SliceContains(str: string, arr: seq<string>) returns (found: bool)
    ensures found <==> exists i :: 0 <= i < |arr| && arr[i] == str
    ensures |arr| == 0 ==> !found
  {
    for i := 0 to |arr|
      invariant forall j :: 0 <= j < i ==> arr[j] != str
    {
      if arr[i] == str {
        return true;
      }
    }
    return false;
  }
}
