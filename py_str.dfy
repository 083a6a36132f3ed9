/** The few operations of Python 3's `str` that the two plugins use, over
    `string` (a sequence of code points): substring test, `split(sep, 1)`,
    `split(c)`, `join`, `lower`, `strip` and `replace`. */
module PyStr {
  import opened Wrappers

  /** `d` occurs in `s` starting at index `i`. */
  predicate OccursAt(s: string, d: string, i: nat) {
    i + |d| <= |s| && s[i..i + |d|] == d
  }

  /** Python's `d in s` (true for the empty `d`). */
  predicate Contains(s: string, d: string)
    ensures |d| > |s| ==> !Contains(s, d)
  {
    exists i: nat :: i <= |s| && OccursAt(s, d, i)
  }

  /** The empty string occurs in every string. */
  lemma ContainsEmpty(s: string)
    ensures Contains(s, "")
  {
    assert OccursAt(s, "", 0);
  }

  /** For a one-character `d`, `d in s` is membership of that character. */
  lemma ContainsChar(s: string, c: char)
    ensures Contains(s, [c]) <==> c in s
  {
    if c in s {
      var i :| 0 <= i < |s| && s[i] == c;
      assert OccursAt(s, [c], i);
    }
    if Contains(s, [c]) {
      var i: nat :| i <= |s| && OccursAt(s, [c], i);
      assert s[i] == s[i..i + 1][0];
    }
  }

  /** The first index at or after `i` where `d` occurs in `s`. */
  function FindFrom(s: string, d: string, i: nat): (r: Option<nat>)
    decreases |s| - i
    ensures r.Some? ==> i <= r.value && OccursAt(s, d, r.value)
    ensures r.Some? ==> forall j: nat :: i <= j < r.value ==> !OccursAt(s, d, j)
    ensures r.None? ==> forall j: nat :: i <= j ==> !OccursAt(s, d, j)
  {
    if i + |d| > |s| then None
    else if s[i..i + |d|] == d then Some(i)
    else FindFrom(s, d, i + 1)
  }

  /** Python's `s.find(d)`, with `None` for -1. */
  function Find(s: string, d: string): (r: Option<nat>)
    ensures r.Some? <==> Contains(s, d)
    ensures r.Some? ==> OccursAt(s, d, r.value)
    ensures r.Some? ==> forall j: nat :: j < r.value ==> !OccursAt(s, d, j)
  {
    FindFrom(s, d, 0)
  }

  /** An occurrence of `d` inside a prefix of `s` is an occurrence in `s`. */
  lemma OccursInPrefix(s: string, d: string, n: nat, j: nat)
    requires n <= |s| && OccursAt(s[..n], d, j)
    ensures OccursAt(s, d, j) && j + |d| <= n
  {
  }

  /** Python's `s.split(d, 1)` for a non-empty separator: `None` when `d`
      does not occur (Python then returns `[s]`), otherwise the text before
      and after the FIRST occurrence of `d`. Python refuses an empty
      separator with a ValueError; callers model that case. */
  function SplitFirst(s: string, d: string): (r: Option<(string, string)>)
    requires d != ""
    ensures r.None? <==> !Contains(s, d)
    ensures r.Some? ==> s == r.value.0 + d + r.value.1
    ensures r.Some? ==> forall j: nat :: j < |r.value.0| ==> !OccursAt(s, d, j)
    ensures r.Some? ==> !Contains(r.value.0, d)
  {
    match Find(s, d)
    case None => None
    case Some(i) =>
      var p, k := s[..i], s[i + |d|..];
      assert s == p + d + k by {
        assert s == s[..i] + s[i..i + |d|] + s[i + |d|..];
      }
      assert !Contains(p, d) by {
        forall j: nat | OccursAt(p, d, j) ensures false {
          OccursInPrefix(s, d, i, j);
        }
      }
      Some((p, k))
  }

  /** `SplitFirst` is exactly the decomposition `s == p + d + k` in which `d`
      does not start anywhere inside `p`. */
  lemma SplitFirstCharacterised(s: string, d: string, p: string, k: string)
    requires d != ""
    ensures SplitFirst(s, d) == Some((p, k)) <==>
            (s == p + d + k && forall j: nat :: j < |p| ==> !OccursAt(s, d, j))
  {
    if s == p + d + k && forall j: nat :: j < |p| ==> !OccursAt(s, d, j) {
      assert OccursAt(s, d, |p|) by {
        assert s[|p|..|p| + |d|] == d;
      }
      var i := Find(s, d).value;
      assert i == |p|;
      assert s[..i] == p;
      assert s[i + |d|..] == k;
    }
  }

  /** Joining two parts with the delimiter and splitting again gives the parts
      back, provided `d` does not start inside `p` (for a one-character
      delimiter: provided `p` does not contain it). */
  lemma {:induction false} SplitFirstOfJoin(p: string, d: string, k: string)
    requires d != ""
    requires forall j: nat :: j < |p| ==> !OccursAt(p + d, d, j)
    ensures SplitFirst(p + d + k, d) == Some((p, k))
  {
    var s := p + d + k;
    forall j: nat | j < |p| ensures !OccursAt(s, d, j) {
      assert s[..|p| + |d|] == p + d;
      assert OccursAt(s, d, j) ==> OccursAt(p + d, d, j) by {
        if j + |d| <= |s| {
          assert s[j..j + |d|] == (p + d)[j..j + |d|];
        }
      }
    }
    SplitFirstCharacterised(s, d, p, k);
  }

  lemma SplitFirstOfJoinChar(p: string, c: char, k: string)
    requires !Contains(p, [c])
    ensures SplitFirst(p + [c] + k, [c]) == Some((p, k))
  {
    forall j: nat | j < |p| ensures !OccursAt(p + [c], [c], j) {
      if OccursAt(p + [c], [c], j) {
        assert (p + [c])[j..j + 1] == p[j..j + 1];
        assert OccursAt(p, [c], j);
      }
    }
    SplitFirstOfJoin(p, [c], k);
  }

  /** Python's `s.split(c)` for a one-character separator. */
  function Split(s: string, c: char): (r: seq<string>)
    ensures |r| >= 1
  {
    if s == [] then [""]
    else
      var rest := Split(s[1..], c);
      if s[0] == c then [""] + rest
      else [[s[0]] + rest[0]] + rest[1..]
  }

  /** Python's `sep.join(parts)`. */
  function Join(parts: seq<string>, sep: string): (r: string)
    ensures |parts| == 0 ==> r == ""
    ensures |parts| == 1 ==> r == parts[0]
    ensures |parts| == 2 ==> r == parts[0] + sep + parts[1]
  {
    if |parts| == 0 then ""
    else if |parts| == 1 then parts[0]
    else parts[0] + sep + Join(parts[1..], sep)
  }

  /** No part that `split` returns contains the separator. */
  lemma {:induction false} SplitPartsFree(s: string, c: char)
    ensures forall i :: 0 <= i < |Split(s, c)| ==> c !in Split(s, c)[i]
  {
    if s != [] {
      SplitPartsFree(s[1..], c);
    }
  }

  /** Joining what `split` returns restores the string. */
  lemma {:induction false} JoinSplit(s: string, c: char)
    ensures Join(Split(s, c), [c]) == s
  {
    if s != [] {
      var rest := Split(s[1..], c);
      JoinSplit(s[1..], c);
      if s[0] == c {
        assert Split(s, c) == [""] + rest;
        assert (([""] + rest)[1..]) == rest;
      } else {
        var r := Split(s, c);
        assert r[0] == [s[0]] + rest[0] && r[1..] == rest[1..];
      }
    }
  }

  /** Splitting a join of separator-free parts restores the parts. */
  lemma {:induction false} SplitJoin(parts: seq<string>, c: char)
    requires |parts| >= 1
    requires forall i :: 0 <= i < |parts| ==> c !in parts[i]
    ensures Split(Join(parts, [c]), c) == parts
  {
    if |parts| == 1 {
      SplitOfFree(parts[0], c);
    } else {
      SplitJoin(parts[1..], c);
      SplitPrefix(parts[0], c, Join(parts[1..], [c]));
      assert parts == [parts[0]] + parts[1..];
    }
  }

  /** A separator-free string splits into itself. */
  lemma {:induction false} SplitOfFree(s: string, c: char)
    requires c !in s
    ensures Split(s, c) == [s]
  {
    if s != [] {
      SplitOfFree(s[1..], c);
      assert [s[0]] + s[1..] == s;
    }
  }

  /** A separator-free head followed by the separator becomes the first part. */
  lemma {:induction false} SplitPrefix(p: string, c: char, t: string)
    requires c !in p
    ensures Split(p + [c] + t, c) == [p] + Split(t, c)
  {
    var s := p + [c] + t;
    if p == [] {
      assert s[0] == c && s[1..] == t;
    } else {
      assert s[0] == p[0] && s[1..] == p[1..] + [c] + t;
      SplitPrefix(p[1..], c, t);
      assert [p[0]] + p[1..] == p;
    }
  }

  /** `split` returns more than one part exactly when the separator occurs. */
  lemma {:induction false} SplitManyIff(s: string, c: char)
    ensures |Split(s, c)| > 1 <==> c in s
  {
    if s != [] {
      SplitManyIff(s[1..], c);
      assert c in s <==> s[0] == c || c in s[1..] by {
        assert s == [s[0]] + s[1..];
      }
    }
  }

  /** `e:t` with no separator in either part splits into exactly `[e, t]`. */
  lemma SplitTwo(e: string, c: char, t: string)
    requires c !in e && c !in t
    ensures Split(e + [c] + t, c) == [e, t]
  {
    SplitPrefix(e, c, t);
    SplitOfFree(t, c);
  }

  /** Python's `str.lower()`, restricted to the ASCII letters. */
  function LowerChar(ch: char): (r: char)
    ensures 'A' <= ch <= 'Z' ==> r as int == ch as int + 32
    ensures !('A' <= ch <= 'Z') ==> r == ch
    ensures !('A' <= r <= 'Z')
  {
    if 'A' <= ch <= 'Z' then (ch as int + 32) as char else ch
  }

  function Lower(s: string): (r: string)
    ensures |r| == |s|
    ensures forall i :: 0 <= i < |s| ==> r[i] == LowerChar(s[i])
  {
    if s == [] then [] else [LowerChar(s[0])] + Lower(s[1..])
  }

  /** Lowering twice is lowering once. */
  lemma LowerIdempotent(s: string)
    ensures Lower(Lower(s)) == Lower(s)
  {
  }

  /** The characters Python 3's `str.isspace()` accepts, which `strip()`
      removes. */
  predicate IsSpace(ch: char) {
    ('\t' <= ch <= '\r') || ('\U{1C}' <= ch <= '\U{1F}') || ch == ' ' ||
    ch == '\U{85}' || ch == '\U{A0}' || ch == '\U{1680}' ||
    ('\U{2000}' <= ch <= '\U{200A}') || ch == '\U{2028}' || ch == '\U{2029}' ||
    ch == '\U{202F}' || ch == '\U{205F}' || ch == '\U{3000}'
  }

  function StripLeft(s: string): (r: string)
    ensures |r| <= |s| && r == s[|s| - |r|..]
    ensures forall i :: 0 <= i < |s| - |r| ==> IsSpace(s[i])
    ensures r == [] || !IsSpace(r[0])
  {
    if s != [] && IsSpace(s[0]) then StripLeft(s[1..]) else s
  }

  function StripRight(s: string): (r: string)
    ensures |r| <= |s| && r == s[..|r|]
    ensures forall i :: |r| <= i < |s| ==> IsSpace(s[i])
    ensures r == [] || !IsSpace(r[|r| - 1])
  {
    if s != [] && IsSpace(s[|s| - 1]) then StripRight(s[..|s| - 1]) else s
  }

  /** Python's `s.strip()`: `s` without its leading and trailing whitespace. */
  function Strip(s: string): (r: string)
    ensures |r| <= |s|
    ensures r == [] || (!IsSpace(r[0]) && !IsSpace(r[|r| - 1]))
    ensures var i := |s| - |StripLeft(s)|;
            i + |r| <= |s| && r == s[i..i + |r|] &&
            (forall k :: 0 <= k < i ==> IsSpace(s[k])) &&
            (forall k :: i + |r| <= k < |s| ==> IsSpace(s[k]))
  {
    StripRight(StripLeft(s))
  }

  /** A string with no whitespace at either end is its own strip. */
  lemma StripTrimmed(s: string)
    requires s == [] || (!IsSpace(s[0]) && !IsSpace(s[|s| - 1]))
    ensures Strip(s) == s
  {
  }

  /** Whitespace in front of a trimmed string is all that `strip` removes. */
  lemma StripLeadingSpace(c: char, s: string)
    requires IsSpace(c)
    requires s == [] || (!IsSpace(s[0]) && !IsSpace(s[|s| - 1]))
    ensures Strip([c] + s) == s
  {
  }

  /** Python's `s.replace(pat, rep)` for a non-empty pattern: every
      non-overlapping occurrence, found left to right, is replaced. */
  function Replace(s: string, pat: string, rep: string): (r: string)
    requires pat != ""
    decreases |s|
    ensures rep == "" ==> |r| <= |s|
    ensures |s| < |pat| ==> r == s
  {
    if |s| < |pat| then s
    else if s[..|pat|] == pat then rep + Replace(s[|pat|..], pat, rep)
    else [s[0]] + Replace(s[1..], pat, rep)
  }

  /** A leading occurrence of the pattern is replaced. */
  lemma ReplaceLeading(pat: string, t: string, rep: string)
    requires pat != ""
    ensures Replace(pat + t, pat, rep) == rep + Replace(t, pat, rep)
  {
  }

  /** A leading character that cannot start the pattern is kept. */
  lemma ReplaceSkips(c: char, t: string, pat: string, rep: string)
    requires pat != "" && c != pat[0]
    ensures Replace([c] + t, pat, rep) == [c] + Replace(t, pat, rep)
  {
  }

  /** A string in which the pattern does not occur is left unchanged. */
  lemma {:induction false} ReplaceAbsent(s: string, pat: string, rep: string)
    requires pat != "" && !Contains(s, pat)
    ensures Replace(s, pat, rep) == s
  {
    if |s| >= |pat| {
      assert !OccursAt(s, pat, 0);
      assert !Contains(s[1..], pat) by {
        forall j: nat | OccursAt(s[1..], pat, j) ensures false {
          assert s[1..][j..j + |pat|] == s[j + 1..j + 1 + |pat|];
          assert OccursAt(s, pat, j + 1);
        }
      }
      ReplaceAbsent(s[1..], pat, rep);
      assert [s[0]] + s[1..] == s;
    }
  }
}
