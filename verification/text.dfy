/**
 The handful of Python `str` and `posixpath` operations the exporter relies on,
 with the edge cases of CPython's definitions.
 */
module Text {

  /** `s.startswith(prefix)` */
  predicate StartsWith(s: string, prefix: string)
  {
    |prefix| <= |s| && s[..|prefix|] == prefix
  }

  /** Number of occurrences of `c` in `s`. */
  function Count(s: string, c: char): nat
  {
    if s == [] then 0 else (if s[0] == c then 1 else 0) + Count(s[1..], c)
  }

  lemma {:induction false} CountZeroIffAbsent(s: string, c: char)
    ensures Count(s, c) == 0 <==> c !in s
  {
    if s != [] {
      CountZeroIffAbsent(s[1..], c);
      assert s == [s[0]] + s[1..];
    }
  }

  /** `sep.join(parts)` for a one-character separator. */
  function JoinWith(parts: seq<string>, sep: char): string
  {
    if |parts| == 0 then ""
    else if |parts| == 1 then parts[0]
    else parts[0] + [sep] + JoinWith(parts[1..], sep)
  }

  /** `s.split(sep)` for a one-character separator: never empty, one more
      part than there are separators, and joining the parts back gives `s`. */
  function Split(s: string, sep: char): (parts: seq<string>)
    ensures |parts| == Count(s, sep) + 1
    ensures forall i :: 0 <= i < |parts| ==> sep !in parts[i]
    ensures JoinWith(parts, sep) == s
  {
    if s == [] then [""]
    else
      var rest := Split(s[1..], sep);
      if s[0] == sep then
        assert s == [sep] + s[1..];
        [""] + rest
      else
        var parts := [[s[0]] + rest[0]] + rest[1..];
        assert JoinWith(parts, sep) == [s[0]] + JoinWith(rest, sep) by {
          if |rest| > 1 {
            assert parts[1..] == rest[1..];
          }
        }
        assert s == [s[0]] + s[1..];
        parts
  }

  /** Splitting undoes joining, as long as no part holds the separator. */
  lemma {:induction false} SplitJoin(parts: seq<string>, sep: char)
    requires |parts| >= 1
    requires forall i :: 0 <= i < |parts| ==> sep !in parts[i]
    ensures Split(JoinWith(parts, sep), sep) == parts
  {
    if |parts| == 1 {
      SplitNoSep(parts[0], sep);
    } else {
      SplitJoin(parts[1..], sep);
      SplitAfterPlain(parts[0], JoinWith(parts[1..], sep), sep);
      assert [parts[0]] + parts[1..] == parts;
    }
  }

  /** A string without the separator splits into itself. */
  lemma {:induction false} SplitNoSep(s: string, sep: char)
    requires sep !in s
    ensures Split(s, sep) == [s]
  {
    if s != [] {
      SplitNoSep(s[1..], sep);
    }
  }

  /** Splitting `a + [sep] + b` when `a` holds no separator puts `a` first. */
  lemma {:induction false} SplitAfterPlain(a: string, b: string, sep: char)
    requires sep !in a
    ensures Split(a + [sep] + b, sep) == [a] + Split(b, sep)
  {
    if a == [] {
      assert a + [sep] + b == [sep] + b;
      assert ([sep] + b)[1..] == b;
    } else {
      var t := a[1..] + [sep] + b;
      assert a + [sep] + b == [a[0]] + t;
      SplitAfterPlain(a[1..], b, sep);
      SplitPlainHead(a[0], t, sep);
      assert [a[0]] + a[1..] == a;
    }
  }

  /** A leading character other than the separator joins the first part. */
  lemma SplitPlainHead(c: char, t: string, sep: char)
    requires c != sep
    ensures Split([c] + t, sep) == [[c] + Split(t, sep)[0]] + Split(t, sep)[1..]
  {
    assert ([c] + t)[1..] == t;
  }

  /** `s.rfind(c)`: the last index holding `c`, or -1. */
  function RFind(s: string, c: char): (r: int)
    ensures -1 <= r < |s|
    ensures r >= 0 ==> s[r] == c
    ensures forall j :: r < j < |s| ==> s[j] != c
  {
    if s == [] then -1
    else if s[|s| - 1] == c then |s| - 1
    else RFind(s[..|s| - 1], c)
  }

  /** `s.replace(pat, "")`: every non-overlapping occurrence of `pat`, scanning
      left to right, is removed; an empty `pat` leaves `s` as it is. */
  function RemoveAll(s: string, pat: string): (r: string)
    ensures |r| <= |s|
  {
    if pat == [] || |s| < |pat| then s
    else if s[..|pat|] == pat then RemoveAll(s[|pat|..], pat)
    else [s[0]] + RemoveAll(s[1..], pat)
  }

  /** `pat` occurs somewhere in `s`. */
  predicate Occurs(s: string, pat: string)
  {
    exists i :: 0 <= i <= |s| && OccursAt(s, pat, i)
  }

  /** `pat` occurs in `s` starting at index `i`. */
  predicate OccursAt(s: string, pat: string, i: nat)
  {
    i + |pat| <= |s| && s[i..i + |pat|] == pat
  }

  /** Removing a string that does not occur changes nothing. */
  lemma {:induction false} RemoveAllAbsent(s: string, pat: string)
    requires !Occurs(s, pat)
    ensures RemoveAll(s, pat) == s
  {
    if pat != [] && |s| >= |pat| {
      assert !OccursAt(s, pat, 0);
      assert !Occurs(s[1..], pat) by {
        forall i: nat | OccursAt(s[1..], pat, i)
          ensures false
        {
          assert s[1..][i..i + |pat|] == s[i + 1..i + 1 + |pat|];
          assert OccursAt(s, pat, i + 1);
        }
      }
      RemoveAllAbsent(s[1..], pat);
      assert s == [s[0]] + s[1..];
    }
  }

  /** A leading occurrence is removed and the rest is kept when `pat`
      occurs nowhere else: the relative-path step of the exporter. */
  lemma RemoveAllLeading(root: string, rest: string)
    requires root != []
    requires !Occurs(rest, root)
    ensures RemoveAll(root + rest, root) == rest
  {
    assert (root + rest)[..|root|] == root;
    assert (root + rest)[|root|..] == rest;
    RemoveAllAbsent(rest, root);
  }

  /** `os.path.splitext` on POSIX: split at the last '.' of the base name,
      unless every character of the base name before it is a '.'. */
  function SplitExt(p: string): (r: (string, string))
    ensures r.0 + r.1 == p
    ensures r.1 != [] ==> r.1[0] == '.' && '/' !in r.1 && '.' !in r.1[1..]
    ensures r.1 != [] <==> DottedBaseName(p)
  {
    var sepIndex := RFind(p, '/');
    var dotIndex := RFind(p, '.');
    if dotIndex > sepIndex && exists k :: sepIndex < k < dotIndex && p[k] != '.' then
      SplitExtWitness(p, sepIndex, dotIndex);
      (p[..dotIndex], p[dotIndex..])
    else
      SplitExtNoWitness(p, sepIndex, dotIndex);
      (p, "")
  }

  /** The base name of `p` has a '.' preceded by some character other than '.'. */
  predicate DottedBaseName(p: string)
  {
    exists k, d :: 0 <= k < d < |p| && p[k] != '.' && p[d] == '.' && '/' !in p[k..]
  }

  lemma SplitExtWitness(p: string, sepIndex: int, dotIndex: int)
    requires sepIndex == RFind(p, '/') && dotIndex == RFind(p, '.')
    requires dotIndex > sepIndex
    requires exists k :: sepIndex < k < dotIndex && p[k] != '.'
    ensures DottedBaseName(p)
    ensures '/' !in p[dotIndex..] && '.' !in p[dotIndex + 1..]
  {
    var k :| sepIndex < k < dotIndex && p[k] != '.';
    assert '/' !in p[k..] by {
      forall j | 0 <= j < |p[k..]| ensures p[k..][j] != '/' {
        assert p[k..][j] == p[k + j];
      }
    }
    forall j | 0 <= j < |p[dotIndex..]| ensures p[dotIndex..][j] != '/' {
      assert p[dotIndex..][j] == p[dotIndex + j];
    }
    var ext := p[dotIndex + 1..];
    forall j | 0 <= j < |ext| ensures ext[j] != '.' {
      assert ext[j] == p[dotIndex + 1 + j];
    }
  }

  lemma SplitExtNoWitness(p: string, sepIndex: int, dotIndex: int)
    requires sepIndex == RFind(p, '/') && dotIndex == RFind(p, '.')
    ensures DottedBaseName(p) ==> dotIndex > sepIndex && exists k :: sepIndex < k < dotIndex && p[k] != '.'
  {
    if DottedBaseName(p) {
      var k, d :| 0 <= k < d < |p| && p[k] != '.' && p[d] == '.' && '/' !in p[k..];
      forall j | k <= j < |p| ensures p[j] != '/' {
        assert p[k..][j - k] == p[j];
      }
      assert d <= dotIndex;
      assert sepIndex < k < dotIndex && p[k] != '.';
    }
  }

  /** `os.path.basename` on POSIX: everything after the last '/'. */
  function BaseName(p: string): (r: string)
    ensures '/' !in r
    ensures |r| <= |p| && p[|p| - |r|..] == r
    ensures |r| < |p| ==> p[|p| - |r| - 1] == '/'
  {
    var i := RFind(p, '/');
    AfterLastSlash(p, i);
    p[i + 1..]
  }

  /** What follows the last '/' holds none, and is preceded by it. */
  lemma AfterLastSlash(p: string, i: int)
    requires i == RFind(p, '/')
    ensures '/' !in p[i + 1..]
    ensures |p| - |p[i + 1..]| == i + 1
    ensures i >= 0 ==> p[i] == '/'
  {
    var r := p[i + 1..];
    forall j | 0 <= j < |r| ensures r[j] != '/' {
      assert r[j] == p[i + 1 + j];
    }
  }


  /** `os.path.join(a, b)` on POSIX: an absolute `b` replaces `a`; otherwise
      a '/' is inserted unless `a` is empty or already ends with one. */
  function PathJoin(a: string, b: string): (r: string)
    ensures '/' !in b ==> BaseName(r) == b
    ensures (b == [] || b[0] != '/') ==> StartsWith(r, a) && |r| >= |a| + |b|
  {
    var r :=
      if b != [] && b[0] == '/' then b
      else if a == [] || a[|a| - 1] == '/' then a + b
      else a + "/" + b;
    assert '/' !in b ==> BaseName(r) == b by {
      if '/' !in b {
        BaseNameAfterSlash(r, b);
      }
    }
    assert (b == [] || b[0] != '/') ==> r[..|a|] == a;
    r
  }

  /** Joining a name without '/' onto a non-empty directory ends in '/'
      followed by the name. */
  lemma PathJoinTail(a: string, b: string)
    requires a != [] && '/' !in b
    ensures var r := PathJoin(a, b);
      |r| > |b| && r[|r| - |b|..] == b && r[|r| - |b| - 1] == '/'
  {
    var r := PathJoin(a, b);
    if a[|a| - 1] == '/' {
      assert r == a + b;
    } else {
      assert r == a + "/" + b;
    }
  }

  /** The base name of anything that ends in '/' followed by `b`, or that is
      `b` itself, is `b`, when `b` holds no '/'. */
  lemma BaseNameAfterSlash(r: string, b: string)
    requires '/' !in b
    requires |b| <= |r| && r[|r| - |b|..] == b
    requires |b| < |r| ==> r[|r| - |b| - 1] == '/'
    ensures BaseName(r) == b
  {
    var i := RFind(r, '/');
    assert forall j :: |r| - |b| <= j < |r| ==> r[j] == b[j - (|r| - |b|)];
    if |b| < |r| {
      assert i == |r| - |b| - 1;
    } else {
      assert r == b;
      assert i == -1;
    }
  }
}
