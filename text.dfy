/**
  The parts of Python's `str` that the post command relies on: the whitespace
  set of `str.isspace`, `str.rstrip()`, `str.strip()` (with `str.lstrip()` as
  a reference for it), `str.join` and, as the inverse of `join` on a
  one-character separator, `str.split`.
  Strings are sequences of Unicode code points, as in Python 3.
 */
module Text {

  /** The characters Python's `str.isspace` accepts; `strip()` and `rstrip()`
      without an argument remove exactly these. */
  predicate IsSpace(c: char)
  {
    var n := c as int;
    (0x09 <= n <= 0x0D) || (0x1C <= n <= 0x20) || n == 0x85 || n == 0xA0 ||
    n == 0x1680 || (0x2000 <= n <= 0x200A) || n == 0x2028 || n == 0x2029 ||
    n == 0x202F || n == 0x205F || n == 0x3000
  }

  /** Every character of `s` is whitespace (true of the empty string). */
  predicate AllSpace(s: string)
  {
    forall i :: 0 <= i < |s| ==> IsSpace(s[i])
  }

  /** The first index at or after `i` that does not hold whitespace, or `|s|`:
      the left scan of Python's strip. */
  function TrimStart(s: string, i: nat): (r: nat)
    requires i <= |s|
    ensures i <= r <= |s|
    ensures forall k :: i <= k < r ==> IsSpace(s[k])
    ensures r == |s| || !IsSpace(s[r])
    decreases |s| - i
  {
    if i == |s| || !IsSpace(s[i]) then i else TrimStart(s, i + 1)
  }

  /** The right scan of Python's strip: moving `j` down while it stays above
      `lo` and the character before it is whitespace. */
  function TrimEnd(s: string, lo: nat, j: nat): (r: nat)
    requires lo <= j <= |s|
    ensures lo <= r <= j
    ensures forall k :: r <= k < j ==> IsSpace(s[k])
    ensures r == lo || !IsSpace(s[r - 1])
  {
    if j == lo || !IsSpace(s[j - 1]) then j else TrimEnd(s, lo, j - 1)
  }

  /** `s.rstrip()`: `s` without its trailing whitespace. */
  function RStrip(s: string): (r: string)
    ensures |r| <= |s| && r == s[..|r|]
    ensures forall k :: |r| <= k < |s| ==> IsSpace(s[k])
    ensures r == [] || !IsSpace(r[|r| - 1])
  {
    s[..TrimEnd(s, 0, |s|)]
  }

  /** `s.lstrip()`: `s` without its leading whitespace. */
  function LStrip(s: string): (r: string)
    ensures |r| <= |s| && r == s[|s| - |r|..]
    ensures forall k :: 0 <= k < |s| - |r| ==> IsSpace(s[k])
    ensures r == [] || !IsSpace(r[0])
  {
    s[TrimStart(s, 0)..]
  }

  /** `s.strip()`: `s` without its leading and trailing whitespace. The result
      is a contiguous part of `s` with only whitespace around it;
      `StripExact` below shows it removes exactly that whitespace. */
  function Strip(s: string): (r: string)
    ensures |r| <= |s|
    ensures r == [] || (!IsSpace(r[0]) && !IsSpace(r[|r| - 1]))
  {
    var i := TrimStart(s, 0);
    s[i..TrimEnd(s, i, |s|)]
  }

  /** The result of `strip()` is a contiguous part of `s` with only whitespace
      before and after it. */
  lemma StripSlice(s: string)
    ensures exists i :: (0 <= i <= |s| - |Strip(s)| && Strip(s) == s[i..i + |Strip(s)|] &&
                         AllSpace(s[..i]) && AllSpace(s[i + |Strip(s)|..]))
  {
    var i := TrimStart(s, 0);
    var j := TrimEnd(s, i, |s|);
    assert Strip(s) == s[i..j];
    assert AllSpace(s[..i]) by {
      forall k | 0 <= k < i ensures IsSpace(s[..i][k]) { assert s[..i][k] == s[k]; }
    }
    assert AllSpace(s[j..]) by {
      forall k | 0 <= k < |s| - j ensures IsSpace(s[j..][k]) { assert s[j..][k] == s[j + k]; }
    }
  }

  /** The left scan stops exactly at `m` when everything from `i` up to `m`
      is whitespace and `m` is the end or holds no whitespace. */
  lemma {:induction false} TrimStartAt(s: string, i: nat, m: nat)
    requires i <= m <= |s|
    requires forall k :: i <= k < m ==> IsSpace(s[k])
    requires m == |s| || !IsSpace(s[m])
    ensures TrimStart(s, i) == m
    decreases m - i
  {
    if i < m {
      TrimStartAt(s, i + 1, m);
    }
  }

  /** The right scan stops exactly at `m` when everything from `m` up to `j`
      is whitespace and `m` is `lo` or follows a non-whitespace character. */
  lemma {:induction false} TrimEndAt(s: string, lo: nat, j: nat, m: nat)
    requires lo <= m <= j <= |s|
    requires forall k :: m <= k < j ==> IsSpace(s[k])
    requires m == lo || !IsSpace(s[m - 1])
    ensures TrimEnd(s, lo, j) == m
    decreases j - m
  {
    if m < j {
      TrimEndAt(s, lo, j - 1, m);
    }
  }

  /** RStrip removes exactly the trailing whitespace: from `p + b`, where `b`
      is all whitespace and `p` does not end in whitespace, it returns `p`. */
  lemma RStripExact(p: string, b: string)
    requires p == [] || !IsSpace(p[|p| - 1])
    requires AllSpace(b)
    ensures RStrip(p + b) == p
  {
    var s := p + b;
    TrimEndAt(s, 0, |s|, |p|);
    assert s[..|p|] == p;
  }

  /** LStrip removes exactly the leading whitespace. */
  lemma LStripExact(a: string, m: string)
    requires AllSpace(a)
    requires m == [] || !IsSpace(m[0])
    ensures LStrip(a + m) == m
  {
    var s := a + m;
    TrimStartAt(s, 0, |a|);
    assert s[|a|..] == m;
  }

  /** Strip removes exactly the surrounding whitespace: whatever whitespace
      `a` and `b` hold, `(a + m + b).strip()` is `m` when `m` neither starts
      nor ends with whitespace. */
  lemma StripExact(a: string, m: string, b: string)
    requires AllSpace(a) && AllSpace(b)
    requires m == [] || (!IsSpace(m[0]) && !IsSpace(m[|m| - 1]))
    ensures Strip(a + m + b) == m
  {
    var s := a + m + b;
    var i, j := |a|, |a| + |m|;
    if m == [] {
      TrimStartAt(s, 0, |s|);
      TrimEndAt(s, |s|, |s|, |s|);
    } else {
      assert s[i] == m[0];
      TrimStartAt(s, 0, i);
      assert s[j - 1] == m[|m| - 1];
      TrimEndAt(s, i, |s|, j);
      assert s[i..j] == m;
    }
  }

  /** rstrip of a suffix `s[i..]` ends where the right scan over `s`,
      bounded below by `i`, ends. */
  lemma RStripSuffix(s: string, i: nat)
    requires i <= |s|
    ensures RStrip(s[i..]) == s[i..TrimEnd(s, i, |s|)]
  {
    var j := TrimEnd(s, i, |s|);
    var t := s[i..];
    forall k | j - i <= k < |t| ensures IsSpace(t[k]) {
      assert t[k] == s[i + k];
    }
    assert j - i == 0 || t[j - i - 1] == s[j - 1];
    TrimEndAt(t, 0, |t|, j - i);
    assert t[..j - i] == s[i..j];
  }

  /** `strip()` is `lstrip()` followed by `rstrip()`. */
  lemma StripIsRL(s: string)
    ensures Strip(s) == RStrip(LStrip(s))
  {
    RStripSuffix(s, TrimStart(s, 0));
  }

  /** Stripping twice changes nothing more. */
  lemma StripIdempotent(s: string)
    ensures Strip(Strip(s)) == Strip(s)
  {
    var m := Strip(s);
    assert [] + m + [] == m;
    StripExact([], m, []);
  }

  /** `sep.join(parts)`. */
  function Join(sep: string, parts: seq<string>): string
  {
    if |parts| == 0 then []
    else if |parts| == 1 then parts[0]
    else parts[0] + sep + Join(sep, parts[1..])
  }

  /** With a non-empty separator, the joined string is empty exactly when
      there is nothing to join or a single empty part. */
  lemma {:induction false} JoinEmpty(sep: string, parts: seq<string>)
    requires sep != []
    ensures Join(sep, parts) == [] <==> |parts| == 0 || (|parts| == 1 && parts[0] == [])
  {
    if |parts| > 1 {
      assert |Join(sep, parts)| >= |sep|;
    }
  }

  /** `s.split(c)`: the pieces of `s` between occurrences of `c`; no piece
      holds `c`, and `JoinSplit` shows joining them with `c` gives `s` back. */
  function Split(s: string, c: char): (r: seq<string>)
    ensures |r| >= 1
    ensures forall i :: 0 <= i < |r| ==> c !in r[i]
  {
    if s == [] then [[]]
    else
      var rest := Split(s[1..], c);
      if s[0] == c then [[]] + rest
      else [[s[0]] + rest[0]] + rest[1..]
  }

  /** Joining the pieces of `s.split(c)` with `c` gives `s` back. */
  lemma {:induction false} JoinSplit(s: string, c: char)
    ensures Join([c], Split(s, c)) == s
  {
    if s != [] {
      var rest := Split(s[1..], c);
      JoinSplit(s[1..], c);
      if s[0] == c {
        assert Split(s, c) == [[]] + rest;
        assert ([[]] + rest)[1..] == rest;
        assert Join([c], [[]] + rest) == [] + [c] + Join([c], rest);
      } else {
        var first := [s[0]] + rest[0];
        assert Split(s, c) == [first] + rest[1..];
        assert ([first] + rest[1..])[1..] == rest[1..];
        if |rest| == 1 {
          assert Join([c], [first]) == first;
        } else {
          assert Join([c], rest) == rest[0] + [c] + Join([c], rest[1..]);
          assert Join([c], [first] + rest[1..]) == first + [c] + Join([c], rest[1..]);
        }
      }
      assert [s[0]] + s[1..] == s;
    }
  }

  /** A string without the separator splits into itself. */
  lemma {:induction false} SplitWhole(p: string, c: char)
    requires c !in p
    ensures Split(p, c) == [p]
  {
    if p != [] {
      SplitWhole(p[1..], c);
      assert [p[0]] + p[1..] == p;
    }
  }

  /** Splitting stops at the first separator. */
  lemma {:induction false} SplitFirst(p: string, t: string, c: char)
    requires c !in p
    ensures Split(p + [c] + t, c) == [p] + Split(t, c)
  {
    if p == [] {
      assert (p + [c] + t)[1..] == t;
    } else {
      assert (p + [c] + t)[1..] == p[1..] + [c] + t;
      SplitFirst(p[1..], t, c);
      assert [p[0]] + p[1..] == p;
    }
  }

  /** `split` undoes `join` on a one-character separator that no part contains:
      the parts come back, all of them and in order. */
  lemma {:induction false} SplitJoin(parts: seq<string>, c: char)
    requires |parts| > 0
    requires forall i :: 0 <= i < |parts| ==> c !in parts[i]
    ensures Split(Join([c], parts), c) == parts
  {
    if |parts| == 1 {
      SplitWhole(parts[0], c);
    } else {
      SplitJoin(parts[1..], c);
      SplitFirst(parts[0], Join([c], parts[1..]), c);
      assert [parts[0]] + parts[1..] == parts;
    }
  }
}
