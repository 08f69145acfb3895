/** The few string operations the downloader relies on. */
module Text {
  import opened Wrappers

  /** ASCII lower case of one character. */
  function LowerChar(c: char): (r: char)
    ensures !('A' <= r <= 'Z')
  {
    if 'A' <= c <= 'Z' then (c as int + 32) as char else c
  }

  /** ASCII lower case of a string. */
  function Lower(s: string): (r: string)
    ensures |r| == |s|
    ensures forall i :: 0 <= i < |s| ==> r[i] == LowerChar(s[i])
  {
    seq(|s|, i requires 0 <= i < |s| => LowerChar(s[i]))
  }

  predicate EndsWith(s: string, suffix: string)
  {
    |suffix| <= |s| && s[|s| - |suffix|..] == suffix
  }

  lemma EndsWithLast(s: string, suffix: string)
    requires EndsWith(s, suffix) && suffix != ""
    ensures s[|s| - 1] == suffix[|suffix| - 1]
  {
    assert s[|s| - 1] == s[|s| - |suffix|..][|suffix| - 1];
  }

  /** Splits at the last occurrence of `c`, as `str::rsplit_once` does. */
  function RSplitOnce(s: string, c: char): (r: Option<(string, string)>)
    ensures r.None? <==> c !in s
    ensures r.Some? ==> s == r.value.0 + [c] + r.value.1 && c !in r.value.1
  {
    if s == "" then None
    else if s[|s| - 1] == c then
      assert s == s[..|s| - 1] + [c] + "";
      Some((s[..|s| - 1], ""))
    else
      match RSplitOnce(s[..|s| - 1], c)
      case None => None
      case Some(parts) =>
        assert s == s[..|s| - 1] + [s[|s| - 1]];
        Some((parts.0, parts.1 + [s[|s| - 1]]))
  }

  /** Every way of writing a string as a head, one `c` and a `c`-free tail is the split at the last `c`. */
  lemma {:induction false} RSplitOnceUnique(head: string, c: char, tail: string)
    requires c !in tail
    ensures RSplitOnce(head + [c] + tail, c) == Some((head, tail))
  {
    var s := head + [c] + tail;
    var m := |s| - 1;
    if tail == "" {
      assert s[..m] == head;
    } else {
      var shorter := tail[..|tail| - 1];
      assert s[..m] == head + [c] + shorter;
      assert s[m] == tail[|tail| - 1];
      RSplitOnceUnique(head, c, shorter);
      assert tail == shorter + [s[m]];
    }
  }

  /** Removes every occurrence of `c`. */
  function Without(s: string, c: char): string
  {
    if s == "" then ""
    else Without(s[..|s| - 1], c) + if s[|s| - 1] == c then "" else [s[|s| - 1]]
  }

  lemma {:induction false} WithoutAbsent(s: string, c: char)
    requires c !in s
    ensures Without(s, c) == s
  {
    if s != "" {
      WithoutAbsent(s[..|s| - 1], c);
      assert s == s[..|s| - 1] + [s[|s| - 1]];
    }
  }

  lemma {:induction false} WithoutConcat(a: string, b: string, c: char)
    ensures Without(a + b, c) == Without(a, c) + Without(b, c)
  {
    if b == "" {
      assert a + b == a;
    } else {
      var s := a + b;
      assert s[..|s| - 1] == a + b[..|b| - 1];
      WithoutConcat(a, b[..|b| - 1], c);
    }
  }

  lemma WithoutInfix(a: string, c: char, b: string)
    requires c !in b
    ensures Without(a + [c] + b, c) == Without(a, c) + b
  {
    var s := a + [c];
    assert s[..|s| - 1] == a;
    WithoutConcat(s, b, c);
    WithoutAbsent(b, c);
  }

  /** The order Rust's `str` has: the first differing character decides, a proper prefix is smaller. */
  ghost predicate LexLess(a: string, b: string)
  {
    || (|a| < |b| && a == b[..|a|])
    || exists i :: 0 <= i < |a| && i < |b| && a[..i] == b[..i] && a[i] < b[i]
  }
}
