/** String operations the scripts use: `startswith`/`endswith`, substring search,
    `sep.join(...)` with its inverse `split`, and `c * n`. */
module Text {
  import opened Wrappers

  predicate StartsWith(s: string, prefix: string) { |prefix| <= |s| && s[..|prefix|] == prefix }

  predicate EndsWith(s: string, suffix: string) { |suffix| <= |s| && s[|s| - |suffix|..] == suffix }

  /** `pat` occurs in `s` starting at index `i`. */
  predicate OccursAt(s: string, pat: string, i: nat) { i + |pat| <= |s| && s[i..i + |pat|] == pat }

  /** Leftmost occurrence of `pat` in `s` at or after `from` (`s.find(pat, from)`). */
  function IndexOf(s: string, pat: string, from: nat): (r: Option<nat>)
    ensures r.Some? ==> from <= r.value && OccursAt(s, pat, r.value)
    ensures r.Some? ==> forall j :: from <= j < r.value ==> !OccursAt(s, pat, j)
    ensures r.None? ==> forall j :: from <= j ==> !OccursAt(s, pat, j)
    decreases |s| - from
  {
    if from + |pat| > |s| then None
    else if OccursAt(s, pat, from) then Some(from)
    else IndexOf(s, pat, from + 1)
  }

  lemma DropConcat(x: string, y: string, k: nat)
    requires k <= |x|
    ensures (x + y)[k..] == x[k..] + y
  {
  }

  lemma ConcatPrefix(a: string, b: string)
    ensures StartsWith(a + b, a)
    ensures a + b == a <==> b == []
  {
    assert (a + b)[..|a|] == a;
  }

  lemma ConcatCancel(a: string, x: string, y: string)
    requires a + x == a + y
    ensures x == y
  {
    assert (a + x)[|a|..] == x;
  }

  /** `sep.join(fields)`. */
  function Join(sep: char, fields: seq<string>): string
  {
    if fields == [] then ""
    else if |fields| == 1 then fields[0]
    else fields[0] + [sep] + Join(sep, fields[1..])
  }

  /** `s.split(sep)`: the pieces between separators, always at least one. */
  function Split(s: string, sep: char): (fields: seq<string>)
    ensures |fields| >= 1
    decreases |s|
  {
    match IndexOf(s, [sep], 0)
    case None => [s]
    case Some(i) => [s[..i]] + Split(s[i + 1..], sep)
  }

  lemma NoSeparator(f: string, sep: char)
    requires sep !in f
    ensures IndexOf(f, [sep], 0).None?
  {
    forall j | 0 <= j ensures !OccursAt(f, [sep], j) {
      if j < |f| {
        assert f[j..j + 1] == [f[j]] && f[j] in f;
      }
    }
  }

  lemma FirstSeparator(f: string, sep: char, rest: string)
    requires sep !in f
    ensures IndexOf(f + [sep] + rest, [sep], 0) == Some(|f|)
  {
    var line := f + [sep] + rest;
    forall j | 0 <= j < |f| ensures !OccursAt(line, [sep], j) {
      assert line[j] == f[j];
    }
    assert OccursAt(line, [sep], |f|);
  }

  /** Splitting a joined line at the separator gives the fields back, provided
      none of them contains the separator. */
  lemma {:induction false} SplitJoin(sep: char, fields: seq<string>)
    requires |fields| >= 1
    requires forall k :: 0 <= k < |fields| ==> sep !in fields[k]
    ensures Split(Join(sep, fields), sep) == fields
  {
    var f := fields[0];
    if |fields| == 1 {
      NoSeparator(f, sep);
    } else {
      var rest := Join(sep, fields[1..]);
      var line := f + [sep] + rest;
      assert Join(sep, fields) == line;
      FirstSeparator(f, sep, rest);
      assert line[..|f|] == f && line[|f| + 1..] == rest;
      SplitJoin(sep, fields[1..]);
      assert Split(line, sep) == [f] + fields[1..];
    }
  }

  /** `[c] * n` as a string (`"=" * 20`). */
  function Repeat(c: char, n: nat): (s: string)
    ensures |s| == n && forall i :: 0 <= i < n ==> s[i] == c
  {
    if n == 0 then "" else [c] + Repeat(c, n - 1)
  }
}
