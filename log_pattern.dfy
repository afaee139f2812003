/** The two TOIL log patterns of the execution-time extractor,
      STDERR: ([\d\-T:]+?\.\d{6})\d+?Z.*?<marker>.*?run_docker\.cwl
    with <marker> either "Issued job" or "Job ended", matched the way `re.search`
    matches them: at the leftmost position of the log text where a match exists,
    `.` not crossing a newline. */
module LogPattern {
  import opened Wrappers
  import opened Decimal
  import opened Text

  const Prefix: string := "STDERR: "
  const Step: string := "run_docker.cwl"

  /** The characters of `[\d\-T:]`. */
  predicate InStampClass(c: char) { IsDigit(c) || c == '-' || c == 'T' || c == ':' }

  predicate NotNewline(c: char) { c != '\n' }

  /** `s[x..y]` holds no newline, so `.*?` can span it. */
  predicate NoNewline(s: string, x: int, y: int)
  {
    forall q :: x <= q < y && 0 <= q < |s| ==> s[q] != '\n'
  }

  /** Length of the longest run of characters satisfying `p` that starts at `i`. */
  function Run(s: string, i: nat, p: char -> bool): (n: nat)
    requires i <= |s|
    ensures i + n <= |s|
    ensures forall q :: i <= q < i + n ==> p(s[q])
    ensures i + n == |s| || !p(s[i + n])
    decreases |s| - i
  {
    if i == |s| || !p(s[i]) then 0 else 1 + Run(s, i + 1, p)
  }

  /** Index of the end of the line that holds position `i`. */
  function LineEnd(s: string, i: nat): (e: nat)
    requires i <= |s|
    ensures i <= e <= |s| && NoNewline(s, i, e)
    ensures e == |s| || s[e] == '\n'
  {
    i + Run(s, i, NotNewline)
  }

  /** `STDERR: ` followed by a run `s[8..a]` of stamp characters and a dot at `a`. */
  predicate StampPart(s: string, a: int)
  {
    && StartsWith(s, Prefix)
    && 8 < a < |s|
    && (forall q :: 8 <= q < a ==> InStampClass(s[q]))
    && s[a] == '.'
  }

  /** After the dot at `a`, the fraction digits `s[a + 1..b]` (at least 7) and `Z` at `b`. */
  predicate FractionPart(s: string, a: int, b: int)
  {
    && 0 <= a
    && a + 8 <= b < |s|
    && (forall q :: a < q < b ==> IsDigit(s[q]))
    && s[b] == 'Z'
  }

  /** After `Z` at `b`, `marker` at `j` and `run_docker.cwl` at `k`, with no newline
      in the gaps `.*?` spans. */
  predicate TailPart(s: string, marker: string, b: int, j: int, k: int)
  {
    && 0 <= b < j && OccursAt(s, marker, j) && NoNewline(s, b + 1, j)
    && j + |marker| <= k && OccursAt(s, Step, k) && NoNewline(s, j + |marker|, k)
  }

  /** The pattern matches at the start of `s`, described by where its parts lie. */
  predicate Shape(s: string, marker: string, a: int, b: int, j: int, k: int)
  {
    StampPart(s, a) && FractionPart(s, a, b) && TailPart(s, marker, b, j, k)
  }

  /** Some match of the pattern starts at the beginning of `s`. */
  ghost predicate MatchesAt(s: string, marker: string)
  {
    exists a, b, j, k :: Shape(s, marker, a, b, j, k)
  }

  /** `STDERR: ([\d\-T:]+?\.`: where the dot is. The lazy run can only end at the
      first character outside the class, so there is at most one candidate. */
  function DotAt(s: string): (r: Option<nat>)
    ensures r.Some? ==> StampPart(s, r.value)
  {
    if !StartsWith(s, Prefix) then None
    else
      var a := 8 + Run(s, 8, InStampClass);
      if a == 8 || a == |s| || s[a] != '.' then None else Some(a)
  }

  lemma DotAtComplete(s: string, a: int)
    requires StampPart(s, a)
    ensures DotAt(s) == Some(a)
  {
  }

  /** `\d{6}\d+?Z` after the dot at `a`: where `Z` is. */
  function ZAt(s: string, a: nat): (r: Option<nat>)
    requires a < |s|
    ensures r.Some? ==> FractionPart(s, a, r.value)
  {
    var b := a + 1 + Run(s, a + 1, IsDigit);
    if b < a + 8 || b == |s| || s[b] != 'Z' then None else Some(b)
  }

  lemma ZAtComplete(s: string, a: nat, b: int)
    requires a < |s| && FractionPart(s, a, b)
    ensures ZAt(s, a) == Some(b)
  {
  }

  /** `.*?<marker>.*?run_docker\.cwl` after `Z` at `b`, within the rest of that line. */
  function TailMatches(s: string, marker: string, b: nat): bool
    requires b < |s|
  {
    var e := LineEnd(s, b + 1);
    match IndexOf(s[..e], marker, b + 1)
    case None => false
    case Some(j) => IndexOf(s[..e], Step, j + |marker|).Some?
  }

  lemma OccursInLine(s: string, pat: string, i: nat, e: nat)
    requires e <= |s|
    ensures OccursAt(s[..e], pat, i) <==> OccursAt(s, pat, i) && i + |pat| <= e
  {
    if i + |pat| <= e {
      assert s[..e][i..i + |pat|] == s[i..i + |pat|];
    }
  }

  lemma TailMatchesSound(s: string, marker: string, b: nat)
    requires b < |s| && TailMatches(s, marker, b)
    ensures exists j, k :: TailPart(s, marker, b, j, k)
  {
    var e := LineEnd(s, b + 1);
    var j := IndexOf(s[..e], marker, b + 1).value;
    var k := IndexOf(s[..e], Step, j + |marker|).value;
    OccursInLine(s, marker, j, e);
    OccursInLine(s, Step, k, e);
    assert TailPart(s, marker, b, j, k);
  }

  /** The line that holds `b + 1` reaches at least past `run_docker.cwl`. */
  lemma TailWithinLine(s: string, marker: string, b: nat, j: int, k: int)
    requires '\n' !in marker
    requires b < |s| && TailPart(s, marker, b, j, k)
    ensures NoNewline(s, b + 1, k + |Step|)
  {
    forall q | b + 1 <= q < k + |Step| ensures s[q] != '\n' {
      if j <= q < j + |marker| {
        assert s[j..j + |marker|][q - j] == s[q];
        assert s[q] in marker;
      } else if k <= q {
        assert s[k..k + |Step|][q - k] == s[q];
      }
    }
  }

  lemma TailMatchesComplete(s: string, marker: string, b: nat, j: int, k: int)
    requires '\n' !in marker
    requires b < |s| && TailPart(s, marker, b, j, k)
    ensures TailMatches(s, marker, b)
  {
    var e := LineEnd(s, b + 1);
    TailWithinLine(s, marker, b, j, k);
    assert k + |Step| <= e;
    OccursInLine(s, marker, j, e);
    OccursInLine(s, Step, k, e);
    var j' := IndexOf(s[..e], marker, b + 1).value;
    OccursInLine(s, Step, k, e);
    assert OccursAt(s[..e], Step, k) && j' + |marker| <= k;
  }

  /** The pattern tried at the start of `s`; on success, group 1. */
  function MatchAt(s: string, marker: string): Option<string>
  {
    match DotAt(s)
    case None => None
    case Some(a) =>
      match ZAt(s, a)
      case None => None
      case Some(b) => if TailMatches(s, marker, b) then Some(s[8..a + 7]) else None
  }

  /** Every success of `MatchAt` is a match of the pattern, and group 1 is the stamp
      up to the sixth fraction digit. */
  lemma MatchAtSound(s: string, marker: string)
    requires MatchAt(s, marker).Some?
    ensures exists a, b, j, k :: Shape(s, marker, a, b, j, k) && MatchAt(s, marker).value == s[8..a + 7]
  {
    var a := DotAt(s).value;
    var b := ZAt(s, a).value;
    TailMatchesSound(s, marker, b);
    var j, k :| TailPart(s, marker, b, j, k);
    assert Shape(s, marker, a, b, j, k);
  }

  /** Every match of the pattern is found by `MatchAt`, with the same group 1. */
  lemma MatchAtComplete(s: string, marker: string, a: int, b: int, j: int, k: int)
    requires '\n' !in marker
    requires Shape(s, marker, a, b, j, k)
    ensures MatchAt(s, marker) == Some(s[8..a + 7])
  {
    DotAtComplete(s, a);
    ZAtComplete(s, a, b);
    TailMatchesComplete(s, marker, b, j, k);
  }

  /** A whole match lies on one line: from `STDERR: ` to `run_docker.cwl` there is no newline. */
  lemma MatchIsOneLine(s: string, marker: string, a: int, b: int, j: int, k: int)
    requires '\n' !in marker
    requires Shape(s, marker, a, b, j, k)
    ensures NoNewline(s, 0, k + |Step|)
  {
    TailWithinLine(s, marker, b, j, k);
    forall q | 0 <= q < 8 ensures s[q] != '\n' {
      assert s[..8][q] == s[q];
    }
  }

  /** The text between `STDERR: ` and the sixth fraction digit ends in a dot and six
      digits, preceded by stamp characters. */
  predicate CaptureShaped(c: string)
  {
    && |c| >= 8 && c[|c| - 7] == '.' && AllDigits(c[|c| - 6..])
    && forall q :: 0 <= q < |c| - 7 ==> InStampClass(c[q])
  }

  lemma ShapeCapture(s: string, marker: string, a: int, b: int, j: int, k: int)
    requires Shape(s, marker, a, b, j, k)
    ensures CaptureShaped(s[8..a + 7])
  {
    var c := s[8..a + 7];
    assert |c| == a - 1 && c[|c| - 7] == s[a];
    forall q | 0 <= q < |c| - 7 ensures InStampClass(c[q]) {
      assert c[q] == s[q + 8];
    }
    var digits := c[|c| - 6..];
    forall q | 0 <= q < |digits| ensures IsDigit(digits[q]) {
      assert digits[q] == s[a + 1 + q];
    }
  }

  /** Group 1 always ends in a dot and exactly six digits, preceded by stamp characters. */
  lemma CaptureForm(s: string, marker: string)
    requires MatchAt(s, marker).Some?
    ensures CaptureShaped(MatchAt(s, marker).value)
  {
    MatchAtSound(s, marker);
    var a, b, j, k :| Shape(s, marker, a, b, j, k) && MatchAt(s, marker).value == s[8..a + 7];
    ShapeCapture(s, marker, a, b, j, k);
  }

  /** The parts of a line written out as `STDERR: <t>.<f>Z<x><marker><y>run_docker.cwl<rest>`. */
  lemma StampOfConcat(t: string, f: string, tail: string)
    requires |t| >= 1 && forall q :: 0 <= q < |t| ==> InStampClass(t[q])
    requires |f| >= 7 && AllDigits(f)
    ensures var s := Prefix + t + "." + f + "Z" + tail;
      StampPart(s, 8 + |t|) && FractionPart(s, 8 + |t|, 9 + |t| + |f|)
      && s[8..15 + |t|] == t + "." + f[..6]
  {
    var s := Prefix + t + "." + f + "Z" + tail;
    var a := 8 + |t|;
    assert s[..8] == Prefix;
    forall q | 8 <= q < a ensures InStampClass(s[q]) {
      assert s[q] == t[q - 8];
    }
    forall q | a < q < a + 1 + |f| ensures IsDigit(s[q]) {
      assert s[q] == f[q - a - 1];
    }
    assert s[a] == '.' && s[a + 1 + |f|] == 'Z';
    assert s[8..a + 7] == t + "." + f[..6];
  }

  lemma TailOfConcat(head: string, x: string, marker: string, y: string, rest: string)
    requires |head| >= 1
    requires '\n' !in x && '\n' !in y
    ensures var s := head + x + marker + y + Step + rest;
      var j := |head| + |x|;
      TailPart(s, marker, |head| - 1, j, j + |marker| + |y|)
  {
    var s := head + x + marker + y + Step + rest;
    var b := |head| - 1;
    var j := |head| + |x|;
    var k := j + |marker| + |y|;
    assert s[j..j + |marker|] == marker;
    assert s[k..k + |Step|] == Step;
    forall q | b + 1 <= q < j ensures s[q] != '\n' {
      assert s[q] == x[q - b - 1];
    }
    forall q | j + |marker| <= q < k ensures s[q] != '\n' {
      assert s[q] == y[q - j - |marker|];
    }
  }

  /** A stamp whose fraction has seven or more digits is matched, and group 1 keeps
      only the first six of them. */
  lemma FractionTruncated(t: string, f: string, x: string, marker: string, y: string, rest: string)
    requires |t| >= 1 && forall q :: 0 <= q < |t| ==> InStampClass(t[q])
    requires |f| >= 7 && AllDigits(f)
    requires '\n' !in x && '\n' !in marker && '\n' !in y
    ensures MatchAt(Prefix + t + "." + f + "Z" + x + marker + y + Step + rest, marker) == Some(t + "." + f[..6])
  {
    var head := Prefix + t + "." + f + "Z";
    var tail := x + marker + y + Step + rest;
    var s := head + x + marker + y + Step + rest;
    assert s == Prefix + t + "." + f + "Z" + tail;
    StampOfConcat(t, f, tail);
    TailOfConcat(head, x, marker, y, rest);
    var a := 8 + |t|;
    var j := |head| + |x|;
    MatchAtComplete(s, marker, a, |head| - 1, j, j + |marker| + |y|);
    assert s == Prefix + t + "." + f + "Z" + x + marker + y + Step + rest;
  }

  /** A stamp with exactly six fraction digits before `Z` does not match: `\d+?` needs
      at least one more digit. */
  lemma SixDigitFractionRejected(t: string, f: string, rest: string, marker: string)
    requires |t| >= 1 && forall q :: 0 <= q < |t| ==> InStampClass(t[q])
    requires |f| == 6 && AllDigits(f)
    ensures MatchAt(Prefix + t + "." + f + "Z" + rest, marker) == None
  {
    var s := Prefix + t + "." + f + "Z" + rest;
    var a := 8 + |t|;
    assert StampPart(s, a) by {
      assert s[..8] == Prefix;
      assert forall q :: 8 <= q < a ==> s[q] == t[q - 8];
    }
    DotAtComplete(s, a);
    assert forall q :: a < q < a + 7 ==> s[q] == f[q - a - 1];
    assert !IsDigit(s[a + 7]);
  }

  /** A hit of `re.search`: where the match starts in the log, and group 1. */
  datatype Hit = Hit(pos: nat, capture: string)

  /** Leftmost position at or after `i` where `attempt` succeeds on the rest of the log. */
  function ScanFrom(log: string, attempt: string -> Option<string>, i: nat): Option<Hit>
    requires i <= |log|
    decreases |log| - i
  {
    match attempt(log[i..])
    case Some(c) => Some(Hit(i, c))
    case None => if i == |log| then None else ScanFrom(log, attempt, i + 1)
  }

  /** The scan stops at the first position where the attempt succeeds, and only there. */
  lemma {:induction false} ScanFromFirst(log: string, attempt: string -> Option<string>, i: nat)
    requires i <= |log|
    ensures var r := ScanFrom(log, attempt, i);
      && (r.Some? ==> i <= r.value.pos <= |log| && attempt(log[r.value.pos..]) == Some(r.value.capture))
      && (r.Some? ==> forall q :: i <= q < r.value.pos ==> attempt(log[q..]).None?)
      && (r.None? ==> forall q :: i <= q <= |log| ==> attempt(log[q..]).None?)
    decreases |log| - i
  {
    if attempt(log[i..]).None? && i < |log| {
      ScanFromFirst(log, attempt, i + 1);
    }
  }

  /** `re.search(pattern, log)`. */
  function Search(log: string, marker: string): Option<Hit>
  {
    ScanFrom(log, s => MatchAt(s, marker), 0)
  }

  /** `re.search` semantics: no hit exactly when the pattern matches nowhere in the log;
      otherwise the hit is the leftmost position where it matches, and its group 1. */
  lemma SearchIsLeftmostMatch(log: string, marker: string)
    requires '\n' !in marker
    ensures Search(log, marker).None? <==> forall q :: 0 <= q <= |log| ==> !MatchesAt(log[q..], marker)
    ensures Search(log, marker).Some? ==>
      var h := Search(log, marker).value;
      && h.pos <= |log|
      && (exists a, b, j, k :: Shape(log[h.pos..], marker, a, b, j, k) && h.capture == log[h.pos..][8..a + 7])
      && forall q :: 0 <= q < h.pos ==> !MatchesAt(log[q..], marker)
  {
    ScanFromFirst(log, s => MatchAt(s, marker), 0);
    forall q | 0 <= q <= |log| && MatchesAt(log[q..], marker) ensures MatchAt(log[q..], marker).Some? {
      var a, b, j, k :| Shape(log[q..], marker, a, b, j, k);
      MatchAtComplete(log[q..], marker, a, b, j, k);
    }
    if Search(log, marker).Some? {
      var h := Search(log, marker).value;
      MatchAtSound(log[h.pos..], marker);
    }
  }
}
