/** Character-level helpers shared by the puzzle solvers: ASCII digit
    classification, the value of a decimal digit string, the scanner for
    maximal digit runs (what a left-to-right search for `\d+` yields), the
    subsequence relation, and splitting a string at a separator. */
module Text {

  /** `\d`, restricted to ASCII. */
  predicate IsDigit(c: char) {
    '0' <= c <= '9'
  }

  function DigitValue(c: char): (d: nat)
    requires IsDigit(c)
    ensures d < 10
    ensures d == 0 <==> c == '0'
  {
    (c as int) - ('0' as int)
  }

  predicate AllDigits(s: string) {
    forall i :: 0 <= i < |s| ==> IsDigit(s[i])
  }

  function Pow10(n: nat): (p: nat)
    ensures p >= 1
  {
    if n == 0 then 1 else 10 * Pow10(n - 1)
  }

  /** The value of a decimal digit string, as Python's `int(s)` reads it
      (the empty string, which `int` rejects, has value 0 here and is never
      passed by the solvers). */
  function NumberValue(s: string): (n: nat)
    requires AllDigits(s)
    ensures n < Pow10(|s|)
  {
    if |s| == 0 then 0 else NumberValue(s[..|s| - 1]) * 10 + DigitValue(s[|s| - 1])
  }

  function DigitChar(d: nat): (c: char)
    requires d < 10
    ensures IsDigit(c) && DigitValue(c) == d
  {
    ('0' as int + d) as char
  }

  /** `str(n)`: the decimal digits of `n` without leading zeros. */
  function NatToString(n: nat): (s: string)
    ensures |s| >= 1 && AllDigits(s)
    decreases n
  {
    if n < 10 then [DigitChar(n)] else NatToString(n / 10) + [DigitChar(n % 10)]
  }

  /** Reading back the decimal digits of `n` gives `n`. */
  lemma {:induction false} NumberValueOfString(n: nat)
    ensures NumberValue(NatToString(n)) == n
    decreases n
  {
    var s := NatToString(n);
    if n < 10 {
      assert s[..|s| - 1] == [];
    } else {
      NumberValueOfString(n / 10);
      assert s[..|s| - 1] == NatToString(n / 10);
    }
  }

  /** A run of digits found in a line: its start column and its text. */
  datatype Run = Run(start: nat, text: string) {
    function End(): nat {
      start + |text|
    }
  }

  /** `s[start..start + len]` is a maximal non-empty run of digits. */
  predicate MaximalRun(s: string, start: int, len: int) {
    && 0 <= start && 1 <= len && start + len <= |s|
    && (forall k :: start <= k < start + len ==> IsDigit(s[k]))
    && (start == 0 || !IsDigit(s[start - 1]))
    && (start + len == |s| || !IsDigit(s[start + len]))
  }

  /** The end of the digit run that begins at `i`. */
  function RunEnd(s: string, i: nat): (j: nat)
    requires i <= |s|
    ensures i <= j <= |s|
    ensures forall k :: i <= k < j ==> IsDigit(s[k])
    ensures j == |s| || !IsDigit(s[j])
    decreases |s| - i
  {
    if i < |s| && IsDigit(s[i]) then RunEnd(s, i + 1) else i
  }

  /** Position `i` does not lie strictly inside a run of digits. */
  predicate AtRunBoundary(s: string, i: nat) {
    i == 0 || i >= |s| || !IsDigit(s[i - 1]) || !IsDigit(s[i])
  }

  function RunsFrom(s: string, i: nat): seq<Run>
    requires i <= |s|
    requires AtRunBoundary(s, i)
    decreases |s| - i
  {
    if i == |s| then []
    else if !IsDigit(s[i]) then RunsFrom(s, i + 1)
    else
      var j := RunEnd(s, i);
      [Run(i, s[i..j])] + RunsFrom(s, j)
  }

  /** The maximal digit runs of `s`, left to right: the matches of
      `re.finditer(r"\d+", s)` with their start columns. */
  function Runs(s: string): seq<Run> {
    RunsFrom(s, 0)
  }

  /** The numbers of `s`: `[int(m) for m in re.findall(r"\d+", s)]`. */
  function Numbers(s: string): (ns: seq<nat>)
    ensures |ns| == |Runs(s)|
  {
    RunsDigits(s);
    var rs := Runs(s);
    seq(|rs|, k requires 0 <= k < |rs| => NumberValue(rs[k].text))
  }

  /** Every run found from `i` on is a maximal run at or after `i`, and its
      text is the slice of `s` it covers. */
  lemma {:induction false} RunsFromSound(s: string, i: nat)
    requires i <= |s| && AtRunBoundary(s, i)
    ensures forall k :: 0 <= k < |RunsFrom(s, i)| ==>
              && i <= RunsFrom(s, i)[k].start
              && MaximalRun(s, RunsFrom(s, i)[k].start, |RunsFrom(s, i)[k].text|)
              && s[RunsFrom(s, i)[k].start..RunsFrom(s, i)[k].End()] == RunsFrom(s, i)[k].text
    decreases |s| - i
  {
    if i < |s| {
      if !IsDigit(s[i]) {
        RunsFromSound(s, i + 1);
      } else {
        var j := RunEnd(s, i);
        RunsFromSound(s, j);
        var rs := RunsFrom(s, i);
        var tail := RunsFrom(s, j);
        assert rs == [Run(i, s[i..j])] + tail;
        forall k | 0 <= k < |rs|
          ensures i <= rs[k].start && MaximalRun(s, rs[k].start, |rs[k].text|)
                  && s[rs[k].start..rs[k].End()] == rs[k].text
        {
          if k > 0 {
            assert rs[k] == tail[k - 1];
          }
        }
      }
    }
  }

  /** The text of every run found is all digits. */
  lemma RunsDigits(s: string)
    ensures forall k :: 0 <= k < |Runs(s)| ==> AllDigits(Runs(s)[k].text)
  {
    RunsFromSound(s, 0);
    forall k, m | 0 <= k < |Runs(s)| && 0 <= m < |Runs(s)[k].text|
      ensures IsDigit(Runs(s)[k].text[m])
    {
      var r := Runs(s)[k];
      assert r.text[m] == s[r.start + m];
    }
  }

  lemma {:induction false} RunsFromComplete(s: string, i: nat, start: nat, len: nat)
    requires i <= |s| && AtRunBoundary(s, i)
    requires MaximalRun(s, start, len) && i <= start
    ensures Run(start, s[start..start + len]) in RunsFrom(s, i)
    decreases |s| - i
  {
    if !IsDigit(s[i]) {
      RunsFromComplete(s, i + 1, start, len);
    } else {
      var j := RunEnd(s, i);
      if start == i {
        assert RunsFrom(s, i)[0] == Run(start, s[start..start + len]);
      } else {
        RunsFromComplete(s, j, start, len);
        assert RunsFrom(s, i) == [Run(i, s[i..j])] + RunsFrom(s, j);
      }
    }
  }

  /** The scanner finds exactly the maximal digit runs, each once, in order of
      position. */
  lemma RunsExact(s: string)
    ensures forall k :: 0 <= k < |Runs(s)| ==>
              MaximalRun(s, Runs(s)[k].start, |Runs(s)[k].text|)
              && s[Runs(s)[k].start..Runs(s)[k].End()] == Runs(s)[k].text
    ensures forall start: nat, len: nat :: MaximalRun(s, start, len) ==>
              Run(start, s[start..start + len]) in Runs(s)
    ensures Ordered(Runs(s))
  {
    var rs := Runs(s);
    RunsFromSound(s, 0);
    forall start: nat, len: nat | MaximalRun(s, start, len)
      ensures Run(start, s[start..start + len]) in rs
    {
      RunsFromComplete(s, 0, start, len);
    }
    RunsFromOrdered(s, 0);
  }

  /** Each run ends before the next one starts. */
  predicate Ordered(rs: seq<Run>) {
    forall k, l :: 0 <= k < l < |rs| ==> rs[k].End() < rs[l].start
  }

  lemma OrderedCons(r: Run, tail: seq<Run>)
    requires Ordered(tail)
    requires forall m :: 0 <= m < |tail| ==> r.End() < tail[m].start
    ensures Ordered([r] + tail)
  {
    var rs := [r] + tail;
    forall k, l | 0 <= k < l < |rs|
      ensures rs[k].End() < rs[l].start
    {
      assert rs[l] == tail[l - 1];
      if k > 0 {
        assert rs[k] == tail[k - 1];
      }
    }
  }

  /** Every run found from `i` on starts at a digit at or after `i`. */
  lemma {:induction false} RunsFromStarts(s: string, i: nat)
    requires i <= |s| && AtRunBoundary(s, i)
    ensures forall k :: 0 <= k < |RunsFrom(s, i)| ==>
              i <= RunsFrom(s, i)[k].start < |s| && IsDigit(s[RunsFrom(s, i)[k].start])
    decreases |s| - i
  {
    if i < |s| {
      if !IsDigit(s[i]) {
        RunsFromStarts(s, i + 1);
      } else {
        var j := RunEnd(s, i);
        RunsFromStarts(s, j);
        var tail := RunsFrom(s, j);
        assert RunsFrom(s, i) == [Run(i, s[i..j])] + tail;
      }
    }
  }

  /** Each run found ends before the next one starts. */
  lemma {:induction false} RunsFromOrdered(s: string, i: nat)
    requires i <= |s| && AtRunBoundary(s, i)
    ensures Ordered(RunsFrom(s, i))
    decreases |s| - i
  {
    if i < |s| {
      if !IsDigit(s[i]) {
        RunsFromOrdered(s, i + 1);
      } else {
        var j := RunEnd(s, i);
        RunsFromOrdered(s, j);
        RunsFromStarts(s, j);
        var tail := RunsFrom(s, j);
        assert j == |s| || !IsDigit(s[j]);
        OrderedCons(Run(i, s[i..j]), tail);
      }
    }
  }

  /** A line without any digit yields no run. */
  lemma NoDigitNoRuns(s: string)
    requires forall i :: 0 <= i < |s| ==> !IsDigit(s[i])
    ensures Runs(s) == []
  {
    NoDigitNoRunsFrom(s, 0);
  }

  lemma {:induction false} NoDigitNoRunsFrom(s: string, i: nat)
    requires i <= |s| && AtRunBoundary(s, i)
    requires forall k :: i <= k < |s| ==> !IsDigit(s[k])
    ensures RunsFrom(s, i) == []
    decreases |s| - i
  {
    if i < |s| {
      NoDigitNoRunsFrom(s, i + 1);
    }
  }

  // ---------------------------------------------------------------------
  // Subsequences

  /** `a` can be obtained from `b` by deleting characters. */
  predicate Subseq<T(==)>(a: seq<T>, b: seq<T>)
    decreases |b|
  {
    |a| == 0 || (|b| > 0 && ((a[0] == b[0] && Subseq(a[1..], b[1..])) || Subseq(a, b[1..])))
  }

  lemma {:induction false} SubseqRefl<T>(a: seq<T>)
    ensures Subseq(a, a)
    decreases |a|
  {
    if |a| > 0 {
      SubseqRefl(a[1..]);
    }
  }

  /** Inserting a prefix keeps a subsequence. */
  lemma {:induction false} SubseqSkipPrefix<T>(a: seq<T>, p: seq<T>, b: seq<T>)
    requires Subseq(a, b)
    ensures Subseq(a, p + b)
    decreases |p|
  {
    if |p| == 0 {
      assert p + b == b;
    } else {
      SubseqSkipPrefix(a, p[1..], b);
      assert (p + b)[1..] == p[1..] + b;
      assert |a| == 0 || Subseq(a, (p + b)[1..]);
    }
  }

  /** A common prefix can be added to both sides. */
  lemma {:induction false} SubseqCommonPrefix<T>(p: seq<T>, a: seq<T>, b: seq<T>)
    requires Subseq(a, b)
    ensures Subseq(p + a, p + b)
    decreases |p|
  {
    if |p| == 0 {
      assert p + a == a && p + b == b;
    } else {
      SubseqCommonPrefix(p[1..], a, b);
      assert (p + a)[1..] == p[1..] + a;
      assert (p + b)[1..] == p[1..] + b;
      assert (p + a)[0] == (p + b)[0];
      assert Subseq((p + a)[1..], (p + b)[1..]);
    }
  }

  /** Every element of a subsequence is an element of the sequence. */
  lemma {:induction false} SubseqMember<T>(a: seq<T>, b: seq<T>, x: T)
    requires Subseq(a, b) && x in a
    ensures x in b
    decreases |b|
  {
    if a[0] == x || Subseq(a, b[1..]) {
      if Subseq(a, b[1..]) {
        SubseqMember(a, b[1..], x);
      }
    } else {
      SubseqMember(a[1..], b[1..], x);
    }
  }

  lemma {:induction false} SubseqTrans<T>(a: seq<T>, b: seq<T>, c: seq<T>)
    requires Subseq(a, b) && Subseq(b, c)
    ensures Subseq(a, c)
    decreases |c|
  {
    if |a| > 0 {
      if Subseq(b, c[1..]) {
        SubseqTrans(a, b, c[1..]);
      } else if a[0] == b[0] && Subseq(a[1..], b[1..]) {
        SubseqTrans(a[1..], b[1..], c[1..]);
      } else {
        SubseqTrans(a, b[1..], c[1..]);
      }
    }
  }

  /** `\w` on ASCII text: letters, digits and the underscore. */
  predicate IsWordChar(c: char) {
    ('a' <= c <= 'z') || ('A' <= c <= 'Z') || IsDigit(c) || c == '_'
  }

  /** The character classes `[ \d]` and `[\w-]` of the puzzles' patterns. */
  datatype CharClass = DigitOrSpace | WordOrDash

  predicate InClass(c: char, k: CharClass) {
    match k
    case DigitOrSpace => c == ' ' || IsDigit(c)
    case WordOrDash => c == '-' || IsWordChar(c)
  }

  /** The end of the longest run of class `k` characters starting at `i`:
      where a greedy `[...]+` or `[...]*` stops. */
  function ClassEnd(s: string, i: nat, k: CharClass): (e: nat)
    requires i <= |s|
    ensures i <= e <= |s|
    decreases |s| - i
  {
    if i < |s| && InClass(s[i], k) then ClassEnd(s, i + 1, k) else i
  }

  lemma {:induction false} ClassEndAt(s: string, i: nat, e: nat, k: CharClass)
    requires i <= e <= |s|
    requires forall m :: i <= m < e ==> InClass(s[m], k)
    requires e == |s| || !InClass(s[e], k)
    ensures ClassEnd(s, i, k) == e
    decreases e - i
  {
    if i < e {
      ClassEndAt(s, i + 1, e, k);
    }
  }

  lemma {:induction false} ClassEndSpec(s: string, i: nat, k: CharClass)
    requires i <= |s|
    ensures forall m :: i <= m < ClassEnd(s, i, k) ==> InClass(s[m], k)
    ensures ClassEnd(s, i, k) == |s| || !InClass(s[ClassEnd(s, i, k)], k)
    decreases |s| - i
  {
    if i < |s| && InClass(s[i], k) {
      ClassEndSpec(s, i + 1, k);
    }
  }

  /** `w` occurs in `s` at position `k`. */
  predicate HasAt(s: string, k: nat, w: string) {
    k + |w| <= |s| && s[k..k + |w|] == w
  }

  /** A sequence is what comes before position `i`, the element at `i`, and
      what comes after it. */
  lemma SplitAround<T>(s: seq<T>, i: nat)
    requires i < |s|
    ensures s == s[..i] + ([s[i]] + s[i + 1..])
  {
    assert s[i..] == [s[i]] + s[i + 1..];
    assert s == s[..i] + s[i..];
  }

  /** A slice of a concatenation that starts in the first part and ends in
      the second. */
  lemma SliceAcross<T>(a: seq<T>, b: seq<T>, i: nat, n: nat)
    requires i <= |a| <= i + n <= |a| + |b|
    ensures (a + b)[i..i + n] == a[i..] + b[..i + n - |a|]
  {
    var c := a + b;
    assert c[i..|a|] == a[i..];
    assert c[|a|..i + n] == b[..i + n - |a|];
    assert c[i..i + n] == c[i..|a|] + c[|a|..i + n];
  }

  /** A slice of a concatenation that lies in its second part. */
  lemma SliceRight<T>(a: seq<T>, b: seq<T>, i: nat, n: nat)
    requires i + n <= |b|
    ensures (a + b)[|a| + i..|a| + i + n] == b[i..i + n]
  {
  }

  /** A slice of a concatenation that lies in its first part. */
  lemma SliceLeft<T>(a: seq<T>, b: seq<T>, i: nat, n: nat)
    requires i + n <= |a|
    ensures (a + b)[i..i + n] == a[i..i + n]
  {
  }

  /** A slice of a suffix is a slice of the whole. */
  lemma SliceOfSuffix<T>(s: seq<T>, k: nat, j: nat, n: nat)
    requires k + j + n <= |s|
    ensures s[k..][j..j + n] == s[k + j..k + j + n]
  {
  }

  /** A slice of a prefix is a slice of the whole. */
  lemma SliceOfPrefix<T>(s: seq<T>, m: nat, j: nat, n: nat)
    requires j + n <= m <= |s|
    ensures s[..m][j..j + n] == s[j..j + n]
  {
  }

  /** Concatenation regrouped; stated once so that proofs can name it. */
  lemma ConcatAssoc<T>(a: seq<T>, b: seq<T>, c: seq<T>)
    ensures a + b + c == a + (b + c)
  {
  }

  // ---------------------------------------------------------------------
  // Splitting at a separator

  /** `s.split(sep)`: the pieces between separators, always at least one. */
  function Split(s: string, sep: char): (parts: seq<string>)
    ensures |parts| >= 1
    ensures forall k :: 0 <= k < |parts| ==> sep !in parts[k]
    decreases |s|
  {
    if |s| == 0 then [""]
    else
      var rest := Split(s[1..], sep);
      if s[0] == sep then [""] + rest
      else [[s[0]] + rest[0]] + rest[1..]
  }

  /** `sep.join(parts)`. */
  function Join(parts: seq<string>, sep: char): string
    requires |parts| >= 1
    decreases |parts|
  {
    if |parts| == 1 then parts[0] else parts[0] + [sep] + Join(parts[1..], sep)
  }

  /** Joining the pieces back with the separator restores the string. */
  lemma {:induction false} JoinSplit(s: string, sep: char)
    ensures Join(Split(s, sep), sep) == s
    decreases |s|
  {
    if |s| > 0 {
      JoinSplit(s[1..], sep);
      var rest := Split(s[1..], sep);
      if s[0] != sep && |rest| > 1 {
        assert Join(rest, sep) == rest[0] + [sep] + Join(rest[1..], sep);
        assert ([[s[0]] + rest[0]] + rest[1..])[1..] == rest[1..];
      }
    }
  }

  /** Splitting a join of separator-free pieces gives the pieces back. */
  lemma {:induction false} SplitJoin(parts: seq<string>, sep: char)
    requires |parts| >= 1
    requires forall k :: 0 <= k < |parts| ==> sep !in parts[k]
    ensures Split(Join(parts, sep), sep) == parts
    decreases |parts|
  {
    if |parts| == 1 {
      SplitNoSep(parts[0], sep);
    } else {
      SplitJoin(parts[1..], sep);
      SplitPrefix(parts[0], Join(parts[1..], sep), sep);
      assert [parts[0]] + parts[1..] == parts;
    }
  }

  lemma {:induction false} SplitNoSep(s: string, sep: char)
    requires sep !in s
    ensures Split(s, sep) == [s]
    decreases |s|
  {
    if |s| > 0 {
      SplitNoSep(s[1..], sep);
      assert [s[0]] + s[1..] == s;
    }
  }

  lemma {:induction false} SplitPrefix(p: string, t: string, sep: char)
    requires sep !in p
    ensures Split(p + [sep] + t, sep) == [p] + Split(t, sep)
    decreases |p|
  {
    if |p| == 0 {
      assert p + [sep] + t == [sep] + t;
      assert ([sep] + t)[1..] == t;
    } else {
      SplitPrefix(p[1..], t, sep);
      assert (p + [sep] + t)[1..] == p[1..] + [sep] + t;
      assert [p[0]] + p[1..] == p;
    }
  }
}
