/** Day 1, "Trebuchet?!": every line of the calibration document holds a
    value made of its first and last digit; part 2 first exposes the digits
    that are spelled out as words. */
module Calibration {
  import opened Text

  /** The digits of a line, in order: `re.sub(r"\D", "", line)`. */
  function Digits(s: string): (ds: string)
    ensures AllDigits(ds)
  {
    if |s| == 0 then []
    else (if IsDigit(s[0]) then [s[0]] else []) + Digits(s[1..])
  }

  /** The digit string holds exactly the digits of the line: it is empty
      precisely when the line has none, and it keeps them in order. */
  lemma {:induction false} DigitsSound(s: string)
    ensures Subseq(Digits(s), s)
    ensures |Digits(s)| == 0 <==> forall i :: 0 <= i < |s| ==> !IsDigit(s[i])
    decreases |s|
  {
    if |s| > 0 {
      DigitsSound(s[1..]);
      if IsDigit(s[0]) {
        SubseqCommonPrefix([s[0]], Digits(s[1..]), s[1..]);
        assert [s[0]] + s[1..] == s;
      } else {
        assert Digits(s) == Digits(s[1..]);
        SubseqSkipPrefix(Digits(s), [s[0]], s[1..]);
        assert [s[0]] + s[1..] == s;
        assert forall i :: 1 <= i < |s| ==> s[i] == s[1..][i - 1];
      }
    }
  }

  /** The digits before position `i`, the character at `i` if it is a
      digit, and the digits after it make up the digit string. */
  lemma DigitsAround(s: string, i: nat)
    requires i < |s|
    ensures Digits(s) == Digits(s[..i]) + (if IsDigit(s[i]) then [s[i]] else []) + Digits(s[i + 1..])
  {
    SplitAround(s, i);
    DigitsSplit(s[..i], s[i], s[i + 1..]);
  }

  lemma DigitsSplit(a: string, c: char, b: string)
    ensures Digits(a + ([c] + b)) == Digits(a) + (if IsDigit(c) then [c] else []) + Digits(b)
  {
    DigitsAppend(a, [c] + b);
    assert ([c] + b)[1..] == b;
  }

  /** No digit of the line is dropped: the digit at position `i` is the
      entry of the digit string that follows the digits before it. */
  lemma DigitsComplete(s: string)
    ensures forall i :: 0 <= i < |s| && IsDigit(s[i]) ==>
              |Digits(s[..i])| < |Digits(s)| && Digits(s)[|Digits(s[..i])|] == s[i]
  {
    forall i | 0 <= i < |s| && IsDigit(s[i])
      ensures |Digits(s[..i])| < |Digits(s)| && Digits(s)[|Digits(s[..i])|] == s[i]
    {
      DigitsAround(s, i);
    }
  }

  /** A digit character of the line is one of its digits. */
  lemma DigitMember(s: string, c: char)
    requires IsDigit(c) && c in s
    ensures c in Digits(s)
  {
    var i :| 0 <= i < |s| && s[i] == c;
    DigitsComplete(s);
  }

  /** The value of a line read off its characters: `i` holds the first digit
      of the line and `j` its last. */
  lemma LineValueFromEnds(line: string, i: nat, j: nat)
    requires i <= j < |line| && IsDigit(line[i]) && IsDigit(line[j])
    requires forall k :: 0 <= k < i ==> !IsDigit(line[k])
    requires forall k :: j < k < |line| ==> !IsDigit(line[k])
    ensures LineValue(line) == 10 * DigitValue(line[i]) + DigitValue(line[j])
  {
    DigitsAround(line, i);
    DigitsSound(line[..i]);
    assert Digits(line)[0] == line[i];
    DigitsAround(line, j);
    DigitsSound(line[j + 1..]);
    assert Digits(line)[|Digits(line)| - 1] == line[j];
  }

  /** The calibration value of one line: the two-digit number made of its
      first and last digit, or nothing (0) when the line has no digit. */
  function LineValue(line: string): (v: nat)
    ensures v <= 99
    ensures |Digits(line)| == 0 ==> v == 0
    ensures |Digits(line)| > 0 ==>
              v == 10 * DigitValue(Digits(line)[0]) + DigitValue(Digits(line)[|Digits(line)| - 1])
    ensures |Digits(line)| == 1 ==> v == 11 * DigitValue(Digits(line)[0])
  {
    DigitsSound(line);
    var ds := Digits(line);
    if |ds| == 0 then 0
    else
      var pair := [ds[0], ds[|ds| - 1]];
      assert pair[..1] == [ds[0]] && [ds[0]][..0] == [];
      assert NumberValue(pair[..1]) == DigitValue(ds[0]);
      NumberValue(pair)
  }

  /** The answer of part 1: the sum of all calibration values. */
  function CalibrationSum(lines: seq<string>): nat {
    if |lines| == 0 then 0 else CalibrationSum(lines[..|lines| - 1]) + LineValue(lines[|lines| - 1])
  }

  lemma {:induction false} CalibrationSumAppend(a: seq<string>, b: seq<string>)
    ensures CalibrationSum(a + b) == CalibrationSum(a) + CalibrationSum(b)
    decreases |b|
  {
    if |b| > 0 {
      CalibrationSumAppend(a, b[..|b| - 1]);
      assert (a + b)[..|a + b| - 1] == a + b[..|b| - 1];
    } else {
      assert a + b == a;
    }
  }

  /** Each line adds at most 99, and a line without digits adds nothing. */
  lemma {:induction false} CalibrationSumBound(lines: seq<string>)
    ensures CalibrationSum(lines) <= 99 * |lines|
    ensures (forall k :: 0 <= k < |lines| ==> |Digits(lines[k])| == 0) ==> CalibrationSum(lines) == 0
  {
    if |lines| > 0 {
      CalibrationSumBound(lines[..|lines| - 1]);
    }
  }

  /** Part 1 as the script runs it: one pass over the lines, skipping
      those without digits. */
  method Part1(lines: seq<string>) returns (sum: nat)
    ensures sum == CalibrationSum(lines)
    ensures sum <= 99 * |lines|
  {
    sum := 0;
    var i := 0;
    while i < |lines|
      invariant 0 <= i <= |lines|
      invariant sum == CalibrationSum(lines[..i])
    {
      var digits := Digits(lines[i]);
      if |digits| > 0 {
        sum := sum + LineValue(lines[i]);
      }
      assert lines[..i + 1] == lines[..i] + [lines[i]];
      CalibrationSumAppend(lines[..i], [lines[i]]);
      i := i + 1;
    }
    assert lines[..i] == lines;
    CalibrationSumBound(lines);
  }

  // ---------------------------------------------------------------------
  // Part 2: spelled-out digits

  /** The spellings in the order the substitutions run. */
  const Spellings: seq<(string, char)> := [
    ("one", '1'), ("two", '2'), ("three", '3'), ("four", '4'), ("five", '5'),
    ("six", '6'), ("seven", '7'), ("eight", '8'), ("nine", '9')
  ]

  /** Replaces every occurrence of `w`, scanning left to right and not
      overlapping a replaced occurrence, by `rep` (what `re.sub` does for a
      pattern without special characters). */
  function ReplaceAll(s: string, w: string, rep: string): string
    requires |w| > 0
    decreases |s|
  {
    if |s| < |w| then s
    else if s[..|w|] == w then rep + ReplaceAll(s[|w|..], w, rep)
    else [s[0]] + ReplaceAll(s[1..], w, rep)
  }

  /** `w` occurs in `s` at position `i`. */
  predicate OccursAt(s: string, w: string, i: int) {
    0 <= i && i + |w| <= |s| && s[i..i + |w|] == w
  }

  /** A line in which `w` does not occur is left unchanged. */
  lemma {:induction false} ReplaceAbsent(s: string, w: string, rep: string)
    requires |w| > 0
    requires forall i :: !OccursAt(s, w, i)
    ensures ReplaceAll(s, w, rep) == s
    decreases |s|
  {
    if |s| >= |w| {
      assert !OccursAt(s, w, 0);
      forall i ensures !OccursAt(s[1..], w, i) {
        if OccursAt(s[1..], w, i) {
          assert s[1..][i..i + |w|] == s[i + 1..i + 1 + |w|];
          assert OccursAt(s, w, i + 1);
        }
      }
      ReplaceAbsent(s[1..], w, rep);
    }
  }

  /** A text that does not start with `w` keeps its first character. */
  lemma ReplaceSkipFirst(s: string, w: string, rep: string)
    requires 0 < |w| <= |s| && s[..|w|] != w
    ensures ReplaceAll(s, w, rep) == [s[0]] + ReplaceAll(s[1..], w, rep)
  {
  }

  /** The step of `ExposeWordInserts` at an occurrence of `w`. */
  lemma WordInserts(w: string, d: char, tail: string, r: string)
    requires Subseq(tail, r)
    ensures Subseq(w + tail, w + [d] + w + r)
  {
    SubseqSkipPrefix(tail, [d] + w, r);
    SubseqCommonPrefix(w, tail, [d] + w + r);
    assert w + ([d] + w + r) == w + [d] + w + r;
  }

  /** Replacing `w` by `w + [d] + w` only inserts characters: the original
      line is a subsequence of the rewritten one. */
  lemma {:induction false} ExposeWordInserts(s: string, w: string, d: char)
    requires |w| > 0
    ensures Subseq(s, ReplaceAll(s, w, w + [d] + w))
    decreases |s|
  {
    var rep := w + [d] + w;
    if |s| < |w| {
      SubseqRefl(s);
    } else if s[..|w|] == w {
      var tail := s[|w|..];
      ExposeWordInserts(tail, w, d);
      WordInserts(w, d, tail, ReplaceAll(tail, w, rep));
      assert w + tail == s;
      ReplaceAtWord(w, d, tail);
    } else {
      ExposeWordInserts(s[1..], w, d);
      SubseqCommonPrefix([s[0]], s[1..], ReplaceAll(s[1..], w, rep));
      ReplaceSkipFirst(s, w, rep);
      assert [s[0]] + s[1..] == s;
    }
  }

  /** The substitutions of `Spellings[k..]`, in order. */
  function ExposeFrom(s: string, k: nat): string
    requires k <= |Spellings|
    decreases |Spellings| - k
  {
    if k == |Spellings| then s
    else
      var (w, d) := Spellings[k];
      ExposeFrom(ReplaceAll(s, w, w + [d] + w), k + 1)
  }

  /** Part 2's rewriting of one line: every spelled-out digit word `w` becomes
      `w`, its digit, `w`, so that overlapping words such as "eightwo" both
      stay visible. */
  function Expose(line: string): string {
    ExposeFrom(line, 0)
  }

  lemma {:induction false} ExposeFromInserts(s: string, k: nat)
    requires k <= |Spellings|
    ensures Subseq(s, ExposeFrom(s, k))
    decreases |Spellings| - k
  {
    if k == |Spellings| {
      SubseqRefl(s);
    } else {
      var (w, d) := Spellings[k];
      var s' := ReplaceAll(s, w, w + [d] + w);
      ExposeWordInserts(s, w, d);
      ExposeFromInserts(s', k + 1);
      SubseqTrans(s, s', ExposeFrom(s', k + 1));
    }
  }

  /** Deleting characters from a line deletes digits from its digit string. */
  lemma {:induction false} DigitsMonotone(a: string, b: string)
    requires Subseq(a, b)
    ensures Subseq(Digits(a), Digits(b))
    decreases |b|
  {
    if |a| == 0 {
    } else if Subseq(a, b[1..]) {
      DigitsMonotone(a, b[1..]);
      if IsDigit(b[0]) {
        assert Digits(b) == [b[0]] + Digits(b[1..]);
        SubseqSkipPrefix(Digits(a), [b[0]], Digits(b[1..]));
      } else {
        assert Digits(b) == Digits(b[1..]);
      }
    } else {
      DigitsMonotone(a[1..], b[1..]);
      if IsDigit(a[0]) {
        assert Digits(a) == [a[0]] + Digits(a[1..]);
        assert Digits(b) == [a[0]] + Digits(b[1..]);
        SubseqCommonPrefix([a[0]], Digits(a[1..]), Digits(b[1..]));
      } else {
        assert Digits(a) == Digits(a[1..]) && Digits(b) == Digits(b[1..]);
      }
    }
  }

  /** The rewriting only inserts characters, so every digit of the original
      line survives, in order. */
  lemma ExposeKeepsDigits(line: string)
    ensures Subseq(line, Expose(line))
    ensures Subseq(Digits(line), Digits(Expose(line)))
  {
    ExposeFromInserts(line, 0);
    DigitsMonotone(line, Expose(line));
  }

  /** Wherever the word occurs, replacing it by `w + [d] + w` puts `d` into
      the line (an earlier, overlapping occurrence may be the one replaced). */
  lemma {:induction false} ReplaceShows(s: string, w: string, d: char, k: nat)
    requires |w| > 0 && OccursAt(s, w, k)
    ensures d in ReplaceAll(s, w, w + [d] + w)
    decreases |s|
  {
    var rep := w + [d] + w;
    if s[..|w|] == w {
      assert rep[|w|] == d;
    } else {
      assert k > 0;
      assert s[1..][k - 1..k - 1 + |w|] == s[k..k + |w|];
      ReplaceShows(s[1..], w, d, k - 1);
    }
  }

  lemma {:induction false} ExposeFromAbsent(s: string, j: nat, k: nat)
    requires j <= k <= |Spellings|
    requires forall m, p :: j <= m < k ==> !OccursAt(s, Spellings[m].0, p)
    ensures ExposeFrom(s, j) == ExposeFrom(s, k)
    decreases k - j
  {
    if j < k {
      var (w, d) := Spellings[j];
      assert forall p :: !OccursAt(s, Spellings[j].0, p);
      ReplaceAbsent(s, w, w + [d] + w);
      ExposeFromAbsent(s, j + 1, k);
    }
  }

  /** `w` occurs nowhere inside `v`. */
  predicate FreeOf(v: string, w: string) {
    forall x :: 0 <= x <= |v| ==> !OccursAt(v, w, x)
  }

  /** A word with one of its first three letters missing from `v` does not
      occur inside `v`. */
  lemma FreeByLetter(v: string, w: string)
    requires 3 <= |w| && (w[0] !in v || w[1] !in v || w[2] !in v)
    ensures FreeOf(v, w)
  {
    forall x | 0 <= x <= |v| ensures !OccursAt(v, w, x) {
      assert x + |w| <= |v| ==>
               v[x..x + |w|][0] == v[x] && v[x..x + |w|][1] == v[x + 1] && v[x..x + |w|][2] == v[x + 2];
    }
  }

  /** No spelled digit occurs inside another one. */
  lemma SpellingsFree(j: nat, k: nat)
    requires j < |Spellings| && k < |Spellings| && j != k
    ensures FreeOf(Spellings[k].0, Spellings[j].0)
  {
    FreeByLetter(Spellings[k].0, Spellings[j].0);
  }

  /** Up to position `m`, the substitution leaves a line alone when no whole
      occurrence of the word ends by `m`. */
  lemma {:induction false} ReplaceKeepsPrefix(t: string, w: string, d: char, m: nat)
    requires |w| > 0 && m <= |t|
    requires forall j :: OccursAt(t, w, j) ==> m < j + |w|
    ensures m <= |ReplaceAll(t, w, w + [d] + w)|
    ensures ReplaceAll(t, w, w + [d] + w)[..m] == t[..m]
    decreases |t|
  {
    var rep := w + [d] + w;
    if |t| < |w| {
    } else if t[..|w|] == w {
      assert OccursAt(t, w, 0);
      PrefixOfReplaced(t, w, d, m);
    } else if m > 0 {
      var t' := t[1..];
      LateOccurrencesInRest(t, w, m);
      ReplaceKeepsPrefix(t', w, d, m - 1);
      var r' := ReplaceAll(t', w, rep);
      ReplaceSkipFirst(t, w, rep);
      ConsKeepsPrefix(t[0], t', r', m);
      assert [t[0]] + t' == t;
    }
  }

  /** Occurrences of `w` that end after position `m` in `t` end after
      position `m - 1` in its tail. */
  lemma LateOccurrencesInRest(t: string, w: string, m: nat)
    requires |t| > 0 && m > 0
    requires forall j :: OccursAt(t, w, j) ==> m < j + |w|
    ensures forall j :: OccursAt(t[1..], w, j) ==> m - 1 < j + |w|
  {
    forall j | OccursAt(t[1..], w, j) ensures m - 1 < j + |w| {
      assert t[1..][j..j + |w|] == t[j + 1..j + 1 + |w|];
      assert OccursAt(t, w, j + 1);
    }
  }

  /** Equal prefixes stay equal with one more character in front. */
  lemma ConsKeepsPrefix(c: char, t: string, r: string, m: nat)
    requires 0 < m && m - 1 <= |t| && m - 1 <= |r| && r[..m - 1] == t[..m - 1]
    ensures ([c] + r)[..m] == ([c] + t)[..m]
  {
    assert ([c] + r)[..m] == [c] + r[..m - 1];
    assert ([c] + t)[..m] == [c] + t[..m - 1];
  }

  lemma PrefixOfReplaced(t: string, w: string, d: char, m: nat)
    requires 0 < |w| <= |t| && m < |w| && t[..|w|] == w
    ensures m <= |ReplaceAll(t, w, w + [d] + w)|
    ensures ReplaceAll(t, w, w + [d] + w)[..m] == t[..m]
  {
    var rep := w + [d] + w;
    var rt := ReplaceAll(t[|w|..], w, rep);
    assert ReplaceAll(t, w, rep) == rep + rt;
    assert (rep + rt)[..m] == w[..m] == t[..m];
  }

  /** The substitution of `w` by `w`, its digit, `w` keeps an occurrence of
      every word `v` that `w` does not occur inside: the inserted digit and
      second copy of `w` restore whatever an overlapping occurrence of `w`
      shares with `v`. */
  lemma {:induction false} ReplaceKeeps(s: string, w: string, d: char, v: string, p: nat)
    requires |w| > 0 && FreeOf(v, w) && OccursAt(s, v, p)
    ensures exists q :: OccursAt(ReplaceAll(s, w, w + [d] + w), v, q)
    decreases |s|
  {
    var rep := w + [d] + w;
    var r := ReplaceAll(s, w, rep);
    if |s| < |w| {
      assert OccursAt(r, v, p);
    } else if p == 0 {
      KeepsAtStart(s, w, d, v);
    } else if s[..|w|] == w {
      var t := s[|w|..];
      assert s == w + t;
      if p >= |w| {
        OccursInTail(w, t, v, p);
        ReplaceKeeps(t, w, d, v, p - |w|);
        var rt := ReplaceAll(t, w, rep);
        var q :| OccursAt(rt, v, q);
        assert r == rep + rt;
        OccursShift(rep, rt, v, q);
      } else if p + |v| <= |w| {
        KeepsInsideWord(s, w, d, v, p);
      } else {
        KeepsAcrossWord(s, w, d, v, p);
      }
    } else {
      var s' := s[1..];
      assert s == [s[0]] + s';
      OccursInTail([s[0]], s', v, p);
      ReplaceKeeps(s', w, d, v, p - 1);
      var r' := ReplaceAll(s', w, rep);
      var q :| OccursAt(r', v, q);
      assert r == [s[0]] + r';
      OccursShift([s[0]], r', v, q);
    }
  }

  lemma OccursShift(a: string, b: string, v: string, q: nat)
    requires OccursAt(b, v, q)
    ensures OccursAt(a + b, v, |a| + q)
  {
    SliceRight(a, b, q, |v|);
  }

  lemma OccursInTail(a: string, b: string, v: string, p: nat)
    requires |a| <= p && OccursAt(a + b, v, p)
    ensures OccursAt(b, v, p - |a|)
  {
    SliceRight(a, b, p - |a|, |v|);
  }

  /** `ReplaceKeeps` when `v` lies inside a replaced `w` at the head of the
      line: the first copy of `w` holds it. */
  lemma KeepsInsideWord(s: string, w: string, d: char, v: string, p: nat)
    requires |w| > 0 && OccursAt(s, v, p)
    requires 0 < p && p + |v| <= |w| <= |s| && s[..|w|] == w
    ensures OccursAt(ReplaceAll(s, w, w + [d] + w), v, p)
  {
    var t := s[|w|..];
    assert s == w + t;
    ReplaceAtWord(w, d, t);
    SliceLeft(w, [d] + w + ReplaceAll(t, w, w + [d] + w), p, |v|);
    SliceLeft(w, t, p, |v|);
  }

  /** `ReplaceKeeps` when `v` starts the line. */
  lemma KeepsAtStart(s: string, w: string, d: char, v: string)
    requires |w| > 0 && FreeOf(v, w) && OccursAt(s, v, 0)
    ensures OccursAt(ReplaceAll(s, w, w + [d] + w), v, 0)
  {
    assert v == s[..|v|];
    forall j | OccursAt(s, w, j) ensures |v| < j + |w| {
      assert j + |w| <= |v| ==> OccursAt(v, w, j);
    }
    ReplaceKeepsPrefix(s, w, d, |v|);
    assert s[..|v|] == v;
  }

  /** `ReplaceKeeps` when `v` starts inside a replaced `w` at the head of
      the line and runs past its end. */
  lemma KeepsAcrossWord(s: string, w: string, d: char, v: string, p: nat)
    requires |w| > 0 && FreeOf(v, w) && OccursAt(s, v, p)
    requires 0 < p < |w| < p + |v| && s[..|w|] == w
    ensures exists q :: OccursAt(ReplaceAll(s, w, w + [d] + w), v, q)
  {
    var t := s[|w|..];
    var m := p + |v| - |w|;
    assert s == w + t;
    SliceAcross(w, t, p, |v|);
    WordTailKept(w, d, t, v, p, m);
  }

  /** The second half of `KeepsAcrossWord`: `v`, which is a tail of `w`
      followed by the first `m` characters of `t`, reappears after the
      inserted digit. */
  lemma WordTailKept(w: string, d: char, t: string, v: string, p: nat, m: nat)
    requires |w| > 0 && FreeOf(v, w) && p < |w| && m <= |t|
    requires v == w[p..] + t[..m]
    ensures exists q :: OccursAt(ReplaceAll(w + t, w, w + [d] + w), v, q)
  {
    var rep := w + [d] + w;
    TailPrefixKept(w, d, t, v, p, m);
    var rt := ReplaceAll(t, w, rep);
    var r := ReplaceAll(w + t, w, rep);
    ReplaceAtWord(w, d, t);
    ConcatAssoc(w + [d], w, rt);
    SliceRight(w + [d], w + rt, p, |v|);
    SliceAcross(w, rt, p, |v|);
    assert OccursAt(r, v, |w| + 1 + p);
  }

  /** `t` holds no occurrence of `w` that ends inside its first `m`
      characters, so the substitution leaves those characters alone. */
  lemma TailPrefixKept(w: string, d: char, t: string, v: string, p: nat, m: nat)
    requires |w| > 0 && FreeOf(v, w) && p < |w| && m <= |t|
    requires v == w[p..] + t[..m]
    ensures m <= |ReplaceAll(t, w, w + [d] + w)|
    ensures ReplaceAll(t, w, w + [d] + w)[..m] == t[..m]
  {
    var k := |w| - p;
    assert v[k..] == t[..m];
    forall j | OccursAt(t, w, j) ensures m < j + |w| {
      EarlyOccurrenceCopied(v, t, w, k, m, j);
    }
    ReplaceKeepsPrefix(t, w, d, m);
  }

  /** An occurrence of `w` within the first `m` characters of `t` is also
      one in `v` when `v` ends with those characters. */
  lemma EarlyOccurrenceCopied(v: string, t: string, w: string, k: nat, m: nat, j: nat)
    requires k <= |v| && m <= |t| && v[k..] == t[..m] && OccursAt(t, w, j)
    ensures j + |w| <= m ==> OccursAt(v, w, k + j)
  {
    if j + |w| <= m {
      SliceOfSuffix(v, k, j, |w|);
      SliceOfPrefix(t, m, j, |w|);
    }
  }

  /** A text that starts with `w` is rewritten as the replacement followed
      by its rewritten rest. */
  lemma ReplaceAtWord(w: string, d: char, t: string)
    requires |w| > 0
    ensures ReplaceAll(w + t, w, w + [d] + w) == w + [d] + w + ReplaceAll(t, w, w + [d] + w)
    ensures ReplaceAll(w + t, w, w + [d] + w) == w + ([d] + w + ReplaceAll(t, w, w + [d] + w))
  {
    assert (w + t)[..|w|] == w && (w + t)[|w|..] == t;
    ConcatAssoc(w, [d] + w, ReplaceAll(t, w, w + [d] + w));
    assert w + [d] + w == w + ([d] + w);
  }

  /** From substitution `j` on, a spelled digit that the line holds at
      step `j` or later ends up in the rewritten line. */
  lemma {:induction false} ExposeFromShows(s: string, j: nat, k: nat, p: nat)
    requires j <= k < |Spellings| && OccursAt(s, Spellings[k].0, p)
    ensures Spellings[k].1 in ExposeFrom(s, j)
    decreases k - j
  {
    var (w, d) := Spellings[j];
    var s' := ReplaceAll(s, w, w + [d] + w);
    ExposeFromStep(s, j, w, w + [d] + w, s');
    if j == k {
      ExposeAtStep(s, k, p);
    } else {
      SpellingsFree(j, k);
      ReplaceKeeps(s, w, d, Spellings[k].0, p);
      var q :| OccursAt(s', Spellings[k].0, q);
      ExposeFromShows(s', j + 1, k, q);
    }
  }

  /** The substitution of a word the line holds puts its digit in, and the
      later substitutions keep it. */
  lemma ExposeAtStep(s: string, k: nat, p: nat)
    requires k < |Spellings| && OccursAt(s, Spellings[k].0, p)
    ensures Spellings[k].1 in ExposeFrom(s, k)
  {
    var w, d := Spellings[k].0, Spellings[k].1;
    var s' := ReplaceAll(s, w, w + [d] + w);
    ExposeFromStep(s, k, w, w + [d] + w, s');
    ReplaceShows(s, w, d, p);
    ExposeFromInserts(s', k + 1);
    SubseqMember(s', ExposeFrom(s', k + 1), d);
  }

  /** Every spelled digit the line holds becomes a digit of the rewritten
      line, even where spelled digits overlap: no word is swallowed by the
      substitution of another. */
  lemma ExposeShowsDigit(line: string, k: nat, i: nat)
    requires k < |Spellings| && OccursAt(line, Spellings[k].0, i)
    ensures Spellings[k].1 in Digits(Expose(line))
  {
    ExposeFromShows(line, 0, k, i);
    DigitMember(Expose(line), Spellings[k].1);
  }

  /** A line that spells out any digit has a digit after the rewriting, so
      part 2 gives it a value even when it has no digit character. */
  lemma SpelledLineHasDigit(line: string)
    requires exists k: nat, p: nat :: k < |Spellings| && OccursAt(line, Spellings[k].0, p)
    ensures |Digits(Expose(line))| > 0
  {
    var k: nat, p: nat :| k < |Spellings| && OccursAt(line, Spellings[k].0, p);
    ExposeShowsDigit(line, k, p);
  }

  /** "oneight": both spelled digits survive, although they share an 'e'. */
  lemma OneightDigits(line: string)
    requires line == "oneight"
    ensures '1' in Digits(Expose(line)) && '8' in Digits(Expose(line))
  {
    assert Spellings[0] == ("one", '1') && Spellings[7] == ("eight", '8');
    assert line[0..3] == "one" && line[2..7] == "eight";
    ExposeShowsDigit(line, 0, 0);
    ExposeShowsDigit(line, 7, 2);
  }

  /** A line free of `w` is left unchanged. */
  lemma ReplaceFree(s: string, w: string, rep: string)
    requires |w| > 0 && FreeOf(s, w)
    ensures ReplaceAll(s, w, rep) == s
  {
    forall i ensures !OccursAt(s, w, i) {
      assert OccursAt(s, w, i) ==> i <= |s|;
    }
    ReplaceAbsent(s, w, rep);
  }

  /** A word whose first letter does not occur in the line is left alone. */
  lemma {:induction false} ReplaceNoLead(s: string, w: string, rep: string)
    requires |w| > 0 && w[0] !in s
    ensures ReplaceAll(s, w, rep) == s
    decreases |s|
  {
    if |s| >= |w| {
      assert s[0] in s;
      ReplaceNoLead(s[1..], w, rep);
      assert [s[0]] + s[1..] == s;
    }
  }

  /** A prefix holding no first letter of `w` is copied through unchanged. */
  lemma {:induction false} ReplaceSkipPrefix(p: string, t: string, w: string, rep: string)
    requires |w| > 0 && w[0] !in p
    ensures ReplaceAll(p + t, w, rep) == p + ReplaceAll(t, w, rep)
    decreases |p|
  {
    if |p| == 0 {
      assert p + t == t;
    } else if |p + t| < |w| {
      ReplaceShort(p + t, w, rep);
      ReplaceShort(t, w, rep);
    } else {
      var rest := p[1..];
      assert p[0] in p;
      ReplaceSkipPrefix(rest, t, w, rep);
      ReplaceSkipLead(p, t, w, rep);
      ConcatAssoc([p[0]], rest, ReplaceAll(t, w, rep));
      assert [p[0]] + rest == p;
    }
  }

  /** One step of `ReplaceSkipPrefix`: the first character of `p` does not
      start `w`, so it is copied. */
  lemma ReplaceSkipLead(p: string, t: string, w: string, rep: string)
    requires 0 < |w| <= |p + t| && 0 < |p| && w[0] != p[0]
    ensures ReplaceAll(p + t, w, rep) == [p[0]] + ReplaceAll(p[1..] + t, w, rep)
  {
    assert (p + t)[1..] == p[1..] + t;
    assert (p + t)[..|w|][0] == p[0];
  }

  /** A line shorter than the word is left alone. */
  lemma ReplaceShort(s: string, w: string, rep: string)
    requires 0 < |w| && |s| < |w|
    ensures ReplaceAll(s, w, rep) == s
  {
  }

  // The overlapping example "eightwo": both spelled digits survive the
  // rewriting, one substitution at a time, and the line's value is 82.

  lemma EightwoOne(s: string)
    requires s == "eightwo"
    ensures ReplaceAll(s, "one", "one1one") == s
  {
    var p, t := "eightw", "o";
    assert s == p + t;
    ReplaceSkipPrefix(p, t, "one", "one1one");
    ReplaceShort(t, "one", "one1one");
  }

  lemma EightwoTwo(s: string, r: string)
    requires s == "eightwo" && r == "eightwo2two"
    ensures ReplaceAll(s, "two", "two2two") == r
  {
    var p, t := "eigh", "two";
    assert s == p + t;
    ReplaceSkipPrefix(p, t, "two", "two2two");
    assert t[..3] == "two" && t[3..] == [];
    assert ReplaceAll(t, "two", "two2two") == "two2two";
    assert r == p + "two2two";
  }

  lemma EightwoThree(s: string)
    requires s == "eightwo2two"
    ensures ReplaceAll(s, "three", "three3three") == s
  {
    assert "three"[2] == 'r' && 'r' !in s;
    FreeByLetter(s, "three");
    ReplaceFree(s, "three", "three3three");
  }

  lemma EightwoEight(s: string, r: string)
    requires s == "eightwo2two" && r == "eight8eightwo2two"
    ensures ReplaceAll(s, "eight", "eight8eight") == r
  {
    var t := "wo2two";
    assert s[..5] == "eight" && s[5..] == t;
    ReplaceNoLead(t, "eight", "eight8eight");
    assert r == "eight8eight" + t;
  }

  lemma {:induction false} DigitsAppend(a: string, b: string)
    ensures Digits(a + b) == Digits(a) + Digits(b)
    decreases |a|
  {
    if |a| == 0 {
      assert a + b == b;
    } else {
      var t, head := a[1..], if IsDigit(a[0]) then [a[0]] else [];
      DigitsAppend(t, b);
      assert (a + b)[0] == a[0] && (a + b)[1..] == t + b;
      assert Digits(a + b) == head + Digits(t + b);
      ConcatAssoc(head, Digits(t), Digits(b));
    }
  }

  lemma EightwoDigitsLeft(s: string)
    requires s == "eight8"
    ensures Digits(s) == "8"
  {
    var a, b := "eight", "8";
    assert s == a + b;
    DigitsAppend(a, b);
    NoDigitsNamed(a);
  }

  lemma EightwoDigitsRight(s: string)
    requires s == "eightwo2two"
    ensures Digits(s) == "2"
  {
    var a, b := "eightwo", "2two";
    assert s == a + b;
    DigitsAppend(a, b);
    NoDigitsNamed(a);
    EightwoDigitsTail(b);
  }

  lemma EightwoDigitsTail(s: string)
    requires s == "2two"
    ensures Digits(s) == "2"
  {
    var a, b := "2", "two";
    assert s == a + b;
    DigitsAppend(a, b);
    NoDigitsNamed(b);
  }

  /** A line of letters has no digits. */
  lemma NoDigitsNamed(s: string)
    requires forall c :: c in s ==> 'a' <= c <= 'z'
    ensures Digits(s) == []
  {
    forall i | 0 <= i < |s| ensures !IsDigit(s[i]) {
      assert s[i] in s;
    }
    DigitsSound(s);
  }

  lemma EightwoDigits(s: string, a: string, b: string)
    requires a == "eight8" && b == "eightwo2two" && s == a + b
    ensures Digits(s) == "82"
  {
    EightwoDigitsLeft(a);
    EightwoDigitsRight(b);
    DigitsAppend(a, b);
  }

  /** One substitution step of `ExposeFrom`. */
  lemma ExposeFromStep(s: string, k: nat, w: string, rep: string, r: string)
    requires k < |Spellings| && Spellings[k].0 == w && |w| > 0
    requires rep == w + [Spellings[k].1] + w
    requires ReplaceAll(s, w, rep) == r
    ensures ExposeFrom(s, k) == ExposeFrom(r, k + 1)
  {
  }

  /** A word whose first letter is not in the line is a step that changes
      nothing. */
  lemma ExposeSkipStep(s: string, k: nat)
    requires k < |Spellings| && Spellings[k].0[0] !in s
    ensures ExposeFrom(s, k) == ExposeFrom(s, k + 1)
  {
    var (w, d) := Spellings[k];
    ReplaceNoLead(s, w, w + [d] + w);
  }

  lemma EightwoFirstWords(s0: string, s2: string)
    requires s0 == "eightwo" && s2 == "eightwo2two"
    ensures ExposeFrom(s0, 0) == ExposeFrom(s2, 2)
  {
    EightwoOne(s0);
    ExposeFromStep(s0, 0, "one", "one1one", s0);
    EightwoTwo(s0, s2);
    ExposeFromStep(s0, 1, "two", "two2two", s2);
  }

  lemma EightwoMiddleWords(s2: string)
    requires s2 == "eightwo2two"
    ensures ExposeFrom(s2, 2) == ExposeFrom(s2, 7)
  {
    EightwoThree(s2);
    ExposeFromStep(s2, 2, "three", "three3three", s2);
    EightwoFourToSeven(s2);
  }

  lemma EightwoFourToSeven(s2: string)
    requires s2 == "eightwo2two"
    ensures ExposeFrom(s2, 3) == ExposeFrom(s2, 7)
  {
    assert 'f' !in s2 && 's' !in s2;
    ExposeSkipStep(s2, 3);
    ExposeSkipStep(s2, 4);
    ExposeSkipStep(s2, 5);
    ExposeSkipStep(s2, 6);
  }

  lemma EightwoLastWords(s2: string, s8: string)
    requires s2 == "eightwo2two" && s8 == "eight8eightwo2two"
    ensures ExposeFrom(s2, 7) == s8
  {
    EightwoEight(s2, s8);
    ExposeFromStep(s2, 7, "eight", "eight8eight", s8);
    assert 'n' !in s8;
    ExposeSkipStep(s8, 8);
  }

  lemma EightwoValue(s8: string)
    requires s8 == "eight8eightwo2two"
    ensures LineValue(s8) == 82
  {
    var a, b := "eight8", "eightwo2two";
    assert s8 == a + b;
    EightwoDigits(s8, a, b);
  }

  /** The overlapping words of "eightwo" both survive: the line reads 82. */
  lemma EightwoExample(s0: string, s8: string)
    requires s0 == "eightwo" && s8 == "eight8eightwo2two"
    ensures Expose(s0) == s8
    ensures LineValue(Expose(s0)) == 82
  {
    var s2 := "eightwo2two";
    EightwoFirstWords(s0, s2);
    EightwoMiddleWords(s2);
    EightwoLastWords(s2, s8);
    EightwoValue(s8);
  }

  /** The answer of part 2: the calibration sum of the rewritten lines. */
  function ExposedSum(lines: seq<string>): (total: nat)
    ensures total <= 99 * |lines|
  {
    var exposed := seq(|lines|, k requires 0 <= k < |lines| => Expose(lines[k]));
    CalibrationSumBound(exposed);
    CalibrationSum(exposed)
  }

  /** Part 2 as the script runs it: rewrite each line, then rerun part 1. */
  method Part2(lines: seq<string>) returns (sum: nat)
    ensures sum == ExposedSum(lines)
  {
    var modified: seq<string> := [];
    var i := 0;
    while i < |lines|
      invariant 0 <= i <= |lines|
      invariant |modified| == i
      invariant forall k :: 0 <= k < i ==> modified[k] == Expose(lines[k])
    {
      modified := modified + [Expose(lines[i])];
      i := i + 1;
    }
    assert modified == seq(|lines|, k requires 0 <= k < |lines| => Expose(lines[k]));
    sum := Part1(modified);
  }
}
