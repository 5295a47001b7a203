/** Day 4, "Scratchcards": each card lists winning numbers and the numbers
    drawn. Part 1 scores each card by its matches (1 point for the first,
    doubled for each further one); part 2 lets every card win copies of the
    cards after it and counts the cards held in the end. */
module Scratchcards {
  import opened Wrappers
  import opened Text

  /** One card: its winning numbers and its drawn numbers, as sets. */
  datatype Card = Card(winning: set<nat>, drawn: set<nat>)

  // ---------------------------------------------------------------------
  // Parsing

  /** The first position at or after `i` where " | " occurs. */
  function FindBar(s: string, i: nat): (q: Option<nat>)
    ensures q.Some? ==> i <= q.value && HasAt(s, q.value, " | ")
    decreases |s| - i
  {
    if |s| < i + 3 then None
    else if HasAt(s, i, " | ") then Some(i)
    else FindBar(s, i + 1)
  }

  function ToSet(xs: seq<nat>): set<nat> {
    set x | x in xs
  }

  /** The card whose two groups of numbers are written in `g1` and `g2`. */
  function CardOf(g1: string, g2: string): Card {
    Card(ToSet(Numbers(g1)), ToSet(Numbers(g2)))
  }

  const ParseError := "Error parsing line in puzzle input"

  /** `re.match(r"^Card[ \d]+: (.*?) \| (.*?)$", line)`, then the numbers of
      each group; a line the pattern does not match fails the assertion. */
  function ParseCard(line: string): Result<Card> {
    if !HasAt(line, 0, "Card") then Failure(ParseError)
    else
      var e := ClassEnd(line, 4, DigitOrSpace);
      if e == 4 || !HasAt(line, e, ": ") then Failure(ParseError)
      else
        match FindBar(line, e + 2)
        case None => Failure(ParseError)
        case Some(q) => Success(CardOf(line[e + 2..q], line[q + 3..]))
  }

  /** The pattern matches `line` with tag `tag` and groups `g1` and
      `g2`: the lazy first group stops at the first " | " after ": ". */
  ghost predicate CardShape(line: string, tag: string, g1: string, g2: string) {
    && line == "Card" + tag + ": " + g1 + " | " + g2
    && |tag| >= 1
    && (forall k :: 0 <= k < |tag| ==> InClass(tag[k], DigitOrSpace))
    && (forall k :: 6 + |tag| <= k < 6 + |tag| + |g1| ==> !HasAt(line, k, " | "))
  }

  lemma {:induction false} FindBarAt(s: string, i: nat, q: nat)
    requires i <= q && HasAt(s, q, " | ")
    requires forall k :: i <= k < q ==> !HasAt(s, k, " | ")
    ensures FindBar(s, i) == Some(q)
    decreases q - i
  {
    if i < q {
      FindBarAt(s, i + 1, q);
    }
  }

  lemma {:induction false} FindBarFirst(s: string, i: nat)
    ensures FindBar(s, i).Some? ==> forall k :: i <= k < FindBar(s, i).value ==> !HasAt(s, k, " | ")
    ensures FindBar(s, i).None? ==> forall k :: i <= k ==> !HasAt(s, k, " | ")
    decreases |s| - i
  {
    if |s| >= i + 3 && !HasAt(s, i, " | ") {
      FindBarFirst(s, i + 1);
    }
  }

  /** A line of the card's shape is parsed into the numbers of its groups. */
  lemma ParseCardComplete(line: string, tag: string, g1: string, g2: string)
    requires CardShape(line, tag, g1, g2)
    ensures ParseCard(line) == Success(CardOf(g1, g2))
  {
    var e := 4 + |tag|;
    var q := e + 2 + |g1|;
    assert line[..4] == "Card";
    forall k | 4 <= k < e ensures InClass(line[k], DigitOrSpace) {
      assert line[k] == tag[k - 4];
    }
    assert line[e] == ':';
    ClassEndAt(line, 4, e, DigitOrSpace);
    assert line[e..e + 2] == ": ";
    assert line[q..q + 3] == " | ";
    FindBarAt(line, e + 2, q);
    assert line[e + 2..q] == g1;
    assert line[q + 3..] == g2;
  }

  /** A string is the concatenation of its consecutive slices. */
  lemma Pieces(s: string, a: nat, b: nat, c: nat, d: nat, e: nat)
    requires a <= b <= c <= d <= e <= |s|
    ensures s == s[..a] + s[a..b] + s[b..c] + s[c..d] + s[d..e] + s[e..]
  {
    assert s[..b] == s[..a] + s[a..b];
    assert s[..c] == s[..b] + s[b..c];
    assert s[..d] == s[..c] + s[c..d];
    assert s[..e] == s[..d] + s[d..e];
    assert s == s[..e] + s[e..];
  }

  /** The positions the parser finds cut the line into the shape's pieces. */
  lemma ShapeAt(line: string, e: nat, q: nat)
    requires 4 < e && e + 2 <= q && q + 3 <= |line|
    requires line[..4] == "Card" && forall k :: 4 <= k < e ==> InClass(line[k], DigitOrSpace)
    requires line[e..e + 2] == ": " && line[q..q + 3] == " | "
    requires forall k :: e + 2 <= k < q ==> !HasAt(line, k, " | ")
    ensures CardShape(line, line[4..e], line[e + 2..q], line[q + 3..])
  {
    var tag := line[4..e];
    Pieces(line, 4, e, e + 2, q, q + 3);
    assert forall k :: 0 <= k < |tag| ==> tag[k] == line[4 + k];
  }

  /** A line is parsed only when it has the card's shape. */
  lemma ParseCardSound(line: string)
    requires ParseCard(line).Success?
    ensures exists tag, g1, g2 :: CardShape(line, tag, g1, g2) && ParseCard(line).value == CardOf(g1, g2)
  {
    var e := ClassEnd(line, 4, DigitOrSpace);
    var q := FindBar(line, e + 2).value;
    ClassEndSpec(line, 4, DigitOrSpace);
    FindBarFirst(line, e + 2);
    ShapeAt(line, e, q);
    assert ParseCard(line).value == CardOf(line[e + 2..q], line[q + 3..]);
  }

  /** Every line parsed in order; the first line that fails stops it. */
  function ParseCards(lines: seq<string>): (r: Result<seq<Card>>)
    ensures r.Success? ==> |r.value| == |lines|
  {
    if |lines| == 0 then Success([])
    else
      var cards :- ParseCards(lines[..|lines| - 1]);
      var card :- ParseCard(lines[|lines| - 1]);
      Success(cards + [card])
  }

  /** The document parses exactly when every line does, each into its own
      card. */
  lemma {:induction false} ParseCardsIff(lines: seq<string>)
    ensures ParseCards(lines).Success? <==> forall k :: 0 <= k < |lines| ==> ParseCard(lines[k]).Success?
    ensures ParseCards(lines).Success? ==>
              forall k :: 0 <= k < |lines| ==> ParseCards(lines).value[k] == ParseCard(lines[k]).value
  {
    if |lines| > 0 {
      var prefix := lines[..|lines| - 1];
      ParseCardsIff(prefix);
      assert forall k :: 0 <= k < |prefix| ==> prefix[k] == lines[k];
    }
  }

  // ---------------------------------------------------------------------
  // Part 1: points

  /** The number of winning numbers drawn. */
  function MatchCount(card: Card): nat {
    |card.winning * card.drawn|
  }

  lemma {:induction false} SubsetCard(a: set<nat>, b: set<nat>)
    requires a <= b
    ensures |a| <= |b|
  {
    if a != {} {
      var x :| x in a;
      SubsetCard(a - {x}, b - {x});
    }
  }

  /** A card has no more matches than it has winning or drawn numbers, and
      none exactly when the two sets are disjoint. */
  lemma MatchCountBound(card: Card)
    ensures MatchCount(card) <= |card.winning| && MatchCount(card) <= |card.drawn|
    ensures MatchCount(card) == 0 <==> forall x :: x in card.winning ==> x !in card.drawn
  {
    SubsetCard(card.winning * card.drawn, card.winning);
    SubsetCard(card.winning * card.drawn, card.drawn);
    if MatchCount(card) != 0 {
      var x :| x in card.winning * card.drawn;
    } else {
      forall x | x in card.winning
        ensures x !in card.drawn
      {
        assert x !in card.winning * card.drawn;
      }
    }
  }

  function Pow2(n: nat): nat {
    if n == 0 then 1 else 2 * Pow2(n - 1)
  }

  /** `2 ** (matches - 1)` when there is a match, 0 otherwise. */
  function Points(matches: nat): nat {
    if matches > 0 then Pow2(matches - 1) else 0
  }

  /** The first match is worth one point and every further match doubles
      the card's worth. */
  lemma PointsDouble(matches: nat)
    ensures Points(1) == 1
    ensures matches >= 1 ==> Points(matches + 1) == 2 * Points(matches)
    ensures Points(matches) == 0 <==> matches == 0
  {
    if matches > 0 {
      Pow2Positive(matches - 1);
    }
  }

  lemma {:induction false} Pow2Positive(n: nat)
    ensures Pow2(n) >= 1
  {
    if n > 0 {
      Pow2Positive(n - 1);
    }
  }

  /** The part 1 answer: the points of all cards. */
  function PointsTotal(cards: seq<Card>): nat {
    if |cards| == 0 then 0
    else PointsTotal(cards[..|cards| - 1]) + Points(MatchCount(cards[|cards| - 1]))
  }

  /** The pile is worth nothing exactly when no card has a match. */
  lemma {:induction false} PointsTotalZero(cards: seq<Card>)
    ensures PointsTotal(cards) == 0 <==> forall k :: 0 <= k < |cards| ==> MatchCount(cards[k]) == 0
  {
    if |cards| > 0 {
      var prefix := cards[..|cards| - 1];
      PointsTotalZero(prefix);
      PointsDouble(MatchCount(cards[|cards| - 1]));
      assert forall k :: 0 <= k < |prefix| ==> prefix[k] == cards[k];
    }
  }

  /** `2 ** e` computed by repeated doubling. */
  method PowerOfTwo(e: nat) returns (p: nat)
    ensures p == Pow2(e)
  {
    p := 1;
    var i := 0;
    while i < e
      invariant i <= e
      invariant p == Pow2(i)
    {
      p := 2 * p;
      i := i + 1;
    }
  }

  /** Part 1 as the script runs it. */
  method Part1(cards: seq<Card>) returns (points: nat)
    ensures points == PointsTotal(cards)
  {
    points := 0;
    var i := 0;
    while i < |cards|
      invariant i <= |cards|
      invariant points == PointsTotal(cards[..i])
    {
      var matches := |cards[i].winning * cards[i].drawn|;
      if matches > 0 {
        var p := PowerOfTwo(matches - 1);
        points := points + p;
      }
      assert cards[..i + 1][..i] == cards[..i];
      i := i + 1;
    }
    assert cards[..i] == cards;
  }

  // ---------------------------------------------------------------------
  // Part 2: copies

  /** The copies held after card `i` (holding `c` copies) with `m` matches
      has been scored: each of the next `m` cards gains `c` copies. */
  function AddCopies(copies: seq<nat>, lo: nat, m: nat, c: nat): (r: seq<nat>)
    requires lo + m <= |copies|
    ensures |r| == |copies|
  {
    seq(|copies|, k requires 0 <= k < |copies| => if lo <= k < lo + m then copies[k] + c else copies[k])
  }

  const KeyError := "KeyError: copies of a card past the last one"

  /** Scoring card `i`: the script's dictionary has no entry past the last
      card, so winning copies of a card that does not exist fails. */
  function Score(copies: seq<nat>, i: nat, m: nat): (r: Result<seq<nat>>)
    requires i < |copies|
    ensures r.Success? ==> |r.value| == |copies|
  {
    if i + m < |copies| then Success(AddCopies(copies, i + 1, m, copies[i]))
    else Failure(KeyError)
  }

  /** The copies held after the first `k` cards of a pile with match counts
      `ms` have been scored; every card starts as one copy. */
  function CopiesAfter(ms: seq<nat>, k: nat): (r: Result<seq<nat>>)
    requires k <= |ms|
    ensures r.Success? ==> |r.value| == |ms|
  {
    if k == 0 then Success(seq(|ms|, _ => 1))
    else
      var copies :- CopiesAfter(ms, k - 1);
      Score(copies, k - 1, ms[k - 1])
  }

  function Sum(xs: seq<nat>): nat {
    if |xs| == 0 then 0 else Sum(xs[..|xs| - 1]) + xs[|xs| - 1]
  }

  function MatchCounts(cards: seq<Card>): (ms: seq<nat>)
    ensures |ms| == |cards|
  {
    seq(|cards|, k requires 0 <= k < |cards| => MatchCount(cards[k]))
  }

  /** The part 2 answer: the number of cards held in the end. */
  function TotalCards(cards: seq<Card>): Result<nat> {
    var ms := MatchCounts(cards);
    var copies :- CopiesAfter(ms, |ms|);
    Success(Sum(copies))
  }

  /** The reference reading of the rules: card `i` is held once, plus once
      for every copy of each earlier card whose wins reach it. */
  function Expected(ms: seq<nat>, i: nat): nat
    requires i < |ms|
    decreases i, 1, 0
  {
    1 + Received(ms, i, i)
  }

  /** The copies card `i` wins from cards `0 .. k - 1`. */
  function Received(ms: seq<nat>, i: nat, k: nat): nat
    requires k <= i < |ms|
    decreases i, 0, k
  {
    if k == 0 then 0
    else Received(ms, i, k - 1) + (if i <= k - 1 + ms[k - 1] then Expected(ms, k - 1) else 0)
  }

  function Min(a: nat, b: nat): nat {
    if a < b then a else b
  }

  /** Scoring fails exactly when some card among the first `k` has more
      matches than there are cards after it. */
  lemma {:induction false} CopiesAfterFails(ms: seq<nat>, k: nat)
    requires k <= |ms|
    ensures CopiesAfter(ms, k).Failure? <==> exists i :: 0 <= i < k && i + ms[i] >= |ms|
    ensures CopiesAfter(ms, k).Failure? ==> CopiesAfter(ms, k).error == KeyError
  {
    if k > 0 {
      CopiesAfterFails(ms, k - 1);
    }
  }

  /** One card's score in the reference terms. */
  lemma ScoreStep(ms: seq<nat>, k: nat, copies: seq<nat>, i: nat)
    requires 0 < k <= |ms| && i < |ms| && |copies| == |ms|
    requires forall j :: 0 <= j < |ms| ==> copies[j] == 1 + Received(ms, j, Min(k - 1, j))
    requires Score(copies, k - 1, ms[k - 1]).Success?
    ensures Score(copies, k - 1, ms[k - 1]).value[i] == 1 + Received(ms, i, Min(k, i))
  {
    var j := k - 1;
    assert copies[j] == Expected(ms, j);
    if i > j {
      assert Received(ms, i, k) == Received(ms, i, j) + (if i <= j + ms[j] then Expected(ms, j) else 0);
    }
  }

  /** While the cards are scored in order, each card's count is one plus
      what the cards scored so far have won for it; the count of a card
      already scored never changes again. */
  lemma {:induction false} CopiesAfterValue(ms: seq<nat>, k: nat)
    requires k <= |ms| && CopiesAfter(ms, k).Success?
    ensures forall i :: 0 <= i < |ms| ==> CopiesAfter(ms, k).value[i] == 1 + Received(ms, i, Min(k, i))
  {
    if k > 0 {
      CopiesAfterValue(ms, k - 1);
      var copies := CopiesAfter(ms, k - 1).value;
      forall i | 0 <= i < |ms|
        ensures CopiesAfter(ms, k).value[i] == 1 + Received(ms, i, Min(k, i))
      {
        ScoreStep(ms, k, copies, i);
      }
    }
  }

  /** Once every card is scored, each count is the reference count. */
  lemma CopiesExpected(ms: seq<nat>)
    requires CopiesAfter(ms, |ms|).Success?
    ensures forall i :: 0 <= i < |ms| ==> CopiesAfter(ms, |ms|).value[i] == Expected(ms, i)
  {
    CopiesAfterValue(ms, |ms|);
  }

  lemma {:induction false} SumAtLeast(xs: seq<nat>)
    requires forall k :: 0 <= k < |xs| ==> xs[k] >= 1
    ensures Sum(xs) >= |xs|
  {
    if |xs| > 0 {
      SumAtLeast(xs[..|xs| - 1]);
    }
  }

  /** Part 2 fails exactly when some card wins copies past the last card;
      otherwise every card is held at least once, so the total is at least
      the number of cards. */
  lemma TotalCardsFacts(cards: seq<Card>)
    ensures TotalCards(cards).Failure? <==>
              exists i :: 0 <= i < |cards| && i + MatchCount(cards[i]) >= |cards|
    ensures TotalCards(cards).Success? ==> TotalCards(cards).value >= |cards|
  {
    var ms := MatchCounts(cards);
    CopiesAfterFails(ms, |ms|);
    assert forall i :: 0 <= i < |ms| ==> ms[i] == MatchCount(cards[i]);
    if CopiesAfter(ms, |ms|).Success? {
      var copies := CopiesAfter(ms, |ms|).value;
      CopiesExpected(ms);
      assert forall i :: 0 <= i < |copies| ==> copies[i] >= 1;
      SumAtLeast(copies);
      assert TotalCards(cards) == Success(Sum(copies));
    }
  }

  /** The script's inner loop: `copies[i + j + 1] += c` for `j` below `m`,
      failing at the first key past the last card. */
  method WinCopies(copies0: seq<nat>, i: nat, m: nat) returns (r: Result<seq<nat>>)
    requires i < |copies0|
    ensures r == Score(copies0, i, m)
  {
    var copies := copies0;
    var c := copies[i];
    var j := 0;
    while j < m
      invariant j <= m && i + j < |copies0|
      invariant copies == AddCopies(copies0, i + 1, j, c)
    {
      if i + j + 1 >= |copies| {
        return Failure(KeyError);
      }
      copies := copies[i + j + 1 := copies[i + j + 1] + c];
      j := j + 1;
    }
    return Success(copies);
  }

  /** Part 2 as the script runs it. */
  method Part2(cards: seq<Card>) returns (r: Result<nat>)
    ensures r == TotalCards(cards)
  {
    ghost var ms := MatchCounts(cards);
    var copies := seq(|cards|, _ => 1);
    var i := 0;
    while i < |cards|
      invariant i <= |cards|
      invariant CopiesAfter(ms, i) == Success(copies)
    {
      var matches := |cards[i].winning * cards[i].drawn|;
      var scored := WinCopies(copies, i, matches);
      if scored.Failure? {
        CopiesAfterFails(ms, |ms|);
        CopiesAfterFails(ms, i + 1);
        return Failure(scored.error);
      }
      copies := scored.value;
      i := i + 1;
    }
    var total := 0;
    var k := 0;
    while k < |copies|
      invariant k <= |copies|
      invariant total == Sum(copies[..k])
    {
      total := total + copies[k];
      assert copies[..k + 1][..k] == copies[..k];
      k := k + 1;
    }
    assert copies[..k] == copies;
    return Success(total);
  }
}
