/** Day 2, "Cube Conundrum": each line records the handfuls of coloured
    cubes drawn from a bag during one game. Part 1 sums the ids of the games
    that are possible with 12 red, 13 green and 14 blue cubes; part 2 sums
    the "power" of the smallest bag each game needs. */
module CubeGame {
  import opened Wrappers
  import opened Text

  datatype Color = Red | Green | Blue

  /** One `(count, colour)` pair of a hand. */
  datatype Draw = Draw(count: nat, color: Color)

  type Hand = seq<Draw>
  type Game = seq<Hand>

  function ColorName(c: Color): string {
    match c
    case Red => "red"
    case Green => "green"
    case Blue => "blue"
  }

  // ---------------------------------------------------------------------
  // Parsing

  /** The alternative `red|green|blue` tried at position `k`. */
  function ColorAt(s: string, k: nat): (c: Option<Color>)
    ensures c.Some? ==> HasAt(s, k, ColorName(c.value))
  {
    if HasAt(s, k, "red") then Some(Red)
    else if HasAt(s, k, "green") then Some(Green)
    else if HasAt(s, k, "blue") then Some(Blue)
    else None
  }

  /** The pattern `(\d+) (red|green|blue)` tried at the start of `s`: the
      draw it reads and the length of the match. A shorter digit run never
      helps, since a digit, not a space, would follow it. */
  function MatchDraw(s: string): (m: Option<(Draw, nat)>)
    ensures m.Some? ==> 0 < m.value.1 <= |s|
  {
    if |s| == 0 || !IsDigit(s[0]) then None
    else
      var j := RunEnd(s, 0);
      if j < |s| && s[j] == ' ' then
        match ColorAt(s, j + 1)
        case Some(c) => Some((Draw(NumberValue(s[..j]), c), j + 1 + |ColorName(c)|))
        case None => None
      else None
  }

  /** The matches of `(\d+) (red|green|blue)` in `s`, left to right and not
      overlapping, as draws: a match is kept and jumped over, a failed
      attempt moves the scan on by one character. */
  function Draws(s: string): seq<Draw>
    decreases |s|
  {
    if |s| == 0 then []
    else match MatchDraw(s)
      case Some((d, n)) => [d] + Draws(s[n..])
      case None => Draws(s[1..])
  }

  /** One hand: every `N colour` pair of a `;`-separated piece of a line. */
  function ParseHand(subset: string): Hand {
    Draws(subset)
  }

  /** One line: its `;`-separated hands (the "Game N:" header holds no pair). */
  function ParseGame(line: string): Game {
    var subsets := Split(line, ';');
    seq(|subsets|, k requires 0 <= k < |subsets| => ParseHand(subsets[k]))
  }

  /** The games of the document; a game's id is its 1-based line number. */
  function ParseGames(lines: seq<string>): seq<Game> {
    seq(|lines|, k requires 0 <= k < |lines| => ParseGame(lines[k]))
  }

  // ---------------------------------------------------------------------
  // The text a game is written as, and parsing it back

  function DrawText(d: Draw): string {
    NatToString(d.count) + " " + ColorName(d.color)
  }

  /** A hand written as the puzzle writes it: "3 blue, 4 red". */
  function HandText(h: Hand): string {
    if |h| == 0 then ""
    else if |h| == 1 then DrawText(h[0])
    else DrawText(h[0]) + ", " + HandText(h[1..])
  }

  function HandTexts(g: Game): seq<string> {
    seq(|g|, k requires 0 <= k < |g| => " " + HandText(g[k]))
  }

  /** A game written as the puzzle writes it:
      "Game 1: 3 blue, 4 red; 1 red, 2 green". */
  function GameText(id: nat, g: Game): string
    requires |g| >= 1
  {
    "Game " + NatToString(id) + ":" + Join(HandTexts(g), ';')
  }

  lemma {:induction false} RunEndAt(s: string, i: nat, e: nat)
    requires i <= e < |s|
    requires forall k :: i <= k < e ==> IsDigit(s[k])
    requires !IsDigit(s[e])
    ensures RunEnd(s, i) == e
    decreases e - i
  {
    if i < e {
      RunEndAt(s, i + 1, e);
    }
  }

  /** A prefix in none of whose positions a pair starts is skipped. */
  lemma {:induction false} SkipNoMatch(p: string, t: string)
    requires forall m :: 0 <= m < |p| ==> MatchDraw((p + t)[m..]).None?
    ensures Draws(p + t) == Draws(t)
    decreases |p|
  {
    if |p| == 0 {
      assert p + t == t;
    } else {
      assert (p + t)[0..] == p + t;
      assert (p + t)[1..] == p[1..] + t;
      forall m | 0 <= m < |p[1..]|
        ensures MatchDraw((p[1..] + t)[m..]).None?
      {
        assert (p[1..] + t)[m..] == (p + t)[m + 1..];
      }
      SkipNoMatch(p[1..], t);
    }
  }

  /** The text of a draw, followed by anything, is read back as that draw. */
  lemma DrawTextMatch(d: Draw, t: string)
    ensures MatchDraw(DrawText(d) + t) == Some((d, |DrawText(d)|))
  {
    var ds := NatToString(d.count);
    var s := DrawText(d) + t;
    assert s == ds + " " + ColorName(d.color) + t;
    assert s[|ds|] == ' ';
    RunEndAt(s, 0, |ds|);
    assert s[..|ds|] == ds;
    NumberValueOfString(d.count);
    var k := |ds| + 1;
    assert s[k..k + |ColorName(d.color)|] == ColorName(d.color);
    ColorAtName(s, k, d.color);
  }

  /** Each colour name is read as that colour: no name starts another. */
  lemma ColorAtName(s: string, k: nat, c: Color)
    requires HasAt(s, k, ColorName(c))
    ensures ColorAt(s, k) == Some(c)
  {
    assert s[k] == ColorName(c)[0];
  }

  lemma DrawsMatch(s: string, d: Draw, n: nat)
    requires MatchDraw(s) == Some((d, n))
    ensures Draws(s) == [d] + Draws(s[n..])
  {
  }

  /** Neither separator of the written hand starts a pair. */
  lemma SeparatorNoMatch(sep: string, t: string)
    requires forall k :: 0 <= k < |sep| ==> !IsDigit(sep[k])
    ensures Draws(sep + t) == Draws(t)
  {
    forall m | 0 <= m < |sep|
      ensures MatchDraw((sep + t)[m..]).None?
    {
      assert (sep + t)[m..][0] == sep[m];
    }
    SkipNoMatch(sep, t);
  }

  lemma SingleDrawRoundTrip(h: Hand)
    requires |h| == 1
    ensures ParseHand(HandText(h)) == h
  {
    var s := HandText(h);
    DrawTextMatch(h[0], "");
    assert DrawText(h[0]) + "" == s;
    DrawsMatch(s, h[0], |DrawText(h[0])|);
    assert s[|DrawText(h[0])|..] == "";
  }

  /** A draw's text is read back as that draw, and a separator without
      digits after it is skipped. */
  lemma LeadingDraw(d: Draw, sep: string, rest: string)
    requires forall k :: 0 <= k < |sep| ==> !IsDigit(sep[k])
    ensures Draws(DrawText(d) + (sep + rest)) == [d] + Draws(rest)
  {
    var s := DrawText(d) + (sep + rest);
    var n := |DrawText(d)|;
    DrawTextMatch(d, sep + rest);
    DrawsMatch(s, d, n);
    assert s[n..] == sep + rest;
    SeparatorNoMatch(sep, rest);
  }

  /** The first pair of a longer hand is read, then the separator skipped. */
  lemma FirstDrawRoundTrip(h: Hand)
    requires |h| > 1
    ensures ParseHand(HandText(h)) == [h[0]] + ParseHand(HandText(h[1..]))
  {
    var rest := HandText(h[1..]);
    ConcatAssoc(DrawText(h[0]), ", ", rest);
    LeadingDraw(h[0], ", ", rest);
  }

  /** Writing a hand and parsing it back gives the hand. */
  lemma {:induction false} HandRoundTrip(h: Hand)
    ensures ParseHand(HandText(h)) == h
    decreases |h|
  {
    if |h| == 1 {
      SingleDrawRoundTrip(h);
    } else if |h| > 1 {
      FirstDrawRoundTrip(h);
      HandRoundTrip(h[1..]);
      assert [h[0]] + h[1..] == h;
    }
  }

  /** A leading space is skipped. */
  lemma SpacedHandRoundTrip(h: Hand)
    ensures ParseHand(" " + HandText(h)) == h
  {
    SeparatorNoMatch(" ", HandText(h));
    HandRoundTrip(h);
  }

  /** No pair starts inside the "Game N:" header: the id's digits are
      followed by ':', not by a space. */
  lemma HeaderNoDrawAt(id: nat, t: string, m: nat)
    requires m < |"Game " + NatToString(id) + ":"|
    ensures MatchDraw(("Game " + NatToString(id) + ":" + t)[m..]).None?
  {
    var digits := NatToString(id);
    var header := "Game " + digits + ":";
    var s := header + t;
    var e := 5 + |digits|;
    var u := s[m..];
    if 5 <= m < e {
      assert u == digits[m - 5..] + ":" + t;
      DigitsColonNoDraw(digits[m - 5..], t);
    } else {
      assert u[0] == header[m];
      NoDigitNoDraw(u);
    }
  }

  lemma NoDigitNoDraw(u: string)
    requires |u| > 0 && !IsDigit(u[0])
    ensures MatchDraw(u).None?
  {
  }

  /** Digits followed by ':' start no pair. */
  lemma DigitsColonNoDraw(d: string, t: string)
    requires AllDigits(d)
    ensures MatchDraw(d + ":" + t).None?
  {
    var u := d + ":" + t;
    assert forall k :: 0 <= k < |d| ==> u[k] == d[k];
    assert u[|d|] == ':';
    RunEndAt(u, 0, |d|);
  }

  /** The "Game N:" header holds no pair. */
  lemma LabelHoldsNoDraw(id: nat, t: string)
    ensures ParseHand("Game " + NatToString(id) + ":" + t) == ParseHand(t)
  {
    var header := "Game " + NatToString(id) + ":";
    forall m | 0 <= m < |header|
      ensures MatchDraw((header + t)[m..]).None?
    {
      HeaderNoDrawAt(id, t, m);
    }
    SkipNoMatch(header, t);
  }

  lemma {:induction false} SplitLabel(p: string, t: string, sep: char)
    requires sep !in p
    ensures Split(p + t, sep) == [p + Split(t, sep)[0]] + Split(t, sep)[1..]
    decreases |p|
  {
    if |p| == 0 {
      assert p + t == t;
      assert p + Split(t, sep)[0] == Split(t, sep)[0];
      assert Split(t, sep) == [Split(t, sep)[0]] + Split(t, sep)[1..];
    } else {
      var q := p[1..];
      assert p[0] in p;
      SplitLabel(q, t, sep);
      assert (p + t)[1..] == q + t;
      var rest := Split(q + t, sep);
      assert Split(p + t, sep) == [[p[0]] + rest[0]] + rest[1..];
      assert [p[0]] + (q + Split(t, sep)[0]) == p + Split(t, sep)[0];
    }
  }

  /** A game's line splits at `;` into the header glued to the first hand's
      text, then the other hands' texts. */
  lemma GamePieces(id: nat, g: Game)
    requires |g| >= 1
    ensures Split(GameText(id, g), ';') ==
              ["Game " + NatToString(id) + ":" + HandTexts(g)[0]] + HandTexts(g)[1..]
  {
    var header := "Game " + NatToString(id) + ":";
    var texts := HandTexts(g);
    HandTextsNoSemicolon(g);
    SplitJoin(texts, ';');
    HeaderNoSemicolon(id);
    SplitLabel(header, Join(texts, ';'), ';');
  }

  lemma HandTextsNoSemicolon(g: Game)
    ensures forall k :: 0 <= k < |HandTexts(g)| ==> ';' !in HandTexts(g)[k]
  {
    var texts := HandTexts(g);
    forall k | 0 <= k < |texts| ensures ';' !in texts[k] {
      HandTextNoSemicolon(g[k]);
      assert forall m :: 1 <= m < |texts[k]| ==> texts[k][m] == HandText(g[k])[m - 1];
    }
  }

  lemma HeaderNoSemicolon(id: nat)
    ensures ';' !in "Game " + NatToString(id) + ":"
  {
    var header := "Game " + NatToString(id) + ":";
    assert forall m :: 5 <= m < |header| - 1 ==> IsDigit(header[m]);
  }

  /** Writing a game and parsing the line back gives the game's hands. */
  lemma GameRoundTrip(id: nat, g: Game)
    requires |g| >= 1
    ensures ParseGame(GameText(id, g)) == g
  {
    var texts := HandTexts(g);
    GamePieces(id, g);
    var parsed := ParseGame(GameText(id, g));
    forall k | 0 <= k < |g| ensures parsed[k] == g[k] {
      if k == 0 {
        LabelHoldsNoDraw(id, texts[0]);
      }
      SpacedHandRoundTrip(g[k]);
    }
  }

  /** A document written out line by line, game `k + 1` on line `k`. */
  function DocumentText(games: seq<Game>): seq<string>
    requires forall k :: 0 <= k < |games| ==> |games[k]| >= 1
  {
    seq(|games|, k requires 0 <= k < |games| => GameText(k + 1, games[k]))
  }

  /** Reading a written document gives back its games, one per line, so a
      game's position in the list is its id less one. */
  lemma DocumentRoundTrip(games: seq<Game>)
    requires forall k :: 0 <= k < |games| ==> |games[k]| >= 1
    ensures ParseGames(DocumentText(games)) == games
  {
    var parsed := ParseGames(DocumentText(games));
    forall k | 0 <= k < |games| ensures parsed[k] == games[k] {
      GameRoundTrip(k + 1, games[k]);
    }
  }

  lemma {:induction false} HandTextNoSemicolon(h: Hand)
    ensures ';' !in HandText(h)
    decreases |h|
  {
    if |h| > 0 {
      var ds := NatToString(h[0].count);
      assert forall m :: 0 <= m < |ds| ==> IsDigit(ds[m]);
      assert ';' !in DrawText(h[0]);
      if |h| > 1 {
        HandTextNoSemicolon(h[1..]);
      }
    }
  }

  // ---------------------------------------------------------------------
  // Part 1: possible games

  /** The bag of part 1: 12 red, 13 green and 14 blue cubes. */
  function BagLimit(c: Color): nat {
    match c
    case Red => 12
    case Green => 13
    case Blue => 14
  }

  /** No hand of the game pulled out more cubes of a colour than the bag
      holds. */
  ghost predicate Possible(g: Game) {
    forall i, j :: 0 <= i < |g| && 0 <= j < |g[i]| ==> g[i][j].count <= BagLimit(g[i][j].color)
  }

  /** The script's check: a flag raised by any draw over the limit. */
  method CheckGame(game: Game) returns (invalid: bool)
    ensures invalid <==> !Possible(game)
  {
    invalid := false;
    var i := 0;
    while i < |game|
      invariant 0 <= i <= |game|
      invariant !invalid <==> forall a, b :: 0 <= a < i && 0 <= b < |game[a]| ==>
                  game[a][b].count <= BagLimit(game[a][b].color)
    {
      var hand := game[i];
      var j := 0;
      while j < |hand|
        invariant 0 <= j <= |hand|
        invariant !invalid <==>
                    (forall a, b :: 0 <= a < i && 0 <= b < |game[a]| ==>
                      game[a][b].count <= BagLimit(game[a][b].color))
                    && forall b :: 0 <= b < j ==> hand[b].count <= BagLimit(hand[b].color)
      {
        if hand[j].count > BagLimit(hand[j].color) {
          invalid := true;
        }
        j := j + 1;
      }
      i := i + 1;
    }
  }

  /** The sum of the 1-based ids of the possible games. */
  ghost function ValidIdSum(games: seq<Game>): nat {
    if |games| == 0 then 0
    else ValidIdSum(games[..|games| - 1]) + (if Possible(games[|games| - 1]) then |games| else 0)
  }

  /** The answer is at most the sum of all ids, which it reaches exactly
      when every game is possible; a game without any pair is possible. */
  lemma {:induction false} ValidIdSumBound(games: seq<Game>)
    ensures 2 * ValidIdSum(games) <= |games| * (|games| + 1)
  {
    if |games| > 0 {
      var n := |games|;
      ValidIdSumBound(games[..n - 1]);
      assert n * (n + 1) == (n - 1) * n + 2 * n;
    }
  }

  lemma {:induction false} AllPossibleIdSum(games: seq<Game>)
    requires forall k :: 0 <= k < |games| ==> Possible(games[k])
    ensures 2 * ValidIdSum(games) == |games| * (|games| + 1)
  {
    if |games| > 0 {
      var n := |games|;
      var prefix := games[..n - 1];
      assert forall k :: 0 <= k < |prefix| ==> prefix[k] == games[k];
      AllPossibleIdSum(prefix);
      assert Possible(games[n - 1]);
      assert n * (n + 1) == (n - 1) * n + 2 * n;
    }
  }

  lemma EmptyGamePossible(g: Game)
    requires forall i :: 0 <= i < |g| ==> |g[i]| == 0
    ensures Possible(g)
  {
  }

  /** Part 1 as the script runs it over the parsed games. */
  method SumPossibleIds(games: seq<Game>) returns (sum: nat)
    ensures sum == ValidIdSum(games)
    ensures 2 * sum <= |games| * (|games| + 1)
  {
    sum := 0;
    var idx := 0;
    while idx < |games|
      invariant 0 <= idx <= |games|
      invariant sum == ValidIdSum(games[..idx])
    {
      var gameId := idx + 1;
      var invalid := CheckGame(games[idx]);
      if !invalid {
        sum := sum + gameId;
      }
      assert games[..idx + 1][..idx] == games[..idx];
      idx := idx + 1;
    }
    assert games[..idx] == games;
    ValidIdSumBound(games);
  }

  // ---------------------------------------------------------------------
  // Part 2: the smallest bag

  function Max(a: nat, b: nat): nat {
    if a < b then b else a
  }

  /** The largest count of colour `c` in hand `h`, or 0 if `c` is absent. */
  function HandNeed(h: Hand, c: Color): nat {
    if |h| == 0 then 0
    else Max(HandNeed(h[..|h| - 1], c), if h[|h| - 1].color == c then h[|h| - 1].count else 0)
  }

  /** The fewest cubes of colour `c` the bag must hold for game `g`. */
  function Need(g: Game, c: Color): nat {
    if |g| == 0 then 0 else Max(Need(g[..|g| - 1], c), HandNeed(g[|g| - 1], c))
  }

  /** A hand's need of `c` is its largest count of `c`, or 0 if `c` is not
      drawn. */
  lemma {:induction false} HandNeedIsMax(h: Hand, c: Color)
    ensures forall j :: 0 <= j < |h| && h[j].color == c ==> h[j].count <= HandNeed(h, c)
    ensures HandNeed(h, c) == 0 ||
              exists j :: 0 <= j < |h| && h[j].color == c && h[j].count == HandNeed(h, c)
  {
    if |h| > 0 {
      HandNeedIsMax(h[..|h| - 1], c);
      assert forall j :: 0 <= j < |h| - 1 ==> h[..|h| - 1][j] == h[j];
    }
  }

  /** The game's need of `c` is at least every count of `c` drawn, and it is
      one of them, or 0 if `c` is never drawn. */
  lemma {:induction false} NeedIsMax(g: Game, c: Color)
    ensures forall i, j :: 0 <= i < |g| && 0 <= j < |g[i]| && g[i][j].color == c ==> g[i][j].count <= Need(g, c)
    ensures Need(g, c) == 0 ||
              exists i, j :: 0 <= i < |g| && 0 <= j < |g[i]| && g[i][j].color == c && g[i][j].count == Need(g, c)
  {
    if |g| > 0 {
      var last := |g| - 1;
      NeedIsMax(g[..last], c);
      HandNeedIsMax(g[last], c);
      assert forall i :: 0 <= i < last ==> g[..last][i] == g[i];
      if Need(g, c) != 0 && Need(g, c) != Need(g[..last], c) {
        var j :| 0 <= j < |g[last]| && g[last][j].color == c && g[last][j].count == Need(g, c);
      }
    }
  }

  /** The product of three counts. */
  function Product(r: nat, g: nat, b: nat): nat {
    r * g * b
  }

  /** The power of a game: the product of its smallest bag's counts. */
  function Power(g: Game): nat {
    Product(Need(g, Red), Need(g, Green), Need(g, Blue))
  }

  /** A colour never drawn makes the power 0. */
  lemma AbsentColorZeroPower(g: Game, c: Color)
    requires forall i, j :: 0 <= i < |g| && 0 <= j < |g[i]| ==> g[i][j].color != c
    ensures Need(g, c) == 0
    ensures Power(g) == 0
  {
    NeedIsMax(g, c);
    match c
    case Red =>
    case Green =>
    case Blue =>
  }

  /** Every hand of `g` is a hand of `g'`, so `g'` is at least as
      demanding. */
  lemma PossibleBelow(g: Game, g': Game)
    requires forall i :: 0 <= i < |g| ==> g[i] in g'
    ensures Possible(g') ==> Possible(g)
  {
    if Possible(g') {
      forall i, j | 0 <= i < |g| && 0 <= j < |g[i]|
        ensures g[i][j].count <= BagLimit(g[i][j].color)
      {
        var i' :| 0 <= i' < |g'| && g'[i'] == g[i];
        assert g'[i'][j] == g[i][j];
      }
    }
  }

  lemma NeedBelow(g: Game, g': Game, c: Color)
    requires forall i :: 0 <= i < |g| ==> g[i] in g'
    ensures Need(g, c) <= Need(g', c)
  {
    var n := Need(g, c);
    NeedIsMax(g, c);
    NeedIsMax(g', c);
    if n != 0 {
      var i, j :| 0 <= i < |g| && 0 <= j < |g[i]| && g[i][j].color == c && g[i][j].count == n;
      var i' :| 0 <= i' < |g'| && g'[i'] == g[i];
      assert g'[i'][j] == g[i][j];
    }
  }

  lemma MultisetMembers<T>(a: seq<T>, b: seq<T>)
    requires multiset(a) == multiset(b)
    ensures forall i :: 0 <= i < |a| ==> a[i] in b
  {
    forall i | 0 <= i < |a| ensures a[i] in b {
      assert a[i] in multiset(a);
    }
  }

  /** The order of the hands does not matter: a game whose hands are
      permuted has the same possibility and the same smallest bag. */
  lemma PermutedHands(g: Game, g': Game)
    requires multiset(g) == multiset(g')
    ensures Possible(g) <==> Possible(g')
    ensures forall c :: Need(g, c) == Need(g', c)
    ensures Power(g) == Power(g')
  {
    MultisetMembers(g, g');
    MultisetMembers(g', g);
    PossibleBelow(g, g');
    PossibleBelow(g', g);
    forall c ensures Need(g, c) == Need(g', c) {
      NeedBelow(g, g', c);
      NeedBelow(g', g, c);
    }
  }

  /** The smallest bag of one game, as the script tallies it in a per-colour
      table of running maxima. */
  method SmallestBag(game: Game) returns (counts: map<Color, nat>)
    ensures forall c :: c in counts && counts[c] == Need(game, c)
  {
    counts := map[Red := 0, Green := 0, Blue := 0];
    var i := 0;
    forall c ensures c in counts && counts[c] == Need(game[..0], c) {
      match c
      case Red =>
      case Green =>
      case Blue =>
    }
    while i < |game|
      invariant 0 <= i <= |game|
      invariant forall c :: c in counts && counts[c] == Need(game[..i], c)
    {
      var hand := game[i];
      var j := 0;
      while j < |hand|
        invariant 0 <= j <= |hand|
        invariant forall c :: c in counts && counts[c] == Max(Need(game[..i], c), HandNeed(hand[..j], c))
      {
        var d := hand[j];
        assert hand[..j + 1][..j] == hand[..j];
        counts := counts[d.color := Max(counts[d.color], d.count)];
        j := j + 1;
      }
      assert hand[..j] == hand;
      assert game[..i + 1][..i] == game[..i];
      i := i + 1;
    }
    assert game[..i] == game;
  }

  /** The sum of the powers of all games. */
  function PowerSum(games: seq<Game>): nat {
    if |games| == 0 then 0 else PowerSum(games[..|games| - 1]) + Power(games[|games| - 1])
  }

  /** The product of the smallest bag's three counts. */
  method BagPower(game: Game) returns (power: nat)
    ensures power == Power(game)
  {
    var counts := SmallestBag(game);
    var r, g, b := counts[Red], counts[Green], counts[Blue];
    assert r == Need(game, Red) && g == Need(game, Green) && b == Need(game, Blue);
    power := Product(r, g, b);
  }

  /** Part 2 as the script runs it over the parsed games. */
  method SumPowers(games: seq<Game>) returns (sum: nat)
    ensures sum == PowerSum(games)
  {
    sum := 0;
    var i := 0;
    while i < |games|
      invariant 0 <= i <= |games|
      invariant sum == PowerSum(games[..i])
    {
      var power := BagPower(games[i]);
      sum := sum + power;
      assert games[..i + 1][..i] == games[..i];
      i := i + 1;
    }
    assert games[..i] == games;
  }
}
