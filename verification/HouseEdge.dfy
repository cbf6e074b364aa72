/** The house edge on what is really taken and paid: both the wager and the payout of a bet are rounded
    to 1e-8 before they reach a balance, and on very small wagers rounding outweighs the edge. */
module HouseEdge {
  import opened Domain
  import opened Odds

  // Taken and paid over all prefixes, in units of 1e-8.
  function Taken(wager: real): int { PREFIXES * ToFixed8(wager) }

  function Paid(wager: real, target: int, direction: Direction, edge: real): int
  {
    TotalPayout(PREFIXES, wager, target, direction, edge)
  }

  // 100 times the winning prefixes.
  function Hits(target: int, direction: Direction): int
  {
    WinChance(target, direction) * PREFIXES + Bias(target, direction)
  }

  lemma PaidExactly(wager: real, target: int, direction: Direction, edge: real)
    requires ValidTarget(target)
    ensures 100 * Paid(wager, target, direction, edge)
         == Hits(target, direction) * ToFixed8(wager * Multiplier(target, direction, edge))
  {
    hide Wins, TotalPayout, Multiplier, ToFixed8, Bias, WinChance;
    var f := ToFixed8(wager * Multiplier(target, direction, edge));
    WinProbability(target, direction);
    TotalIsWinsTimesPayout(PREFIXES, wager, target, direction, edge);
    assert 100 * (Wins(PREFIXES, target, direction) * f) == (100 * Wins(PREFIXES, target, direction)) * f;
  }

  // The house does not lose over all prefixes exactly if hits times one rounded payout stay within
  // the rounded wagers.
  lemma HouseKeepsEdge(wager: real, target: int, direction: Direction, edge: real)
    requires ValidTarget(target)
    ensures Paid(wager, target, direction, edge) <= Taken(wager) <==>
      Hits(target, direction) * ToFixed8(wager * Multiplier(target, direction, edge)) <= 100 * (PREFIXES * ToFixed8(wager))
  {
    hide Paid, Hits, Multiplier, ToFixed8;
    PaidExactly(wager, target, direction, edge);
  }

  lemma Rounded(x: real)
    ensures x * 100000000.0 - 0.5 < ToFixed8(x) as real <= x * 100000000.0 + 0.5
  {
  }

  lemma HitsPositive(target: int, direction: Direction)
    requires ValidTarget(target)
    ensures 0 < Hits(target, direction) <= 100 * PREFIXES
    ensures 0 < WinChance(target, direction)
  {
  }

  // Rounding moves 100 times what is paid, and what is taken, by at most half a unit per event.
  lemma PaidNearIdeal(wager: real, target: int, direction: Direction, edge: real)
    requires ValidTarget(target)
    ensures var h, ideal := Hits(target, direction) as real, IdealPayout(wager, target, direction, edge);
      -0.5 * h <= 100.0 * Paid(wager, target, direction, edge) as real - h * ideal <= 0.5 * h
  {
    var f := ToFixed8(wager * Multiplier(target, direction, edge));
    Rounded(wager * Multiplier(target, direction, edge));
    HitsPositive(target, direction);
    PaidExactly(wager, target, direction, edge);
    assert -0.5 <= f as real - IdealPayout(wager, target, direction, edge) <= 0.5;
    hide Paid, Hits, Multiplier, ToFixed8, IdealPayout;
    RoundingScales(Hits(target, direction), IdealPayout(wager, target, direction, edge), f);
  }

  lemma TakenNearStake(wager: real)
    ensures -0.5 * PREFIXES as real <= Taken(wager) as real - PREFIXES as real * Stake(wager) <= 0.5 * PREFIXES as real
  {
    Rounded(wager);
    assert -0.5 <= ToFixed8(wager) as real - Stake(wager) <= 0.5;
    hide ToFixed8, Stake;
    RoundingScales(PREFIXES, Stake(wager), ToFixed8(wager));
  }

  // ----- From which wager on the edge decides -----

  // Positive exactly where the house has an edge before rounding.
  function Margin(target: int, direction: Direction, edge: real): real
  {
    edge * Hits(target, direction) as real - 100.0 * Bias(target, direction) as real
  }

  function ScaledMargin(wager: real, target: int, direction: Direction, edge: real): real
  {
    Stake(wager) * Margin(target, direction, edge)
  }

  // The rounding of all events, in hundredths of a unit.
  function Room(target: int, direction: Direction): real
  {
    50.0 * PREFIXES as real + 0.5 * Hits(target, direction) as real
  }

  function Slack(target: int, direction: Direction): real { WinChance(target, direction) as real * Room(target, direction) }

  // What the house keeps of all prefixes, with rounding and before, in hundredths of a unit.
  function Kept(wager: real, target: int, direction: Direction, edge: real): real
  {
    100.0 * Taken(wager) as real - 100.0 * Paid(wager, target, direction, edge) as real
  }

  function IdealKept(wager: real, target: int, direction: Direction, edge: real): real
  {
    100.0 * (PREFIXES as real * Stake(wager)) - Hits(target, direction) as real * IdealPayout(wager, target, direction, edge)
  }

  lemma IdealDifference(s: real, edge: real, n: real, h: real, b: real, c: real, p: real)
    requires p * c == s * (100.0 - edge) && h == c * n + b
    ensures c * (100.0 * (s * n) - h * p) == s * (edge * h - 100.0 * b)
  {
    assert c * (h * p) == h * (s * (100.0 - edge));
    assert c * (100.0 * (s * n)) == s * (100.0 * (h - b));
    assert h * (s * (100.0 - edge)) == s * (100.0 * h - edge * h);
  }

  lemma KeptNearIdeal(wager: real, target: int, direction: Direction, edge: real)
    requires ValidTarget(target)
    ensures IdealKept(wager, target, direction, edge) - Room(target, direction) <= Kept(wager, target, direction, edge)
         <= IdealKept(wager, target, direction, edge) + Room(target, direction)
  {
    hide Paid, Hits, Taken, Stake, IdealPayout;
    PaidNearIdeal(wager, target, direction, edge);
    TakenNearStake(wager);
    var paid, hits := 100.0 * Paid(wager, target, direction, edge) as real, Hits(target, direction) as real;
    var taken, stake := Taken(wager) as real, PREFIXES as real * Stake(wager);
    var ideal := hits * IdealPayout(wager, target, direction, edge);
    assert ideal - 0.5 * hits <= paid <= ideal + 0.5 * hits;
    assert stake - 0.5 * PREFIXES as real <= taken <= stake + 0.5 * PREFIXES as real;
    assert IdealKept(wager, target, direction, edge) == 100.0 * stake - ideal;
  }

  lemma IdealMargin(wager: real, target: int, direction: Direction, edge: real)
    requires ValidTarget(target)
    ensures WinChance(target, direction) as real * IdealKept(wager, target, direction, edge)
         == ScaledMargin(wager, target, direction, edge)
  {
    assert Hits(target, direction) as real == WinChance(target, direction) as real * PREFIXES as real + Bias(target, direction) as real;
    hide Hits, Stake, IdealPayout, WinChance, Bias;
    assert PREFIXES as real * Stake(wager) == Stake(wager) * PREFIXES as real;
    PayoutTimesChance(wager, target, direction, edge);
    IdealDifference(Stake(wager), edge, PREFIXES as real, Hits(target, direction) as real, Bias(target, direction) as real,
                    WinChance(target, direction) as real, IdealPayout(wager, target, direction, edge));
  }

  // A wager whose margin exceeds the rounding is decided by the edge alone.
  lemma EdgeDecides(wager: real, target: int, direction: Direction, edge: real)
    requires ValidTarget(target)
    requires Slack(target, direction) < ScaledMargin(wager, target, direction, edge)
          || Slack(target, direction) < -ScaledMargin(wager, target, direction, edge)
    ensures Paid(wager, target, direction, edge) <= Taken(wager) <==> 0.0 < ScaledMargin(wager, target, direction, edge)
  {
    hide IdealKept, Room, ScaledMargin, Hits, Paid, Taken;
    var kept := Kept(wager, target, direction, edge);
    assert Paid(wager, target, direction, edge) <= Taken(wager) <==> 0.0 <= kept;
    assert 0.0 < WinChance(target, direction) as real;
    hide Kept, WinChance;
    KeptNearIdeal(wager, target, direction, edge);
    IdealMargin(wager, target, direction, edge);
    Decided(WinChance(target, direction) as real, IdealKept(wager, target, direction, edge), Room(target, direction),
            ScaledMargin(wager, target, direction, edge), Slack(target, direction), kept);
  }

  // A value y within r of x has the sign of x, if c times x exceeds c times r either way.
  lemma Decided(c: real, x: real, r: real, cx: real, cr: real, y: real)
    requires 0.0 < c && x - r <= y <= x + r
    requires c * x == cx && c * r == cr && (cr < cx || cr < -cx)
    ensures 0.0 <= y <==> 0.0 < cx
  {
    if cr < cx {
      assert c * (r - x) < 0.0;
      assert r < x;
    } else {
      assert c * (r + x) < 0.0;
      assert r < -x;
    }
  }

  lemma MarginFloor(target: int, direction: Direction, edge: real)
    requires ValidTarget(target) && 1.0 <= edge
    ensures WinChance(target, direction) as real * 1046200.0 <= Margin(target, direction, edge)
  {
    var h, b := Hits(target, direction), Bias(target, direction);
    HitsPositive(target, direction);
    assert WinChance(target, direction) * 1046200 <= h - 100 * b;
    hide Hits, Bias, WinChance;
    assert 0.0 <= (edge - 1.0) * h as real;
    assert (edge - 1.0) * h as real == edge * h as real - h as real;
  }

  // With an edge of at least 1% that is every wager from 0.00000101 on: the house does not lose,
  // whatever the target.
  lemma OnePercentSuffices(wager: real, target: int, direction: Direction, edge: real)
    requires ValidTarget(target) && 1.0 <= edge && 0.00000101 <= wager
    ensures Paid(wager, target, direction, edge) <= Taken(wager)
  {
    var c, s, m, room := WinChance(target, direction) as real, Stake(wager), Margin(target, direction, edge), Room(target, direction);
    HitsPositive(target, direction);
    MarginFloor(target, direction, edge);
    assert 101.0 <= s && 0.0 < c && room <= 104857600.0;
    assert ScaledMargin(wager, target, direction, edge) == s * m && Slack(target, direction) == c * room;
    hide Paid, Taken, Stake, Margin, Room, Hits, WinChance, Slack, ScaledMargin;
    OutweighsRounding(c, s, m, room);
    EdgeDecides(wager, target, direction, edge);
  }

  lemma OutweighsRounding(c: real, s: real, m: real, room: real)
    requires 0.0 < c && 101.0 <= s && c * 1046200.0 <= m && room <= 104857600.0
    ensures c * room < s * m && 0.0 < s * m
  {
    assert 0.0 <= c * (104857600.0 - room);
    assert 0.0 <= (s - 101.0) * m;
    assert s * m == 101.0 * m + (s - 101.0) * m;
  }

  // On less, rounding decides: at the smallest wager a payout of 1.98 units is paid as 2.
  lemma SmallestWagerLoses()
    ensures Taken(0.00000001) == 1048576
    ensures Paid(0.00000001, 51, Under, 1.0) == 1048600
    ensures Paid(0.00000001, 50, Over, 1.0) == 1048552
  {
    assert ToFixed8(0.00000001) == 1;
    assert Multiplier(51, Under, 1.0) == 1.98 && Multiplier(50, Over, 1.0) == 1.98;
    assert ToFixed8(0.00000001 * 1.98) == 2;
    assert Hits(51, Under) == 52430000 && Hits(50, Over) == 52427600;
    PaidExactly(0.00000001, 51, Under, 1.0);
    PaidExactly(0.00000001, 50, Over, 1.0);
  }

  // ----- The return to the player -----

  // What the bias pays over all prefixes, before rounding and in hundredths of a unit.
  function BiasPaid(wager: real, target: int, direction: Direction, edge: real): real
  {
    Bias(target, direction) as real * IdealPayout(wager, target, direction, edge)
  }

  lemma HitsPaid(wager: real, target: int, direction: Direction, edge: real)
    requires ValidTarget(target)
    ensures Hits(target, direction) as real * IdealPayout(wager, target, direction, edge)
         == (PREFIXES as real * Stake(wager)) * (100.0 - edge) + BiasPaid(wager, target, direction, edge)
  {
    PayoutTimesChance(wager, target, direction, edge);
    var h, c, b := Hits(target, direction) as real, WinChance(target, direction) as real, Bias(target, direction) as real;
    assert h == c * PREFIXES as real + b;
    hide Hits, Bias, WinChance, IdealPayout, Stake;
    ReturnSplits(h, c, b, PREFIXES as real, IdealPayout(wager, target, direction, edge), Stake(wager), 100.0 - edge);
  }

  // What is paid, against the advertised share of what is taken: the bias times one payout more, up
  // to half a unit of rounding per bet and per win.
  lemma RealReturn(wager: real, target: int, direction: Direction, edge: real)
    requires ValidTarget(target) && 0.0 <= edge <= 100.0
    ensures var excess := 100.0 * Paid(wager, target, direction, edge) as real - (100.0 - edge) * Taken(wager) as real
                          - BiasPaid(wager, target, direction, edge);
      var room := 0.5 * Hits(target, direction) as real + (100.0 - edge) * (0.5 * PREFIXES as real);
      -room <= excess <= room
  {
    hide Paid, Taken, Hits, IdealPayout, Stake, BiasPaid;
    PaidNearIdeal(wager, target, direction, edge);
    TakenNearStake(wager);
    HitsPaid(wager, target, direction, edge);
    var h, payout := Hits(target, direction) as real, IdealPayout(wager, target, direction, edge);
    ReturnBound(100.0 * Paid(wager, target, direction, edge) as real, Taken(wager) as real, h, h * payout,
                BiasPaid(wager, target, direction, edge), PREFIXES as real * Stake(wager), 100.0 - edge, PREFIXES as real);
  }

  // So "over" returns no more than the advertised share, but for the rounding.
  lemma OverReturn(wager: real, target: int, edge: real)
    requires ValidTarget(target) && 0.0 < wager && 0.0 <= edge < 100.0
    ensures 100.0 * Paid(wager, target, Over, edge) as real
         <= (100.0 - edge) * Taken(wager) as real
            + 0.5 * Hits(target, Over) as real + (100.0 - edge) * (0.5 * PREFIXES as real)
  {
    assert BiasPaid(wager, target, Over, edge) <= 0.0 by {
      assert 0.0 < Multiplier(target, Over, edge);
      assert 0.0 < IdealPayout(wager, target, Over, edge);
    }
    hide Paid, Taken, Hits, BiasPaid;
    RealReturn(wager, target, Over, edge);
  }

  lemma ReturnBound(paid: real, taken: real, h: real, hp: real, bp: real, ns: real, k: real, n: real)
    requires -0.5 * h <= paid - hp <= 0.5 * h && hp == ns * k + bp
    requires -0.5 * n <= taken - ns <= 0.5 * n && 0.0 <= k
    ensures var room := 0.5 * h + k * (0.5 * n); -room <= paid - k * taken - bp <= room
  {
    WithinScaled(k, taken - ns, 0.5 * n);
    assert k * (taken - ns) == k * taken - ns * k;
  }

  lemma ReturnSplits(h: real, c: real, b: real, n: real, p: real, s: real, k: real)
    requires h == c * n + b && p * c == s * k
    ensures h * p == (n * s) * k + b * p
  {
    assert (c * n + b) * p == n * (p * c) + b * p;
    assert n * (s * k) == (n * s) * k;
  }

  lemma WithinScaled(k: real, d: real, r: real)
    requires 0.0 <= k && -r <= d <= r
    ensures -(k * r) <= k * d <= k * r
  {
    assert 0.0 <= k * (d + r);
    assert 0.0 <= k * (r - d);
  }
}
