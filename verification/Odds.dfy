/** The dice arithmetic: the result read from a 20-bit hash prefix, the win test, the payout, and what
    the bias of `% 100` on 16^5 prefixes does to the advertised odds.

    JavaScript doubles are modelled by exact reals; toFixed(8) rounds to the nearest 1e-8. */
module Odds {
  import opened Domain
  import Division

  datatype Direction = Under | Over

  const DICE_MAX_RESULT: int := 100
  const PREFIXES: nat := 0x10_0000 // values of five hex digits

  function GameResult(prefix: nat): int { prefix % DICE_MAX_RESULT + 1 }

  // It is the one of 1..100 that is congruent to prefix + 1.
  lemma ResultExactly(prefix: nat, result: int)
    ensures result == GameResult(prefix) <==> 1 <= result <= 100 && (prefix + 1 - result) % 100 == 0
  {
    var d := prefix + 1 - result;
    if 1 <= result <= 100 && d % 100 == 0 {
      Division.QuotientUnique(prefix, 100, d / 100, result - 1);
    }
  }

  predicate IsWin(result: int, target: int, direction: Direction)
  {
    if direction.Under? then result < target else target < result
  }

  function WinChance(target: int, direction: Direction): int
  {
    if direction.Under? then target - 1 else DICE_MAX_RESULT - target
  }

  // The targets that the request schema lets through.
  predicate ValidTarget(target: int) { 2 <= target <= 98 }

  function Multiplier(target: int, direction: Direction, edge: real): real
  {
    var chance := WinChance(target, direction);
    if 0 < chance then (DICE_MAX_RESULT as real - edge) / chance as real else 0.0
  }

  // toFixed(8), as a count of 1e-8.
  function ToFixed8(x: real): int
  {
    (x * 100000000.0 + 0.5).Floor
  }

  function Payout(wager: real, target: int, direction: Direction, edge: real, result: int): int
  {
    ToFixed8(if IsWin(result, target, direction) then wager * Multiplier(target, direction, edge) else 0.0)
  }

  // ----- Counting prefixes -----

  function CountBelow(n: nat, m: nat, k: nat): nat
    requires 0 < m
  {
    if n == 0 then 0 else CountBelow(n - 1, m, k) + (if (n - 1) % m < k then 1 else 0)
  }

  // One number further, the remainder grows or a new period starts.
  lemma NextQuotient(n: nat, m: nat)
    requires 0 < n && 0 < m
    ensures var q, r := (n - 1) / m, (n - 1) % m;
      if r == m - 1 then n / m == q + 1 && n % m == 0 else n / m == q && n % m == r + 1
  {
    var q, r := (n - 1) / m, (n - 1) % m;
    if r == m - 1 {
      Division.MulDistributes(q, 1, m);
      Division.QuotientUnique(n, m, q + 1, 0);
    } else {
      Division.QuotientUnique(n, m, q, r + 1);
    }
  }

  // x < n with x mod m < k: k in every full period, and the rest of the last one.
  lemma {:induction false} ResidueCount(n: nat, m: nat, k: nat)
    requires 0 < m && k <= m
    ensures CountBelow(n, m, k) == (n / m) * k + Min(k, n % m)
  {
    if n == 0 {
      Division.QuotientUnique(0, m, 0, 0);
    } else {
      var q, r := (n - 1) / m, (n - 1) % m;
      ResidueCount(n - 1, m, k);
      NextQuotient(n, m);
      assert CountBelow(n, m, k) == q * k + Min(k, r) + (if r < k then 1 else 0);
      Division.MulDistributes(q, 1, k);
    }
  }

  // Winning prefixes below n.
  function Wins(n: nat, target: int, direction: Direction): nat
  {
    if n == 0 then 0
    else Wins(n - 1, target, direction) + (if IsWin(GameResult(n - 1), target, direction) then 1 else 0)
  }

  lemma {:induction false} WinsByResidue(n: nat, target: int, direction: Direction)
    requires ValidTarget(target)
    ensures Wins(n, target, direction)
         == if direction.Under? then CountBelow(n, 100, target - 1) else n - CountBelow(n, 100, target)
  {
    if n != 0 {
      WinsByResidue(n - 1, target, direction);
    }
  }

  // By how much 100 times the winning prefixes miss winChance times all prefixes.
  function Bias(target: int, direction: Direction): int
  {
    if direction.Under?
    then 100 * Min(target - 1, 76) - 76 * (target - 1)
    else 76 * target - 100 * Min(target, 76)
  }

  // The advertised probability winChance/100 is exceeded by "under" and missed by "over", by at most
  // 18.24 prefixes in 2^20.
  lemma WinProbability(target: int, direction: Direction)
    requires ValidTarget(target)
    ensures 100 * Wins(PREFIXES, target, direction) == WinChance(target, direction) * PREFIXES + Bias(target, direction)
    ensures direction.Under? ==> 0 <= Bias(target, direction) <= 1824
    ensures direction.Over? ==> -1824 <= Bias(target, direction) <= 0
  {
    WinsByResidue(PREFIXES, target, direction);
    ResidueCount(PREFIXES, 100, if direction.Under? then target - 1 else target);
  }

  // ----- Return to the player -----

  // What the house pays over all prefixes, in units of 1e-8.
  function TotalPayout(n: nat, wager: real, target: int, direction: Direction, edge: real): int
  {
    if n == 0 then 0
    else TotalPayout(n - 1, wager, target, direction, edge)
         + Payout(wager, target, direction, edge, GameResult(n - 1))
  }

  lemma {:induction false} TotalIsWinsTimesPayout(n: nat, wager: real, target: int, direction: Direction, edge: real)
    ensures TotalPayout(n, wager, target, direction, edge)
         == Wins(n, target, direction) * ToFixed8(wager * Multiplier(target, direction, edge))
  {
    if n != 0 {
      TotalIsWinsTimesPayout(n - 1, wager, target, direction, edge);
      Division.MulDistributes(Wins(n - 1, target, direction), 1, ToFixed8(wager * Multiplier(target, direction, edge)));
    }
  }

  // The unrounded payout of one win, in units of 1e-8.
  function IdealPayout(wager: real, target: int, direction: Direction, edge: real): real
  {
    wager * Multiplier(target, direction, edge) * 100000000.0
  }

  lemma ProductBound(w: real, d: real)
    requires 0.0 <= w && -0.5 <= d <= 0.5
    ensures -0.5 * w <= w * d <= 0.5 * w
  {
    assert 0.0 <= w * (d + 0.5);
    assert 0.0 <= w * (0.5 - d);
  }

  lemma ProductOfDifference(w: real, a: real, b: real)
    ensures w * (a - b) == w * a - w * b
  {
  }

  lemma ProductAsReal(a: int, b: int)
    ensures (a * b) as real == a as real * b as real
  {
  }

  lemma RoundingScales(wins: nat, x: real, rounded: int)
    requires -0.5 <= rounded as real - x <= 0.5
    ensures -0.5 * wins as real <= (wins * rounded) as real - wins as real * x <= 0.5 * wins as real
  {
    ProductAsReal(wins, rounded);
    ProductOfDifference(wins as real, rounded as real, x);
    ProductBound(wins as real, rounded as real - x);
  }

  // The stake of one bet, of all prefixes, and what they return before rounding.
  function Stake(wager: real): real { wager * 100000000.0 }

  function TotalStaked(wager: real): real { Stake(wager) * PREFIXES as real }

  function IdealTotal(wager: real, target: int, direction: Direction, edge: real): real
  {
    Wins(PREFIXES, target, direction) as real * IdealPayout(wager, target, direction, edge)
  }

  // Rounding moves the total by at most half a unit per winning prefix.
  lemma TotalNearIdeal(wager: real, target: int, direction: Direction, edge: real)
    ensures var wins := Wins(PREFIXES, target, direction);
      var gap := TotalPayout(PREFIXES, wager, target, direction, edge) as real - IdealTotal(wager, target, direction, edge);
      -0.5 * wins as real <= gap <= 0.5 * wins as real
  {
    TotalIsWinsTimesPayout(PREFIXES, wager, target, direction, edge);
    RoundingScales(Wins(PREFIXES, target, direction), IdealPayout(wager, target, direction, edge),
                   ToFixed8(wager * Multiplier(target, direction, edge)));
  }

  lemma PayoutTimesChance(wager: real, target: int, direction: Direction, edge: real)
    requires ValidTarget(target)
    ensures IdealPayout(wager, target, direction, edge) * WinChance(target, direction) as real == Stake(wager) * (100.0 - edge)
  {
    var c := WinChance(target, direction) as real;
    var m := Multiplier(target, direction, edge);
    assert m * c == 100.0 - edge;
    assert wager * m * 100000000.0 * c == Stake(wager) * (m * c);
  }

  lemma WinProbabilityReal(target: int, direction: Direction)
    requires ValidTarget(target)
    ensures 100.0 * Wins(PREFIXES, target, direction) as real
         == WinChance(target, direction) as real * PREFIXES as real + Bias(target, direction) as real
  {
    WinProbability(target, direction);
  }

  // Before rounding, 100 times the total is what the advertised edge says, plus the bias times one payout.
  lemma RealHouseEdge(wager: real, target: int, direction: Direction, edge: real)
    requires ValidTarget(target)
    ensures 100.0 * IdealTotal(wager, target, direction, edge)
         == TotalStaked(wager) * (100.0 - edge) + Bias(target, direction) as real * IdealPayout(wager, target, direction, edge)
  {
    hide Wins, IdealPayout, Stake, Bias, WinChance;
    WinProbabilityReal(target, direction);
    PayoutTimesChance(wager, target, direction, edge);
    ScaleIdentity(Wins(PREFIXES, target, direction) as real, WinChance(target, direction) as real, PREFIXES as real,
                  Bias(target, direction) as real, IdealPayout(wager, target, direction, edge), Stake(wager), 100.0 - edge);
  }

  lemma ScaleIdentity(wins: real, c: real, n: real, b: real, p: real, s: real, k: real)
    requires 100.0 * wins == c * n + b && p * c == s * k
    ensures 100.0 * (wins * p) == (s * n) * k + b * p
  {
    assert 100.0 * (wins * p) == (c * n + b) * p;
    assert (c * n + b) * p == (p * c) * n + b * p;
    assert (s * k) * n == (s * n) * k;
  }

  // Before rounding, the house does not lose over all prefixes exactly from this edge on, in either
  // direction. `HouseEdge` says what rounding adds.
  lemma IdealBreakEven(wager: real, target: int, direction: Direction, edge: real)
    requires ValidTarget(target) && 0.0 < wager
    ensures IdealTotal(wager, target, direction, edge) <= TotalStaked(wager) <==>
      100.0 * Bias(target, direction) as real
      <= edge * (WinChance(target, direction) as real * PREFIXES as real + Bias(target, direction) as real)
  {
    assert 0.0 < WinChance(target, direction) as real && 0.0 < Stake(wager);
    hide Wins, IdealPayout, IdealTotal, Bias, WinChance, Stake;
    RealHouseEdge(wager, target, direction, edge);
    PayoutTimesChance(wager, target, direction, edge);
    assert TotalStaked(wager) == Stake(wager) * PREFIXES as real;
    hide TotalStaked;
    BreakEven(Stake(wager), edge, PREFIXES as real, TotalStaked(wager), IdealTotal(wager, target, direction, edge),
              Bias(target, direction) as real, WinChance(target, direction) as real,
              IdealPayout(wager, target, direction, edge));
  }

  lemma BreakEven(s: real, edge: real, n: real, staked: real, total: real, bias: real, chance: real, payout: real)
    requires 0.0 < s && 0.0 < chance && payout * chance == s * (100.0 - edge)
    requires staked == s * n && 100.0 * total == staked * (100.0 - edge) + bias * payout
    ensures total <= staked <==> 100.0 * bias <= edge * (chance * n + bias)
  {
    var d := 100.0 * bias - edge * (chance * n + bias);
    TimesChance(s, edge, n, total, bias, chance, payout);
    SignOfProduct(chance, 100.0 * (total - s * n));
    SignOfProduct(s, d);
  }

  lemma TimesChance(s: real, edge: real, n: real, total: real, bias: real, chance: real, payout: real)
    requires payout * chance == s * (100.0 - edge)
    requires 100.0 * total == (s * n) * (100.0 - edge) + bias * payout
    ensures chance * (100.0 * (total - s * n)) == s * (100.0 * bias - edge * (chance * n + bias))
  {
    var sn := s * n;
    assert chance * (100.0 * (total - sn)) == chance * (bias * payout - sn * edge);
    assert chance * (bias * payout) == bias * (payout * chance);
    assert chance * (sn * edge) == s * (edge * (chance * n));
    assert bias * (s * (100.0 - edge)) == s * (100.0 * bias - edge * bias);
  }

  lemma SignOfProduct(a: real, d: real)
    requires 0.0 < a
    ensures a * d <= 0.0 <==> d <= 0.0
  {
  }

  // For "under" with a win chance of at most 76% that is (before rounding) 2400 / (2^20 + 24) percent,
  // whatever the target: an advertised edge of 0 pays out more than it takes in.
  lemma UnderBreakEven(wager: real, target: int, edge: real)
    requires 2 <= target <= 77 && 0.0 < wager
    ensures IdealTotal(wager, target, Under, edge) <= TotalStaked(wager) <==> 2400.0 <= edge * (PREFIXES + 24) as real
  {
    IdealBreakEven(wager, target, Under, edge);
    var c, d := WinChance(target, Under) as real, 2400.0 - edge * (PREFIXES + 24) as real;
    assert Bias(target, Under) as real == 24.0 * c;
    hide Wins, IdealPayout, IdealTotal, Bias, WinChance;
    assert edge * (c * PREFIXES as real + 24.0 * c) == c * (edge * (PREFIXES + 24) as real);
    SignOfProduct(c, d);
  }

  // Before rounding, "over" never pays more than advertised.
  lemma OverNeverFavours(wager: real, target: int, edge: real)
    requires ValidTarget(target) && 0.0 < wager && 0.0 <= edge < 100.0
    ensures 100.0 * IdealTotal(wager, target, Over, edge) <= TotalStaked(wager) * (100.0 - edge)
  {
    WinProbability(target, Over);
    RealHouseEdge(wager, target, Over, edge);
    assert 0.0 < Multiplier(target, Over, edge);
    assert 0.0 < IdealPayout(wager, target, Over, edge);
    assert Bias(target, Over) as real * IdealPayout(wager, target, Over, edge) <= 0.0;
  }
}
