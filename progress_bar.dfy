/**
 * The XP arithmetic of the progress bar: the XP earned inside the current level, the
 * percentage towards the next level, and the clamped values it displays.
 *
 * JavaScript's `%` truncates toward zero, so its remainder takes the sign of the dividend;
 * Dafny's `%` is Euclidean. `JsRem` writes the JavaScript operator out. JavaScript numbers
 * are doubles; XP is modelled as an integer and the percentage as an exact real.
 */
module ProgressBar {

  /** `xpToNextLevel`: every level takes the same 100 XP. */
  const XpPerLevel: int := 100

  /** JavaScript's `a % b` for integers and a positive divisor: truncating, so the result
      has the sign of `a`. */
  function JsRem(a: int, b: int): (r: int)
    requires b > 0
    ensures -b < r < b
    ensures a >= 0 ==> 0 <= r
    ensures a <= 0 ==> r <= 0
  {
    if a >= 0 then a % b else -((-a) % b)
  }

  /** Truncation is symmetric about zero: negating the dividend negates the remainder.
      Together with `JsRemOfNatural` this pins the operator down on every integer. */
  lemma JsRemIsOdd(a: int, b: int)
    requires b > 0
    ensures JsRem(-a, b) == -JsRem(a, b)
  {
  }

  /** On a non-negative dividend the truncating remainder is the Euclidean one. */
  lemma JsRemOfNatural(a: int, b: int)
    requires a >= 0 && b > 0
    ensures JsRem(a, b) == a % b
  {
  }

  /** `currentLevelXp = xp % 100`. */
  function CurrentLevelXp(xp: int): (r: int)
    ensures -XpPerLevel < r < XpPerLevel
  {
    JsRem(xp, XpPerLevel)
  }

  /** `progressToNextLevel = Math.max(0, (currentLevelXp / xpToNextLevel) * 100)`. */
  function ProgressToNextLevel(xp: int): (p: real)
    ensures p >= 0.0
  {
    Max((CurrentLevelXp(xp) as real / XpPerLevel as real) * 100.0, 0.0)
  }

  /** `displayCurrentLevelXp = Math.max(0, currentLevelXp)`. */
  function DisplayCurrentLevelXp(xp: int): (r: int)
    ensures 0 <= r < XpPerLevel
    ensures xp < 0 ==> r == 0
  {
    if CurrentLevelXp(xp) < 0 then 0 else CurrentLevelXp(xp)
  }

  /** `displayProgressPercentage = Math.min(100, Math.max(0, progressToNextLevel))`. */
  function DisplayProgressPercentage(xp: int): (p: real)
    ensures 0.0 <= p <= 100.0
  {
    Min(100.0, Max(ProgressToNextLevel(xp), 0.0))
  }

  /** `Math.round`: the nearest integer, halves rounded up. */
  function Round(x: real): (n: int)
    ensures n as real - 0.5 <= x < n as real + 0.5
  {
    (x + 0.5).Floor
  }

  /** The percentage text, `Math.round(displayProgressPercentage)`. */
  function RoundedPercentage(xp: int): (r: int)
    ensures 0 <= r <= 100
  {
    Round(DisplayProgressPercentage(xp))
  }

  /** The total shown in the XP badge, `Math.max(0, xp)`. */
  function DisplayTotalXp(xp: int): (r: int)
    ensures r >= 0 && r >= xp
    ensures r == xp || r == 0
  {
    if xp < 0 then 0 else xp
  }

  function Max(a: real, b: real): real
  {
    if a < b then b else a
  }

  function Min(a: real, b: real): real
  {
    if a < b then a else b
  }

  /** The displayed percentage is the displayed level XP, out of a step of 100: the upper
      clamp never bites. */
  lemma PercentageMatchesLevelXp(xp: int)
    ensures DisplayProgressPercentage(xp) == DisplayCurrentLevelXp(xp) as real
  {
    var c := CurrentLevelXp(xp);
    assert (c as real / 100.0) * 100.0 == c as real;
  }

  /** For non-negative XP the rounded percentage is `xp mod 100`. */
  lemma RoundedPercentageIsRemainder(xp: int)
    requires xp >= 0
    ensures RoundedPercentage(xp) == xp % XpPerLevel
  {
    PercentageMatchesLevelXp(xp);
    JsRemOfNatural(xp, XpPerLevel);
  }

  /** Negative XP shows an empty bar and zero level XP. */
  lemma NegativeXpShowsEmpty(xp: int)
    requires xp < 0
    ensures DisplayCurrentLevelXp(xp) == 0 && DisplayProgressPercentage(xp) == 0.0
    ensures DisplayTotalXp(xp) == 0
  {
    PercentageMatchesLevelXp(xp);
  }
}
