/** The rule class `HealthCheckStrategy_HealingPotion`: the hero's health is low and a
    potion of healing is at hand. Its action does nothing. */
module HealingPotionRule {
  import opened HeroModel

  /** The fixed text `getMessage` returns. */
  const Message: string := "Warning: Low health! Using healing potion."

  /** The condition: low health and a potion of healing in the backpack. */
  predicate Condition(hero: Hero)
  {
    hero.HP < LowHealth && ContainsHealingPotion(hero.backpack)
  }

  /** `checkCondition`: the scan of the backpack runs only when the health is low,
      as `&&` in the source short-circuits. */
  method CheckCondition(hero: Hero) returns (holds: bool)
    ensures holds <==> hero.HP < LowHealth && ContainsHealingPotion(hero.backpack)
  {
    holds := false;
    if hero.HP < LowHealth {
      ghost var inspected;
      holds, inspected := HasHealingPotion(hero);
    }
  }
}
