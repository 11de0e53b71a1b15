/** The rule class `HealthCheckStrategy_NoPotion`: the hero's health is low and no potion
    of healing is at hand. Its action does nothing. */
module NoPotionRule {
  import opened HeroModel
  import HealingPotionRule

  /** The fixed text `getMessage` returns. */
  const Message: string := "No healing potion"

  /** The condition: low health and no potion of healing in the backpack. */
  predicate Condition(hero: Hero)
  {
    hero.HP < LowHealth && !ContainsHealingPotion(hero.backpack)
  }

  /** `checkCondition`: the scan of the backpack runs only when the health is low. */
  method CheckCondition(hero: Hero) returns (holds: bool)
    ensures holds <==> hero.HP < LowHealth && !ContainsHealingPotion(hero.backpack)
  {
    holds := false;
    if hero.HP < LowHealth {
      var found;
      ghost var inspected;
      found, inspected := HasHealingPotion(hero);
      holds := !found;
    }
  }

  /** The two rule classes never hold together, and when the health is low exactly one holds;
      when it is not low neither does. */
  lemma ExactlyOneWhenLow(hero: Hero)
    ensures !(HealingPotionRule.Condition(hero) && Condition(hero))
    ensures HealingPotionRule.Condition(hero) || Condition(hero) <==> hero.HP < LowHealth
  {
  }
}
