/** The messages of the two anonymous rules that `HealthCheckStrategyFactory` builds. Their
    conditions are the same expressions as those of the two rule classes, each with its own
    copy of the backpack scan, so the model checks them with the rule classes' conditions. */
module FactoryMessages {

  /** The message of the rule made by `createHealingPotionStrategy`. */
  const HealingMessage: string := "Warning: 生命值低！考虑使用治疗药水。"

  /** The message of the rule made by `createNoPotionStrategy`. */
  const NoPotionMessage: string := "不存在 治疗药水"
}

/** `HealthCheckStrategyFactory`: builds the default list of rules. */
module HealthCheckStrategyFactory {
  import opened HeroModel
  import opened HealthCheckStrategy
  import FactoryMessages
  import HealingPotionRule
  import NoPotionRule

  /** The contents of every list `createDefaultStrategies` returns. */
  function DefaultRules(): (rules: seq<Strategy>)
  {
    [CreateHealingPotionStrategy(), CreateNoPotionStrategy()]
  }

  /** `createHealingPotionStrategy`: a rule that holds on low health with a potion of healing
      at hand, does nothing to the hero, and carries the factory's own warning text. */
  function CreateHealingPotionStrategy(): (s: Strategy)
    ensures forall hero :: ConditionHolds(s, hero) <==> hero.HP < LowHealth && ContainsHealingPotion(hero.backpack)
    ensures forall hero :: ExecuteAction(s, hero) == hero
    ensures GetMessage(s) == FactoryMessages.HealingMessage
  {
    FactoryHealingPotion
  }

  /** `createNoPotionStrategy`: a rule that holds on low health with no potion of healing
      at hand, does nothing to the hero, and carries the factory's own notice. */
  function CreateNoPotionStrategy(): (s: Strategy)
    ensures forall hero :: ConditionHolds(s, hero) <==> hero.HP < LowHealth && !ContainsHealingPotion(hero.backpack)
    ensures forall hero :: ExecuteAction(s, hero) == hero
    ensures GetMessage(s) == FactoryMessages.NoPotionMessage
  {
    FactoryNoPotion
  }

  /** `createDefaultStrategies`: a newly allocated list holding the healing-potion rule and
      then the no-potion rule. */
  method CreateDefaultStrategies() returns (strategies: StrategyList)
    ensures fresh(strategies)
    ensures strategies.items == DefaultRules()
  {
    strategies := new StrategyList();
    strategies.Add(CreateHealingPotionStrategy());
    strategies.Add(CreateNoPotionStrategy());
  }

  /** The default list has two rules with non-empty messages, which are not the messages of
      the two rule classes. */
  lemma DefaultRulesMessages()
    ensures |DefaultRules()| == 2
    ensures forall i :: 0 <= i < 2 ==> |GetMessage(DefaultRules()[i])| > 0
    ensures GetMessage(DefaultRules()[0]) != HealingPotionRule.Message
    ensures GetMessage(DefaultRules()[1]) != NoPotionRule.Message
  {
  }

  /** Two calls of the factory give two distinct lists of equal length with equal messages
      at equal positions. */
  method TwoFactoryCalls() returns (first: StrategyList, second: StrategyList)
    ensures first != second
    ensures |first.items| == |second.items|
    ensures forall i :: 0 <= i < |first.items| ==> GetMessage(first.items[i]) == GetMessage(second.items[i])
  {
    first := CreateDefaultStrategies();
    second := CreateDefaultStrategies();
  }

  /** Each call allocates its own list: adding to one result leaves the other as it was. */
  method FactoryListsIndependent(extra: Strategy) returns (first: StrategyList, second: StrategyList)
    ensures first.items == DefaultRules() + [extra]
    ensures second.items == DefaultRules()
  {
    first := CreateDefaultStrategies();
    second := CreateDefaultStrategies();
    first.Add(extra);
  }
}
