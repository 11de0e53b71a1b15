/** The rule interface `HealthCheckStrategy`: a condition on the hero, an action on the hero
    and a fixed message. The implementations the repository has are the variants of
    `Strategy`; `Custom` stands for any other implementation of the interface, whose
    condition reads only the hero, whose action can only produce a new hero, and whose
    message is fixed when the rule is made. */
module HealthCheckStrategy {
  import opened HeroModel
  import HealingPotionRule
  import NoPotionRule
  import FactoryMessages

  datatype Strategy =
    | HealingPotion          // class HealthCheckStrategy_HealingPotion
    | NoPotion               // class HealthCheckStrategy_NoPotion
    | FactoryHealingPotion   // the anonymous rule made by createHealingPotionStrategy
    | FactoryNoPotion        // the anonymous rule made by createNoPotionStrategy
    | Custom(condition: Hero -> bool, action: Hero -> Hero, message: string)

  /** `checkCondition(hero)` as a value. */
  predicate ConditionHolds(s: Strategy, hero: Hero)
  {
    match s
    case HealingPotion => HealingPotionRule.Condition(hero)
    case NoPotion => NoPotionRule.Condition(hero)
    case FactoryHealingPotion => HealingPotionRule.Condition(hero)
    case FactoryNoPotion => NoPotionRule.Condition(hero)
    case Custom(condition, _, _) => condition(hero)
  }

  /** `executeAction(hero)`: the hero after the action. Every rule of the repository has an
      empty action, so only a custom rule can change the hero. */
  function ExecuteAction(s: Strategy, hero: Hero): (after: Hero)
    ensures !s.Custom? ==> after == hero
  {
    if s.Custom? then s.action(hero) else hero
  }

  /** `getMessage()`: it takes no hero, so the message is the same whatever the hero's state;
      every rule of the repository has a non-empty one. */
  function GetMessage(s: Strategy): (msg: string)
    ensures !s.Custom? ==> |msg| > 0
  {
    match s
    case HealingPotion => HealingPotionRule.Message
    case NoPotion => NoPotionRule.Message
    case FactoryHealingPotion => FactoryMessages.HealingMessage
    case FactoryNoPotion => FactoryMessages.NoPotionMessage
    case Custom(_, _, message) => message
  }

  /** A call of `checkCondition` through the interface: it runs the rule's own check. The
      factory's anonymous rules test the same expressions as the two rule classes. */
  method CheckCondition(s: Strategy, hero: Hero) returns (holds: bool)
    ensures holds == ConditionHolds(s, hero)
  {
    match s
    case HealingPotion => holds := HealingPotionRule.CheckCondition(hero);
    case NoPotion => holds := NoPotionRule.CheckCondition(hero);
    case FactoryHealingPotion => holds := HealingPotionRule.CheckCondition(hero);
    case FactoryNoPotion => holds := NoPotionRule.CheckCondition(hero);
    case Custom(condition, _, _) => holds := condition(hero);
  }

  /** A `java.util.List<HealthCheckStrategy>` (an `ArrayList`): a mutable object that several
      owners can hold references to. Only the operations the core uses are modelled. */
  class StrategyList {
    var items: seq<Strategy>

    /** `new ArrayList<>()`. */
    constructor ()
      ensures items == []
    {
      items := [];
    }

    /** `add(s)`: appends at the end. */
    method Add(s: Strategy)
      modifies this
      ensures items == old(items) + [s]
    {
      items := items + [s];
    }
  }
}
