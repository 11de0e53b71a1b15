/** `GLog`, the game's message log, as far as the health checks use it: a sink that
    receives warnings and blank separator lines. Its formatting and where it shows its
    entries belong to the rest of the game; here it is the sequence of entries received. */
module GameLog {

  datatype LogEntry = Warning(text: string) | Blank

  class GLog {
    var entries: seq<LogEntry>

    constructor ()
      ensures entries == []
    {
      entries := [];
    }

    /** `GLog.w(text)`. */
    method Warn(text: string)
      modifies this
      ensures entries == old(entries) + [Warning(text)]
    {
      entries := entries + [Warning(text)];
    }

    /** `GLog.newLine()`. */
    method NewLine()
      modifies this
      ensures entries == old(entries) + [Blank]
    {
      entries := entries + [Blank];
    }
  }
}

/** `HealthCheckContext`: holds a list of rules, lets callers append to it, and on each check
    fires the first rule whose condition holds. */
module HealthCheckContext {
  import opened HeroModel
  import opened HealthCheckStrategy
  import opened GameLog
  import HealthCheckStrategyFactory
  import FactoryMessages

  datatype Option<T> = None | Some(value: T)

  /** The position of the rule a check fires: the lowest position whose condition holds,
      or `None` when no condition holds. */
  function FirstMatch(rules: seq<Strategy>, hero: Hero): (r: Option<nat>)
    ensures r.Some? ==> r.value < |rules| && ConditionHolds(rules[r.value], hero)
    ensures r.Some? ==> forall j :: 0 <= j < r.value ==> !ConditionHolds(rules[j], hero)
    ensures r.None? <==> forall j :: 0 <= j < |rules| ==> !ConditionHolds(rules[j], hero)
  {
    if rules == [] then None
    else if ConditionHolds(rules[0], hero) then Some(0)
    else match FirstMatch(rules[1..], hero)
      case None => None
      case Some(k) => Some(k + 1)
  }

  /** What a check appends to the log: the fired rule's message and one blank line, or
      nothing when no rule fires. */
  function Emitted(rules: seq<Strategy>, hero: Hero): (entries: seq<LogEntry>)
  {
    match FirstMatch(rules, hero)
    case None => []
    case Some(i) => [Warning(GetMessage(rules[i])), Blank]
  }

  /** The hero after a check: changed by the fired rule's action only. */
  function AfterCheck(rules: seq<Strategy>, hero: Hero): (after: Hero)
  {
    match FirstMatch(rules, hero)
    case None => hero
    case Some(i) => ExecuteAction(rules[i], hero)
  }

  /** How many conditions a check evaluates: up to and including the fired rule, or all. */
  function Evaluated(rules: seq<Strategy>, hero: Hero): (count: nat)
  {
    match FirstMatch(rules, hero)
    case None => |rules|
    case Some(i) => i + 1
  }

  class HealthCheckContext {
    /** The caller's list itself, not a copy. */
    const strategies: StrategyList

    /** The constructor keeps a reference to the caller's list: later additions through the
        context are seen by the caller, and the caller's additions by the context. */
    constructor (strategies: StrategyList)
      ensures this.strategies == strategies
    {
      this.strategies := strategies;
    }

    /** `addStrategy`: appends the rule at the end of the shared list. */
    method AddStrategy(strategy: Strategy)
      modifies strategies
      ensures strategies.items == old(strategies.items) + [strategy]
    {
      strategies.Add(strategy);
    }

    /** `checkAndExecute`: walks the rules in order; at the first whose condition holds it runs
        the action, logs the message and a blank line, and stops. The hero comes back as the
        action leaves it; `evaluated` counts the conditions that were checked. */
    method CheckAndExecute(hero: Hero, log: GLog) returns (after: Hero, ghost evaluated: nat)
      modifies log
      ensures unchanged(strategies)
      ensures log.entries == old(log.entries) + Emitted(strategies.items, hero)
      ensures after == AfterCheck(strategies.items, hero)
      ensures evaluated == Evaluated(strategies.items, hero)
    {
      var rules := strategies.items;
      after := hero;
      evaluated := 0;
      for i := 0 to |rules|
        invariant evaluated == i
        invariant forall j :: 0 <= j < i ==> !ConditionHolds(rules[j], hero)
        invariant log.entries == old(log.entries)
        invariant after == hero
      {
        evaluated := i + 1;
        var holds := CheckCondition(rules[i], hero);
        if holds {
          assert FirstMatch(rules, hero) == Some(i);
          after := ExecuteAction(rules[i], hero);
          log.Warn(GetMessage(rules[i]));
          log.NewLine();
          return;
        }
      }
    }
  }

  /** At most one rule fires, and it is the lowest-positioned rule whose condition holds:
      a check logs either nothing or exactly that rule's message and a blank line. */
  lemma {:induction false} FirstMatchWins(rules: seq<Strategy>, hero: Hero, i: nat)
    requires i < |rules| && ConditionHolds(rules[i], hero)
    requires forall j :: 0 <= j < i ==> !ConditionHolds(rules[j], hero)
    ensures Emitted(rules, hero) == [Warning(GetMessage(rules[i])), Blank]
    ensures AfterCheck(rules, hero) == ExecuteAction(rules[i], hero)
    ensures Evaluated(rules, hero) == i + 1
  {
  }

  /** When no condition holds, and in particular on an empty list, a check logs nothing,
      runs no action, and evaluates every rule. */
  lemma NoMatchNoEffect(rules: seq<Strategy>, hero: Hero)
    requires forall j :: 0 <= j < |rules| ==> !ConditionHolds(rules[j], hero)
    ensures Emitted(rules, hero) == []
    ensures AfterCheck(rules, hero) == hero
    ensures Evaluated(rules, hero) == |rules|
  {
  }

  /** Appending a rule changes the outcome of a check only when no earlier rule fires; then
      the new rule fires exactly when its own condition holds. */
  lemma {:induction false} AppendOnlyExtends(rules: seq<Strategy>, s: Strategy, hero: Hero)
    ensures FirstMatch(rules, hero).Some? ==> FirstMatch(rules + [s], hero) == FirstMatch(rules, hero)
    ensures FirstMatch(rules, hero).Some? ==> Emitted(rules + [s], hero) == Emitted(rules, hero)
    ensures FirstMatch(rules, hero).None? ==>
      FirstMatch(rules + [s], hero) == if ConditionHolds(s, hero) then Some(|rules|) else None
  {
    var ext := rules + [s];
    assert forall j :: 0 <= j < |rules| ==> ext[j] == rules[j];
    match FirstMatch(rules, hero)
    case Some(i) =>
      FirstMatchWins(ext, hero, i);
    case None =>
      if ConditionHolds(s, hero) {
        FirstMatchWins(ext, hero, |rules|);
      }
  }

  /** Registration order decides between rules whose conditions both hold: whichever is
      first in the list is the one whose message is logged. */
  lemma FirstRegisteredWins(a: Strategy, b: Strategy, hero: Hero)
    requires ConditionHolds(a, hero) && ConditionHolds(b, hero)
    ensures Emitted([a, b], hero) == [Warning(GetMessage(a)), Blank]
    ensures Emitted([b, a], hero) == [Warning(GetMessage(b)), Blank]
  {
  }

  /** With the factory's default list, low health logs exactly one message, chosen by
      whether a potion of healing is at hand, and any other health logs nothing; the hero
      is left as it was. */
  lemma DefaultRulesOutcome(hero: Hero)
    ensures Emitted(HealthCheckStrategyFactory.DefaultRules(), hero) ==
      if hero.HP >= LowHealth then []
      else if ContainsHealingPotion(hero.backpack) then [Warning(FactoryMessages.HealingMessage), Blank]
      else [Warning(FactoryMessages.NoPotionMessage), Blank]
    ensures AfterCheck(HealthCheckStrategyFactory.DefaultRules(), hero) == hero
  {
    var rules := HealthCheckStrategyFactory.DefaultRules();
    if hero.HP >= LowHealth {
      NoMatchNoEffect(rules, hero);
    } else if ContainsHealingPotion(hero.backpack) {
      FirstMatchWins(rules, hero, 0);
    } else {
      FirstMatchWins(rules, hero, 1);
    }
  }

  /** When no rule of the list changes this hero, a check leaves the hero as it was, so a
      second check of the same hero logs the same entries as the first. */
  lemma RepeatedCheckSameOutcome(rules: seq<Strategy>, hero: Hero)
    requires forall j :: 0 <= j < |rules| ==> ExecuteAction(rules[j], hero) == hero
    ensures AfterCheck(rules, hero) == hero
    ensures Emitted(rules, AfterCheck(rules, hero)) == Emitted(rules, hero)
  {
  }

  /** Two checks in a row, the second on the hero the first returns: when no rule changes the
      hero, the log grows by the same entries twice. */
  method CheckTwice(context: HealthCheckContext, hero: Hero, log: GLog) returns (after: Hero)
    requires forall j :: 0 <= j < |context.strategies.items| ==>
      ExecuteAction(context.strategies.items[j], hero) == hero
    modifies log
    ensures after == hero
    ensures log.entries == old(log.entries) + Emitted(context.strategies.items, hero)
                                            + Emitted(context.strategies.items, hero)
  {
    ghost var evaluated;
    RepeatedCheckSameOutcome(context.strategies.items, hero);
    after, evaluated := context.CheckAndExecute(hero, log);
    after, evaluated := context.CheckAndExecute(after, log);
  }

  /** The workflow the repository's tests run: a default list from the factory, a context
      made from it, and one more healing-potion rule added through the context. The
      addition is visible through the list the caller still holds. */
  method CompleteWorkflow() returns (list: StrategyList, context: HealthCheckContext)
    ensures context.strategies == list
    ensures list.items == HealthCheckStrategyFactory.DefaultRules() + [HealingPotion]
  {
    list := HealthCheckStrategyFactory.CreateDefaultStrategies();
    context := new HealthCheckContext(list);
    context.AddStrategy(HealingPotion);
  }

  /** The test list that puts the factory's rules before the two rule classes: the rule
      classes never fire, because a factory rule with the same condition comes first. */
  lemma FactoryRulesShadowRuleClasses(hero: Hero)
    ensures var rules := HealthCheckStrategyFactory.DefaultRules() + [HealingPotion, NoPotion];
      FirstMatch(rules, hero) == if hero.HP >= LowHealth then None
        else if ContainsHealingPotion(hero.backpack) then Some(0) else Some(1)
  {
  }
}
