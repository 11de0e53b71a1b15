# Hero low-health check: a Dafny model

This project models the hero's low-health check engine of Shattered Pixel Dungeon
(`core/src/main/java/com/shatteredpixel/shatteredpixeldungeon/actors/hero/`). The engine is
a small first-match rule engine:

- **The rule interface** `HealthCheckStrategy` has a condition on the hero, an action on the
  hero and a fixed message. In the model it is the datatype `HealthCheckStrategy.Strategy`.
  Each implementation in the repository is one variant. The variant `Custom` stands for other
  implementations whose condition has no side effect and whose message is fixed.
- **The two rule classes.** `HealthCheckStrategy_HealingPotion` holds when HP is below 10 and
  the backpack holds a potion of healing. `HealthCheckStrategy_NoPotion` holds when HP is below
  10 and the backpack holds none. Both have empty actions. They are the modules
  `HealingPotionRule` and `NoPotionRule`.
- **The backpack scan** `hasHealingPotion` is written out in all four rules and behaves
  identically in each. It is
  modelled once, as the loop `HeroModel.HasHealingPotion`. Each rule's `CheckCondition` calls it
  only when HP is below 10, because `&&` short-circuits.
- **The factory** `HealthCheckStrategyFactory` builds a new list holding two anonymous rules:
  healing first, then no-potion. They have the same conditions as the rule classes but their
  own messages. The module `FactoryMessages` holds those messages and the module
  `HealthCheckStrategyFactory` builds the list. The model checks the anonymous rules'
  conditions with the rule classes' `CheckCondition`, as the expressions are the same.
- **The context** `HealthCheckContext` keeps a reference to the caller's list. It does not copy
  it, so additions through the context are visible to the caller. `addStrategy` appends to that shared list. `checkAndExecute` walks the list in order. At
  the first rule whose condition holds, it runs the action, logs the message with `GLog.w`,
  logs a blank line with `GLog.newLine`, and stops.

Modelling choices:

- A `java.util.List` is the class `HealthCheckStrategy.StrategyList`, an object with a
  `seq` field. This keeps the aliasing that the context constructor creates.
- `GLog` is the class `GameLog.GLog`, a sequence of `Warning(text)` and `Blank` entries.
  `CheckAndExecute` receives it as a parameter.
- The hero is a value: its hit points and its backpack. An action returns the hero as it
  leaves it.
- The pure function `HealthCheckContext.FirstMatch` specifies which rule fires. The method
  `CheckAndExecute` is proved against it, through `Emitted` (what is logged), `AfterCheck`
  (the hero afterwards) and `Evaluated` (how many conditions were checked).

## Model

| member | source | states |
|---|---|---|
| `HeroModel.HasHealingPotion` | core/src/main/java/com/shatteredpixel/shatteredpixeldungeon/actors/hero/HealthCheckStrategy_HealingPotion.java:25-33 | the scan returns true iff some backpack item is a potion of healing, so an empty backpack gives false; it looks at items up to and including the first potion and no further, or at all of them when there is none |
| `HeroModel.FirstHealingPotion` | core/src/main/java/com/shatteredpixel/shatteredpixeldungeon/actors/hero/HealthCheckStrategy_HealingPotion.java:26-29 | the position where the scan stops: no potion before it, a potion at it, and it lies inside the backpack exactly when the backpack holds a potion |
| `HealingPotionRule.CheckCondition` | core/src/main/java/com/shatteredpixel/shatteredpixeldungeon/actors/hero/HealthCheckStrategy_HealingPotion.java:10-12 | the condition holds iff HP < 10 and the backpack holds a potion of healing, so HP >= 10 makes it false whatever the backpack holds |
| `NoPotionRule.CheckCondition` | core/src/main/java/com/shatteredpixel/shatteredpixeldungeon/actors/hero/HealthCheckStrategy_NoPotion.java:9-11 | the condition holds iff HP < 10 and no backpack item is a potion of healing |
| `NoPotionRule.ExactlyOneWhenLow` | core/src/main/java/com/shatteredpixel/shatteredpixeldungeon/actors/hero/HealthCheckStrategy_NoPotion.java:9-11 | the two rule classes' conditions never hold together, and one of them holds exactly when HP < 10 |
| `HealthCheckStrategy.CheckCondition` | core/src/main/java/com/shatteredpixel/shatteredpixeldungeon/actors/hero/HealthCheckStrategy.java:5-10 | a condition check through the interface is a boolean of the hero alone and agrees with the rule's own condition |
| `HealthCheckStrategy.ExecuteAction` | core/src/main/java/com/shatteredpixel/shatteredpixeldungeon/actors/hero/HealthCheckStrategy.java:12-16 | an action's only effect is the hero it returns; every rule of the repository returns the hero unchanged |
| `HealthCheckStrategy.GetMessage` | core/src/main/java/com/shatteredpixel/shatteredpixeldungeon/actors/hero/HealthCheckStrategy.java:18-22 | the message depends on the rule only, not on the hero; every rule of the repository has a non-empty one |
| `HealthCheckStrategyFactory.CreateHealingPotionStrategy` | core/src/main/java/com/shatteredpixel/shatteredpixeldungeon/actors/hero/HealthCheckStrategyFactory.java:34-60 | the rule made holds iff HP < 10 with a potion at hand, leaves every hero unchanged, and carries the factory's warning text |
| `HealthCheckStrategyFactory.CreateNoPotionStrategy` | core/src/main/java/com/shatteredpixel/shatteredpixeldungeon/actors/hero/HealthCheckStrategyFactory.java:66-92 | the rule made holds iff HP < 10 with no potion at hand, leaves every hero unchanged, and carries the factory's notice text |
| `HealthCheckStrategyFactory.CreateDefaultStrategies` | core/src/main/java/com/shatteredpixel/shatteredpixeldungeon/actors/hero/HealthCheckStrategyFactory.java:15-28 | returns a newly allocated list holding exactly the healing rule at position 0 and the no-potion rule at position 1 |
| `HealthCheckStrategyFactory.DefaultRulesMessages` | core/src/test/java/com/shatteredpixel/shatteredpixeldungeon/actors/hero/HealthCheckSystemTest.java:141-151 | the default list has two rules, both messages are non-empty, and they differ from the two rule classes' messages |
| `HealthCheckStrategyFactory.TwoFactoryCalls` | core/src/test/java/com/shatteredpixel/shatteredpixeldungeon/actors/hero/HealthCheckSystemTest.java:79-93 | two factory calls give distinct lists of equal length with equal messages at equal positions |
| `HealthCheckStrategyFactory.FactoryListsIndependent` | core/src/main/java/com/shatteredpixel/shatteredpixeldungeon/actors/hero/HealthCheckStrategyFactory.java:15-16 | adding to one factory result leaves the other result's contents as they were |
| `HealthCheckContext.FirstMatch` | core/src/main/java/com/shatteredpixel/shatteredpixeldungeon/actors/hero/HealthCheckContext.java:32-37 | the rule that fires is the lowest-positioned rule whose condition holds; there is none exactly when no condition holds |
| `HealthCheckContext.HealthCheckContext.constructor` | core/src/main/java/com/shatteredpixel/shatteredpixeldungeon/actors/hero/HealthCheckContext.java:15-17 | the context holds the caller's list object itself, not a copy |
| `HealthCheckContext.HealthCheckContext.AddStrategy` | core/src/main/java/com/shatteredpixel/shatteredpixeldungeon/actors/hero/HealthCheckContext.java:23-25 | the shared list becomes the old list followed by the new rule |
| `HealthCheckContext.HealthCheckContext.CheckAndExecute` | core/src/main/java/com/shatteredpixel/shatteredpixeldungeon/actors/hero/HealthCheckContext.java:31-40 | the log grows by exactly the first matching rule's message and one blank line, or by nothing; the hero is what that rule's action returns; conditions are checked up to that rule only; the list is unchanged |
| `HealthCheckContext.FirstMatchWins` | core/src/main/java/com/shatteredpixel/shatteredpixeldungeon/actors/hero/HealthCheckContext.java:33-37 | when rule i holds and no earlier rule does, the check logs rule i's message and a blank line, applies rule i's action only, and checks i + 1 conditions |
| `HealthCheckContext.NoMatchNoEffect` | core/src/main/java/com/shatteredpixel/shatteredpixeldungeon/actors/hero/HealthCheckContext.java:32-39 | when no condition holds, including on an empty list, nothing is logged and the hero is unchanged |
| `HealthCheckContext.AppendOnlyExtends` | core/src/main/java/com/shatteredpixel/shatteredpixeldungeon/actors/hero/HealthCheckContext.java:23-25 | appending a rule leaves the fired rule and the log entries unchanged when an earlier rule already fires; otherwise the new rule fires exactly when its condition holds |
| `HealthCheckContext.FirstRegisteredWins` | core/src/main/java/com/shatteredpixel/shatteredpixeldungeon/actors/hero/HealthCheckContext.java:37 | of two rules that both hold, the one registered first is the one whose message is logged, in either order |
| `HealthCheckContext.DefaultRulesOutcome` | core/src/main/java/com/shatteredpixel/shatteredpixeldungeon/actors/hero/HealthCheckStrategyFactory.java:15-28 | with the default list, HP < 10 logs exactly one message, the warning when a potion is at hand and the notice otherwise; HP >= 10 logs nothing; the hero is unchanged |
| `HealthCheckContext.RepeatedCheckSameOutcome` | core/src/main/java/com/shatteredpixel/shatteredpixeldungeon/actors/hero/HealthCheckContext.java:31-40 | when no rule in the list changes the hero, a check leaves the hero as it was, so a second check of it logs the same entries as the first |
| `HealthCheckContext.CheckTwice` | core/src/main/java/com/shatteredpixel/shatteredpixeldungeon/actors/hero/HealthCheckContext.java:31-40 | two checks in a row on a hero that no rule changes: the hero comes back unchanged and the log grows by the same entries twice |
| `HealthCheckContext.CompleteWorkflow` | core/src/test/java/com/shatteredpixel/shatteredpixeldungeon/actors/hero/HealthCheckSystemTest.java:220-235 | factory list, then context, then one more rule added through the context: the caller's own list shows the addition |
| `HealthCheckContext.FactoryRulesShadowRuleClasses` | core/src/test/java/com/shatteredpixel/shatteredpixeldungeon/actors/hero/HealthCheckSystemTest.java:237-253 | in the list with the factory rules first and the two rule classes after them, only a factory rule can fire, chosen by HP and the backpack |

## Left out

- `Hero`, `Belongings`, `Item` and `PotionOfHealing` are not part of this model. A hero is its
  hit points and its backpack items. `instanceof PotionOfHealing` is a tag test.
- Java `int` width: HP is an unbounded integer. The only operation on it is the comparison with
  10, which cannot overflow.
- `GLog` internals (formatting, where messages are shown) are not part of this model. It is
  a sequence of received entries.
- Exceptions: a condition or action that throws simply propagates out of `checkAndExecute`.
  The model's conditions and actions are total, so no exception path exists.
- `HealthCheckStrategy.CheckCondition`: conditions are modelled as side-effect-free functions of
  HP and the backpack, and messages as fixed per rule. A Java implementation's `checkCondition`
  could change the hero, so that a later condition in the same loop sees the change, or read
  other state; its `getMessage` could return different strings on different calls. The
  repository's own rules do none of this.
- `HealthCheckStrategy.ExecuteAction`: an action is modelled as producing a new hero value.
  Java actions that mutate other objects, such as the rule list or the log, are not captured.
- `HealthCheckStrategy_ManaPotion` and the commented-out `createManaPotionStrategy`: both are
  commented out in the source.
- The test assertions that the factory messages contain "healing potion", "Warning" and
  "No healing" (HealthCheckSystemTest.java:61-77). They are not proved: the factory's actual
  messages are the strings at HealthCheckStrategyFactory.java:48 and 80, which the model uses.
  The first contains "Warning" but not "healing potion", and the second does not contain
  "No healing", so neither branch of the test at lines 68-72 is taken.
- The timing tests (HealthCheckSystemTest.java:167-216): they measure wall-clock time.
- Java `null`: lists, rules and the hero are never null in the model.
