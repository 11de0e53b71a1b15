/** The part of the game's hero that the health checks look at.

    The hero, its belongings and the item classes belong to the rest of the game and
    are not part of this model: here a hero is its hit points and the items of its
    backpack, and `item instanceof PotionOfHealing` is a test of the item's tag.
    The backpack scan `hasHealingPotion` is written out in each of the four
    health-check rules and behaves identically in all of them; it is modelled once, by `HasHealingPotion` below. */
module HeroModel {

  /** Every rule compares the hit points against this literal: below it is low health. */
  const LowHealth: int := 10

  /** An item in the backpack; only whether it is a potion of healing matters. */
  datatype Item = PotionOfHealing | OtherItem(name: string)

  /** `HP` is the hero's current hit points, `backpack` the backpack's items in order. */
  datatype Hero = Hero(HP: int, backpack: seq<Item>)

  /** Some item of the backpack is a potion of healing. */
  predicate ContainsHealingPotion(backpack: seq<Item>)
  {
    exists i :: 0 <= i < |backpack| && backpack[i].PotionOfHealing?
  }

  /** Position of the first potion of healing in the backpack, or `|backpack|` when it holds none. */
  function FirstHealingPotion(backpack: seq<Item>): (k: nat)
    ensures k <= |backpack|
    ensures forall j :: 0 <= j < k ==> !backpack[j].PotionOfHealing?
    ensures k < |backpack| ==> backpack[k].PotionOfHealing?
    ensures k < |backpack| <==> ContainsHealingPotion(backpack)
  {
    if backpack == [] then 0
    else if backpack[0].PotionOfHealing? then 0
    else 1 + FirstHealingPotion(backpack[1..])
  }

  /** The `hasHealingPotion` scan: walks the backpack in order and returns true at the first
      potion of healing, false when the walk reaches the end. `inspected` counts the items
      looked at, so the scan stops right after the first potion. */
  method HasHealingPotion(hero: Hero) returns (found: bool, ghost inspected: nat)
    ensures found <==> ContainsHealingPotion(hero.backpack)
    ensures inspected == if found then FirstHealingPotion(hero.backpack) + 1 else |hero.backpack|
  {
    var items := hero.backpack;
    inspected := 0;
    for i := 0 to |items|
      invariant inspected == i
      invariant forall j :: 0 <= j < i ==> !items[j].PotionOfHealing?
    {
      inspected := i + 1;
      if items[i].PotionOfHealing? {
        return true, inspected;
      }
    }
    return false, inspected;
  }
}
