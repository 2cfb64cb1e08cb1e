/**
 * The sell stage (src/systems/tick_systems/sell_structure_system.rs).
 *
 * Every sell intent is removed. If its target still exists, the target's
 * sell value (if it has one) is credited to the ledger and the target is
 * removed too. Crediting is additive, so the ledger is specified by a sum
 * over the intents, whatever order they are visited in.
 */
module SellStructureSystem {
  import opened Wrappers
  import opened Resources
  import opened Components
  import opened Ecs
  import opened Collections

  function SellIntents(entities: Entities): set<EntityId>
  {
    set id | id in entities && entities[id].trySellStructure.Some?
  }

  /** The existing structures some intent asks to sell. */
  function SoldTargets(entities: Entities): set<EntityId>
  {
    set id | id in SellIntents(entities) && entities[id].trySellStructure.value.toSell in entities
           :: entities[id].trySellStructure.value.toSell
  }

  /** The sell value of kind `k` an entity would be credited with, or 0 if it has none. */
  function ValueOf(entities: Entities, k: ResourceKind, t: EntityId): int
  {
    if t in entities && entities[t].sellValue.Some? then Amount(entities[t].sellValue.value, k) else 0
  }

  /** What one sell intent credits of kind `k`: its existing target's sell value, or 0. */
  function CreditOf(entities: Entities, k: ResourceKind, id: EntityId): int
  {
    if id in entities && entities[id].trySellStructure.Some?
    then ValueOf(entities, k, entities[id].trySellStructure.value.toSell)
    else 0
  }

  function Credit(entities: Entities, k: ResourceKind): EntityId -> int
  {
    (id: EntityId) => CreditOf(entities, k, id)
  }

  function Value(entities: Entities, k: ResourceKind): EntityId -> int
  {
    (t: EntityId) => ValueOf(entities, k, t)
  }

  /** The intent `id` and its target, if the target exists, are among the removals. */
  predicate Handled(entities: Entities, cmds: seq<Command>, id: EntityId)
    requires id in SellIntents(entities)
  {
    Remove(id) in cmds &&
    (entities[id].trySellStructure.value.toSell in entities ==> Remove(entities[id].trySellStructure.value.toSell) in cmds)
  }

  /** Only intents and existing targets are removed. */
  predicate OnlySells(entities: Entities, cmds: seq<Command>)
  {
    forall c :: c in cmds ==> c.Remove? && (c.id in SellIntents(entities) || c.id in SoldTargets(entities))
  }

  /** One turn of the loop: remove the intent; credit and remove an existing target. */
  method SellOne(entities: Entities, owned: OwnedResources, entity: EntityId) returns (cmds: seq<Command>)
    requires entity in SellIntents(entities)
    modifies owned
    ensures Handled(entities, cmds, entity) && OnlySells(entities, cmds)
    ensures forall k :: Amount(owned.balances, k) == Amount(old(owned.balances), k) + CreditOf(entities, k, entity)
  {
    cmds := [Remove(entity)];
    var toSell := entities[entity].trySellStructure.value.toSell;
    if toSell in entities {
      var existing := entities[toSell];
      if existing.sellValue.Some? {
        owned.ReceiveAll(existing.sellValue.value);
        forall k ensures Amount(owned.balances, k) == Amount(old(owned.balances), k) + CreditOf(entities, k, entity) {
          ReceivedAmounts(old(owned.balances), existing.sellValue.value, k);
        }
      }
      cmds := cmds + [Remove(toSell)];
    }
  }

  /**
   * `sell_structures`: every intent and every existing target is removed and
   * nothing else; each intent credits its target's sell value.
   */
  method SellStructures(entities: Entities, owned: OwnedResources) returns (cmds: seq<Command>)
    modifies owned
    ensures forall id :: id in SellIntents(entities) ==> Remove(id) in cmds
    ensures forall id :: id in SoldTargets(entities) ==> Remove(id) in cmds
    ensures OnlySells(entities, cmds)
    ensures forall k :: Amount(owned.balances, k) == Amount(old(owned.balances), k) + SumOver(SellIntents(entities), Credit(entities, k))
  {
    ghost var start := owned.balances;
    cmds := [];
    var todo := SellIntents(entities);
    while todo != {}
      invariant todo <= SellIntents(entities)
      invariant forall id :: id in SellIntents(entities) && id !in todo ==> Handled(entities, cmds, id)
      invariant OnlySells(entities, cmds)
      invariant forall k :: Amount(owned.balances, k) == Amount(start, k) + SumOver(SellIntents(entities) - todo, Credit(entities, k))
      decreases todo
    {
      var entity :| entity in todo;
      ghost var done := SellIntents(entities) - todo;
      ghost var before := owned.balances;
      var more := SellOne(entities, owned, entity);
      forall k
        ensures Amount(owned.balances, k) == Amount(start, k) + SumOver(done + {entity}, Credit(entities, k))
      {
        SumAdd(done, Credit(entities, k), entity);
      }
      cmds := cmds + more;
      assert SellIntents(entities) - (todo - {entity}) == done + {entity};
      todo := todo - {entity};
    }
    assert SellIntents(entities) - {} == SellIntents(entities);
    forall id | id in SoldTargets(entities)
      ensures Remove(id) in cmds
    {
      var intent :| intent in SellIntents(entities) && entities[intent].trySellStructure.value.toSell == id;
      assert Handled(entities, cmds, intent);
    }
  }

  /**
   * Two intents naming the same structure are both credited: a structure
   * worth 10 Money sold twice in one tick yields 20 Money, though only one
   * structure is removed.
   */
  lemma DuplicateSellCreditsTwice()
    ensures var trap := Blank.(structure := Some(GasTrap), sellValue := Some(map[Money := 10]));
            var entities := map[0 := trap, 1 := Blank.(trySellStructure := Some(TrySellStructure(0))),
                                2 := Blank.(trySellStructure := Some(TrySellStructure(0)))];
            SoldTargets(entities) == {0} && SellIntents(entities) == {1, 2} &&
            SumOver(SellIntents(entities), Credit(entities, Money)) == 20 &&
            SumOver(SoldTargets(entities), Value(entities, Money)) == 10
  {
    var trap := Blank.(structure := Some(GasTrap), sellValue := Some(map[Money := 10]));
    var entities := map[0 := trap, 1 := Blank.(trySellStructure := Some(TrySellStructure(0))),
                        2 := Blank.(trySellStructure := Some(TrySellStructure(0)))];
    assert SellIntents(entities) == {1, 2};
    assert SoldTargets(entities) == {0};
    SumAdd<EntityId>({}, Credit(entities, Money), 1);
    SumAdd<EntityId>({1}, Credit(entities, Money), 2);
    assert {1} + {2} == {1, 2};
    SumAdd<EntityId>({}, Value(entities, Money), 0);
  }

  /**
   * The stage as evidently intended: each existing target is credited once,
   * however many intents name it. Removals are as in `SellStructures`.
   */
  method SellStructuresOnce(entities: Entities, owned: OwnedResources) returns (cmds: seq<Command>)
    modifies owned
    ensures forall id :: id in SellIntents(entities) ==> Remove(id) in cmds
    ensures forall id :: id in SoldTargets(entities) ==> Remove(id) in cmds
    ensures OnlySells(entities, cmds)
    ensures forall k :: Amount(owned.balances, k) == Amount(old(owned.balances), k) + SumOver(SoldTargets(entities), Value(entities, k))
  {
    ghost var start := owned.balances;
    cmds := [];
    var sold: set<EntityId> := {};
    var todo := SellIntents(entities);
    while todo != {}
      invariant todo <= SellIntents(entities)
      invariant forall id :: id in SellIntents(entities) && id !in todo ==> Handled(entities, cmds, id)
      invariant OnlySells(entities, cmds)
      invariant sold == set id | id in SellIntents(entities) && id !in todo && entities[id].trySellStructure.value.toSell in entities
                              :: entities[id].trySellStructure.value.toSell
      invariant forall k :: Amount(owned.balances, k) == Amount(start, k) + SumOver(sold, Value(entities, k))
      decreases todo
    {
      var entity :| entity in todo;
      cmds := cmds + [Remove(entity)];
      var toSell := entities[entity].trySellStructure.value.toSell;
      if toSell in entities {
        if toSell !in sold {
          ghost var before := owned.balances;
          var existing := entities[toSell];
          if existing.sellValue.Some? {
            owned.ReceiveAll(existing.sellValue.value);
          }
          forall k
            ensures Amount(owned.balances, k) == Amount(start, k) + SumOver(sold + {toSell}, Value(entities, k))
          {
            SumAdd(sold, Value(entities, k), toSell);
            if existing.sellValue.Some? {
              ReceivedAmounts(before, existing.sellValue.value, k);
            }
          }
          sold := sold + {toSell};
        }
        cmds := cmds + [Remove(toSell)];
      }
      todo := todo - {entity};
    }
    assert sold == SoldTargets(entities);
    forall id | id in SoldTargets(entities)
      ensures Remove(id) in cmds
    {
      var intent :| intent in SellIntents(entities) && entities[intent].trySellStructure.value.toSell == id;
      assert Handled(entities, cmds, intent);
    }
  }
}
