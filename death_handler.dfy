/**
 * The death pay-out stage (src/systems/death_handler.rs).
 *
 * Every entity carrying `Died` that also has `OnDeath` pays out its death
 * events: each `GetResources(kind, amount)` is received into the player's
 * ledger. An entity with `Died` but no `OnDeath` contributes nothing, and
 * no entity is added, removed or changed. The query order is unspecified;
 * each kind's balance grows by the same sum in every order.
 */
module DeathHandler {
  import opened Wrappers
  import opened Resources
  import opened Components
  import opened Ecs
  import opened Collections

  /** The query of the stage: the entities carrying `Died`. */
  function DiedIds(entities: Entities): set<EntityId>
  {
    set id | id in entities && Components.Died in entities[id].tags
  }

  /** The amount of kind `k` that a list of death events grants. */
  function KindTotal(events: seq<DeathEvent>, k: ResourceKind): int
  {
    if events == [] then 0
    else
      var last := events[|events| - 1];
      KindTotal(events[..|events| - 1], k) + (if last.kind == k then last.amount else 0)
  }

  /** What entity `id` grants of kind `k` when it dies: nothing without `OnDeath`. */
  function Grant(entities: Entities, k: ResourceKind, id: EntityId): int
  {
    if id in entities && entities[id].onDeath.Some? then KindTotal(entities[id].onDeath.value, k) else 0
  }

  function GrantOf(entities: Entities, k: ResourceKind): EntityId -> int
  {
    (id: EntityId) => Grant(entities, k, id)
  }

  /** The total of kind `k` that the dead entities grant this tick. */
  ghost function TotalGrant(entities: Entities, k: ResourceKind): int
  {
    SumOver(DiedIds(entities), GrantOf(entities, k))
  }

  /** The inner loop: receive every event of one entity, in order. */
  method PayOut(owned: OwnedResources, events: seq<DeathEvent>)
    modifies owned
    ensures forall k :: Amount(owned.balances, k) == Amount(old(owned.balances), k) + KindTotal(events, k)
  {
    for i := 0 to |events|
      invariant forall k :: Amount(owned.balances, k) == Amount(old(owned.balances), k) + KindTotal(events[..i], k)
    {
      assert events[..i + 1][..i] == events[..i];
      match events[i] {
        case GetResources(kind, amount) =>
          owned.Receive(kind, amount);
      }
    }
    assert events[..|events|] == events;
  }

  /**
   * `death_handler`: every kind's balance grows by what the dead entities
   * grant of it.
   */
  method HandleDeaths(entities: Entities, owned: OwnedResources) returns (ghost order: seq<EntityId>)
    modifies owned
    ensures Lists(order, DiedIds(entities))
    ensures forall k :: Amount(owned.balances, k) == Amount(old(owned.balances), k) + TotalGrant(entities, k)
  {
    order := [];
    var todo := DiedIds(entities);
    forall k ensures SumOver(DiedIds(entities) - todo, GrantOf(entities, k)) == 0 {
      assert DiedIds(entities) - todo == {};
    }
    while todo != {}
      invariant todo <= DiedIds(entities)
      invariant forall i, j :: 0 <= i < j < |order| ==> order[i] != order[j]
      invariant forall id :: id in order <==> id in DiedIds(entities) && id !in todo
      invariant forall k ::
        Amount(owned.balances, k) == Amount(old(owned.balances), k) + SumOver(DiedIds(entities) - todo, GrantOf(entities, k))
      decreases todo
    {
      var entity :| entity in todo;
      ghost var done := DiedIds(entities) - todo;
      forall k ensures SumOver(done + {entity}, GrantOf(entities, k)) == SumOver(done, GrantOf(entities, k)) + Grant(entities, k, entity) {
        SumAdd(done, GrantOf(entities, k), entity);
      }
      var onDeath := entities[entity].onDeath;
      if onDeath.Some? {
        PayOut(owned, onDeath.value);
      }
      assert DiedIds(entities) - (todo - {entity}) == done + {entity};
      order := order + [entity];
      todo := todo - {entity};
    }
    assert DiedIds(entities) - {} == DiedIds(entities);
  }

  /** The events of two lists grant what each grants, added. */
  lemma {:induction false} KindTotalAppend(a: seq<DeathEvent>, b: seq<DeathEvent>, k: ResourceKind)
    ensures KindTotal(a + b, k) == KindTotal(a, k) + KindTotal(b, k)
    decreases |b|
  {
    if b != [] {
      var b' := b[..|b| - 1];
      assert (a + b)[..|a + b| - 1] == a + b';
      KindTotalAppend(a, b', k);
    } else {
      assert a + b == a;
    }
  }

  /** A kind no event names is not granted: its balance is left as it was. */
  lemma {:induction false} UnnamedKindNotGranted(events: seq<DeathEvent>, k: ResourceKind)
    requires forall i :: 0 <= i < |events| ==> events[i].kind != k
    ensures KindTotal(events, k) == 0
    decreases |events|
  {
    if events != [] {
      UnnamedKindNotGranted(events[..|events| - 1], k);
    }
  }

  /**
   * Only dead entities with `OnDeath` grant anything: when none of the dead
   * carries `OnDeath`, every balance is left as it was.
   */
  lemma NoGrantWithoutOnDeath(entities: Entities, k: ResourceKind)
    requires forall id :: id in DiedIds(entities) ==> entities[id].onDeath.None?
    ensures TotalGrant(entities, k) == 0
  {
    SumOfZeros(DiedIds(entities), GrantOf(entities, k));
  }
}
