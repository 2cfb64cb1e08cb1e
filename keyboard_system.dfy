/**
 * The keyboard stage (src/systems/tick_systems/keyboard_system.rs).
 *
 * Every key event entity is consumed: a key-down sets that key's flag, a
 * key-up clears it, an all-keys-up clears all four flags. Events are visited
 * in the order the query yields them, so the flags are specified as a fold
 * (`KeysAfter`) over that order.
 */
module KeyboardSystem {
  import opened Resources
  import opened Components
  import opened Ecs
  import opened Collections

  /** The flag of `key` (the read side of `get_flag_mut`). */
  function Flag(keys: KeysPressed, key: UserKey): bool
  {
    match key
    case Up => keys.up
    case Down => keys.down
    case Left => keys.left
    case Right => keys.right
  }

  /** `*get_flag_mut(key, keys) = b`: that flag becomes `b`, the other three stay. */
  function SetFlag(keys: KeysPressed, key: UserKey, b: bool): (r: KeysPressed)
    ensures Flag(r, key) == b
    ensures forall k :: k != key ==> Flag(r, k) == Flag(keys, k)
  {
    match key
    case Up => keys.(up := b)
    case Down => keys.(down := b)
    case Left => keys.(left := b)
    case Right => keys.(right := b)
  }

  /** The effect of one event on the flags. */
  function ApplyKeyEvent(keys: KeysPressed, ev: UserKeyEvent): (r: KeysPressed)
    ensures ev.KeyDown? ==> Flag(r, ev.key) && forall k :: k != ev.key ==> Flag(r, k) == Flag(keys, k)
    ensures ev.KeyUp? ==> !Flag(r, ev.key) && forall k :: k != ev.key ==> Flag(r, k) == Flag(keys, k)
    ensures ev.AllKeysUp? ==> forall k :: !Flag(r, k)
  {
    match ev
    case KeyDown(key) => SetFlag(keys, key, true)
    case KeyUp(key) => SetFlag(keys, key, false)
    case AllKeysUp => KeysPressed(false, false, false, false)
  }

  /** The body of the event loop: one event written into the flags. */
  method HandleKeyEvent(keys: KeysPressed, ev: UserKeyEvent) returns (keys': KeysPressed)
    ensures keys' == ApplyKeyEvent(keys, ev)
  {
    keys' := keys;
    match ev {
      case KeyDown(key) => keys' := SetFlag(keys', key, true);
      case KeyUp(key) => keys' := SetFlag(keys', key, false);
      case AllKeysUp => keys' := keys'.(left := false, right := false, down := false, up := false);
    }
  }

  function KeyEvents(entities: Entities): set<EntityId>
  {
    set id | id in entities && entities[id].userKeyEvent.Some?
  }

  predicate AreEvents(entities: Entities, order: seq<EntityId>)
  {
    forall i :: 0 <= i < |order| ==> order[i] in KeyEvents(entities)
  }

  /** The flags after the events of `order`, applied in that order. */
  function KeysAfter(keys: KeysPressed, entities: Entities, order: seq<EntityId>): KeysPressed
    requires AreEvents(entities, order)
  {
    if order == [] then keys
    else ApplyKeyEvent(KeysAfter(keys, entities, order[..|order| - 1]), entities[order[|order| - 1]].userKeyEvent.value)
  }

  /** `process_key_input`: the flags after every event, each event removed. */
  method ProcessKeyInput(entities: Entities, keys: KeysPressed)
    returns (keys': KeysPressed, cmds: seq<Command>, ghost order: seq<EntityId>)
    ensures Lists(order, KeyEvents(entities)) && AreEvents(entities, order)
    ensures keys' == KeysAfter(keys, entities, order)
    ensures cmds == Removals(order)
  {
    keys' := keys;
    cmds := [];
    order := [];
    var todo := KeyEvents(entities);
    while todo != {}
      invariant todo <= KeyEvents(entities)
      invariant forall i, j :: 0 <= i < j < |order| ==> order[i] != order[j]
      invariant forall id :: id in order <==> id in KeyEvents(entities) && id !in todo
      invariant AreEvents(entities, order)
      invariant keys' == KeysAfter(keys, entities, order)
      invariant cmds == Removals(order)
      decreases todo
    {
      var entity :| entity in todo;
      KeysAfterStep(keys, entities, order, entity);
      RemovalsAppend(order, [entity]);
      keys' := HandleKeyEvent(keys', entities[entity].userKeyEvent.value);
      cmds := cmds + [Remove(entity)];
      order := order + [entity];
      todo := todo - {entity};
    }
  }

  /** One more event folds into the flags by `ApplyKeyEvent`. */
  lemma KeysAfterStep(keys: KeysPressed, entities: Entities, order: seq<EntityId>, entity: EntityId)
    requires AreEvents(entities, order) && entity in KeyEvents(entities)
    ensures AreEvents(entities, order + [entity])
    ensures KeysAfter(keys, entities, order + [entity]) ==
      ApplyKeyEvent(KeysAfter(keys, entities, order), entities[entity].userKeyEvent.value)
  {
    assert (order + [entity])[..|order|] == order;
  }

  /** Whether an event can change the flag of `key`. */
  predicate Touches(ev: UserKeyEvent, key: UserKey)
  {
    ev.AllKeysUp? || ev.key == key
  }

  /** A flag no event touches keeps its value, whatever the order. */
  lemma {:induction false} UntouchedFlagKept(keys: KeysPressed, entities: Entities, order: seq<EntityId>, key: UserKey)
    requires AreEvents(entities, order)
    requires forall i :: 0 <= i < |order| ==> !Touches(entities[order[i]].userKeyEvent.value, key)
    ensures Flag(KeysAfter(keys, entities, order), key) == Flag(keys, key)
  {
    if order != [] {
      UntouchedFlagKept(keys, entities, order[..|order| - 1], key);
    }
  }

  /**
   * The last event touching `key` decides its flag: held after a press,
   * up after a release or an all-keys-up, whatever came before it.
   */
  lemma {:induction false} LastTouchDecides(keys: KeysPressed, entities: Entities, order: seq<EntityId>, key: UserKey, i: nat)
    requires AreEvents(entities, order)
    requires i < |order| && Touches(entities[order[i]].userKeyEvent.value, key)
    requires forall j :: i < j < |order| ==> !Touches(entities[order[j]].userKeyEvent.value, key)
    ensures Flag(KeysAfter(keys, entities, order), key) == entities[order[i]].userKeyEvent.value.KeyDown?
  {
    var front := order[..|order| - 1];
    if i < |order| - 1 {
      assert !Touches(entities[order[|order| - 1]].userKeyEvent.value, key);
      forall j | i < j < |front| ensures !Touches(entities[front[j]].userKeyEvent.value, key) {
        assert front[j] == order[j];
      }
      assert front[i] == order[i];
      LastTouchDecides(keys, entities, front, key, i);
    }
  }

  /** A key whose last touching event is a press is held, whatever came before. */
  lemma {:induction false} PressedIsHeld(keys: KeysPressed, entities: Entities, order: seq<EntityId>, key: UserKey, i: nat)
    requires AreEvents(entities, order)
    requires i < |order| && entities[order[i]].userKeyEvent.value == KeyDown(key)
    requires forall j :: i < j < |order| ==> !Touches(entities[order[j]].userKeyEvent.value, key)
    ensures Flag(KeysAfter(keys, entities, order), key)
  {
    LastTouchDecides(keys, entities, order, key, i);
  }

  /** A key whose last touching event is a release or an all-keys-up is up, whatever came before. */
  lemma {:induction false} ReleasedIsUp(keys: KeysPressed, entities: Entities, order: seq<EntityId>, key: UserKey, i: nat)
    requires AreEvents(entities, order)
    requires i < |order| && Touches(entities[order[i]].userKeyEvent.value, key)
    requires !entities[order[i]].userKeyEvent.value.KeyDown?
    requires forall j :: i < j < |order| ==> !Touches(entities[order[j]].userKeyEvent.value, key)
    ensures !Flag(KeysAfter(keys, entities, order), key)
  {
    LastTouchDecides(keys, entities, order, key, i);
  }
}
