/**
 * The click stage (src/systems/tick_systems/user_click_system.rs).
 *
 * Click intents select their tile, unselect intents clear the selection,
 * and every such intent is removed. If a tile is selected afterwards, its
 * list of structures is rebuilt from the structures standing on it.
 */
module UserClickSystem {
  import opened Wrappers
  import opened Resources
  import opened Components
  import opened Ecs
  import opened Collections

  function ClickIntents(entities: Entities): set<EntityId>
  {
    set id | id in entities && entities[id].userClickTile.Some?
  }

  function UnselectIntents(entities: Entities): set<EntityId>
  {
    set id | id in entities && UserUnselectTile in entities[id].tags
  }

  /** The structures whose position lies in tile (x, y). */
  function StructuresOn(entities: Entities, x: int, y: int): set<EntityId>
  {
    set id | id in entities && entities[id].structure.Some? && entities[id].position.Some?
             && ToTileCoords(entities[id].position.value) == (x, y)
  }

  predicate AreStructures(entities: Entities, ids: seq<EntityId>)
  {
    forall i :: 0 <= i < |ids| ==> ids[i] in entities && entities[ids[i]].structure.Some?
  }

  /** The side-panel entries for `ids`, in that order: kind and sell value copied. */
  function Listing(entities: Entities, ids: seq<EntityId>): (r: seq<SelectedStructure>)
    requires AreStructures(entities, ids)
    ensures |r| == |ids|
    ensures forall i :: 0 <= i < |ids| ==>
      r[i] == SelectedStructure(ids[i], entities[ids[i]].structure.value, entities[ids[i]].sellValue)
  {
    if ids == [] then []
    else Listing(entities, ids[..|ids| - 1]) + [SelectedStructure(ids[|ids| - 1], entities[ids[|ids| - 1]].structure.value, entities[ids[|ids| - 1]].sellValue)]
  }

  /** The tile a click intent names. */
  function ClickedTile(entities: Entities, id: EntityId): (int, int)
    requires id in ClickIntents(entities)
  {
    var c := entities[id].userClickTile.value;
    (c.tileX, c.tileY)
  }

  /** The click loop: the last click visited selects its tile, with an empty list. */
  method SelectByClicks(entities: Entities, selected: TdTileSelect)
    returns (sel: TdTileSelect, cmds: seq<Command>, ghost clicks: seq<EntityId>)
    ensures Lists(clicks, ClickIntents(entities)) && cmds == Removals(clicks)
    ensures clicks == [] <==> ClickIntents(entities) == {}
    ensures clicks == [] ==> sel == selected
    ensures clicks != [] ==> sel == Selected(ClickedTile(entities, clicks[|clicks| - 1]).0, ClickedTile(entities, clicks[|clicks| - 1]).1, [])
  {
    sel := selected;
    cmds := [];
    clicks := [];
    var todo := ClickIntents(entities);
    while todo != {}
      invariant todo <= ClickIntents(entities)
      invariant forall i, j :: 0 <= i < j < |clicks| ==> clicks[i] != clicks[j]
      invariant forall id :: id in clicks <==> id in ClickIntents(entities) && id !in todo
      invariant cmds == Removals(clicks)
      invariant clicks != [] ==> sel == Selected(ClickedTile(entities, clicks[|clicks| - 1]).0, ClickedTile(entities, clicks[|clicks| - 1]).1, [])
      invariant clicks == [] ==> sel == selected && todo == ClickIntents(entities)
      decreases todo
    {
      var entity :| entity in todo;
      var click := entities[entity].userClickTile.value;
      sel := Selected(click.tileX, click.tileY, []);
      cmds := cmds + [Remove(entity)];
      clicks := clicks + [entity];
      todo := todo - {entity};
    }
    if clicks != [] {
      assert clicks[0] in ClickIntents(entities);
    }
  }

  /** The unselect loop: any unselect intent clears the selection. */
  method ClearByUnselects(entities: Entities, sel: TdTileSelect)
    returns (sel': TdTileSelect, cmds: seq<Command>, ghost unselects: seq<EntityId>)
    ensures Lists(unselects, UnselectIntents(entities)) && cmds == Removals(unselects)
    ensures sel' == if UnselectIntents(entities) == {} then sel else Unselected
  {
    sel' := sel;
    cmds := [];
    unselects := [];
    var todo := UnselectIntents(entities);
    while todo != {}
      invariant todo <= UnselectIntents(entities)
      invariant forall i, j :: 0 <= i < j < |unselects| ==> unselects[i] != unselects[j]
      invariant forall id :: id in unselects <==> id in UnselectIntents(entities) && id !in todo
      invariant cmds == Removals(unselects)
      invariant unselects != [] ==> sel' == Unselected
      invariant unselects == [] ==> sel' == sel && todo == UnselectIntents(entities)
      decreases todo
    {
      var entity :| entity in todo;
      sel' := Unselected;
      cmds := cmds + [Remove(entity)];
      unselects := unselects + [entity];
      todo := todo - {entity};
    }
    if unselects != [] {
      assert unselects[0] in UnselectIntents(entities);
    }
  }

  /** The rebuild loop: every structure standing on tile (x, y), once each. */
  method ListStructures(entities: Entities, x: int, y: int)
    returns (structures: seq<SelectedStructure>, ghost listed: seq<EntityId>)
    ensures Lists(listed, StructuresOn(entities, x, y)) && AreStructures(entities, listed)
    ensures structures == Listing(entities, listed)
  {
    structures := [];
    listed := [];
    var todo := set id | id in entities && entities[id].structure.Some? && entities[id].position.Some?;
    while todo != {}
      invariant forall id :: id in todo ==> id in entities && entities[id].structure.Some? && entities[id].position.Some?
      invariant forall i, j :: 0 <= i < j < |listed| ==> listed[i] != listed[j]
      invariant forall id :: id in listed <==> id in StructuresOn(entities, x, y) && id !in todo
      invariant AreStructures(entities, listed)
      invariant structures == Listing(entities, listed)
      decreases todo
    {
      var entity :| entity in todo;
      var e := entities[entity];
      if ToTileCoords(e.position.value) == (x, y) {
        structures := structures + [SelectedStructure(entity, e.structure.value, e.sellValue)];
        listed := listed + [entity];
      }
      todo := todo - {entity};
    }
  }

  /**
   * `process_tile_clicks`. The clicks are visited in the order `clicks` and
   * the last one visited decides the selected tile; any unselect intent
   * clears the selection afterwards. The structure list of a selected tile is
   * rebuilt even when there was no intent.
   */
  method ProcessTileClicks(entities: Entities, selected: TdTileSelect)
    returns (sel: TdTileSelect, cmds: seq<Command>,
             ghost clicks: seq<EntityId>, ghost unselects: seq<EntityId>, ghost listed: seq<EntityId>)
    ensures Lists(clicks, ClickIntents(entities)) && Lists(unselects, UnselectIntents(entities))
    ensures cmds == Removals(clicks + unselects)
    ensures UnselectIntents(entities) != {} ==> sel == Unselected
    ensures UnselectIntents(entities) == {} && ClickIntents(entities) != {} ==>
      sel.Selected? && (sel.x, sel.y) == ClickedTile(entities, clicks[|clicks| - 1])
    ensures UnselectIntents(entities) == {} && ClickIntents(entities) == {} ==>
      sel.Selected? == selected.Selected? && (sel.Selected? ==> sel.x == selected.x && sel.y == selected.y)
    ensures sel.Selected? ==>
      Lists(listed, StructuresOn(entities, sel.x, sel.y)) && AreStructures(entities, listed) &&
      sel.structures == Listing(entities, listed)
  {
    var clickCmds, unselectCmds;
    sel, clickCmds, clicks := SelectByClicks(entities, selected);
    sel, unselectCmds, unselects := ClearByUnselects(entities, sel);
    cmds := clickCmds + unselectCmds;
    RemovalsAppend(clicks, unselects);
    listed := [];
    if sel.Selected? {
      var structures;
      structures, listed := ListStructures(entities, sel.x, sel.y);
      sel := Selected(sel.x, sel.y, structures);
    }
  }
}
