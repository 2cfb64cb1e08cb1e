/**
 * The singleton resources of the game (src/resources/mod.rs): the resource
 * ledger, the build and transform cost tables, the menu collapse set, the
 * tile selection and the small copyable resources (keys, camera, wave
 * countdown, player health, game state).
 *
 * A ledger (`OwnedResources`, a BTreeMap from resource kind to i64) is used
 * both as a value, for prices and sell values, and as the player's mutable
 * stock. The value is `Ledger`; the stock is the class `OwnedResources`.
 * A kind missing from a ledger reads as 0 (`Amount`).
 */
module Resources {
  import opened Wrappers
  import TileMap

  /** A legion `Entity` handle. */
  type EntityId = nat

  datatype StructureKind = GasTrap

  datatype ResourceKind = Wood | Metal | Money

  /** `ALL_RESOURCES`, in the order the ledger loops visit them. */
  const AllResources: seq<ResourceKind> := [Wood, Metal, Money]

  const AllKinds: set<ResourceKind> := {Wood, Metal, Money}

  type Ledger = map<ResourceKind, int>

  /** The amount of `k` held, a missing entry reading as 0. */
  function Amount(l: Ledger, k: ResourceKind): int
  {
    if k in l then l[k] else 0
  }

  /** `OwnedResources::with`: the ledger with `k` set to `amt`. */
  function With(l: Ledger, k: ResourceKind, amt: int): (r: Ledger)
    ensures Amount(r, k) == amt
    ensures forall j :: j != k ==> Amount(r, j) == Amount(l, j)
    ensures r.Keys == l.Keys + {k}
  {
    l[k := amt]
  }

  /**
   * Whether `held` covers `cost`: every kind is either not demanded (a cost
   * of at most 0) or held in at least the demanded amount.
   */
  predicate Affords(held: Ledger, cost: Ledger)
  {
    forall k :: k in AllKinds ==> Amount(cost, k) <= 0 || Amount(held, k) >= Amount(cost, k)
  }

  /** The ledger after paying `cost`: every kind reduced, with an entry for all three. */
  function Paid(held: Ledger, cost: Ledger): Ledger
  {
    map k | k in AllKinds :: Amount(held, k) - Amount(cost, k)
  }

  /** The ledger after receiving `gift`: every kind increased, keys of both kept. */
  function Received(held: Ledger, gift: Ledger): Ledger
  {
    map k | k in held.Keys + gift.Keys :: Amount(held, k) + Amount(gift, k)
  }

  /** Every kind is listed in `ALL_RESOURCES`. */
  lemma KindIsListed(k: ResourceKind)
    ensures k in AllKinds && k in AllResources
  {
  }

  /** Paying an affordable cost leaves every demanded kind non-negative. */
  lemma PaidAffordableIsNonNegative(held: Ledger, cost: Ledger, k: ResourceKind)
    requires Affords(held, cost)
    requires Amount(cost, k) > 0
    ensures Amount(Paid(held, cost), k) >= 0
  {
    assert k in AllKinds;
  }

  /** Paying a cost and then receiving it back restores every balance. */
  lemma PayThenReceiveAllRestores(held: Ledger, cost: Ledger, k: ResourceKind)
    ensures Amount(Received(Paid(held, cost), cost), k) == Amount(held, k)
  {
    assert k in AllKinds;
  }

  /** Receiving changes each kind by exactly the amount received of it. */
  lemma ReceivedAmounts(held: Ledger, gift: Ledger, k: ResourceKind)
    ensures Amount(Received(held, gift), k) == Amount(held, k) + Amount(gift, k)
  {
  }

  /** The player's stock of resources. */
  class OwnedResources {
    var balances: Ledger

    /** `OwnedResources::new`: an empty ledger. */
    constructor ()
      ensures balances == map[]
    {
      balances := map[];
    }

    /** `can_pay`: does the stock cover `other`? */
    method CanPay(other: Ledger) returns (ok: bool)
      ensures ok <==> Affords(balances, other)
    {
      for i := 0 to |AllResources|
        invariant forall j :: 0 <= j < i ==>
          Amount(other, AllResources[j]) <= 0 || Amount(balances, AllResources[j]) >= Amount(other, AllResources[j])
      {
        var o := AllResources[i];
        var otherAmt := if o in other then other[o] else 0;
        if otherAmt <= 0 {
          continue;
        }
        var myAmt := if o in balances then balances[o] else 0;
        if myAmt < otherAmt {
          return false;
        }
      }
      forall k | k in AllKinds
        ensures Amount(other, k) <= 0 || Amount(balances, k) >= Amount(other, k)
      {
        assert k == AllResources[0] || k == AllResources[1] || k == AllResources[2];
      }
      return true;
    }

    /** `pay`: subtract every kind of `other`, whether or not the stock covers it. */
    method Pay(other: Ledger)
      modifies this
      ensures balances == Paid(old(balances), other)
    {
      ghost var start := balances;
      for i := 0 to |AllResources|
        invariant forall k :: k in balances <==> k in start || k in AllResources[..i]
        invariant forall k :: k in balances ==>
          balances[k] == if k in AllResources[..i] then Amount(start, k) - Amount(other, k) else start[k]
      {
        var o := AllResources[i];
        assert AllResources[..i + 1] == AllResources[..i] + [o];
        var otherAmt := if o in other then other[o] else 0;
        var entry := if o in balances then balances[o] else 0;
        balances := balances[o := entry - otherAmt];
      }
      forall k: ResourceKind
        ensures k in AllKinds && k in AllResources[..3]
      {
        KindIsListed(k);
        assert AllResources[..3] == AllResources;
      }
    }

    /** `receive`: add `amount` to kind `kind`. */
    method Receive(kind: ResourceKind, amount: int)
      modifies this
      ensures balances == Received(old(balances), map[kind := amount])
    {
      var entry := if kind in balances then balances[kind] else 0;
      balances := balances[kind := entry + amount];
    }

    /** `receive_all`: add every entry of `all`, in key order. */
    method ReceiveAll(all: Ledger)
      modifies this
      ensures balances == Received(old(balances), all)
    {
      ghost var start := balances;
      for i := 0 to |AllResources|
        invariant forall k :: k in balances <==> k in start || (k in all && k in AllResources[..i])
        invariant forall k :: k in balances ==>
          balances[k] == Amount(start, k) + if k in AllResources[..i] then Amount(all, k) else 0
      {
        var kind := AllResources[i];
        assert AllResources[..i + 1] == AllResources[..i] + [kind];
        if kind in all {
          var entry := if kind in balances then balances[kind] else 0;
          balances := balances[kind := entry + all[kind]];
        }
      }
      forall k: ResourceKind
        ensures k in AllResources[..3]
      {
        KindIsListed(k);
        assert AllResources[..3] == AllResources;
      }
    }
  }

  /** Which collapsible menus are collapsed. */
  class MenuCollapseStates {
    var collapsed: set<string>

    constructor ()
      ensures collapsed == {}
    {
      collapsed := {};
    }

    function IsCollapsed(key: string): (b: bool)
      reads this
      ensures b <==> key in collapsed
    {
      key in collapsed
    }

    /** Collapse or expand `key`; every other key keeps its state. */
    method SetCollapsed(key: string, newState: bool)
      modifies this
      ensures IsCollapsed(key) == newState
      ensures forall other :: other != key ==> IsCollapsed(other) == old(IsCollapsed(other))
    {
      if newState {
        collapsed := collapsed + {key};
      } else {
        collapsed := collapsed - {key};
      }
    }
  }

  /** A structure standing on the selected tile, as listed in the side panel. */
  datatype SelectedStructure = SelectedStructure(entity: EntityId, kind: StructureKind, sellValue: Option<Ledger>)

  /** `TdTileSelect`; the source's `None` variant is called `Unselected` here. */
  datatype TdTileSelect =
    | Unselected
    | Selected(x: int, y: int, structures: seq<SelectedStructure>)

  function IsSelected(sel: TdTileSelect): (b: bool)
    ensures b <==> sel.Selected?
    ensures !b ==> sel == Unselected
  {
    match sel
    case Unselected => false
    case Selected(_, _, _) => true
  }

  datatype KeysPressed = KeysPressed(down: bool, up: bool, left: bool, right: bool)

  /** The camera's top-left pixel. */
  datatype TdCamera = TdCamera(top: int, left: int)

  /** The wave launcher: auto-launch flag, next wave number and remaining delay (usizes). */
  datatype NextWaveState = NextWaveState(autoLaunch: bool, nextWave: nat, delayTicks: nat)

  function DefaultNextWaveState(): (s: NextWaveState)
    ensures !s.autoLaunch && s.nextWave == 1 && s.delayTicks == 0
  {
    NextWaveState(false, 1, 0)
  }

  datatype PlayerHealth = PlayerHealth(health: int, max: int)

  function DefaultPlayerHealth(): (h: PlayerHealth)
    ensures h.health == 20 && h.max == 20
  {
    PlayerHealth(20, 20)
  }

  datatype GameState = Opening | MainGame | Died

  // ---------------------------------------------------------------------------
  // Cost tables
  // ---------------------------------------------------------------------------

  /** `StructureBuildDesc`: building `kind` on a `tile` costs `cost`. */
  datatype StructureBuildDesc = StructureBuildDesc(tile: TileMap.Tile, kind: StructureKind, cost: Ledger)

  /** `TileTransformDesc`: turning `source` into `target` costs `cost`. */
  datatype TileTransformDesc = TileTransformDesc(source: TileMap.Tile, target: TileMap.Tile, cost: Ledger)

  class StructureBuilds {
    var table: map<TileMap.Tile, map<StructureKind, Ledger>>

    constructor ()
      ensures forall t :: ListAllFor(t) == map[]
    {
      table := map[];
    }

    /** The builds offered on `source`; none for a tile never added. */
    function ListAllFor(source: TileMap.Tile): (r: map<StructureKind, Ledger>)
      reads this
      ensures source !in table ==> r == map[]
    {
      if source in table then table[source] else map[]
    }

    /** Record a build; a later build of the same kind on the same tile overwrites the cost. */
    method Add(desc: StructureBuildDesc)
      modifies this
      ensures table == WithBuild(old(table), desc)
      ensures ListAllFor(desc.tile) == old(ListAllFor(desc.tile))[desc.kind := desc.cost]
      ensures forall t :: t != desc.tile ==> ListAllFor(t) == old(ListAllFor(t))
    {
      var inner := if desc.tile in table then table[desc.tile] else map[];
      table := table[desc.tile := inner[desc.kind := desc.cost]];
    }
  }

  class TileTransforms {
    var table: map<TileMap.Tile, map<TileMap.Tile, Ledger>>

    constructor ()
      ensures forall t :: ListAllFor(t) == map[]
    {
      table := map[];
    }

    /** The transforms out of `source`; none for a tile never added. */
    function ListAllFor(source: TileMap.Tile): (r: map<TileMap.Tile, Ledger>)
      reads this
      ensures source !in table ==> r == map[]
    {
      if source in table then table[source] else map[]
    }

    /** Record a transform; a later one with the same source and target overwrites the cost. */
    method Add(desc: TileTransformDesc)
      modifies this
      ensures table == WithTransform(old(table), desc)
      ensures ListAllFor(desc.source) == old(ListAllFor(desc.source))[desc.target := desc.cost]
      ensures forall t :: t != desc.source ==> ListAllFor(t) == old(ListAllFor(t))
    {
      var inner := if desc.source in table then table[desc.source] else map[];
      table := table[desc.source := inner[desc.target := desc.cost]];
    }
  }

  /** The build table with `desc` recorded. */
  function WithBuild(table: map<TileMap.Tile, map<StructureKind, Ledger>>, desc: StructureBuildDesc)
    : map<TileMap.Tile, map<StructureKind, Ledger>>
  {
    var inner := if desc.tile in table then table[desc.tile] else map[];
    table[desc.tile := inner[desc.kind := desc.cost]]
  }

  /** The transform table with `desc` recorded. */
  function WithTransform(table: map<TileMap.Tile, map<TileMap.Tile, Ledger>>, desc: TileTransformDesc)
    : map<TileMap.Tile, map<TileMap.Tile, Ledger>>
  {
    var inner := if desc.source in table then table[desc.source] else map[];
    table[desc.source := inner[desc.target := desc.cost]]
  }

  /**
   * Recording a transform lists its cost under its source and target, keeps
   * the source's other targets, and leaves every other source as it was.
   */
  lemma TransformListed(table: map<TileMap.Tile, map<TileMap.Tile, Ledger>>, desc: TileTransformDesc)
    ensures desc.source in WithTransform(table, desc)
    ensures WithTransform(table, desc)[desc.source][desc.target] == desc.cost
    ensures forall t :: t != desc.target && desc.source in table && t in table[desc.source] ==>
      t in WithTransform(table, desc)[desc.source] && WithTransform(table, desc)[desc.source][t] == table[desc.source][t]
    ensures forall s :: s != desc.source ==>
      (s in WithTransform(table, desc) <==> s in table) &&
      (s in table ==> WithTransform(table, desc)[s] == table[s])
  {
  }

  /**
   * Two transforms with the same source and target: the table is as if only
   * the later had been recorded.
   */
  lemma TransformAddOverwrites(table: map<TileMap.Tile, map<TileMap.Tile, Ledger>>, first: TileTransformDesc, second: TileTransformDesc)
    requires first.source == second.source && first.target == second.target
    ensures WithTransform(WithTransform(table, first), second) == WithTransform(table, second)
  {
    var src := first.source;
    var before := if src in table then table[src] else map[];
    assert WithTransform(WithTransform(table, first), second)[src] == before[first.target := first.cost][second.target := second.cost];
    assert before[first.target := first.cost][second.target := second.cost] == before[second.target := second.cost];
  }

  /** Recording a build lists its cost under its tile and kind and leaves every other tile as it was. */
  lemma BuildListed(table: map<TileMap.Tile, map<StructureKind, Ledger>>, desc: StructureBuildDesc)
    ensures desc.tile in WithBuild(table, desc)
    ensures WithBuild(table, desc)[desc.tile][desc.kind] == desc.cost
    ensures forall s :: s != desc.tile ==>
      (s in WithBuild(table, desc) <==> s in table) &&
      (s in table ==> WithBuild(table, desc)[s] == table[s])
  {
  }

  /** Two builds with the same tile and kind: the table is as if only the later had been recorded. */
  lemma BuildAddOverwrites(table: map<TileMap.Tile, map<StructureKind, Ledger>>, first: StructureBuildDesc, second: StructureBuildDesc)
    requires first.tile == second.tile && first.kind == second.kind
    ensures WithBuild(WithBuild(table, first), second) == WithBuild(table, second)
  {
    var t := first.tile;
    var before := if t in table then table[t] else map[];
    assert WithBuild(WithBuild(table, first), second)[t] == before[first.kind := first.cost][second.kind := second.cost];
    assert before[first.kind := first.cost][second.kind := second.cost] == before[second.kind := second.cost];
  }
}
