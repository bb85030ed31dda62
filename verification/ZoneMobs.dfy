/**
  The cross-indexed arrays of a zone (`zone.c`): every mob knows its entity id and its place in the position
  array, and every client also its place in the client list.
 */
module ZoneMobs {
  import opened Arrays

  class Mob {
    var entityId: nat
    var zoneIndex: int
    var clientIndex: int

    constructor ()
      ensures entityId == 0 && zoneIndex == 0 && clientIndex == 0
    {
      entityId, zoneIndex, clientIndex := 0, 0, 0;
    }
  }

  /** The mob stands in the table under its own id. */
  ghost predicate HasEntity(m: Mob, table: seq<Mob?>)
    reads m
  {
    0 < m.entityId <= |table| && table[m.entityId - 1] == m
  }

  /** Entry e of the table is free or holds a mob of the zone that knows its id. */
  ghost predicate EntityOk(entry: Mob?, e: nat, mobs: seq<Mob>)
    reads mobs
  {
    entry != null ==> entry in mobs && entry.entityId == e + 1
  }

  class Zone {
    var byEntityId: seq<Mob?>
    var byPosition: seq<Mob>
    var clients: seq<Mob>

    /** The mobs in the zone. */
    ghost function Mobs(): set<Mob>
      reads this
    {
      set m | m in byPosition
    }

    /** Every back-pointer names its own entry, so no mob is entered twice. */
    ghost predicate Valid()
      reads this, Mobs()
    {
      PositionsOk() && EntitiesOk() && ClientsOk()
    }

    ghost predicate PositionsOk()
      reads this, Mobs()
    {
      forall i :: 0 <= i < |byPosition| ==> byPosition[i].zoneIndex == i
    }

    ghost predicate EntitiesOk()
      reads this, Mobs()
    {
      && (forall i :: 0 <= i < |byPosition| ==> HasEntity(byPosition[i], byEntityId))
      && (forall e :: 0 <= e < |byEntityId| ==> EntityOk(byEntityId[e], e, byPosition))
    }

    ghost predicate ClientsOk()
      reads this, Mobs()
    {
      forall i :: 0 <= i < |clients| ==> clients[i] in byPosition && clients[i].clientIndex == i
    }

    constructor ()
      ensures Valid() && byPosition == [] && clients == [] && byEntityId == []
    {
      byEntityId, byPosition, clients := [], [], [];
    }

    /** The ids of two mobs differ. */
    lemma EntityIdsUnique(a: Mob, b: Mob)
      requires Valid() && a in byPosition && b in byPosition && a.entityId == b.entityId
      ensures a == b
    {
      var i :| 0 <= i < |byPosition| && byPosition[i] == a;
      var j :| 0 <= j < |byPosition| && byPosition[j] == b;
      assert HasEntity(byPosition[i], byEntityId) && HasEntity(byPosition[j], byEntityId);
    }

    /** zone_spawn_mob: the mob takes the first free entity id. */
    method SpawnMob(mob: Mob)
      requires Valid() && mob !in byPosition
      modifies this`byEntityId, this`byPosition, mob`entityId, mob`zoneIndex
      ensures Valid() && byPosition == old(byPosition) + [mob]
      ensures 0 < mob.entityId <= |byEntityId| && forall e :: 0 <= e < mob.entityId - 1 ==> byEntityId[e] != null
      ensures mob.entityId <= |old(byEntityId)| ==> old(byEntityId)[mob.entityId - 1] == null && byEntityId == old(byEntityId)[mob.entityId - 1 := mob]
      ensures mob.entityId > |old(byEntityId)| ==> byEntityId == old(byEntityId) + [mob]
    {
      var e := FirstFree();
      ghost var mobs, table := byPosition, byEntityId;
      byEntityId := if e < |byEntityId| then byEntityId[e := mob] else byEntityId + [mob];
      mob.entityId := e + 1;
      mob.zoneIndex := |byPosition|;
      byPosition := byPosition + [mob];
      forall i | 0 <= i < |byPosition| ensures HasEntity(byPosition[i], byEntityId) {
        assert i < |mobs| ==> HasEntity(mobs[i], table);
      }
      forall k | 0 <= k < |byEntityId| ensures EntityOk(byEntityId[k], k, byPosition) {
        assert k < |table| ==> old(EntityOk(table[k], k, mobs));
      }
    }

    /** The loop of zone_spawn_mob: the first gap among the entity ids, or the place behind them. */
    method FirstFree() returns (e: nat)
      ensures e <= |byEntityId| && (e < |byEntityId| ==> byEntityId[e] == null) && forall k :: 0 <= k < e ==> byEntityId[k] != null
    {
      for i := 0 to |byEntityId|
        invariant forall k :: 0 <= k < i ==> byEntityId[k] != null
      {
        if byEntityId[i] == null { return i; }
      }
      return |byEntityId|;
    }

    /** zone_spawn_client */
    method SpawnClient(mob: Mob)
      requires Valid() && mob !in byPosition
      modifies this, mob
      ensures Valid() && byPosition == old(byPosition) + [mob] && clients == old(clients) + [mob]
      ensures forall m :: m in old(byPosition) ==> m.entityId == old(m.entityId)
    {
      SpawnMob(mob);
      mob.clientIndex := |clients|;
      clients := clients + [mob];
    }

    /** The first step of zone_remove_client: out of the client list. */
    method Unlist(client: Mob)
      requires Valid() && client in clients
      modifies this`clients, Mobs()`clientIndex
      ensures Valid() && |clients| == |old(clients)| - 1
      ensures forall m :: m in clients <==> m in old(clients) && m != client
    {
      var cIndex := client.clientIndex;
      SwapAndPopMembers(clients, cIndex);
      clients := SwapAndPop(clients, cIndex);
      if cIndex < |clients| {
        clients[cIndex].clientIndex := cIndex;
      }
    }

    /** The second step: out of the position array and the table of entity ids. */
    method Displace(mob: Mob)
      requires Valid() && mob in byPosition && mob !in clients
      modifies this`byPosition, this`byEntityId, Mobs()`zoneIndex
      ensures Valid() && |byPosition| == |old(byPosition)| - 1
      ensures forall m :: m in byPosition <==> m in old(byPosition) && m != mob
      ensures byEntityId == old(byEntityId)[mob.entityId - 1 := null]
    {
      ghost var mobs, table := byPosition, byEntityId;
      LeavePosition(mob);
      byEntityId := byEntityId[mob.entityId - 1 := null];
      ghost var was :| 0 <= was < |mobs| && mobs[was] == mob;
      forall i | 0 <= i < |byPosition| ensures HasEntity(byPosition[i], byEntityId) {
        assert byPosition[i] in byPosition;
        var j :| 0 <= j < |mobs| && mobs[j] == byPosition[i];
        assert HasEntity(mobs[j], table) && HasEntity(mobs[was], table);
      }
      forall k | 0 <= k < |byEntityId| ensures EntityOk(byEntityId[k], k, byPosition) {
        assert EntityOk(table[k], k, mobs);
      }
    }

    /** Out of the position array alone. */
    method LeavePosition(mob: Mob)
      requires Valid() && mob in byPosition && mob !in clients
      modifies this`byPosition, Mobs()`zoneIndex
      ensures PositionsOk() && ClientsOk() && |byPosition| == |old(byPosition)| - 1
      ensures forall m :: m in byPosition <==> m in old(byPosition) && m != mob
    {
      hide EntitiesOk;
      var mIndex := mob.zoneIndex;
      SwapAndPopMembers(byPosition, mIndex);
      byPosition := SwapAndPop(byPosition, mIndex);
      if mIndex < |byPosition| {
        byPosition[mIndex].zoneIndex := mIndex;
      }
    }

    /** zone_remove_client: the client leaves all three arrays, and every other mob keeps its entity id. */
    method RemoveClient(client: Mob)
      requires Valid() && client in clients
      modifies this, Mobs()`clientIndex, Mobs()`zoneIndex
      ensures Valid()
      ensures forall m :: m in byPosition <==> m in old(byPosition) && m != client
      ensures forall m :: m in clients <==> m in old(clients) && m != client
      ensures |byPosition| == |old(byPosition)| - 1 && |clients| == |old(clients)| - 1
      ensures byEntityId == old(byEntityId)[old(client.entityId) - 1 := null]
    {
      assert client in byPosition;
      Unlist(client);
      Displace(client);
    }
  }
}
