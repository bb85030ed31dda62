/** Placement of zones on zone-cluster processes (`zone_cluster_manager.c`, `zone_cluster.c`). */
module ZoneClusters {
  import opened Wrappers

  const CLUSTER_OFFSET: int := 1000000
  const ZONE_MAX: int := 999
  const INSTANCE_MAX: int := 999
  const INSTANCE_OFFSET: int := 1000

  datatype Cluster = Cluster(maxZones: nat, reserved: nat, count: nat)

  /** Who answers for a source id; clusters are named by position. */
  datatype Placement = Placement(sourceId: int, cluster: nat)

  datatype Reservation = Reservation(sourceId: int, alwaysUp: bool, cluster: nat)

  predicate IsZone(sourceId: int) { sourceId < CLUSTER_OFFSET }

  function Larger(a: nat, b: nat): nat { if a > b then a else b }

  /** zone_cluster_has_free_space, on signed numbers */
  predicate HasFreeSpace(c: Cluster) { c.count < c.maxZones - c.reserved }

  // ----- Counting

  /** The zones placed on a cluster. */
  ghost function ZonesOn(placed: seq<Placement>, c: nat): nat {
    if placed == [] then 0
    else
      var last := placed[|placed| - 1];
      ZonesOn(placed[..|placed| - 1], c) + (if IsZone(last.sourceId) && last.cluster == c then 1 else 0)
  }

  ghost predicate Running(placed: seq<Placement>, id: int) { exists i :: 0 <= i < |placed| && placed[i].sourceId == id }

  ghost predicate IsReserved(reservations: seq<Reservation>, id: int) { exists i :: 0 <= i < |reservations| && reservations[i].sourceId == id }

  ghost function ReservedOn(reservations: seq<Reservation>, c: nat): nat {
    if reservations == [] then 0
    else ReservedOn(reservations[..|reservations| - 1], c) + (if reservations[|reservations| - 1].cluster == c then 1 else 0)
  }

  /** The reservations of a cluster whose zone runs. */
  ghost function UsedOn(reservations: seq<Reservation>, placed: seq<Placement>, c: nat): nat {
    if reservations == [] then 0
    else
      var last := reservations[|reservations| - 1];
      UsedOn(reservations[..|reservations| - 1], placed, c) + (if last.cluster == c && Running(placed, last.sourceId) then 1 else 0)
  }

  lemma {:induction false} UsedAtMostReserved(reservations: seq<Reservation>, placed: seq<Placement>, c: nat)
    ensures UsedOn(reservations, placed, c) <= ReservedOn(reservations, c)
  {
    if reservations != [] { UsedAtMostReserved(reservations[..|reservations| - 1], placed, c); }
  }

  ghost predicate Distinct(reservations: seq<Reservation>) {
    forall i, j :: 0 <= i < j < |reservations| ==> reservations[i].sourceId != reservations[j].sourceId
  }

  lemma RunningNext(placed: seq<Placement>, a: Placement, id: int)
    ensures Running(placed + [a], id) <==> Running(placed, id) || id == a.sourceId
  {
    var all := placed + [a];
    if id == a.sourceId { assert all[|placed|].sourceId == id; }
    if Running(placed, id) {
      var i :| 0 <= i < |placed| && placed[i].sourceId == id;
      assert all[i].sourceId == id;
    }
  }

  /** Starting a zone uses up its own reservation, if it has one, and no other. */
  lemma {:induction false} UsedNext(reservations: seq<Reservation>, placed: seq<Placement>, a: Placement, c: nat)
    requires Distinct(reservations) && !Running(placed, a.sourceId)
    ensures IsReservedOn(reservations, a.sourceId, c) ==> UsedOn(reservations, placed + [a], c) == UsedOn(reservations, placed, c) + 1
    ensures !IsReservedOn(reservations, a.sourceId, c) ==> UsedOn(reservations, placed + [a], c) == UsedOn(reservations, placed, c)
  {
    if reservations != [] {
      var (front, last) := (reservations[..|reservations| - 1], reservations[|reservations| - 1]);
      UsedNext(front, placed, a, c);
      RunningNext(placed, a, last.sourceId);
      assert IsReservedOn(front, a.sourceId, c) ==> IsReservedOn(reservations, a.sourceId, c) by {
        if IsReservedOn(front, a.sourceId, c) {
          var i :| 0 <= i < |front| && front[i].sourceId == a.sourceId && front[i].cluster == c;
          assert reservations[i] == front[i];
        }
      }
      assert IsReservedOn(reservations, a.sourceId, c) && last.sourceId != a.sourceId ==> IsReservedOn(front, a.sourceId, c) by {
        if IsReservedOn(reservations, a.sourceId, c) && last.sourceId != a.sourceId {
          var i :| 0 <= i < |reservations| && reservations[i].sourceId == a.sourceId && reservations[i].cluster == c;
          assert front[i] == reservations[i];
        }
      }
      if last.sourceId == a.sourceId {
        assert !IsReservedOn(front, a.sourceId, c);
        assert last.cluster == c ==> IsReservedOn(reservations, a.sourceId, c);
        assert IsReservedOn(reservations, a.sourceId, c) ==> last.cluster == c;
      }
    }
  }

  ghost predicate IsReservedOn(reservations: seq<Reservation>, id: int, c: nat) {
    exists i :: 0 <= i < |reservations| && reservations[i].sourceId == id && reservations[i].cluster == c
  }

  // ----- The manager

  /** What holds of one cluster: its counters count, and the zones beyond its reservations fit beside them. */
  ghost predicate ClusterOk(cluster: Cluster, c: nat, placed: seq<Placement>, reservations: seq<Reservation>, free: nat) {
    && cluster.count == ZonesOn(placed, c)
    && cluster.reserved == ReservedOn(reservations, c)
    && cluster.count == UsedOn(reservations, placed, c) + free
    && (free > 0 ==> free <= cluster.maxZones - cluster.reserved)
  }

  /** The bound that the manager is for. */
  lemma WithinBounds(cluster: Cluster, c: nat, placed: seq<Placement>, reservations: seq<Reservation>, free: nat)
    requires ClusterOk(cluster, c, placed, reservations, free)
    ensures cluster.count <= Larger(cluster.maxZones, cluster.reserved)
  {
    UsedAtMostReserved(reservations, placed, c);
  }

  ghost predicate PlacedOk(placed: seq<Placement>, n: nat) {
    && (forall i :: 0 <= i < |placed| ==> placed[i].cluster < n)
    && (forall i :: 0 <= i < |placed| && !IsZone(placed[i].sourceId) ==> placed[i].sourceId == CLUSTER_OFFSET + placed[i].cluster)
    && (forall i, j :: 0 <= i < j < |placed| ==> placed[i].sourceId != placed[j].sourceId)
  }

  ghost predicate ReservationsOk(reservations: seq<Reservation>, n: nat) {
    && Distinct(reservations)
    && forall i :: 0 <= i < |reservations| ==> reservations[i].cluster < n && 0 < reservations[i].sourceId < CLUSTER_OFFSET
  }

  ghost predicate ManagerOk(clusters: seq<Cluster>, placed: seq<Placement>, reservations: seq<Reservation>, free: seq<nat>) {
    && |free| == |clusters|
    && PlacedOk(placed, |clusters|) && ReservationsOk(reservations, |clusters|)
    && forall c :: 0 <= c < |clusters| ==> ClusterOk(clusters[c], c, placed, reservations, free[c])
  }

  /** The cluster that the list gives for a source id. */
  ghost predicate OnCluster(placed: seq<Placement>, id: int, c: nat) { Placement(id, c) in placed }

  lemma {:induction false} NoneYet(placed: seq<Placement>, reservations: seq<Reservation>, c: nat)
    requires (forall i :: 0 <= i < |placed| ==> placed[i].cluster != c) && (forall i :: 0 <= i < |reservations| ==> reservations[i].cluster != c)
    ensures ZonesOn(placed, c) == 0 && ReservedOn(reservations, c) == 0 && UsedOn(reservations, placed, c) == 0
    decreases |placed| + |reservations|
  {
    if placed != [] { NoneYet(placed[..|placed| - 1], reservations, c); }
    if reservations != [] { NoneYet(placed, reservations[..|reservations| - 1], c); }
  }

  /** A new cluster enters the list under its own source id. */
  lemma AddCluster(clusters: seq<Cluster>, placed: seq<Placement>, reservations: seq<Reservation>, free: seq<nat>, maxZones: nat)
    requires ManagerOk(clusters, placed, reservations, free)
    ensures !Running(placed, CLUSTER_OFFSET + |clusters|)
    ensures ManagerOk(clusters + [Cluster(maxZones, 0, 0)], placed + [Placement(CLUSTER_OFFSET + |clusters|, |clusters|)], reservations, free + [0])
  {
    var n := |clusters|;
    var (clusters', placed', free') := (clusters + [Cluster(maxZones, 0, 0)], placed + [Placement(CLUSTER_OFFSET + n, n)], free + [0]);
    assert placed'[..|placed|] == placed;
    NoneYet(placed, reservations, n);
    forall c | 0 <= c < |clusters'| ensures ClusterOk(clusters'[c], c, placed', reservations, free'[c]) {
      if c < n { assert ClusterOk(clusters[c], c, placed, reservations, free[c]); }
      UsedNext(reservations, placed, placed'[|placed|], c);
      assert !IsReservedOn(reservations, CLUSTER_OFFSET + n, c);
    }
  }

  /** A zone that does not run yet starts on a cluster: the one that reserved it, or one with space for it. */
  lemma StartZone(clusters: seq<Cluster>, placed: seq<Placement>, reservations: seq<Reservation>, free: seq<nat>, id: int, c: nat)
    requires ManagerOk(clusters, placed, reservations, free) && c < |clusters| && IsZone(id) && !Running(placed, id)
    requires IsReservedOn(reservations, id, c) || (!IsReserved(reservations, id) && HasFreeSpace(clusters[c]))
    ensures var free' := if IsReservedOn(reservations, id, c) then free else free[c := free[c] + 1];
            ManagerOk(clusters[c := clusters[c].(count := clusters[c].count + 1)], placed + [Placement(id, c)], reservations, free')
  {
    var free' := if IsReservedOn(reservations, id, c) then free else free[c := free[c] + 1];
    var clusters' := clusters[c := clusters[c].(count := clusters[c].count + 1)];
    var placed' := placed + [Placement(id, c)];
    assert placed'[..|placed|] == placed;
    forall d | 0 <= d < |clusters'| ensures ClusterOk(clusters'[d], d, placed', reservations, free'[d]) {
      assert ClusterOk(clusters[d], d, placed, reservations, free[d]);
      UsedNext(reservations, placed, Placement(id, c), d);
      if d != c { OneReservation(reservations, id, c, d); }
    }
    forall i, j | 0 <= i < j < |placed'| ensures placed'[i].sourceId != placed'[j].sourceId {
      assert j == |placed| ==> placed[i].sourceId != id;
    }
  }

  lemma OneReservation(reservations: seq<Reservation>, id: int, c: nat, d: nat)
    requires Distinct(reservations) && c != d && (IsReservedOn(reservations, id, c) || !IsReserved(reservations, id))
    ensures !IsReservedOn(reservations, id, d)
  {
  }

  /** A reservation is added while no zone uses free space. */
  lemma Reserve(clusters: seq<Cluster>, placed: seq<Placement>, reservations: seq<Reservation>, free: seq<nat>, r: Reservation)
    requires ManagerOk(clusters, placed, reservations, free) && (forall c :: 0 <= c < |free| ==> free[c] == 0)
    requires r.cluster < |clusters| && 0 < r.sourceId < CLUSTER_OFFSET && !IsReserved(reservations, r.sourceId) && !Running(placed, r.sourceId)
    ensures ManagerOk(clusters[r.cluster := clusters[r.cluster].(reserved := clusters[r.cluster].reserved + 1)], placed, reservations + [r], free)
  {
    var clusters' := clusters[r.cluster := clusters[r.cluster].(reserved := clusters[r.cluster].reserved + 1)];
    var reservations' := reservations + [r];
    forall c | 0 <= c < |clusters'| ensures ClusterOk(clusters'[c], c, placed, reservations', free[c]) {
      assert ClusterOk(clusters[c], c, placed, reservations, free[c]);
      ReserveOn(clusters[c], c, placed, reservations, r);
    }
    hide ClusterOk, Running;
    assert forall i :: 0 <= i < |reservations| ==> reservations[i].sourceId != r.sourceId;
  }

  lemma ReserveOn(cluster: Cluster, c: nat, placed: seq<Placement>, reservations: seq<Reservation>, r: Reservation)
    requires ClusterOk(cluster, c, placed, reservations, 0) && !Running(placed, r.sourceId)
    ensures ClusterOk(if c == r.cluster then cluster.(reserved := cluster.reserved + 1) else cluster, c, placed, reservations + [r], 0)
  {
    assert (reservations + [r])[..|reservations|] == reservations;
    hide Running;
  }

  class Manager {
    var maxZonesPerCluster: nat
    var clusters: seq<Cluster>
    var placed: seq<Placement>
    var reservations: seq<Reservation>
    ghost var free: seq<nat>

    ghost predicate Valid()
      reads this
    {
      ManagerOk(clusters, placed, reservations, free) && maxZonesPerCluster >= 1
    }

    /** While the configuration script runs, every running zone is a reserved one. */
    ghost predicate Configuring()
      reads this
    {
      Valid() && forall c :: 0 <= c < |free| ==> free[c] == 0
    }

    constructor ()
      ensures Configuring() && clusters == [] && placed == [] && reservations == [] && maxZonesPerCluster == 8
    {
      maxZonesPerCluster, clusters, placed, reservations, free := 8, [], [], [], [];
    }

    /** zc_mgr_set_max_zones_per_cluster: for clusters started from now on. */
    method SetMaxZonesPerCluster(n: nat)
      modifies this`maxZonesPerCluster
      ensures maxZonesPerCluster == n
      ensures n >= 1 ==> (old(Valid()) ==> Valid()) && (old(Configuring()) ==> Configuring())
    {
      maxZonesPerCluster := n;
    }

    /** zone_cluster_set_max_zones.  While the configuration script runs any maximum will do; later the zones that
        use free space must still fit. */
    method SetMaxZones(c: nat, n: nat)
      requires c < |clusters|
      modifies this`clusters
      ensures clusters == old(clusters)[c := old(clusters)[c].(maxZones := n)]
      ensures old(Configuring()) ==> Configuring()
      ensures old(Valid()) && n >= old(clusters)[c].maxZones ==> Valid()
    {
      if ManagerOk(clusters, placed, reservations, free) {
        forall d | 0 <= d < |clusters| ensures ClusterOk(clusters[d], d, placed, reservations, free[d]) {}
      }
      clusters := clusters[c := clusters[c].(maxZones := n)];
    }

    /** zc_mgr_add_zone_reservation, the zone's number already looked up: a bad number or instance is ignored.  The
        manager stays sound if the zone is not reserved or running yet and no zone uses free space. */
    method AddZoneReservation(c: nat, zoneId: int, instanceId: int, alwaysUp: bool)
      requires c < |clusters|
      modifies this`clusters, this`placed, this`reservations, this`free
      ensures var ok, id := 0 < zoneId <= 999 && 0 <= instanceId <= 999, zoneId + instanceId * 1000;
              && reservations == old(reservations) + (if ok then [Reservation(id, alwaysUp, c)] else [])
              && placed == old(placed) + (if ok && alwaysUp then [Placement(id, c)] else [])
              && clusters == (if ok then old(clusters)[c := old(clusters)[c].(reserved := old(clusters)[c].reserved + 1,
                                                                      count := old(clusters)[c].count + (if alwaysUp then 1 else 0))]
                              else old(clusters))
              && (old(Configuring()) && (ok ==> !IsReserved(old(reservations), id) && !Running(old(placed), id)) ==> Configuring())
    {
      hide ClusterOk, PlacedOk;
      if zoneId <= 0 || zoneId > ZONE_MAX || instanceId < 0 || instanceId > INSTANCE_MAX { return; }
      var id := zoneId + instanceId * INSTANCE_OFFSET;
      ghost var sound := Configuring() && !IsReserved(reservations, id) && !Running(placed, id);
      if sound {
        Reserve(clusters, placed, reservations, free, Reservation(id, alwaysUp, c));
      }
      reservations := reservations + [Reservation(id, alwaysUp, c)];
      clusters := clusters[c := clusters[c].(reserved := clusters[c].reserved + 1)];
      if alwaysUp {
        assert reservations[|reservations| - 1].sourceId == id && reservations[|reservations| - 1].cluster == c;
        assert IsReservedOn(reservations, id, c);
        StartZoneOnCluster(c, id);
      }
    }

    /** zc_mgr_get: the first match, which is the only one. */
    method Get(id: int) returns (r: Option<nat>)
      requires Valid()
      ensures r.None? <==> !Running(placed, id)
      ensures r.Some? ==> r.value < |clusters| && OnCluster(placed, id, r.value) && forall c :: OnCluster(placed, id, c) ==> c == r.value
    {
      for i := 0 to |placed|
        invariant forall k :: 0 <= k < i ==> placed[k].sourceId != id
      {
        if placed[i].sourceId == id {
          assert placed[i] == Placement(id, placed[i].cluster);
          return Some(placed[i].cluster);
        }
      }
      return None;
    }

    /** A zone that does not run yet may start on the cluster: it reserved it, or has space for it. */
    ghost predicate MayStart(c: nat, id: int)
      reads this
      requires c < |clusters|
    {
      && IsZone(id) && !Running(placed, id)
      && (IsReservedOn(reservations, id, c) || (!IsReserved(reservations, id) && HasFreeSpace(clusters[c])))
    }

    /** zc_mgr_start_zone_on_cluster: the count and the list grow, soundly if the zone may start there. */
    method StartZoneOnCluster(c: nat, id: int)
      requires c < |clusters|
      modifies this`clusters, this`placed, this`free
      ensures placed == old(placed) + [Placement(id, c)]
      ensures clusters == old(clusters)[c := old(clusters)[c].(count := old(clusters)[c].count + 1)]
      ensures old(Valid() && MayStart(c, id)) ==> Valid()
      ensures IsReservedOn(reservations, id, c) ==> free == old(free)
    {
      if Valid() && MayStart(c, id) {
        StartZone(clusters, placed, reservations, free, id, c);
        free := if IsReservedOn(reservations, id, c) then free else free[c := free[c] + 1];
      }
      clusters := clusters[c := clusters[c].(count := clusters[c].count + 1)];
      placed := placed + [Placement(id, c)];
    }

    /** zc_mgr_start_zone_cluster */
    method StartZoneCluster() returns (c: nat)
      requires Valid()
      modifies this`clusters, this`placed, this`free
      ensures Valid() && c == |old(clusters)| && clusters == old(clusters) + [Cluster(maxZonesPerCluster, 0, 0)]
      ensures placed == old(placed) + [Placement(CLUSTER_OFFSET + c, c)]
    {
      hide ManagerOk;
      c := |clusters|;
      AddCluster(clusters, placed, reservations, free, maxZonesPerCluster);
      clusters := clusters + [Cluster(maxZonesPerCluster, 0, 0)];
      placed := placed + [Placement(CLUSTER_OFFSET + c, c)];
      free := free + [0];
    }

    /** zc_mgr_get_or_start: every zone stays where it is, this one is placed, and no cluster is overfull.  A zone that
        neither runs nor is reserved goes to the first cluster whose zones and reservations together stay below its
        maximum; only if there is none, to a new one. */
    method GetOrStart(id: int) returns (c: nat)
      requires Valid() && IsZone(id)
      modifies this`clusters, this`placed, this`free
      ensures Valid() && c < |clusters| && OnCluster(placed, id, c)
      ensures old(placed) <= placed && |old(clusters)| <= |clusters|
      ensures Running(old(placed), id) ==> placed == old(placed) && clusters == old(clusters)
      ensures !Running(old(placed), id) && IsReserved(reservations, id) ==>
                && IsReservedOn(reservations, id, c) && c < |old(clusters)| && placed == old(placed) + [Placement(id, c)]
                && clusters == old(clusters)[c := old(clusters)[c].(count := old(clusters)[c].count + 1)]
      ensures !Running(old(placed), id) && !IsReserved(reservations, id)
              && (exists d :: 0 <= d < |old(clusters)| && old(clusters)[d].count + old(clusters)[d].reserved < old(clusters)[d].maxZones) ==>
                && c < |old(clusters)| && old(clusters)[c].count + old(clusters)[c].reserved < old(clusters)[c].maxZones
                && (forall d :: 0 <= d < c ==> old(clusters)[d].count + old(clusters)[d].reserved >= old(clusters)[d].maxZones)
                && placed == old(placed) + [Placement(id, c)]
                && clusters == old(clusters)[c := old(clusters)[c].(count := old(clusters)[c].count + 1)]
      ensures !Running(old(placed), id) && !IsReserved(reservations, id)
              && (forall d :: 0 <= d < |old(clusters)| ==> old(clusters)[d].count + old(clusters)[d].reserved >= old(clusters)[d].maxZones) ==>
                && c == |old(clusters)| && placed == old(placed) + [Placement(1000000 + c, c), Placement(id, c)]
                && clusters == old(clusters) + [Cluster(maxZonesPerCluster, 0, 1)]
      ensures forall d :: 0 <= d < |clusters| ==> clusters[d].count <= Larger(clusters[d].maxZones, clusters[d].reserved)
    {
      hide ManagerOk;
      var running := Get(id);
      if running.Some? {
        AllWithinBounds();
        return running.value;
      }
      for i := 0 to |reservations|
        invariant unchanged(this) && forall k :: 0 <= k < i ==> reservations[k].sourceId != id
      {
        if reservations[i].sourceId == id {
          c := reservations[i].cluster;
          assert IsReservedOn(reservations, id, c);
          ReservedHere(i);
          StartZoneOnCluster(c, id);
          AllWithinBounds();
          assert placed[|placed| - 1] == Placement(id, c);
          return;
        }
      }
      for i := 0 to |clusters|
        invariant unchanged(this) && forall k :: 0 <= k < i ==> clusters[k].count + clusters[k].reserved >= clusters[k].maxZones
      {
        if HasFreeSpace(clusters[i]) {
          c := i;
          StartZoneOnCluster(c, id);
          AllWithinBounds();
          assert placed[|placed| - 1] == Placement(id, c);
          return;
        }
      }
      c := StartZoneCluster();
      RunningNext(old(placed), Placement(CLUSTER_OFFSET + c, c), id);
      MaximumHeld();
      StartZoneOnCluster(c, id);
      AllWithinBounds();
      assert placed[|placed| - 1] == Placement(id, c);
    }

    lemma ReservedHere(i: nat)
      requires Valid() && i < |reservations|
      ensures reservations[i].cluster < |clusters|
    {
    }

    lemma MaximumHeld()
      requires Valid()
      ensures maxZonesPerCluster >= 1
    {
    }

    lemma AllWithinBounds()
      requires Valid()
      ensures forall d :: 0 <= d < |clusters| ==> clusters[d].count <= Larger(clusters[d].maxZones, clusters[d].reserved)
    {
      forall d | 0 <= d < |clusters| ensures clusters[d].count <= Larger(clusters[d].maxZones, clusters[d].reserved) {
        WithinBounds(clusters[d], d, placed, reservations, free[d]);
      }
    }
  }
}
