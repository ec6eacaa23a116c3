/** The Percona XtraDB Cluster strategy of the cluster API: validation of a
    proposed member list, creation of member instance rows, and the `create` and
    `grow` lifecycle operations that set the cluster task and hand the work to
    Trove's taskmanager.

    Collaborators whose code is not part of this model are parameters: the nova
    flavor lookup (`flavors`), the generic volume-size check of the cluster
    models (`volumeSizeAccepted`), the tenant quota check (`quotaAllows`), the
    base cluster's availability check (`available`) and `utils.get_id_from_href`
    (`idFromHref`). The catalog rows and Trove's taskmanager's command queue are the
    fields of `Catalog`. */
module PxcCluster {
  import opened Wrappers
  import opened Text

  /** One member of a create or grow request. */
  datatype InstanceSpec = InstanceSpec(
    flavorId: string,
    volumeSize: Option<int>,
    name: Option<string>,
    nics: Option<seq<string>>,
    availabilityZone: Option<string>)

  /** What the flavor lookup tells about a flavor: its ephemeral disk size. */
  datatype Flavor = Flavor(ephemeral: int)

  /** The datastore manager's configuration group. `devicePath` is the empty
      string where the configuration holds None or an empty path. */
  datatype PxcConf = PxcConf(minClusterMemberCount: int, volumeSupport: bool, devicePath: string)

  datatype ClusterError =
    | ClusterNumInstancesNotLargeEnough(numInstances: int)
    | ClusterFlavorsNotEqual
    | FlavorNotFound(uuid: string)
    | ClusterVolumeSizeRequired
    | ClusterVolumeSizesNotEqual
    | VolumeSizeRejected(size: int)
    | VolumeNotSupported
    | LocalStorageNotSpecified(flavor: string)
    | QuotaExceeded
    | ClusterNotAvailable
    | VolumeSizeIndexError
    | KeyError(key: string)          // a grow node without `flavorRef`, or a volume without `size`
    | SizeValueError(text: string)   // `int()` of a volume size that is not an integer

  /** The resource deltas handed to the quota check. */
  datatype Deltas = Deltas(instances: nat, volumes: Option<int>)

  function FlavorIds(specs: seq<InstanceSpec>): (ids: seq<string>)
    ensures |ids| == |specs|
    ensures forall i :: 0 <= i < |specs| ==> ids[i] == specs[i].flavorId
  {
    seq(|specs|, i requires 0 <= i < |specs| => specs[i].flavorId)
  }

  /** Python truthiness of `spec.get('volume_size')`: absent and 0 are both false. */
  predicate Truthy(v: Option<int>) {
    v.Some? && v.value != 0
  }

  /** The volume sizes that are present and non-zero, in spec order. */
  function VolumeSizes(specs: seq<InstanceSpec>): (sizes: seq<int>)
    ensures |sizes| <= |specs|
    ensures forall k :: 0 <= k < |sizes| ==> sizes[k] != 0
    ensures |sizes| == |specs| <==> forall i :: 0 <= i < |specs| ==> Truthy(specs[i].volumeSize)
    ensures |sizes| == |specs| ==> forall i :: 0 <= i < |specs| ==> specs[i].volumeSize == Some(sizes[i])
    ensures |sizes| == 0 <==> forall i :: 0 <= i < |specs| ==> !Truthy(specs[i].volumeSize)
  {
    if |specs| == 0 then []
    else
      var rest := VolumeSizes(specs[1..]);
      assert forall i :: 1 <= i < |specs| ==> specs[i] == specs[1..][i - 1];
      if Truthy(specs[0].volumeSize) then [specs[0].volumeSize.value] + rest else rest
  }

  /** `len(set(xs))`. */
  function DistinctCount<T(==)>(xs: seq<T>): nat {
    |set x | x in xs|
  }

  /** `len(set(xs)) == 1` holds exactly when `xs` is non-empty and constant. */
  lemma SingleValuedIff<T>(xs: seq<T>)
    ensures DistinctCount(xs) == 1 <==> |xs| > 0 && forall i :: 0 <= i < |xs| ==> xs[i] == xs[0]
  {
    var s := set x | x in xs;
    if |xs| == 0 {
      assert s == {};
    } else if forall i :: 0 <= i < |xs| ==> xs[i] == xs[0] {
      assert s == {xs[0]};
    } else {
      var i :| 0 <= i < |xs| && xs[i] != xs[0];
      var rest := s - {xs[0]};
      assert xs[i] in rest;
      assert s == rest + {xs[0]};
    }
  }

  /** `PXCCluster._validate_cluster_instances`: the checks in source order, then
      the quota check with the computed deltas. The source returns nothing on
      success; the model returns the deltas the quota check accepted. */
  function ValidateClusterInstances(
    specs: seq<InstanceSpec>, conf: PxcConf, flavors: string -> Option<Flavor>,
    volumeSizeAccepted: int -> bool, quotaAllows: Deltas -> bool): (r: Result<Deltas, ClusterError>)
    ensures |specs| < conf.minClusterMemberCount ==>
              r == Failure(ClusterNumInstancesNotLargeEnough(conf.minClusterMemberCount))
    ensures r.Success? ==> r.value.instances == |specs| && quotaAllows(r.value)
  {
    var n := |specs|;
    if n < conf.minClusterMemberCount then
      Failure(ClusterNumInstancesNotLargeEnough(conf.minClusterMemberCount))
    else
      var flavorIds := FlavorIds(specs);
      if DistinctCount(flavorIds) != 1 then
        Failure(ClusterFlavorsNotEqual)
      else
        SingleValuedIff(flavorIds);
        var flavorId := flavorIds[0];
        match flavors(flavorId)
        case None => Failure(FlavorNotFound(flavorId))
        case Some(flavor) =>
          var sizes := VolumeSizes(specs);
          var checked: Result<Deltas, ClusterError> :=
            if conf.volumeSupport then
              if |sizes| != n then Failure(ClusterVolumeSizeRequired)
              else if DistinctCount(sizes) != 1 then Failure(ClusterVolumeSizesNotEqual)
              else
                SingleValuedIff(sizes);
                if !volumeSizeAccepted(sizes[0]) then Failure(VolumeSizeRejected(sizes[0]))
                else Success(Deltas(n, Some(sizes[0] * n)))
            else if |sizes| > 0 then Failure(VolumeNotSupported)
            else if conf.devicePath != "" && flavor.ephemeral == 0 then Failure(LocalStorageNotSpecified(flavorId))
            else Success(Deltas(n, None));
          if checked.Failure? then checked
          else if quotaAllows(checked.value) then checked
          else Failure(QuotaExceeded)
  }

  /** Everything the member list must satisfy before the quota is consulted. */
  ghost predicate AcceptableMembers(
    specs: seq<InstanceSpec>, conf: PxcConf, flavors: string -> Option<Flavor>, volumeSizeAccepted: int -> bool)
  {
    && |specs| >= conf.minClusterMemberCount
    && |specs| > 0
    && (forall i :: 0 <= i < |specs| ==> specs[i].flavorId == specs[0].flavorId)
    && flavors(specs[0].flavorId).Some?
    && if conf.volumeSupport then
         && (forall i :: 0 <= i < |specs| ==> Truthy(specs[i].volumeSize) && specs[i].volumeSize == specs[0].volumeSize)
         && volumeSizeAccepted(specs[0].volumeSize.value)
       else
         && (forall i :: 0 <= i < |specs| ==> !Truthy(specs[i].volumeSize))
         && !(conf.devicePath != "" && flavors(specs[0].flavorId).value.ephemeral == 0)
  }

  /** The deltas an acceptable member list asks of the quota: one instance per
      member and, with volume support, the common size times the member count. */
  function ExpectedDeltas(specs: seq<InstanceSpec>, conf: PxcConf): Deltas
    requires |specs| > 0
  {
    if conf.volumeSupport && specs[0].volumeSize.Some? then
      Deltas(|specs|, Some(specs[0].volumeSize.value * |specs|))
    else
      Deltas(|specs|, None)
  }

  /** Validation succeeds exactly for acceptable member lists whose expected
      deltas the quota allows, and then returns those deltas. */
  lemma ValidateSucceedsIff(
    specs: seq<InstanceSpec>, conf: PxcConf, flavors: string -> Option<Flavor>,
    volumeSizeAccepted: int -> bool, quotaAllows: Deltas -> bool)
    ensures var r := ValidateClusterInstances(specs, conf, flavors, volumeSizeAccepted, quotaAllows);
      r.Success? <==> AcceptableMembers(specs, conf, flavors, volumeSizeAccepted)
                      && quotaAllows(ExpectedDeltas(specs, conf))
    ensures var r := ValidateClusterInstances(specs, conf, flavors, volumeSizeAccepted, quotaAllows);
      r.Success? ==> r.value == ExpectedDeltas(specs, conf)
  {
    var ids := FlavorIds(specs);
    var sizes := VolumeSizes(specs);
    SingleValuedIff(ids);
    SingleValuedIff(sizes);
  }

  /** The member-count check passed, every member names the same flavor, and
      the flavor lookup knows it: what the volume checks start from. */
  ghost predicate FlavorChecksPass(specs: seq<InstanceSpec>, conf: PxcConf, flavors: string -> Option<Flavor>) {
    && |specs| >= conf.minClusterMemberCount
    && |specs| > 0
    && (forall i :: 0 <= i < |specs| ==> specs[i].flavorId == specs[0].flavorId)
    && flavors(specs[0].flavorId).Some?
  }

  /** A common flavor the lookup does not know is FlavorNotFound, naming it. */
  lemma UnknownFlavorRejected(
    specs: seq<InstanceSpec>, conf: PxcConf, flavors: string -> Option<Flavor>,
    volumeSizeAccepted: int -> bool, quotaAllows: Deltas -> bool)
    requires |specs| >= conf.minClusterMemberCount && |specs| > 0
    requires forall i :: 0 <= i < |specs| ==> specs[i].flavorId == specs[0].flavorId
    requires flavors(specs[0].flavorId).None?
    ensures ValidateClusterInstances(specs, conf, flavors, volumeSizeAccepted, quotaAllows)
            == Failure(FlavorNotFound(specs[0].flavorId))
  {
    SingleValuedIff(FlavorIds(specs));
  }

  /** With volume support, one member without a (truthy) volume size is
      ClusterVolumeSizeRequired. */
  lemma MissingVolumeSizeRejected(
    specs: seq<InstanceSpec>, conf: PxcConf, flavors: string -> Option<Flavor>,
    volumeSizeAccepted: int -> bool, quotaAllows: Deltas -> bool, i: nat)
    requires FlavorChecksPass(specs, conf, flavors) && conf.volumeSupport
    requires i < |specs| && !Truthy(specs[i].volumeSize)
    ensures ValidateClusterInstances(specs, conf, flavors, volumeSizeAccepted, quotaAllows)
            == Failure(ClusterVolumeSizeRequired)
  {
    SingleValuedIff(FlavorIds(specs));
  }

  /** With volume support and a size on every member, two different sizes are
      ClusterVolumeSizesNotEqual. */
  lemma DifferentVolumeSizesRejected(
    specs: seq<InstanceSpec>, conf: PxcConf, flavors: string -> Option<Flavor>,
    volumeSizeAccepted: int -> bool, quotaAllows: Deltas -> bool, i: nat, j: nat)
    requires FlavorChecksPass(specs, conf, flavors) && conf.volumeSupport
    requires forall k :: 0 <= k < |specs| ==> Truthy(specs[k].volumeSize)
    requires i < |specs| && j < |specs| && specs[i].volumeSize != specs[j].volumeSize
    ensures ValidateClusterInstances(specs, conf, flavors, volumeSizeAccepted, quotaAllows)
            == Failure(ClusterVolumeSizesNotEqual)
  {
    SingleValuedIff(FlavorIds(specs));
    SingleValuedIff(VolumeSizes(specs));
  }

  /** With volume support and one common size, a size the volume check refuses
      is reported with that size. */
  lemma RefusedVolumeSizeRejected(
    specs: seq<InstanceSpec>, conf: PxcConf, flavors: string -> Option<Flavor>,
    volumeSizeAccepted: int -> bool, quotaAllows: Deltas -> bool)
    requires FlavorChecksPass(specs, conf, flavors) && conf.volumeSupport
    requires forall k :: 0 <= k < |specs| ==> Truthy(specs[k].volumeSize) && specs[k].volumeSize == specs[0].volumeSize
    requires Truthy(specs[0].volumeSize) && !volumeSizeAccepted(specs[0].volumeSize.value)
    ensures ValidateClusterInstances(specs, conf, flavors, volumeSizeAccepted, quotaAllows)
            == Failure(VolumeSizeRejected(specs[0].volumeSize.value))
  {
    SingleValuedIff(FlavorIds(specs));
    SingleValuedIff(VolumeSizes(specs));
  }

  /** Without volume support, any member with a (truthy) volume size is
      VolumeNotSupported. */
  lemma VolumeWithoutSupportRejected(
    specs: seq<InstanceSpec>, conf: PxcConf, flavors: string -> Option<Flavor>,
    volumeSizeAccepted: int -> bool, quotaAllows: Deltas -> bool, i: nat)
    requires FlavorChecksPass(specs, conf, flavors) && !conf.volumeSupport
    requires i < |specs| && Truthy(specs[i].volumeSize)
    ensures ValidateClusterInstances(specs, conf, flavors, volumeSizeAccepted, quotaAllows)
            == Failure(VolumeNotSupported)
  {
    SingleValuedIff(FlavorIds(specs));
  }

  /** Without volume support and without sizes, a configured device path and a
      flavor with no ephemeral disk is LocalStorageNotSpecified for that flavor. */
  lemma LocalStorageRequired(
    specs: seq<InstanceSpec>, conf: PxcConf, flavors: string -> Option<Flavor>,
    volumeSizeAccepted: int -> bool, quotaAllows: Deltas -> bool)
    requires FlavorChecksPass(specs, conf, flavors) && !conf.volumeSupport
    requires forall k :: 0 <= k < |specs| ==> !Truthy(specs[k].volumeSize)
    requires conf.devicePath != "" && flavors(specs[0].flavorId).value.ephemeral == 0
    ensures ValidateClusterInstances(specs, conf, flavors, volumeSizeAccepted, quotaAllows)
            == Failure(LocalStorageNotSpecified(specs[0].flavorId))
  {
    SingleValuedIff(FlavorIds(specs));
  }

  /** An acceptable member list whose deltas the quota refuses is QuotaExceeded. */
  lemma QuotaRefusalRejected(
    specs: seq<InstanceSpec>, conf: PxcConf, flavors: string -> Option<Flavor>,
    volumeSizeAccepted: int -> bool, quotaAllows: Deltas -> bool)
    requires AcceptableMembers(specs, conf, flavors, volumeSizeAccepted)
    requires !quotaAllows(ExpectedDeltas(specs, conf))
    ensures ValidateClusterInstances(specs, conf, flavors, volumeSizeAccepted, quotaAllows) == Failure(QuotaExceeded)
  {
    SingleValuedIff(FlavorIds(specs));
    SingleValuedIff(VolumeSizes(specs));
  }

  /** Two members with different flavors are rejected with
      ClusterFlavorsNotEqual once the size check has passed, whatever the
      volumes, the flavor catalog or the quota say. */
  lemma DifferentFlavorsRejected(
    specs: seq<InstanceSpec>, conf: PxcConf, flavors: string -> Option<Flavor>,
    volumeSizeAccepted: int -> bool, quotaAllows: Deltas -> bool, i: nat, j: nat)
    requires |specs| >= conf.minClusterMemberCount
    requires i < |specs| && j < |specs| && specs[i].flavorId != specs[j].flavorId
    ensures ValidateClusterInstances(specs, conf, flavors, volumeSizeAccepted, quotaAllows)
            == Failure(ClusterFlavorsNotEqual)
  {
    SingleValuedIff(FlavorIds(specs));
  }

  /** The quota is consulted last: a rejection for any other reason is the same
      whatever the quota says, and an accepted list stays accepted under any
      quota that allows the same deltas. */
  lemma QuotaCheckedLast(
    specs: seq<InstanceSpec>, conf: PxcConf, flavors: string -> Option<Flavor>,
    volumeSizeAccepted: int -> bool, quota1: Deltas -> bool, quota2: Deltas -> bool)
    ensures var r1 := ValidateClusterInstances(specs, conf, flavors, volumeSizeAccepted, quota1);
            var r2 := ValidateClusterInstances(specs, conf, flavors, volumeSizeAccepted, quota2);
      && (r1.Failure? && r1.error != QuotaExceeded ==> r2 == r1)
      && (r1.Success? && quota2(r1.value) ==> r2 == r1)
  {
  }

  /** Names of cluster members: `"<cluster>-member-<ordinal>"`. */
  function MemberName(clusterName: string, ordinal: nat): string {
    clusterName + "-member-" + NatToString(ordinal)
  }

  lemma MemberNameInjective(clusterName: string, a: nat, b: nat)
    requires MemberName(clusterName, a) == MemberName(clusterName, b)
    ensures a == b
  {
    var p := |clusterName + "-member-"|;
    assert NatToString(a) == MemberName(clusterName, a)[p..];
    assert NatToString(b) == MemberName(clusterName, b)[p..];
    NatToStringInjective(a, b);
  }

  datatype ClusterTask = NoTask | BuildingInitial | GrowingCluster | Deleting

  datatype ClusterRecord = ClusterRecord(
    id: nat, name: string, tenantId: string, datastoreVersionId: string, taskStatus: ClusterTask)

  /** The `cluster_config` every member is created with. */
  datatype MemberConfig = MemberConfig(clusterId: nat, instanceType: string)

  datatype InstanceRecord = InstanceRecord(
    id: nat, name: string, flavorId: string, imageId: string, volumeSize: Option<int>,
    nics: Option<seq<string>>, availabilityZone: Option<string>, clusterConfig: MemberConfig)

  /** Commands queued for Trove's taskmanager. */
  datatype TaskCommand = CreateClusterTask(clusterId: nat) | GrowClusterTask(clusterId: nat, instanceIds: seq<nat>)

  /** The volume size `_create_instances` hands to the k-th new member: the
      truthy sizes in spec order with volume support, None for every member
      without. With volume support this column is shorter than the spec list
      when a spec lacks a size, and indexing past its end raises IndexError. */
  function VolumeColumn(specs: seq<InstanceSpec>, conf: PxcConf): (col: seq<Option<int>>)
    ensures |col| <= |specs|
    ensures conf.volumeSupport ==>
      |col| == |VolumeSizes(specs)| && forall k :: 0 <= k < |col| ==> col[k] == Some(VolumeSizes(specs)[k])
    ensures !conf.volumeSupport ==> |col| == |specs| && forall k :: 0 <= k < |col| ==> col[k].None?
  {
    if conf.volumeSupport then
      var sizes := VolumeSizes(specs);
      seq(|sizes|, k requires 0 <= k < |sizes| => Some(sizes[k]))
    else
      seq(|specs|, k => None)
  }

  /** How many members `_create_instances` creates before it stops. */
  function CreatableCount(specs: seq<InstanceSpec>, conf: PxcConf): nat {
    |VolumeColumn(specs, conf)|
  }

  /** The member rows `_create_instances` appends for `cluster`, which already
      has `existing` members, numbering row ids from `firstId`. */
  function NewMembers(
    cluster: ClusterRecord, existing: nat, firstId: nat, specs: seq<InstanceSpec>,
    conf: PxcConf, imageId: string): (ms: seq<InstanceRecord>)
    ensures |ms| == CreatableCount(specs, conf)
    ensures forall k :: 0 <= k < |ms| ==>
      && ms[k].id == firstId + k
      && ms[k].name == MemberName(cluster.name, existing + k + 1)
      && ms[k].clusterConfig == MemberConfig(cluster.id, "member")
      && ms[k].flavorId == specs[k].flavorId && ms[k].imageId == imageId
      && ms[k].volumeSize == VolumeColumn(specs, conf)[k]
      && ms[k].nics == specs[k].nics && ms[k].availabilityZone == specs[k].availabilityZone
  {
    var col := VolumeColumn(specs, conf);
    seq(|col|, k requires 0 <= k < |col| =>
      InstanceRecord(firstId + k, MemberName(cluster.name, existing + k + 1), specs[k].flavorId,
                     imageId, col[k], specs[k].nics, specs[k].availabilityZone,
                     MemberConfig(cluster.id, "member")))
  }

  /** New members get pairwise different names, none of which is the name of
      one of the `existing` members numbered 1 .. existing. */
  lemma NewMemberNamesFresh(
    cluster: ClusterRecord, existing: nat, firstId: nat, specs: seq<InstanceSpec>,
    conf: PxcConf, imageId: string)
    ensures var ms := NewMembers(cluster, existing, firstId, specs, conf, imageId);
      && (forall j, k :: 0 <= j < k < |ms| ==> ms[j].name != ms[k].name)
      && (forall j, o :: 0 <= j < |ms| && 1 <= o <= existing ==> ms[j].name != MemberName(cluster.name, o))
  {
    var ms := NewMembers(cluster, existing, firstId, specs, conf, imageId);
    forall j, k | 0 <= j < k < |ms| ensures ms[j].name != ms[k].name {
      if ms[j].name == ms[k].name {
        MemberNameInjective(cluster.name, existing + j + 1, existing + k + 1);
      }
    }
    forall j, o | 0 <= j < |ms| && 1 <= o <= existing ensures ms[j].name != MemberName(cluster.name, o) {
      if ms[j].name == MemberName(cluster.name, o) {
        MemberNameInjective(cluster.name, existing + j + 1, o);
      }
    }
  }

  /** After a successful validation every spec becomes a member, and with
      volume support each member gets its own spec's size. */
  lemma ValidatedSpecsAllCreated(
    specs: seq<InstanceSpec>, conf: PxcConf, flavors: string -> Option<Flavor>,
    volumeSizeAccepted: int -> bool, quotaAllows: Deltas -> bool)
    requires ValidateClusterInstances(specs, conf, flavors, volumeSizeAccepted, quotaAllows).Success?
    ensures CreatableCount(specs, conf) == |specs|
    ensures conf.volumeSupport ==>
      forall k :: 0 <= k < |specs| ==> VolumeColumn(specs, conf)[k] == specs[k].volumeSize
  {
    ValidateSucceedsIff(specs, conf, flavors, volumeSizeAccepted, quotaAllows);
  }

  /** Without validation (as in grow), one spec lacking a volume size under
      volume support stops member creation before the last spec. */
  lemma MissingVolumeStopsCreation(specs: seq<InstanceSpec>, conf: PxcConf, k: nat)
    requires conf.volumeSupport && k < |specs| && !Truthy(specs[k].volumeSize)
    ensures CreatableCount(specs, conf) < |specs|
  {
  }

  /** Number of instance rows that belong to cluster `clusterId`. */
  function CountMembers(instances: seq<InstanceRecord>, clusterId: nat): (n: nat)
    ensures n <= |instances|
    ensures (forall i :: 0 <= i < |instances| ==> instances[i].clusterConfig.clusterId != clusterId) ==> n == 0
  {
    if |instances| == 0 then 0
    else
      assert forall i :: 1 <= i < |instances| ==> instances[i] == instances[1..][i - 1];
      (if instances[0].clusterConfig.clusterId == clusterId then 1 else 0) + CountMembers(instances[1..], clusterId)
  }

  /** Ids of `n` rows appended after `start` existing rows. */
  function RowIds(start: nat, n: nat): (ids: seq<nat>)
    ensures |ids| == n && forall k :: 0 <= k < n ==> ids[k] == start + k
  {
    seq(n, k requires 0 <= k < n => start + k)
  }

  /** The `size` entry of a node's `volume` as the request body carries it: a
      number, or text that `int()` has to parse. */
  datatype SizeField = SizeNumber(n: int) | SizeText(text: string)

  /** A node's `volume` entry; its `size` key may be missing. */
  datatype VolumeEntry = VolumeEntry(size: Option<SizeField>)

  /** One node of a grow request body; every key may be missing. */
  datatype GrowNode = GrowNode(flavorRef: Option<string>, name: Option<string>, volume: Option<VolumeEntry>)

  /** The spec `_action_grow_cluster` builds from one node: `node['flavorRef']`
      first, then the name when present, then `int(node['volume']['size'])`
      when the node has a volume. A missing key is a KeyError, a size text that
      is not an integer a ValueError. */
  function NodeSpec(node: GrowNode, idFromHref: string -> string): (r: Result<InstanceSpec, ClusterError>)
    ensures r.Success? <==>
      && node.flavorRef.Some?
      && (node.volume.Some? ==>
            node.volume.value.size.Some? &&
            (node.volume.value.size.value.SizeText? ==> ParseInt(node.volume.value.size.value.text).Some?))
    ensures node.flavorRef.None? ==> r == Failure(KeyError("flavorRef"))
    ensures node.flavorRef.Some? && node.volume.Some? && node.volume.value.size.None? ==>
      r == Failure(KeyError("size"))
    ensures (node.flavorRef.Some? && node.volume.Some? && node.volume.value.size.Some? &&
             node.volume.value.size.value.SizeText? && ParseInt(node.volume.value.size.value.text).None?) ==>
      r == Failure(SizeValueError(node.volume.value.size.value.text))
    ensures r.Success? ==>
      && r.value.flavorId == idFromHref(node.flavorRef.value)
      && r.value.name == node.name
      && r.value.nics.None? && r.value.availabilityZone.None?
      && (node.volume.None? ==> r.value.volumeSize.None?)
      && (node.volume.Some? && node.volume.value.size.value.SizeNumber? ==>
            r.value.volumeSize == Some(node.volume.value.size.value.n))
      && (node.volume.Some? && node.volume.value.size.value.SizeText? ==>
            r.value.volumeSize == ParseInt(node.volume.value.size.value.text))
  {
    if node.flavorRef.None? then Failure(KeyError("flavorRef"))
    else if node.volume.None? then
      Success(InstanceSpec(idFromHref(node.flavorRef.value), None, node.name, None, None))
    else if node.volume.value.size.None? then Failure(KeyError("size"))
    else
      var size :- SizeValue(node.volume.value.size.value);
      Success(InstanceSpec(idFromHref(node.flavorRef.value), Some(size), node.name, None, None))
  }

  /** `int(size)`: a number as it is, text through the integer parser. */
  function SizeValue(f: SizeField): (r: Result<int, ClusterError>)
    ensures f.SizeNumber? ==> r == Success(f.n)
    ensures f.SizeText? && ParseInt(f.text).Some? ==> r == Success(ParseInt(f.text).value)
    ensures f.SizeText? && ParseInt(f.text).None? ==> r == Failure(SizeValueError(f.text))
  {
    match f
    case SizeNumber(n) => Success(n)
    case SizeText(t) => if ParseInt(t).Some? then Success(ParseInt(t).value) else Failure(SizeValueError(t))
  }

  /** The spec list `_action_grow_cluster` builds from the nodes, or the error
      of the first node it cannot read. */
  function GrowSpecs(nodes: seq<GrowNode>, idFromHref: string -> string): Result<seq<InstanceSpec>, ClusterError>
    decreases |nodes|
  {
    if |nodes| == 0 then Success([])
    else
      var spec :- NodeSpec(nodes[0], idFromHref);
      var rest :- GrowSpecs(nodes[1..], idFromHref);
      Success([spec] + rest)
  }

  /** When every node can be read, one spec per node, in order. */
  lemma {:induction false} GrowSpecsAllRead(nodes: seq<GrowNode>, idFromHref: string -> string)
    requires forall j :: 0 <= j < |nodes| ==> NodeSpec(nodes[j], idFromHref).Success?
    ensures GrowSpecs(nodes, idFromHref).Success?
    ensures |GrowSpecs(nodes, idFromHref).value| == |nodes|
    ensures forall k :: 0 <= k < |nodes| ==>
      GrowSpecs(nodes, idFromHref).value[k] == NodeSpec(nodes[k], idFromHref).value
    decreases |nodes|
  {
    if |nodes| > 0 {
      var rest := nodes[1..];
      assert forall j :: 0 <= j < |rest| ==> rest[j] == nodes[j + 1];
      GrowSpecsAllRead(rest, idFromHref);
    }
  }

  /** The first node that cannot be read decides the error, whatever follows. */
  lemma {:induction false} GrowSpecsFirstFailure(nodes: seq<GrowNode>, idFromHref: string -> string, k: nat)
    requires k < |nodes|
    requires forall j :: 0 <= j < k ==> NodeSpec(nodes[j], idFromHref).Success?
    requires NodeSpec(nodes[k], idFromHref).Failure?
    ensures GrowSpecs(nodes, idFromHref) == Failure(NodeSpec(nodes[k], idFromHref).error)
    decreases k
  {
    if k > 0 {
      var rest := nodes[1..];
      assert forall j :: 0 <= j < k - 1 ==> rest[j] == nodes[j + 1];
      assert rest[k - 1] == nodes[k];
      GrowSpecsFirstFailure(rest, idFromHref, k - 1);
    }
  }

  method GrowRequestSpecs(nodes: seq<GrowNode>, idFromHref: string -> string)
    returns (r: Result<seq<InstanceSpec>, ClusterError>)
    ensures r == GrowSpecs(nodes, idFromHref)
  {
    var specs: seq<InstanceSpec> := [];
    for k := 0 to |nodes|
      invariant |specs| == k
      invariant forall j :: 0 <= j < k ==>
        NodeSpec(nodes[j], idFromHref).Success? && specs[j] == NodeSpec(nodes[j], idFromHref).value
    {
      var node := nodes[k];
      if node.flavorRef.None? {
        GrowSpecsFirstFailure(nodes, idFromHref, k);
        return Failure(KeyError("flavorRef"));
      }
      var size: Option<int> := None;
      if node.volume.Some? {
        if node.volume.value.size.None? {
          GrowSpecsFirstFailure(nodes, idFromHref, k);
          return Failure(KeyError("size"));
        }
        var parsed := SizeValue(node.volume.value.size.value);
        if parsed.Failure? {
          GrowSpecsFirstFailure(nodes, idFromHref, k);
          return Failure(parsed.error);
        }
        size := Some(parsed.value);
      }
      specs := specs + [InstanceSpec(idFromHref(node.flavorRef.value), size, node.name, None, None)];
    }
    GrowSpecsAllRead(nodes, idFromHref);
    assert specs == GrowSpecs(nodes, idFromHref).value;
    r := Success(specs);
  }

  /** The ids of one more row are the ids so far and the next one. */
  lemma RowIdsAppend(start: nat, k: nat)
    ensures RowIds(start, k + 1) == RowIds(start, k) + [start + k]
  {
    assert RowIds(start, k + 1)[..k] == RowIds(start, k);
  }

  /** Row ids are positions, and every instance belongs to a cluster row. */
  ghost predicate RowsValid(clusters: seq<ClusterRecord>, instances: seq<InstanceRecord>) {
    && (forall i :: 0 <= i < |clusters| ==> clusters[i].id == i)
    && (forall i :: 0 <= i < |instances| ==>
          instances[i].id == i && instances[i].clusterConfig.clusterId < |clusters|)
  }

  /** Appending the next planned member keeps the rows valid. */
  lemma AppendPlannedMember(
    clusters: seq<ClusterRecord>, start: seq<InstanceRecord>, planned: seq<InstanceRecord>, k: nat)
    requires k < |planned| && RowsValid(clusters, start + planned[..k])
    requires planned[k].id == |start| + k && planned[k].clusterConfig.clusterId < |clusters|
    ensures start + planned[..k + 1] == (start + planned[..k]) + [planned[k]]
    ensures RowsValid(clusters, start + planned[..k + 1])
  {
    assert planned[..k + 1] == planned[..k] + [planned[k]];
  }

  /** The catalog rows of clusters and of their member instances, and the
      commands queued for Trove's taskmanager. Row ids are positions; the source
      uses generated UUIDs. */
  class Catalog {
    var clusters: seq<ClusterRecord>
    var instances: seq<InstanceRecord>
    var dispatched: seq<TaskCommand>

    ghost predicate Valid()
      reads this
    {
      RowsValid(clusters, instances)
    }

    constructor ()
      ensures Valid() && clusters == [] && instances == [] && dispatched == []
    {
      clusters, instances, dispatched := [], [], [];
    }

    /** `_create_instances`: counts the cluster's members, then creates one
        member per spec, stopping with IndexError where the volume column runs
        out. Members created before the error stay. */
    method CreateInstances(idx: nat, specs: seq<InstanceSpec>, conf: PxcConf, imageId: string)
      returns (r: Result<seq<nat>, ClusterError>)
      requires Valid() && idx < |clusters|
      modifies this
      ensures Valid() && clusters == old(clusters) && dispatched == old(dispatched)
      ensures instances == old(instances) +
        NewMembers(clusters[idx], CountMembers(old(instances), idx), |old(instances)|, specs, conf, imageId)
      ensures r.Success? <==> CreatableCount(specs, conf) == |specs|
      ensures r.Success? ==> r.value == RowIds(|old(instances)|, |specs|)
      ensures r.Failure? ==> r.error == VolumeSizeIndexError
    {
      var cluster := clusters[idx];
      var existing := CountMembers(instances, idx);
      var col := VolumeColumn(specs, conf);
      ghost var planned := NewMembers(cluster, existing, |instances|, specs, conf, imageId);
      ghost var start := instances;
      var ids: seq<nat> := [];
      var k := 0;
      while k < |specs|
        invariant k <= |col| && k <= |specs|
        invariant instances == start + planned[..k] && |instances| == |start| + k
        invariant ids == RowIds(|start|, k)
        invariant clusters == old(clusters) && dispatched == old(dispatched)
        invariant Valid()
      {
        if k >= |col| {
          assert planned[..k] == planned;
          return Failure(VolumeSizeIndexError);
        }
        var member := InstanceRecord(|instances|, MemberName(cluster.name, existing + k + 1), specs[k].flavorId,
                                     imageId, col[k], specs[k].nics, specs[k].availabilityZone,
                                     MemberConfig(idx, "member"));
        assert member == planned[k];
        AppendPlannedMember(clusters, start, planned, k);
        RowIdsAppend(|start|, k);
        instances := instances + [member];
        ids := ids + [|instances| - 1];
        k := k + 1;
      }
      assert planned[..k] == planned;
      r := Success(ids);
    }

    /** `PXCCluster.create`: validation before any row is written; then the
        cluster row in BUILDING_INITIAL, its members numbered from 1, and the
        `create_cluster` command. */
    method Create(
      name: string, tenantId: string, datastoreVersionId: string, specs: seq<InstanceSpec>,
      conf: PxcConf, imageId: string, flavors: string -> Option<Flavor>,
      volumeSizeAccepted: int -> bool, quotaAllows: Deltas -> bool)
      returns (r: Result<nat, ClusterError>)
      requires Valid()
      modifies this
      ensures Valid()
      ensures var v := ValidateClusterInstances(specs, conf, flavors, volumeSizeAccepted, quotaAllows);
        v.Failure? ==>
          && r == Failure(v.error)
          && clusters == old(clusters) && instances == old(instances) && dispatched == old(dispatched)
      ensures var v := ValidateClusterInstances(specs, conf, flavors, volumeSizeAccepted, quotaAllows);
        v.Success? ==>
          var id := |old(clusters)|;
          && r == Success(id)
          && clusters == old(clusters) + [ClusterRecord(id, name, tenantId, datastoreVersionId, BuildingInitial)]
          && instances == old(instances) + NewMembers(clusters[id], 0, |old(instances)|, specs, conf, imageId)
          && |instances| == |old(instances)| + |specs|
          && dispatched == old(dispatched) + [CreateClusterTask(id)]
    {
      var v := ValidateClusterInstances(specs, conf, flavors, volumeSizeAccepted, quotaAllows);
      if v.Failure? {
        return Failure(v.error);
      }
      ValidatedSpecsAllCreated(specs, conf, flavors, volumeSizeAccepted, quotaAllows);
      var id := |clusters|;
      clusters := clusters + [ClusterRecord(id, name, tenantId, datastoreVersionId, BuildingInitial)];
      assert CountMembers(instances, id) == 0;
      var created := CreateInstances(id, specs, conf, imageId);
      dispatched := dispatched + [CreateClusterTask(id)];
      r := Success(id);
    }

    /** `PXCCluster.grow`: availability first; then GROWING_CLUSTER, members
        numbered on from the current member count, and `grow_cluster` with the
        new ids in creation order. The member list is not validated again. */
    method Grow(
      idx: nat, specs: seq<InstanceSpec>, conf: PxcConf, imageId: string, available: ClusterRecord -> bool)
      returns (r: Result<seq<nat>, ClusterError>)
      requires Valid() && idx < |clusters|
      modifies this
      ensures Valid()
      ensures !available(old(clusters[idx])) ==>
        && r == Failure(ClusterNotAvailable)
        && clusters == old(clusters) && instances == old(instances) && dispatched == old(dispatched)
      ensures available(old(clusters[idx])) ==>
        && clusters == old(clusters)[idx := old(clusters[idx]).(taskStatus := GrowingCluster)]
        && instances == old(instances) +
             NewMembers(clusters[idx], CountMembers(old(instances), idx), |old(instances)|, specs, conf, imageId)
        && (CreatableCount(specs, conf) == |specs| ==>
              var ids := RowIds(|old(instances)|, |specs|);
              r == Success(ids) && dispatched == old(dispatched) + [GrowClusterTask(idx, ids)])
        && (CreatableCount(specs, conf) < |specs| ==>
              r == Failure(VolumeSizeIndexError) && dispatched == old(dispatched))
    {
      if !available(clusters[idx]) {
        return Failure(ClusterNotAvailable);
      }
      clusters := clusters[idx := clusters[idx].(taskStatus := GrowingCluster)];
      var created := CreateInstances(idx, specs, conf, imageId);
      if created.Failure? {
        return Failure(created.error);
      }
      dispatched := dispatched + [GrowClusterTask(idx, created.value)];
      r := Success(created.value);
    }

    /** `PXCAPIStrategy._action_grow_cluster`: the request body's nodes become
        specs, which are passed to `Grow`; a node that cannot be read stops the
        action before the cluster is looked at. */
    method ActionGrowCluster(
      idx: nat, nodes: seq<GrowNode>, idFromHref: string -> string, conf: PxcConf, imageId: string,
      available: ClusterRecord -> bool)
      returns (r: Result<seq<nat>, ClusterError>)
      requires Valid() && idx < |clusters|
      modifies this
      ensures Valid()
      ensures GrowSpecs(nodes, idFromHref).Failure? ==>
        && r == Failure(GrowSpecs(nodes, idFromHref).error)
        && clusters == old(clusters) && instances == old(instances) && dispatched == old(dispatched)
      ensures GrowSpecs(nodes, idFromHref).Success? && !available(old(clusters[idx])) ==>
        && r == Failure(ClusterNotAvailable)
        && clusters == old(clusters) && instances == old(instances) && dispatched == old(dispatched)
      ensures GrowSpecs(nodes, idFromHref).Success? && available(old(clusters[idx])) ==>
        var specs := GrowSpecs(nodes, idFromHref).value;
        && clusters == old(clusters)[idx := old(clusters[idx]).(taskStatus := GrowingCluster)]
        && instances == old(instances) +
             NewMembers(clusters[idx], CountMembers(old(instances), idx), |old(instances)|, specs, conf, imageId)
        && (CreatableCount(specs, conf) == |specs| ==>
              var ids := RowIds(|old(instances)|, |specs|);
              r == Success(ids) && dispatched == old(dispatched) + [GrowClusterTask(idx, ids)])
        && (CreatableCount(specs, conf) < |specs| ==>
              r == Failure(VolumeSizeIndexError) && dispatched == old(dispatched))
    {
      var specs := GrowRequestSpecs(nodes, idFromHref);
      if specs.Failure? {
        return Failure(specs.error);
      }
      r := Grow(idx, specs.value, conf, imageId, available);
    }
  }
}
