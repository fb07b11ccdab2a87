/** The GCE persistent disk volume plugin (pkg/volume/gcepd/gce_pd.go):
    where a spec's PD source comes from, how many disks a node's machine
    type may attach, and what a provisioned persistent volume looks like.
    The cloud provider's answers are inputs. */
module GcePd {
  import opened Wrappers
  import opened Strings
  import opened Quantities
  import opened VolumeTypes
  import opened DiskPlugins
  import VolumeUtil

  // Error messages; the values Go formats into them are left out.
  const ErrNotGcePd: string := "spec does not reference a GCE volume type"
  const ErrZoneLabel: string := "failed to convert label string for Zone to a List: "
  const ErrAccessModes: string := "invalid AccessModes: only ReadWriteOnce and ReadOnlyMany are supported"

  const PluginName: string := "kubernetes.io/gce-pd"
  const ProvisionerName: string := "gce-pd-dynamic-provisioner"

  /** `GetAccessModes`: a PD attaches read-write to one node or read-only
      to many. */
  const AccessModes: seq<AccessMode> := [ReadWriteOnce, ReadOnlyMany]

  // Machine-type thresholds and attach limits.
  const OneCpu: int := 1
  const EightCpus: int := 8
  const VolumeLimit16: int := 16
  const VolumeLimit32: int := 32
  const VolumeLimit64: int := 64
  const VolumeLimit128: int := 128

  // ---------------------------------------------------------------------
  // Volume source

  /** `getVolumeSource`: the inline PD source with its own read-only flag,
      else the persistent volume's with the spec's read-only flag. */
  function GetVolumeSource(spec: Spec): (r: Result<(GcePdSource, bool)>)
    ensures r.Ok? <==> (spec.volume.Some? && spec.volume.value.gcePd.Some?) || (spec.pv.Some? && spec.pv.value.gcePd.Some?)
    ensures spec.volume.Some? && spec.volume.value.gcePd.Some? ==>
      r == Ok((spec.volume.value.gcePd.value, spec.volume.value.gcePd.value.readOnly))
    ensures r.Ok? && !(spec.volume.Some? && spec.volume.value.gcePd.Some?) ==>
      r.value == (spec.pv.value.gcePd.value, spec.readOnly)
  {
    if spec.volume.Some? && spec.volume.value.gcePd.Some? then
      var pd := spec.volume.value.gcePd.value;
      Ok((pd, pd.readOnly))
    else if spec.pv.Some? && spec.pv.value.gcePd.Some? then
      Ok((spec.pv.value.gcePd.value, spec.readOnly))
    else
      Err(ErrNotGcePd)
  }

  /** `GetVolumeName`: the PD name of the selected source. */
  function GetVolumeName(spec: Spec): (r: Result<string>)
    ensures r.Ok? <==> GetVolumeSource(spec).Ok?
    ensures r.Ok? ==> r.value == GetVolumeSource(spec).value.0.pdName
  {
    match GetVolumeSource(spec)
    case Err(e) => Err(e)
    case Ok(source) => Ok(source.0.pdName)
  }

  /** What `newMounterInternal` derives from a spec: the PD name, the
      partition text and the read-only flag. */
  datatype MountTarget = MountTarget(pdName: string, partition: string, readOnly: bool)

  function MounterTarget(spec: Spec): (r: Result<MountTarget>)
    requires GetVolumeSource(spec).Ok? ==> InInt32(GetVolumeSource(spec).value.0.partition)
    ensures r.Ok? <==> GetVolumeSource(spec).Ok?
    ensures r.Ok? ==> var (source, readOnly) := GetVolumeSource(spec).value;
      && r.value.pdName == source.pdName
      && r.value.readOnly == readOnly
      && (r.value.partition == "" <==> source.partition == 0)
      && (source.partition != 0 ==> Atoi(r.value.partition) == Some(source.partition) && CanonicalDecimal(r.value.partition))
  {
    match GetVolumeSource(spec)
    case Err(e) => Err(e)
    case Ok((source, readOnly)) => Ok(MountTarget(source.pdName, PartitionName(source.partition), readOnly))
  }

  // ---------------------------------------------------------------------
  // Attach limits

  /** The attach limit for a machine type: an "n1-" type whose third
      dash-separated field is a number n gets 32 for one CPU, 64 below
      eight and 128 from eight on; every other type keeps the default 16. */
  function InstanceTypeLimit(instanceType: string): (r: int)
    ensures r == VolumeLimit16 || r == VolumeLimit32 || r == VolumeLimit64 || r == VolumeLimit128
    ensures !HasPrefix(instanceType, "n1-") ==> r == VolumeLimit16
    ensures r != VolumeLimit16 ==> |Split(instanceType, "-")| >= 3 && Atoi(Split(instanceType, "-")[2]).Some?
  {
    if !HasPrefix(instanceType, "n1-") then VolumeLimit16
    else
      var splits := Split(instanceType, "-");
      if |splits| < 3 then VolumeLimit16
      else
        match Atoi(splits[2])
        case None => VolumeLimit16
        case Some(num) =>
          if num == OneCpu then VolumeLimit32
          else if num < EightCpus then VolumeLimit64
          else VolumeLimit128
  }

  /** The limit a machine type named "n1-<family>-<cpus>[-...]" gets,
      from its CPU count alone. */
  function CpuLimit(cpus: nat): int {
    if cpus == 1 then VolumeLimit32 else if cpus < 8 then VolumeLimit64 else VolumeLimit128
  }

  /** An "n1" machine type built from dash-free fields, whose third field is
      the decimal text of a CPU count, gets the limit for that count. */
  lemma InstanceTypeLimitOfN1(fields: seq<string>, cpus: nat)
    requires |fields| >= 3 && fields[0] == "n1" && fields[2] == NatToString(cpus)
    requires forall k :: 0 <= k < |fields| ==> '-' !in fields[k]
    requires cpus <= MaxInt64
    ensures InstanceTypeLimit(Join(fields, "-")) == CpuLimit(cpus)
  {
    var s := Join(fields, "-");
    assert s == fields[0] + "-" + Join(fields[1..], "-");
    assert HasPrefix(s, "n1-") by {
      assert s[..3] == "n1-";
    }
    JoinSplitChar(fields, '-');
    assert Split(s, "-") == fields;
    AtoiOfIntToString(cpus);
    assert IntToString(cpus) == NatToString(cpus);
  }

  /** An "n1" machine type whose third field is not a number keeps the
      default limit. */
  lemma InstanceTypeLimitUnparsable(fields: seq<string>)
    requires |fields| >= 3 && fields[0] == "n1" && Atoi(fields[2]).None?
    requires forall k :: 0 <= k < |fields| ==> '-' !in fields[k]
    ensures InstanceTypeLimit(Join(fields, "-")) == VolumeLimit16
  {
    var s := Join(fields, "-");
    assert s == fields[0] + "-" + Join(fields[1..], "-");
    assert s[..3] == "n1-";
    JoinSplitChar(fields, '-');
  }

  /** What the node's cloud provider reports: its name, and the node's
      machine type when the provider offers an instances interface (None
      when it does not, `Err` when the lookup fails). */
  datatype Cloud = Cloud(providerName: string, instanceType: Option<Result<string>>)

  /** `GetVolumeLimits`: the value under the GCE volume-limit key. No cloud
      provider, or one that is not GCE, is an error; a missing instances
      interface or a failed lookup keeps the default 16. */
  function GetVolumeLimits(cloud: Option<Cloud>, gceProviderName: string): (r: Result<int>)
    ensures r.Err? <==> cloud.None? || cloud.value.providerName != gceProviderName
    ensures r.Ok? && (cloud.value.instanceType.None? || cloud.value.instanceType.value.Err?) ==> r.value == VolumeLimit16
    ensures r.Ok? && cloud.value.instanceType.Some? && cloud.value.instanceType.value.Ok? ==>
      r.value == InstanceTypeLimit(cloud.value.instanceType.value.value)
  {
    match cloud
    case None => Err("no cloudprovider present")
    case Some(c) =>
      if c.providerName != gceProviderName then Err("expected gce cloud got " + c.providerName)
      else
        match c.instanceType
        case None => Ok(VolumeLimit16)
        case Some(Err(_)) => Ok(VolumeLimit16)
        case Some(Ok(t)) => Ok(InstanceTypeLimit(t))
  }

  // ---------------------------------------------------------------------
  // Zone-aware node affinity

  /** The values a label admits: the trimmed zones of a multi-zone label
      value for the zone key, the value itself for any other key. */
  function AdmittedValues(key: string, value: string): (r: seq<string>)
  {
    if key == LabelZoneFailureDomain then
      var pieces := Split(value, LabelMultiZoneDelimiter);
      seq(|pieces|, i requires 0 <= i < |pieces| => TrimSpace(pieces[i]))
    else [value]
  }

  /** A label is acceptable when it is not a zone label or its value lists
      no blank zone. */
  predicate LabelParses(kv: (string, string)) {
    kv.0 == LabelZoneFailureDomain ==> VolumeUtil.NoBlankPiece(Split(kv.1, LabelMultiZoneDelimiter))
  }

  /** The values one label's requirement lists: the parsed multi-zone list
      for the zone key, else the value alone. */
  function LabelValues(key: string, value: string): (r: Result<seq<string>>)
    ensures r.Ok? <==> LabelParses((key, value))
    ensures r.Ok? ==> r.value == AdmittedValues(key, value)
  {
    if key == LabelZoneFailureDomain then VolumeUtil.LabelZonesToList(value) else Ok([value])
  }

  /** The node-selector requirement for each label, in iteration order; the
      zone label's value is parsed as a multi-zone list, and the first that
      fails to parse is an error. */
  function LabelRequirements(labels: seq<(string, string)>): (r: Result<seq<Requirement>>)
    ensures r.Ok? <==> forall i :: 0 <= i < |labels| ==> LabelParses(labels[i])
    ensures r.Ok? ==> |r.value| == |labels|
    ensures r.Ok? ==> forall i :: 0 <= i < |labels| ==>
      r.value[i].key == labels[i].0 && r.value[i].values == AdmittedValues(labels[i].0, labels[i].1)
  {
    if |labels| == 0 then Ok([])
    else
      assert forall i :: 1 <= i < |labels| ==> labels[i] == labels[1..][i - 1];
      match LabelValues(labels[0].0, labels[0].1)
      case Err(e) => Err(ErrZoneLabel + e)
      case Ok(values) =>
        match LabelRequirements(labels[1..])
        case Err(e) => Err(e)
        case Ok(rest) => Ok([Requirement(labels[0].0, values)] + rest)
  }

  /** A node carries every label's key with one of the values it admits. */
  predicate CarriesAdmitted(node: Node, labels: seq<(string, string)>) {
    forall i :: 0 <= i < |labels| ==>
      labels[i].0 in node.labels && node.labels[labels[i].0] in AdmittedValues(labels[i].0, labels[i].1)
  }

  /** A node meets the requirements made from some labels exactly when it
      carries each label's key with an admitted value. */
  lemma LabelRequirementsMeaning(labels: seq<(string, string)>)
    requires LabelRequirements(labels).Ok?
    ensures forall node :: SatisfiesAll(node, LabelRequirements(labels).value) <==> CarriesAdmitted(node, labels)
  {
    var reqs := LabelRequirements(labels).value;
    forall node, i | 0 <= i < |labels|
      ensures Satisfies(node, reqs[i]) <==>
        labels[i].0 in node.labels && node.labels[labels[i].0] in AdmittedValues(labels[i].0, labels[i].1)
    {
      assert reqs[i].key == labels[i].0;
    }
  }

  /** A zone label naming one zone, with no delimiter and no surrounding
      white space, admits exactly that zone, as any other label does. */
  lemma SingleZoneAdmitsItself(zone: string)
    requires zone != "" && !Contains(zone, LabelMultiZoneDelimiter)
    requires !IsSpace(zone[0]) && !IsSpace(zone[|zone| - 1])
    ensures AdmittedValues(LabelZoneFailureDomain, zone) == [zone]
  {
    assert Split(zone, LabelMultiZoneDelimiter) == [zone];
    VolumeUtil.TrimSpaceOfTrimmed(zone);
  }

  /** Labels none of which is a multi-zone list give the same requirements
      as the one-value-per-label rule. */
  lemma {:induction false} LabelRequirementsPlain(labels: seq<(string, string)>)
    requires forall i :: 0 <= i < |labels| ==> labels[i].0 != LabelZoneFailureDomain
    ensures LabelRequirements(labels) == Ok(SingleValueRequirements(labels))
  {
    if |labels| > 0 {
      var tail := labels[1..];
      assert forall i :: 0 <= i < |tail| ==> tail[i] == labels[i + 1];
      LabelRequirementsPlain(tail);
      assert LabelValues(labels[0].0, labels[0].1) == Ok([labels[0].1]);
      SingleValueRequirementsCons(labels);
    }
  }

  // ---------------------------------------------------------------------
  // Provisioning

  /** `Provision`: validate the claim's access modes, take the cloud's
      answer, turn its labels into node-selector requirements, and describe
      the new persistent volume. */
  function Provision(options: VolumeOptions, gates: Gates, created: Result<CreatedDisk>): (r: Result<PersistentVolume>)
    requires created.Ok? ==> DistinctKeys(created.value.labels)
    ensures r.Ok? <==>
      && VolumeUtil.AccessModesContainedInAll(AccessModes, options.pvc.accessModes)
      && created.Ok? && LabelRequirements(created.value.labels).Ok?
    ensures r.Ok? ==> r.value == DescribeVolume(options, gates, created.value, LabelRequirements(created.value.labels).value)
  {
    if !VolumeUtil.AccessModesContainedInAll(AccessModes, options.pvc.accessModes) then
      Err(ErrAccessModes)
    else
      match created
      case Err(e) => Err(e)
      case Ok(disk) =>
        match LabelRequirements(disk.labels)
        case Err(e) => Err(e)
        case Ok(reqs) => Ok(DescribeVolume(options, gates, disk, reqs))
  }

  /** Provisioning succeeds exactly when the claim asks only for the
      modes a persistent disk supports, the cloud created the disk, and
      every label parses. */
  lemma ProvisionSucceeds(options: VolumeOptions, gates: Gates, created: Result<CreatedDisk>)
    requires created.Ok? ==> DistinctKeys(created.value.labels)
    ensures Provision(options, gates, created).Ok? <==>
      && (forall m :: m in options.pvc.accessModes ==> m == ReadWriteOnce || m == ReadOnlyMany)
      && created.Ok?
      && (forall i :: 0 <= i < |created.value.labels| ==> LabelParses(created.value.labels[i]))
  {
  }

  /** A provisioned volume pins its pods to the nodes that carry every
      label of the disk with an admitted value, whenever the scheduling
      gate is on and the disk has labels. */
  lemma ProvisionedAffinity(options: VolumeOptions, gates: Gates, created: Result<CreatedDisk>)
    requires created.Ok? ==> DistinctKeys(created.value.labels)
    requires Provision(options, gates, created).Ok?
    ensures var pv := Provision(options, gates, created).value; var disk := created.value;
      && (pv.nodeAffinity.Some? <==> gates.volumeScheduling && |disk.labels| > 0)
      && (pv.nodeAffinity.Some? ==> |pv.nodeAffinity.value| == |disk.labels|)
      && (pv.nodeAffinity.Some? ==> forall node :: SatisfiesAll(node, pv.nodeAffinity.value) <==> CarriesAdmitted(node, disk.labels))
  {
    LabelRequirementsMeaning(created.value.labels);
  }

  /** The persistent volume `Provision` returns for a created disk whose
      labels gave the requirements `reqs`. */
  function DescribeVolume(options: VolumeOptions, gates: Gates, disk: CreatedDisk, reqs: seq<Requirement>): (pv: PersistentVolume)
    requires DistinctKeys(disk.labels)
    ensures pv.name == options.pvName
    ensures pv.annotations == map[VolumeDynamicallyCreatedByKey := ProvisionerName]
    ensures |pv.accessModes| >= 1
    ensures forall m :: m in pv.accessModes ==> m in AccessModes || m in options.pvc.accessModes
    ensures |options.pvc.accessModes| > 0 ==> pv.accessModes == options.pvc.accessModes
    ensures |options.pvc.accessModes| == 0 ==> pv.accessModes == AccessModes
    ensures ResourceStorage in pv.capacity && pv.capacity[ResourceStorage].milli == 1000 * GiB * disk.sizeGB
    ensures pv.volumeMode == (if gates.blockVolume then options.pvc.volumeMode else None)
    ensures pv.gcePd.Some? && pv.ebs.None? && pv.azureFile.None? && pv.azureDisk.None?
    ensures pv.gcePd.value.pdName == disk.volumeID
    ensures pv.gcePd.value.partition == 0 && !pv.gcePd.value.readOnly
    ensures pv.gcePd.value.fsType == "" <==> ClaimWantsBlock(gates, options.pvc)
    ensures !ClaimWantsBlock(gates, options.pvc) && disk.fsType != "" ==> pv.gcePd.value.fsType == disk.fsType
    ensures !ClaimWantsBlock(gates, options.pvc) && disk.fsType == "" ==> pv.gcePd.value.fsType == DefaultFsType
    ensures pv.mountOptions == options.mountOptions
    ensures pv.reclaimPolicy == options.reclaimPolicy
    ensures MapsPairs(pv.labels, disk.labels)
    ensures pv.nodeAffinity.Some? <==> gates.volumeScheduling && |reqs| > 0
    ensures pv.nodeAffinity.Some? ==> pv.nodeAffinity.value == reqs
  {
    PersistentVolume(
      name := options.pvName,
      labels := ToMap(disk.labels),
      annotations := map[VolumeDynamicallyCreatedByKey := ProvisionerName],
      accessModes := ProvisionedAccessModes(AccessModes, options.pvc),
      capacity := GiBCapacity(disk.sizeGB),
      volumeMode := ProvisionedVolumeMode(gates, options.pvc),
      ebs := None,
      gcePd := Some(GcePdSource(disk.volumeID, ProvisionedFsType(gates, options.pvc, disk.fsType), 0, false)),
      azureFile := None,
      azureDisk := None,
      mountOptions := options.mountOptions,
      reclaimPolicy := options.reclaimPolicy,
      nodeAffinity := if gates.volumeScheduling && |reqs| > 0 then Some(reqs) else None,
      claimNamespace := "")
  }
}
