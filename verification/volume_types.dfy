/** The Kubernetes API objects the volume code reads and writes, reduced to
    the fields that code touches. A Go pointer that may be nil is an `Option`;
    a Go map whose iteration order matters is a sequence of key/value pairs
    with distinct keys, listed in iteration order. */
module VolumeTypes {
  import opened Wrappers
  import opened Quantities

  /** Well-known label keys and annotation names. */
  const LabelZoneFailureDomain: string := "failure-domain.beta.kubernetes.io/zone"
  const LabelZoneRegion: string := "failure-domain.beta.kubernetes.io/region"
  const LabelMultiZoneDelimiter: string := "__"
  const MountOptionAnnotation: string := "volume.beta.kubernetes.io/mount-options"
  const ProvisionedVolumeName: string := "placeholder-for-provisioning"
  const ResourceStorage: string := "storage"
  /** The annotation naming the provisioner that created a volume. */
  const VolumeDynamicallyCreatedByKey: string := "kubernetes.io/createdby"
  /** The directory, under a plugin's directory, holding the global mounts. */
  const MountsInGlobalPDPath: string := "mounts"

  const GB: int := 1000 * 1000 * 1000
  const GiB: int := 1024 * 1024 * 1024

  datatype AccessMode = ReadWriteOnce | ReadOnlyMany | ReadWriteMany

  datatype VolumeMode = Filesystem | Block

  datatype EbsSource = EbsSource(volumeID: string, fsType: string, partition: int, readOnly: bool)

  datatype GcePdSource = GcePdSource(pdName: string, fsType: string, partition: int, readOnly: bool)

  /** The inline Azure File source of a pod volume. */
  datatype AzureFileSource = AzureFileSource(secretName: string, shareName: string, readOnly: bool)

  /** The Azure File source of a persistent volume, which may name the
      namespace of its secret. */
  datatype AzureFilePvSource =
    AzureFilePvSource(secretName: string, shareName: string, secretNamespace: Option<string>, readOnly: bool)

  datatype AzureDiskSource = AzureDiskSource(diskName: string, dataDiskURI: string)

  /** A volume written inline in a pod; each plugin's source may be absent. */
  datatype Volume = Volume(
    name: string,
    ebs: Option<EbsSource>,
    gcePd: Option<GcePdSource>,
    azureFile: Option<AzureFileSource>)

  /** A node-selector requirement with operator `In`. */
  datatype Requirement = Requirement(key: string, values: seq<string>)

  datatype PersistentVolume = PersistentVolume(
    name: string,
    labels: map<string, string>,
    annotations: map<string, string>,
    accessModes: seq<AccessMode>,
    capacity: map<string, Quantity>,
    volumeMode: Option<VolumeMode>,
    ebs: Option<EbsSource>,
    gcePd: Option<GcePdSource>,
    azureFile: Option<AzureFilePvSource>,
    azureDisk: Option<AzureDiskSource>,
    mountOptions: seq<string>,
    reclaimPolicy: string,
    /** The required node-selector term's match expressions, when the volume
        has node affinity. */
    nodeAffinity: Option<seq<Requirement>>,
    claimNamespace: string)

  /** `volume.Spec`: an inline volume or a persistent volume, and the
      read-only flag of the claim that mounts the latter. */
  datatype Spec = Spec(volume: Option<Volume>, pv: Option<PersistentVolume>, readOnly: bool)

  datatype Claim = Claim(
    namespace: string,
    accessModes: seq<AccessMode>,
    volumeMode: Option<VolumeMode>,
    requests: map<string, Quantity>,
    hasSelector: bool)

  /** `volume.VolumeOptions` as the provisioners read it. */
  datatype VolumeOptions = VolumeOptions(
    pvName: string,
    clusterName: string,
    reclaimPolicy: string,
    mountOptions: seq<string>,
    pvc: Claim,
    parameters: seq<(string, string)>)

  datatype Node = Node(labels: map<string, string>)

  /** A `TopologySelectorTerm`: its label expressions, each a key and values. */
  datatype TopologyTerm = TopologyTerm(expressions: seq<Requirement>)

  /** The feature gates the provisioners consult. */
  datatype Gates = Gates(blockVolume: bool, volumeScheduling: bool)

  /** The keys of an iteration-ordered map are distinct. */
  predicate DistinctKeys<V>(pairs: seq<(string, V)>) {
    forall i, j :: 0 <= i < j < |pairs| ==> pairs[i].0 != pairs[j].0
  }

  /** `m` holds exactly the keys of `pairs`, each with its paired value. */
  predicate MapsPairs<V(==)>(m: map<string, V>, pairs: seq<(string, V)>) {
    && m.Keys == (set i | 0 <= i < |pairs| :: pairs[i].0)
    && forall i :: 0 <= i < |pairs| ==> pairs[i].0 in m && m[pairs[i].0] == pairs[i].1
  }

  /** The map an iteration-ordered pair list stands for. */
  function ToMap<V(==)>(pairs: seq<(string, V)>): (m: map<string, V>)
    requires DistinctKeys(pairs)
    ensures m.Keys == set i | 0 <= i < |pairs| :: pairs[i].0
    ensures forall i :: 0 <= i < |pairs| ==> m[pairs[i].0] == pairs[i].1
    ensures MapsPairs(m, pairs)
  {
    if |pairs| == 0 then map[]
    else
      var rest := ToMap(pairs[1..]);
      assert forall i :: 1 <= i < |pairs| ==> pairs[i] == pairs[1..][i - 1];
      rest[pairs[0].0 := pairs[0].1]
  }

  /** A node satisfies a requirement when it carries the key with one of
      the listed values. */
  predicate Satisfies(node: Node, req: Requirement) {
    req.key in node.labels && node.labels[req.key] in req.values
  }

  /** The claim asks for block mode while the block-volume gate is on
      (`CheckPersistentVolumeClaimModeBlock`). */
  predicate ClaimWantsBlock(gates: Gates, pvc: Claim) {
    gates.blockVolume && pvc.volumeMode == Some(Block)
  }
}
