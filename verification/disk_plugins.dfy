/** What the AWS EBS and GCE PD plugins have in common: the partition string
    a mounter uses, the cloud's answer to a disk creation request, and the
    rules that turn that answer and the claim into the provisioned
    volume's file system type, access modes, volume mode and node affinity. */
module DiskPlugins {
  import opened Wrappers
  import opened Strings
  import opened Quantities
  import opened VolumeTypes

  /** What the cloud's `CreateVolume` returns on success: the disk's ID, its
      size in GiB, its labels in map iteration order and its file system type. */
  datatype CreatedDisk = CreatedDisk(volumeID: string, sizeGB: int, labels: seq<(string, string)>, fsType: string)

  const DefaultFsType: string := "ext4"

  /** The mounter's partition: none for partition 0, otherwise the decimal
      text of the (32-bit) partition number. */
  function PartitionName(partition: int): (r: string)
    requires InInt32(partition)
    ensures r == "" <==> partition == 0
    ensures partition != 0 ==> Atoi(r) == Some(partition) && CanonicalDecimal(r)
  {
    if partition == 0 then ""
    else
      AtoiOfIntToString(partition);
      IntToString(partition)
  }

  /** The partition text is the one spelling `strconv.Itoa` gives: any
      canonical decimal that reads back as the partition is that text. */
  lemma PartitionNameIsItoa(partition: int, s: string)
    requires InInt32(partition) && partition != 0
    requires CanonicalDecimal(s) && Atoi(s) == Some(partition)
    ensures PartitionName(partition) == s
  {
    CanonicalDecimalUnique(PartitionName(partition), s);
  }

  /** The file system type of a provisioned volume: none for a block-mode
      claim while the block-volume gate is on, else the cloud's, else ext4. */
  function ProvisionedFsType(gates: Gates, pvc: Claim, created: string): (r: string)
    ensures r == "" <==> ClaimWantsBlock(gates, pvc)
    ensures !ClaimWantsBlock(gates, pvc) && created != "" ==> r == created
    ensures !ClaimWantsBlock(gates, pvc) && created == "" ==> r == DefaultFsType
  {
    var fsType := if created == "" then DefaultFsType else created;
    if gates.blockVolume && pvc.volumeMode == Some(Block) then "" else fsType
  }

  /** The claim's access modes, or the plugin's when the claim names none. */
  function ProvisionedAccessModes(pluginModes: seq<AccessMode>, pvc: Claim): (r: seq<AccessMode>)
    ensures |pvc.accessModes| > 0 ==> r == pvc.accessModes
    ensures |pvc.accessModes| == 0 ==> r == pluginModes
  {
    if |pvc.accessModes| == 0 then pluginModes else pvc.accessModes
  }

  /** The volume mode is copied from the claim only while the gate is on. */
  function ProvisionedVolumeMode(gates: Gates, pvc: Claim): (r: Option<VolumeMode>)
    ensures r.Some? ==> gates.blockVolume && r == pvc.volumeMode
    ensures gates.blockVolume ==> r == pvc.volumeMode
  {
    if gates.blockVolume then pvc.volumeMode else None
  }

  /** `fmt.Sprintf("%dGi", sizeGB)` as a storage quantity. */
  function GiBCapacity(sizeGB: int): (r: map<string, Quantity>)
    ensures ResourceStorage in r && r[ResourceStorage].milli == 1000 * GiB * sizeGB
  {
    map[ResourceStorage := FromValue(sizeGB * GiB)]
  }

  /** One `In [v]` requirement per label, in iteration order. */
  function SingleValueRequirements(labels: seq<(string, string)>): (r: seq<Requirement>)
    ensures |r| == |labels|
    ensures forall i :: 0 <= i < |labels| ==> r[i].key == labels[i].0 && r[i].values == [labels[i].1]
  {
    seq(|labels|, i requires 0 <= i < |labels| => Requirement(labels[i].0, [labels[i].1]))
  }

  /** The requirements of a non-empty label list: the first label's, then
      the rest's. */
  lemma SingleValueRequirementsCons(labels: seq<(string, string)>)
    requires |labels| > 0
    ensures SingleValueRequirements(labels) ==
      [Requirement(labels[0].0, [labels[0].1])] + SingleValueRequirements(labels[1..])
  {
    var whole := SingleValueRequirements(labels);
    var rest := SingleValueRequirements(labels[1..]);
    assert forall i :: 1 <= i < |labels| ==> whole[i] == rest[i - 1];
  }

  /** A node meets every requirement of a node-affinity term. */
  predicate SatisfiesAll(node: Node, reqs: seq<Requirement>) {
    forall i :: 0 <= i < |reqs| ==> Satisfies(node, reqs[i])
  }

  /** A node carries every one of the given labels. */
  predicate CarriesLabels(node: Node, labels: seq<(string, string)>) {
    forall i :: 0 <= i < |labels| ==> labels[i].0 in node.labels && node.labels[labels[i].0] == labels[i].1
  }

  /** A node meets the single-value requirements made from some labels
      exactly when it carries those labels. */
  lemma SingleValueRequirementsMeaning(labels: seq<(string, string)>)
    ensures forall node :: SatisfiesAll(node, SingleValueRequirements(labels)) <==> CarriesLabels(node, labels)
  {
    var reqs := SingleValueRequirements(labels);
    forall node, i | 0 <= i < |labels|
      ensures Satisfies(node, reqs[i]) <==> labels[i].0 in node.labels && node.labels[labels[i].0] == labels[i].1
    {
      assert reqs[i].values == [labels[i].1];
    }
  }
}
