# Kubernetes volume, resource, logs and CNI decision logic in Dafny

This project models the pure decision logic that sits between the I/O calls of several Kubernetes components. The model is written in Dafny, and the properties below are proved about it. The components are:

- **Volume utilities** (`pkg/volume/util/util.go`):
  - size rounding;
  - zone-list parsing;
  - mount-option merging;
  - volume-name generation;
  - unique-name splitting;
  - access-mode containment;
  - Windows path rewriting;
  - the zone-selection machinery that spreads StatefulSet volumes over zones by an FNV-1 hash and a `uint32` offset.
- **Pod resource aggregation** (`pkg/api/v1/resource/helpers.go`):
  - pointwise sum and maximum of resource lists;
  - pod requests and limits;
  - `GetResourceRequest` with its literal CPU branch;
  - limit back-filling from node allocatable;
  - the downward-API field dispatch.
- **Volume plugins**:
  - AWS EBS: volume-source selection, volume-ID normalisation, the global mount path and its reversal, and provisioning.
  - GCE PD: the instance-type attach limit, volume-source selection, and provisioning with multi-zone label requirements.
  - Azure managed disks: disk-URI parsing, tag sanitisation, the create request, provisioning-state polling, the resize decision and zone labels.
  - Azure File: volume-source selection, secret lookup, expansion, the mount source string, and provisioning (share name, parameters, account kind, capacity, secret namespace).
- **`kubectl logs`** (`pkg/kubectl/cmd/logs/logs.go`): option defaults, conversion to pod log options, argument dispatch and validation.
- **The CNI network plugin** (`pkg/kubelet/dockershim/network/cni/cni.go`):
  - the set-once pod-CIDR state;
  - the readiness check;
  - bin-directory filtering;
  - choice of the default network from the sorted config files;
  - the runtime configuration passed to plugins;
  - tolerance of missing namespaces on delete.

## Modelling choices

- **Collections.**
  - A `sets.String` is a `set<string>`. Its `List()` is the strictly sorted sequence `StringOrder.SortedList`, ordered by code point, which is Go's byte order for UTF-8.
  - A Go map whose iteration order matters (labels, tags, storage-class parameters) is a sequence of key/value pairs in iteration order. Order-dependent outcomes are therefore explicit and deterministic: the last of two colliding tags wins, and so does the last of two parameters that differ only in case.
- **Integers.**
  - Integers are unbounded. Go's `int32`, `int64` and `uint32` wrap-around is written out (`Quantities.WrapInt32`, `Quantities.WrapInt64`, arithmetic mod 2^32 in `Zones`).
  - Go's truncating `/` and `%` are `Quantities.TruncDiv` and `Quantities.TruncMod`.
- **Quantities.**
  - A `resource.Quantity` is its value in thousandths (`milli`).
  - `Value()` rounds up, away from zero, to whole units.
- **FNV-1.** The 32-bit FNV-1 hash is modelled exactly over the UTF-8 bytes of a string, with `bv32` arithmetic.
- **Go library functions.** `strings.Split`, `SplitN`, `Replace`, `TrimSpace` and `LastIndexByte`, `strconv.Atoi` and `ParseUint`, and `filepath.Clean`, `Join` and `Rel` are modelled in the helper modules `Strings` and `FilePath`.
- **Outside inputs as parameters.** Cloud and SDK answers, file listings, config loaders, feature gates, the random hash for an unnamed claim and RFC 3339 parsing are all parameters ("oracles"). An operation's result is stated in terms of these answers.

## Model

| member | source | states |
|---|---|---|
| VolumeUtil.RoundUpBounds | pkg/volume/util/util.go:513-519 | for a non-negative size and positive unit the result is the least number of units holding the size: `size <= r*unit` and `(r-1)*unit < size` |
| VolumeUtil.RoundUpSize | pkg/volume/util/util.go:513-519 | the rounded size stays within `int64`, also when the quotient of the most negative size by -1 wraps |
| VolumeUtil.RoundUpSizeExact | pkg/volume/util/util.go:513-519 | a whole number of units is returned unrounded |
| VolumeUtil.RoundUpSizeExample | pkg/volume/util/util.go:508-519 | 1500 MiB needs two GiB units |
| VolumeUtil.RoundUpToGiB | pkg/volume/util/util.go:528-531 | the least number of GiB holding a non-negative quantity's value, within `int64` |
| VolumeUtil.RoundUpToGB | pkg/volume/util/util.go:522-525 | the least number of GB (10^9 bytes) holding a non-negative quantity's value |
| VolumeUtil.RoundUpSizeInt | pkg/volume/util/util.go:536-543 | fails exactly when `int` is 32 bits wide and the rounded size does not fit in it; otherwise it is the rounded size |
| VolumeUtil.TrimPiecesMeaning | pkg/volume/util/util.go:477-490 | trimming pieces succeeds exactly when no piece is blank; the result is the trimmed pieces in order |
| VolumeUtil.StringToList | pkg/volume/util/util.go:477-490 | succeeds exactly when no delimiter-separated piece trims to empty; the result is each piece trimmed, in order |
| VolumeUtil.StringToSet | pkg/volume/util/util.go:455-469 | succeeds exactly when the list form does, and holds exactly the list's elements |
| VolumeUtil.LabelZonesToList | pkg/volume/util/util.go:472-474 | a "__"-joined label value parses exactly when no piece is blank, giving one non-empty zone per piece |
| VolumeUtil.EmptyListRejected | pkg/volume/util/util.go:477-490 | the empty string is not a zone list |
| VolumeUtil.ZoneListRoundTrip | pkg/volume/util/util.go:477-490 | joining non-empty, comma-free, already-trimmed zones with "," parses back to the same list |
| VolumeUtil.JoinMountOptions | pkg/volume/util/util.go:759-772 | the result is strictly sorted, so free of duplicates, and holds exactly the non-empty user options and all system options |
| VolumeUtil.JoinMountOptionsSymmetric | pkg/volume/util/util.go:759-772 | with no empty options, merging is independent of which list is the user's |
| VolumeUtil.MountOptionFromSpec | pkg/volume/util/util.go:740-756 | without a persistent volume the given options come back unchanged; with the legacy annotation the result is sorted and holds exactly its non-empty comma-separated options and the given ones; otherwise a non-empty mount-option field is merged the same way; with neither, the given options come back unchanged |
| VolumeUtil.AnnotationWinsOverField | pkg/volume/util/util.go:744-748 | while the annotation is present, the volume's mount-option field has no effect on the result |
| VolumeUtil.FieldOptionsMounted | pkg/volume/util/util.go:751-753 | without the annotation, every non-empty option of the field is mounted |
| VolumeUtil.GenerateVolumeName | pkg/volume/util/util.go:563-573 | the name ends in "-"+pvName and fits in maxLength; it is cluster+"-dynamic-"+pvName when that fits, else exactly maxLength long, with the prefix truncated |
| VolumeUtil.SplitUniqueName | pkg/volume/util/util.go:886-893 | succeeds exactly when the name holds two '/'; the parts rebuild the name, and the plugin part holds exactly one '/' |
| VolumeUtil.GetUniqueVolumeName | pkg/volume/util/util.go:824-826 | the plugin name, one '/', then the volume name; `VolumeUtil.UniqueNameRoundTrip` splits it back |
| VolumeUtil.UniqueNameRoundTrip | pkg/volume/util/util.go:824-826 | splitting the unique name of a plugin with exactly one '/' gives back the plugin and volume names |
| VolumeUtil.UniqueNameSplit | pkg/volume/util/util.go:886-893 | the unique name of plugin "ns/pl" and any volume splits back into its parts |
| VolumeUtil.AccessModesContains | pkg/volume/util/util.go:785-792 | true exactly when the mode is listed |
| VolumeUtil.AccessModesContainedInAll | pkg/volume/util/util.go:795-802 | true exactly when every requested mode is among the indexed ones |
| VolumeUtil.ValidateZone | pkg/volume/util/util.go:777-782 | fails exactly when the zone is empty or all white space |
| VolumeUtil.CalculateTimeoutForVolume | pkg/volume/util/util.go:496-506 | the greater of the minimum and the capacity in whole GiB times the increment (in `int64`): at least both, and equal to one of them |
| VolumeUtil.TimeoutMonotone | pkg/volume/util/util.go:496-506 | without overflow, a larger volume never gets a shorter timeout |
| VolumeUtil.TimeoutExample | pkg/volume/util/util.go:496-506 | a 10 GiB volume with minimum 30 and increment 60 waits 600 |
| VolumeUtil.GetWindowsPath | pkg/volume/util/util.go:805-811 | no '/' remains; "c:" is put in front exactly when the path starts with '/' or '\'; after it, the path follows character by character with each '/' turned into '\' |
| VolumeUtil.GetWindowsPathIdempotent | pkg/volume/util/util.go:805-811 | rewriting an already rewritten path changes nothing |
| VolumeUtil.MakeAbsolutePath | pkg/volume/util/util.go:951-966 | off Windows, the cleaned rooted form of the path, itself clean; on Windows, a path holding ':' is kept, one starting with a slash gets "c:", and any other gets "c:\" |
| VolumeUtil.MakeAbsolutePathWindowsIdempotent | pkg/volume/util/util.go:955-965 | on Windows, making an absolute path absolute again changes nothing |
| Fnv.Hash32 | pkg/volume/util/util.go:718-720 | the FNV-1 32-bit hash is below 2^32 |
| Fnv.AbsorbAppend | pkg/volume/util/util.go:718-720 | hashing bytes written in two pieces equals hashing their concatenation |
| Fnv.KnownValues | pkg/volume/util/util.go:718-720 | the empty string hashes to the FNV offset basis 0x811c9dc5, and "a" to 0x050c5d7e |
| Zones.StatefulSetSuffix | pkg/volume/util/util.go:692-700 | a parsed "-<n>" suffix is a `uint32` and leaves a strictly shorter prefix |
| Zones.HashedPart | pkg/volume/util/util.go:706-711 | the hashed part is a dash-free suffix of the prefix |
| Zones.HashAndIndexOffset | pkg/volume/util/util.go:674-724 | both values are `uint32`; an empty name gives the random hash and offset 0; a name without a numeric suffix gives its own hash and offset 0 |
| Zones.StatefulSetClaim | pkg/volume/util/util.go:692-720 | a claim named claim-set-id hashes only the set name and is offset by id |
| Zones.SameMemberSameZones | pkg/volume/util/util.go:683-689 | two claims of the same StatefulSet member get the same zones |
| Zones.ChooseZoneForVolume | pkg/volume/util/util.go:589-612 | no zones give ""; otherwise the zone chosen is one of the zones |
| Zones.LoopBound | pkg/volume/util/util.go:663-664 | the loop bound start+numZones wraps modulo 2^32 |
| Zones.ZonesFromStart | pkg/volume/util/util.go:663-667 | the loop picks only zones of the list, at most numZones of them |
| Zones.PicksCount | pkg/volume/util/util.go:664-666 | without wrap-around, consecutive offsets fewer than the distinct zones pick that many distinct zones |
| Zones.ZonesFromStartExact | pkg/volume/util/util.go:663-667 | without wrap-around and with numZones no more than the zones, exactly numZones zones are picked |
| Zones.ZonesFromStartWraps | pkg/volume/util/util.go:663-664 | starting at offset 2^32-1 with one zone wanted, the bound wraps to 0 and nothing is picked |
| Zones.ChooseZonesForVolume | pkg/volume/util/util.go:642-672 | the result is a subset of the zones with at most numZones elements, and empty for no zones |
| Zones.ChooseZonesExact | pkg/volume/util/util.go:642-672 | when the offsets do not wrap, exactly numZones zones are chosen |
| Zones.ChooseZonesWrapsToNothing | pkg/volume/util/util.go:663-667 | a StatefulSet member with ordinal 2^32-1 asking for one zone gets none |
| Zones.LastOffsetWraps | pkg/volume/util/util.go:663-667 | any claim whose offset is 2^32-1 gets no zone when asking for one |
| Zones.ChooseZonesIncludingZone | pkg/volume/util/util.go:617-639 | errors exactly for 0 replicas, too few zones or a non-member zone to include; otherwise a subset of at most numReplicas zones, holding the included zone, equal to all zones when there are exactly numReplicas; the input set after the call has lost the included zone |
| Zones.ExpressionZones | pkg/volume/util/util.go:423-430 | succeeds exactly when every expression is on the zone label; the zones are exactly the expressions' values |
| Zones.ZonesFromAllowedTopologies | pkg/volume/util/util.go:419-433 | succeeds exactly when every expression of every term is on the zone label; the zones are exactly those the terms mention |
| Zones.SelectZonesForVolume | pkg/volume/util/util.go:338-416 | both zone parameters are an error; a node with a zone label and one replica gives exactly the node's zone; a result never has more zones than replicas, except that a `zone` parameter with 0 replicas gives that one zone; the set it leaves in the caller's hands is `Zones.ZonesWithNodesAfterSelection` |
| Zones.ZonesByParameters | pkg/volume/util/util.go:367-415 | a single zone with several replicas is an error, and so are topologies on other keys; chosen zones lie within the allowed topologies; at most numReplicas zones are returned, except that a `zone` parameter with 0 replicas gives that one zone; the zones it returns, with the caller-visible deletion modelled by `Zones.ZonesWithNodesAfterSelection` |
| Zones.ZonesWithNodesAfterSelection | pkg/volume/util/util.go:404-415 | the caller's zonesWithNodes afterwards: the node's zone is deleted from it (util.go:631) exactly for a node with a non-empty zone in the set, no zone parameters or allowed topologies, and more than one but fewer replicas than zones; nothing else is removed |
| Zones.RemovedZoneIsChosen | pkg/volume/util/util.go:404-415 | when the node's zone is deleted from the caller's set, selection succeeded and placed a replica in that zone |
| Zones.SelectionForNode | pkg/volume/util/util.go:348-358 | with a node, any zone parameter is an error, and so is a node without a zone label |
| Zones.SelectionRejects | pkg/volume/util/util.go:391-396 | the zone parameter with more than one replica is an error; topologies on other keys are an error unless one replica follows its node |
| Zones.SelectionDelegates | pkg/volume/util/util.go:341-366 | past the node checks, selection is decided by the parameters and topologies alone |
| Zones.SelectionRespectsAllowedTopologies | pkg/volume/util/util.go:367-388 | unless one replica follows its node, chosen zones lie within non-empty allowed topologies |
| ResourceHelpers.AddResourceList | pkg/api/v1/resource/helpers.go:29-38 | keys are the union; shared keys sum, new keys are copied, other keys are unchanged |
| ResourceHelpers.MaxResourceList | pkg/api/v1/resource/helpers.go:42-53 | keys are the union; shared keys take the larger value, new keys are copied, other keys are unchanged |
| ResourceHelpers.SumContainersPerKey | pkg/api/v1/resource/helpers.go:60-62 | the container loop holds a resource exactly when some container lists it, with the sum of their values |
| ResourceHelpers.SumContainers | pkg/api/v1/resource/helpers.go:59-62 | the summed list holds a resource exactly when the start or some container lists it |
| ResourceHelpers.MaxContainers | pkg/api/v1/resource/helpers.go:64-67 | the raised list holds a resource exactly when the start or some init container lists it |
| ResourceHelpers.MaxContainersPerKey | pkg/api/v1/resource/helpers.go:64-67 | the init-container loop raises each resource to the largest of its start and every init container's value |
| ResourceHelpers.PodRequestsAndLimitsPerKey | pkg/api/v1/resource/helpers.go:57-69 | per resource, requests and limits are the larger of the containers' sum and each init container's value, and present exactly when one of them is |
| ResourceHelpers.PodRequestsAndLimits | pkg/api/v1/resource/helpers.go:57-69 | requests (limits) hold a resource exactly when some container or init container requests (limits) it |
| ResourceHelpers.MaxOfBounds | pkg/api/v1/resource/helpers.go:64-67 | the per-resource maximum is at least its start and every init container's value |
| ResourceHelpers.SumRequests | pkg/api/v1/resource/helpers.go:77-85 | the running `int64` sum equals the mathematical total of the requests (thousandths for CPU, whole units otherwise), wrapped into `int64`, so exactly that total when it fits |
| ResourceHelpers.GetResourceRequest | pkg/api/v1/resource/helpers.go:72-96 | 1 for pods; otherwise at least the wrapped container total; for non-CPU resources the largest of that total and every init request, for CPU with non-negative init requests the largest in thousandths |
| ResourceHelpers.RequestTotalFront | pkg/api/v1/resource/helpers.go:77-85 | the reference total splits off the first container as well as the last |
| ResourceHelpers.RaiseByInitsBounds | pkg/api/v1/resource/helpers.go:87-95 | for resources other than CPU, the result is at least the sum and every init container's value, and equals one of them |
| ResourceHelpers.RaiseByInitsCpu | pkg/api/v1/resource/helpers.go:87-95 | with non-negative CPU requests, the CPU request is the larger of the sum and every init container's request, in thousandths |
| ResourceHelpers.CpuUnitBranch | pkg/api/v1/resource/helpers.go:88-92 | with negative CPU requests the whole-unit comparison fires and mixes units: -1 and -1.5 CPU give -2 |
| ResourceHelpers.FindContainerInPod | pkg/api/v1/resource/helpers.go:174-181 | errors exactly when no container has the name; otherwise the first container with it |
| ResourceHelpers.MergeContainerResourceLimits | pkg/api/v1/resource/helpers.go:185-197 | cpu, memory and ephemeral-storage limits that are missing or zero are filled from allocatable when it has them; every other limit, and the requests, are unchanged |
| ResourceHelpers.FillLimit | pkg/api/v1/resource/helpers.go:190-195 | one resource is filled only when missing or zero and allocatable has it; no other key changes |
| ResourceHelpers.TargetOf | pkg/api/v1/resource/helpers.go:134-149 | exactly the six supported selectors dispatch, each to a downward resource |
| ResourceHelpers.TargetOfField | pkg/api/v1/resource/helpers.go:134-147 | "limits.k" reads the limit and "requests.k" the request of k |
| ResourceHelpers.ExtractContainerResourceValue | pkg/api/v1/resource/helpers.go:126-150 | succeeds exactly for the six supported selectors; a zero divisor becomes 1 |
| ResourceHelpers.FieldReadsContainer | pkg/api/v1/resource/helpers.go:126-150 | each supported selector divides the container's limit or request (zero if unset), comparing thousandths only for CPU |
| ResourceHelpers.ExtractResourceValueByContainerNameAndNodeAllocatable | pkg/api/v1/resource/helpers.go:111-122 | succeeds exactly when a container has the name and the selector is supported; the value is read from the first such container with its limits back-filled from the node |
| ResourceHelpers.LimitFieldReadsAllocatable | pkg/api/v1/resource/helpers.go:111-122 | a "limits.<k>" field reads the node's allocatable amount when the container sets no or a zero limit, and the container's own limit otherwise |
| DiskPlugins.PartitionName | pkg/volume/awsebs/aws_ebs.go:162-165 | partition 0 gives ""; any other partition gives its canonical decimal spelling, as `strconv.Itoa` writes it (no '+', no leading zero, no "-0"), which parses back to it |
| DiskPlugins.PartitionNameIsItoa | pkg/volume/awsebs/aws_ebs.go:162-165 | that spelling is unique: any canonical decimal that reads back as the partition is exactly the partition text |
| Strings.CanonicalDecimalUnique | pkg/volume/gcepd/gce_pd.go:197-201 | two canonical decimals that `Atoi` reads as the same number are the same string, so the `strconv.Itoa` text is fixed by its value |
| DiskPlugins.ProvisionedFsType | pkg/volume/awsebs/aws_ebs.go:517-528 | the file-system type is empty exactly for a block claim with the gate on; otherwise it is the created one, or "ext4" when that is empty |
| DiskPlugins.ProvisionedVolumeMode | pkg/volume/awsebs/aws_ebs.go:521-524 | the claim's volume mode is copied exactly while the block-volume gate is on, and is absent otherwise |
| DiskPlugins.ProvisionedAccessModes | pkg/volume/awsebs/aws_ebs.go:557-559 | the claim's modes, or the plugin's when the claim lists none |
| DiskPlugins.GiBCapacity | pkg/volume/awsebs/aws_ebs.go:541-543 | the storage capacity is the size in GiB |
| DiskPlugins.SingleValueRequirements | pkg/volume/awsebs/aws_ebs.go:561-570 | one `In [v]` requirement per label, in order |
| DiskPlugins.SingleValueRequirementsMeaning | pkg/volume/awsebs/aws_ebs.go:561-577 | a node meets the requirements exactly when it carries every label |
| AwsEbs.GetVolumeSource | pkg/volume/awsebs/aws_ebs.go:233-243 | succeeds exactly when the inline volume or the persistent volume is EBS; the inline one wins with its own read-only flag, else the spec's flag |
| AwsEbs.GetVolumeName | pkg/volume/awsebs/aws_ebs.go:74-81 | the volume ID of the selected source |
| AwsEbs.MounterTarget | pkg/volume/awsebs/aws_ebs.go:152-183 | the mounter exists exactly when a source is selected, and carries its ID and read-only flag; the partition is "" exactly for partition 0, else its canonical `strconv.Itoa` decimal, which parses back to it |
| AwsEbs.NormalizeVolumeID | pkg/volume/awsebs/aws_ebs.go:258-276 | IDs without "aws/" are unchanged; normalised ones start with "aws://" |
| AwsEbs.NormalizeVolumeIDUnzoned | pkg/volume/awsebs/aws_ebs.go:258-276 | "aws/vol-x" becomes "aws:///vol-x" |
| AwsEbs.NormalizeVolumeIDZoned | pkg/volume/awsebs/aws_ebs.go:258-276 | "aws/z/vol-x" becomes "aws://z/vol-x" |
| AwsEbs.NormalizeVolumeIDRejectsLong | pkg/volume/awsebs/aws_ebs.go:259-264 | more than three components is an error |
| AwsEbs.NormalizeVolumeIDRejectsName | pkg/volume/awsebs/aws_ebs.go:265-268 | a last component not starting with "vol-" is an error |
| AwsEbs.NormalizeVolumeIDRewritesPrefix | pkg/volume/awsebs/aws_ebs.go:258-276 | for every accepted "aws/" name, the leading "aws" becomes "aws://" for two parts and "aws:/" for three, and the rest of the name is kept character for character |
| AwsEbs.GetVolumeIDFromGlobalMount | pkg/volume/awsebs/aws_ebs.go:443-461 | succeeds exactly when the path lies below the mounts directory without "../"; a leading "aws/" becomes "aws://" |
| AwsEbs.MakeGlobalPDPath | pkg/volume/awsebs/aws_ebs.go:435-440 | the global mount path is a non-empty, already clean path; the read-back lemmas below say where each ID lands |
| AwsEbs.RelUnzoned | pkg/volume/awsebs/aws_ebs.go:435-440 | the global path of "aws:///v" lies at "aws/v" below the mounts directory |
| AwsEbs.RelZoned | pkg/volume/awsebs/aws_ebs.go:435-440 | the global path of "aws://z/v" lies at "aws/z/v" below the mounts directory |
| AwsEbs.RelBare | pkg/volume/awsebs/aws_ebs.go:435-440 | the global path of a bare "v" lies at "v" below the mounts directory |
| AwsEbs.GlobalMountUnzonedAsWritten | pkg/volume/awsebs/aws_ebs.go:435-461 | the path of "aws:///v" reads back as "aws://v", not as the ID it came from |
| AwsEbs.GlobalMountZonedAsWritten | pkg/volume/awsebs/aws_ebs.go:435-461 | the path of "aws://z/v" reads back as itself |
| AwsEbs.GlobalMountBareAsWritten | pkg/volume/awsebs/aws_ebs.go:435-461 | the path of a bare "v" reads back as itself |
| AwsEbs.GetVolumeIDFromGlobalMountCorrected | pkg/volume/awsebs/aws_ebs.go:443-461 | succeeds exactly when the source's reversal does, and differs only for the two-component "aws/v" form |
| AwsEbs.GlobalMountRoundTripUnzoned | pkg/volume/awsebs/aws_ebs.go:435-461 | the corrected reversal gives back "aws:///v" |
| AwsEbs.GlobalMountRoundTripZoned | pkg/volume/awsebs/aws_ebs.go:435-461 | the corrected reversal gives back "aws://z/v" |
| AwsEbs.GlobalMountRoundTripBare | pkg/volume/awsebs/aws_ebs.go:435-461 | the corrected reversal gives back a bare "v" |
| AwsEbs.UnzonedReadBack | pkg/volume/awsebs/aws_ebs.go:443-461 | any path found at "aws/v" reads as "aws://v" as written and "aws:///v" when corrected |
| AwsEbs.ZonedReadBack | pkg/volume/awsebs/aws_ebs.go:443-461 | any path found at "aws/z/v" reads as "aws://z/v" both ways |
| AwsEbs.BareReadBack | pkg/volume/awsebs/aws_ebs.go:443-461 | any path found at a bare "v" reads as "v" both ways |
| AwsEbs.Provision | pkg/volume/awsebs/aws_ebs.go:506-580 | succeeds exactly for ReadWriteOnce-only claims and a created disk; the volume carries the disk's ID and size, the claim's modes or exactly the plugin's [ReadWriteOnce] when it has none, a file-system type cleared exactly for block claims, else the disk's type or "ext4" when the disk reports none, the disk's labels, and node affinity exactly when scheduling is on, admitting the nodes that carry every label |
| GcePd.GetVolumeSource | pkg/volume/gcepd/gce_pd.go:177-187 | succeeds exactly when the inline volume or the persistent volume is a PD; the inline one wins with its own read-only flag, else the spec's flag |
| GcePd.GetVolumeName | pkg/volume/gcepd/gce_pd.go:87-94 | the PD name of the selected source |
| GcePd.MounterTarget | pkg/volume/gcepd/gce_pd.go:189-216 | the mounter exists exactly when a source is selected, and carries its PD name and read-only flag; the partition is "" exactly for partition 0, else its canonical `strconv.Itoa` decimal, which parses back to it |
| GcePd.InstanceTypeLimit | pkg/volume/gcepd/gce_pd.go:149-165 | the limit is one of 16, 32, 64, 128; non-"n1-" types get 16; any other limit needs a third dash-separated integer field |
| GcePd.InstanceTypeLimitOfN1 | pkg/volume/gcepd/gce_pd.go:149-165 | "n1-*-N" gets 32 for N = 1, 64 for N below 8, else 128 |
| GcePd.InstanceTypeLimitUnparsable | pkg/volume/gcepd/gce_pd.go:154-163 | a non-integer CPU field keeps the default 16 |
| GcePd.GetVolumeLimits | pkg/volume/gcepd/gce_pd.go:120-166 | errors exactly without a cloud or with another provider; the default when the instance type is unavailable, else the type's limit |
| GcePd.LabelValues | pkg/volume/gcepd/gce_pd.go:532-542 | the zone label's value is split into its zones, failing exactly when it does not parse; other labels give their one value |
| GcePd.LabelRequirements | pkg/volume/gcepd/gce_pd.go:527-545 | succeeds exactly when every label parses; one requirement per label with its admitted values |
| GcePd.LabelRequirementsMeaning | pkg/volume/gcepd/gce_pd.go:527-545 | a node meets the requirements exactly when it carries every label with an admitted value |
| GcePd.SingleZoneAdmitsItself | pkg/volume/gcepd/gce_pd.go:535-536 | a zone label naming one zone admits exactly that zone |
| GcePd.LabelRequirementsPlain | pkg/volume/gcepd/gce_pd.go:540-542 | without a zone label the requirements are single-valued |
| GcePd.ProvisionSucceeds | pkg/volume/gcepd/gce_pd.go:474-555 | succeeds exactly for claims asking only ReadWriteOnce or ReadOnlyMany, a created disk and labels that all parse |
| GcePd.Provision | pkg/volume/gcepd/gce_pd.go:474-555 | succeeds exactly when the claim asks only modes the plugin offers, the disk was created and its labels parse; the volume is then the one `GcePd.DescribeVolume` builds |
| GcePd.ProvisionedAffinity | pkg/volume/gcepd/gce_pd.go:547-552 | node affinity is set exactly when scheduling is on and the disk has labels, admitting nodes that carry every label with an admitted value |
| GcePd.DescribeVolume | pkg/volume/gcepd/gce_pd.go:484-552 | the volume has the claim's modes or the default two, the disk's name and size in GiB, a file-system type cleared exactly for block claims, else the disk's type or "ext4" when the disk reports none, the disk's labels, and the requirements as node affinity exactly when scheduling is on and there are any |
| AzureDisk.ResourceGroupOfFields | pkg/cloudprovider/providers/azure/azure_managedDiskController.go:227-233 | a URI of exactly nine '/'-separated fields parses exactly when the fourth is "resourceGroups", giving the fifth |
| AzureDisk.GetResourceGroupFromDiskURI | pkg/cloudprovider/providers/azure/azure_managedDiskController.go:227-233 | a parsed URI has exactly nine '/'-separated fields |
| AzureDisk.ResourceGroupParsed | pkg/cloudprovider/providers/azure/azure_managedDiskController.go:227-233 | every URI that parses is nine such fields with "resourceGroups" fourth |
| AzureDisk.DiskURIFields | pkg/cloudprovider/providers/azure/azure_managedDiskController.go:227-233 | a managed-disk URI gives back its resource group |
| AzureDisk.SanitizeTag | pkg/cloudprovider/providers/azure/azure_managedDiskController.go:83-84 | every '/' becomes '-', and nothing else changes |
| AzureDisk.AddTagsLookup | pkg/cloudprovider/providers/azure/azure_managedDiskController.go:80-87 | a key is present after the loop exactly when it was before or some tag's key sanitises to it; the last such tag's value wins |
| AzureDisk.LastTagFound | pkg/cloudprovider/providers/azure/azure_managedDiskController.go:81-86 | some tag writes a key exactly when some tag's key sanitises to it |
| AzureDisk.DiskTagsLookup | pkg/cloudprovider/providers/azure/azure_managedDiskController.go:76-87 | the tags hold "created-by" and the sanitised user keys; "created-by" is "kubernetes-azure-dd" unless a user tag overrides it |
| AzureDisk.DiskTags | pkg/cloudprovider/providers/azure/azure_managedDiskController.go:76-87 | "created-by" is always a key; without user tags it is the only one, holding "kubernetes-azure-dd" |
| AzureDisk.DiskTagsSlashFree | pkg/cloudprovider/providers/azure/azure_managedDiskController.go:76-87 | no key or value of the tags holds '/' |
| AzureDisk.CreateRequestFor | pkg/cloudprovider/providers/azure/azure_managedDiskController.go:70-109 | the request uses the given or the controller's resource group, the disk name, location, SKU, the sanitised tags, the zone only when one is given, and the size as `int32` |
| AzureDisk.CreatedDiskFoundByURI | pkg/cloudprovider/providers/azure/azure_managedDiskController.go:103-109 | the URI of a created disk leads back to the resource group it was created in |
| AzureDisk.PollDisk | pkg/cloudprovider/providers/azure/azure_managedDiskController.go:114-129 | polling stops at the first error or "succeeded" state (any case) and keeps the ID of the last answer; it is confirmed exactly when it stopped on a state |
| AzureDisk.CreateManagedDisk | pkg/cloudprovider/providers/azure/azure_managedDiskController.go:66-138 | succeeds exactly when the create call does, returning the last polled ID whether or not polling confirmed the disk |
| AzureDisk.CreateAfterFailedPoll | pkg/cloudprovider/providers/azure/azure_managedDiskController.go:114-137 | a failed first poll still returns success, with an empty ID |
| AzureDisk.CreateAfterSucceededPoll | pkg/cloudprovider/providers/azure/azure_managedDiskController.go:114-137 | a first poll in state "succeeded" returns its ID |
| AzureDisk.ResizeDisk | pkg/cloudprovider/providers/azure/azure_managedDiskController.go:181-222 | errors keep the old size; a write happens exactly when the disk is smaller than the request rounded up to GiB (as `int32`); success reports the request |
| AzureDisk.RequestGiB | pkg/cloudprovider/providers/azure/azure_managedDiskController.go:200-202 | the request in whole GiB as `int32` keeps it: the rounded-up GiB when that fits, so the least GiB count covering any size up to 2^31-1 GiB |
| AzureDisk.ResizeCoversRequest | pkg/cloudprovider/providers/azure/azure_managedDiskController.go:200-211 | when the rounded request fits in 32 bits, success reports the least whole GiB holding the new size, and writes only to grow a disk too small for it |
| AzureDisk.ResizeWrapsAtInt32 | pkg/cloudprovider/providers/azure/azure_managedDiskController.go:202-209 | a request of 2^31 GiB wraps to a negative size and reports success without a write |
| AzureDisk.GetAzureDiskLabels | pkg/cloudprovider/providers/azure/azure_managedDiskController.go:251-288 | labels, when present, are exactly the region (the location) and the zone |
| AzureDisk.GetLabelsForVolume | pkg/cloudprovider/providers/azure/azure_managedDiskController.go:236-248 | non-Azure-disk volumes and the provisioning placeholder get no labels and no error |
| AzureDisk.LabelsOnlyForZonedDisks | pkg/cloudprovider/providers/azure/azure_managedDiskController.go:236-288 | labels appear exactly for a provisioned Azure disk with a valid URI whose first zone is a number, with the zone of that number |
| AzureDisk.ZoneNumberLabel | pkg/cloudprovider/providers/azure/azure_managedDiskController.go:275-287 | a disk in zone n written in decimal is labelled with the zone of n |
| AzureFile.GetVolumeSource | pkg/volume/azure_file/azure_file.go:327-339 | succeeds exactly when the inline volume or the persistent volume is Azure File |
| AzureFile.VolumeSourcePrecedence | pkg/volume/azure_file/azure_file.go:327-339 | the inline share wins with its read-only flag, else the volume's share with the spec's flag |
| AzureFile.GetVolumeName | pkg/volume/azure_file/azure_file.go:68-75 | the share name of the selected source |
| AzureFile.SecretNamespaceChoice | pkg/volume/azure_file/azure_file.go:341-364 | inline sources use the default namespace; volumes use their own namespace when set, else the default; an empty namespace or no source is an error |
| AzureFile.GetSecretNameAndNamespace | pkg/volume/azure_file/azure_file.go:341-364 | a secret that is found never has an empty namespace; which namespace is chosen is stated by `AzureFile.SecretNamespaceChoice` |
| AzureFile.ConstructedSpecNames | pkg/volume/azure_file/azure_file.go:179-190 | a reconstructed spec names both the share and the secret after the volume |
| AzureFile.ConstructVolumeSpec | pkg/volume/azure_file/azure_file.go:179-190 | the rebuilt spec is an inline volume, not a persistent one, named after the volume |
| AzureFile.GetStorageEndpointSuffix | pkg/volume/azure_file/azure_file.go:375-383 | the cloud's suffix on Azure, else "core.windows.net" |
| AzureFile.MountSourceFields | pkg/volume/azure_file/azure_file.go:265-267 | the mount source splits at the separator into "", "", the account host and the share |
| AzureFile.MountSource | pkg/volume/azure_file/azure_file.go:265-267 | the source starts with two separators and ends with a separator and the share |
| AzureFile.ExpandVolumeDevice | pkg/volume/azure_file/azure_file.go:148-177 | errors keep the old size, success reports the new size, and any request asks for the new size rounded up to GiB |
| AzureFile.ExpandSucceeds | pkg/volume/azure_file/azure_file.go:153-176 | expansion succeeds exactly for an Azure File volume on Azure whose secret, credentials and resize all succeed; a request covers the new size |
| AzureFile.ShareName | pkg/volume/azure_file/azure_provision.go:146-148 | the share name has at most 63 characters |
| AzureFile.SinglePassLeavesDoubleDash | pkg/volume/azure_file/azure_provision.go:146-148 | one replacement pass turns "---" into "--", not "-" |
| AzureFile.ApplyParameter | pkg/volume/azure_file/azure_provision.go:155-170 | a parameter is accepted exactly when its lower-cased key is known |
| AzureFile.ApplyParameters | pkg/volume/azure_file/azure_provision.go:155-170 | the parameters apply exactly when every lower-cased key is known |
| AzureFile.ApplyParametersMeaning | pkg/volume/azure_file/azure_provision.go:155-170 | parsing succeeds exactly when every key is known, and each field takes the last value given for it |
| AzureFile.AccountKindFor | pkg/volume/azure_file/azure_provision.go:176-180 | FileStorage exactly when the lower-cased SKU starts with "premium" |
| AzureFile.PlanProvision | pkg/volume/azure_file/azure_provision.go:136-180 | planning succeeds exactly for supported modes, a non-block claim, known parameters and no selector |
| AzureFile.PlanContents | pkg/volume/azure_file/azure_provision.go:146-180 | the plan has the generated share name, the least whole GiB holding the request, each parameter's last value, the matching account kind, and the claim's namespace unless a parameter names one |
| AzureFile.Provision | pkg/volume/azure_file/azure_provision.go:136-217 | provisioning succeeds exactly when planning, share creation and secret creation all do. The volume is then `AzureFile.DescribeShare` of the plan and the secret: the claim's modes, capacity RoundUpSize(request, GiB) Gi, the share name built from the cluster and volume names, the created secret, the secret namespace (the last `secretnamespace` parameter, else the claim's namespace), and the options' mount options and reclaim policy |
| AzureFile.DescribeShare | pkg/volume/azure_file/azure_provision.go:192-216 | the volume has the claim's modes, the GiB capacity, the share and secret with the secret's namespace, mount options and reclaim policy |
| AzureFile.ProvisionedVolumeFindsSecret | pkg/volume/azure_file/azure_provision.go:187-211 | the secret lookup of a provisioned volume finds the secret in the namespace it was stored in |
| AzureFile.NewProvisioner | pkg/volume/azure_file/azure_provision.go:92-102 | fails off Azure; otherwise only an empty mode list changes, to the plugin's modes |
| AzureFile.DefaultModesProvision | pkg/volume/azure_file/azure_provision.go:98-100 | a claim with no modes provisions through the defaulted provisioner with the plugin's modes |
| Logs.NewLogsOptions | pkg/kubectl/cmd/logs/logs.go:113-119 | fresh options are empty except for the tail, -1 |
| Logs.RoundToSecond | pkg/kubectl/cmd/logs/logs.go:178-182 | rounding a duration to seconds stays within `int64` |
| Logs.SecondsOfNearest | pkg/kubectl/cmd/logs/logs.go:178-182 | away from the bounds, the seconds sent are the nearest whole second, halves away from zero |
| Logs.SecondsOf | pkg/kubectl/cmd/logs/logs.go:178-182 | the seconds sent keep the duration's sign |
| Logs.SmallNegativeSinceRoundsToZero | pkg/kubectl/cmd/logs/logs.go:178-182 | a negative duration shorter than half a second rounds to 0 seconds |
| Logs.ToLogOptions | pkg/kubectl/cmd/logs/logs.go:157-191 | fails exactly when a since-time is given and does not parse; copies container and flags, and the parsed since-time exactly when given |
| Logs.LimitsRule | pkg/kubectl/cmd/logs/logs.go:174-188 | the byte limit is set exactly when non-zero, since-seconds exactly when the duration is non-zero, and tail lines as the tail/selector rule says |
| Logs.SelectorTailQuirks | pkg/kubectl/cmd/logs/logs.go:184-188 | with a selector, tail -1 asks for no tail and any other tail asks for 10 lines |
| Logs.NewOptionsRequestEverything | pkg/kubectl/cmd/logs/logs.go:113-119 | fresh options ask for no tail, no limit and no since bound |
| Logs.DispatchArgs | pkg/kubectl/cmd/logs/logs.go:197-212 | succeeds exactly with no arguments and a selector, one argument and no selector, or two arguments; the second names the container; nothing else changes |
| Logs.Complete | pkg/kubectl/cmd/logs/logs.go:193-256 | success keeps at most two arguments as the resources and records whether -c was given |
| Logs.CompleteSucceeds | pkg/kubectl/cmd/logs/logs.go:193-256 | completion succeeds exactly when dispatch, namespace, timeout and option conversion do; the options name the dispatched container |
| Logs.Validate | pkg/kubectl/cmd/logs/logs.go:258-292 | follow with a selector, since-time with since, and missing log options are errors |
| Logs.ValidateAccepts | pkg/kubectl/cmd/logs/logs.go:258-292 | validation passes exactly when none of its conflicts or negative values occurs |
| Logs.SelectorMasksNegativeTail | pkg/kubectl/cmd/logs/logs.go:184-188 | with a selector a tail below -1 becomes 10 lines and passes validation |
| Logs.InlineContainerWithAllContainers | pkg/kubectl/cmd/logs/logs.go:271-274 | an inline container argument conflicts with all-containers |
| Cni.HandleEvent | pkg/kubelet/dockershim/network/cni/cni.go:225-245 | only the pod CIDR can change, only while it is empty; other events and events without a CIDR change nothing |
| Cni.HandleEvents | pkg/kubelet/dockershim/network/cni/cni.go:225-245 | a run of events changes nothing but the pod CIDR, and never a CIDR already set |
| Cni.FirstCidrSticks | pkg/kubelet/dockershim/network/cni/cni.go:225-245 | after any events the CIDR is the old one if set, else the first non-empty CIDR of a pod-CIDR change |
| Cni.CheckInitialized | pkg/kubelet/dockershim/network/cni/cni.go:206-221 | without a default network the plugin is uninitialised |
| Cni.IpRangesCheckMeaning | pkg/kubelet/dockershim/network/cni/cni.go:211-219 | the capability check fails exactly when some plugin has the ipRanges capability and the CIDR is empty |
| Cni.IpRangesCheck | pkg/kubelet/dockershim/network/cni/cni.go:211-219 | with a pod CIDR, or with no plugin wanting ipRanges, the check passes |
| Cni.ReadyIff | pkg/kubelet/dockershim/network/cni/cni.go:206-221 | the plugin is ready exactly when it has a default network and no plugin needs a CIDR that is missing |
| Cni.SplitDirs | pkg/kubelet/dockershim/network/cni/cni.go:92-95 | at least one directory is named |
| Cni.SplitDirsRoundTrip | pkg/kubelet/dockershim/network/cni/cni.go:92-95 | the directories joined with "," give back the input |
| Cni.SplitDirsCommaFree | pkg/kubelet/dockershim/network/cni/cni.go:92-95 | no directory holds a comma |
| Cni.NonEmptyDirsCounts | pkg/kubelet/dockershim/network/cni/cni.go:98-104 | every non-empty directory is kept as often as it is listed |
| Cni.NonEmptyDirs | pkg/kubelet/dockershim/network/cni/cni.go:98-104 | the kept directories are non-empty and no more than the given ones |
| Cni.NonEmptyDirsKeeps | pkg/kubelet/dockershim/network/cni/cni.go:98-104 | a list without empty directories is kept as it is |
| Cni.NonEmptyDirsAppend | pkg/kubelet/dockershim/network/cni/cni.go:98-104 | filtering keeps order: it distributes over concatenation |
| Cni.Qualifies | pkg/kubelet/dockershim/network/cni/cni.go:130-162 | a ".conflist" file qualifies exactly when it loads as a list with a plugin; any other file exactly when it loads, names a type, converts to a list and that list has a plugin; the list yielded is the loaded one |
| Cni.PickFirstMeaning | pkg/kubelet/dockershim/network/cni/cni.go:129-163 | the loop finds nothing exactly when no file qualifies; otherwise it finds the first qualifying file |
| Cni.PickFirst | pkg/kubelet/dockershim/network/cni/cni.go:129-163 | a file found qualifies, with the list it yields |
| Cni.PickFirstIsLeast | pkg/kubelet/dockershim/network/cni/cni.go:129-163 | over a sorted listing, every file before the one found fails to qualify |
| Cni.DefaultNetworkFound | pkg/kubelet/dockershim/network/cni/cni.go:119-171 | a default network is found exactly when some listed file qualifies |
| Cni.DefaultNetworkIsLeast | pkg/kubelet/dockershim/network/cni/cni.go:119-171 | the default network comes from the least qualifying file name |
| Cni.GetDefaultNetwork | pkg/kubelet/dockershim/network/cni/cni.go:119-171 | an empty listing is an error; a network is named after its config, has plugins and uses the bin directories |
| Cni.SyncNetworkConfig | pkg/kubelet/dockershim/network/cni/cni.go:185-192 | when some listed file qualifies, the found network (searching the plugin's directories, from a qualifying file) is installed; otherwise the plugin is unchanged, keeping its old network |
| Cni.SyncInstallsLeast | pkg/kubelet/dockershim/network/cni/cni.go:185-192 | once a file qualifies, the installed network is the least qualifying file's list, whatever network was held before |
| Cni.ProbeNetworkPlugins | pkg/kubelet/dockershim/network/cni/cni.go:97-117 | the probed plugin keeps exactly the non-empty bin directories in order, has no CIDR, and any network found searches those directories |
| Cni.ProbedReadiness | pkg/kubelet/dockershim/network/cni/cni.go:97-117 | a probed plugin has a network exactly when some file qualifies, and is ready exactly when no plugin of that network needs a CIDR |
| Cni.Status | pkg/kubelet/dockershim/network/cni/cni.go:251-257 | the plugin returned is the re-synced one and the status is its readiness; it holds a network exactly when it held one before or some listed file qualifies |
| Cni.StatusKeepsStaleNetwork | pkg/kubelet/dockershim/network/cni/cni.go:251-257 | a ready plugin stays ready and unchanged when its config directory cannot be read |
| Cni.CniPortMappingsPositive | pkg/kubelet/dockershim/network/cni/cni.go:356-367 | every mapping passed on has a positive host port |
| Cni.CniPortMappings | pkg/kubelet/dockershim/network/cni/cni.go:356-367 | no more mappings are passed on than the host reports |
| Cni.CniPortMappingsAllKept | pkg/kubelet/dockershim/network/cni/cni.go:356-367 | with positive host ports every mapping is kept in order, its protocol lower-cased |
| Cni.CniPortMappingsAppend | pkg/kubelet/dockershim/network/cni/cni.go:356-367 | the filter distributes over concatenation, so it keeps order |
| Cni.BuildRuntimeConf | pkg/kubelet/dockershim/network/cni/cni.go:337-393 | succeeds exactly when port mappings and bandwidth are read; it carries the sandbox ID and namespace path |
| Cni.RuntimeConfContents | pkg/kubelet/dockershim/network/cni/cni.go:338-390 | the four fixed arguments (IgnoreUnknown=1, namespace, pod name, sandbox ID) in order, the filtered mappings, bandwidth exactly when a limit is set (rates divided by 1000, bursts 0), and the pod CIDR as the only IP range |
| Cni.BandwidthParam | pkg/kubelet/dockershim/network/cni/cni.go:372-387 | present exactly when either direction is limited; bursts are 0, an unlimited direction has rate 0, and a limit becomes its whole thousands |
| Cni.DeleteFromNetwork | pkg/kubelet/dockershim/network/cni/cni.go:316-335 | a failure to read port mappings is an error |
| Cni.DeleteToleratesMissing | pkg/kubelet/dockershim/network/cni/cni.go:326-334 | a delete error mentioning "no such file or directory" counts as success; any other error is passed on |

## Left out

- Mount and unmount sequences, `SetUpAt`/`TearDownAt`, `PathExists` and the attach/detach code: these are file-system and syscall I/O.
- Cloud SDK and client calls (`DisksClient`, `CreateVolume`, file-share creation, secret creation, `GetSecretFor*`, instance lookups). They are parameters holding their answers.
- `DeleteManagedDisk`: its only logic is the cloud call.
- Exponential backoff in `CreateManagedDisk` is modelled only as the sequence of poll answers it would see. The step count and delays are not modelled.
- The `rand.Uint32()` hash for an empty claim name (pkg/volume/util/util.go:679) is a parameter.
- Floating-point ceilings in `convertResource*ToString` (pkg/api/v1/resource/helpers.go:154-171): the model stops at the selector dispatch and returns the quantity and divisor to convert.
- `cloud.GetZoneID` and `makeZone` for Azure, and the GCE provider name, are parameters; their code is not part of this model.
- `path.Base` of the disk URI in `ResizeDisk` and `GetAzureDiskLabels` only names the disk for the cloud call, so it is not modelled.
- `MountsInGlobalPDPath` is a plain component constant ("mounts"); the plugin directory is arbitrary.
- The text of formatted error messages: errors carry their fixed prefix, and the formatted arguments are dropped.
- RFC 3339 parsing of `--since-time` is a parameter, `Result<int>` in nanoseconds.
- Logging, `RESTClientGetter`, the builder and the pod lookup in `kubectl logs` `Complete`: only the argument dispatch, namespace, timeout and option conversion are modelled, and namespace and timeout are given as their results.
- The CNI mutex, `loNetwork`/`getLoNetwork`, and `SetUpPod`/`TearDownPod`/`addToNetwork`: these are locking and plugin execution.
- The extension filter of `libcni.ConfFiles` is library code; the config directory is given as the listing it returns.
- `DefaultInterfaceName` ("eth0") and the event-name constant come from the network package, which is not part of this model.
- Strings.ToLower: lower-cases ASCII letters only, because Go's Unicode case mapping is not modelled.
- VolumeUtil.RoundUpBounds: states the ceiling only for non-negative sizes. Negative sizes follow Go's truncating division in `VolumeUtil.RoundUpSize`, with only the `int64` range stated.
- Logs.SecondsOfNearest: states nearest-second rounding only at least one second away from the `int64` bounds, where `time.Duration.Round` saturates.
- Zones.ChooseZonesForVolume: does not promise exactly numZones zones, because the source's `uint32` offsets can wrap (see `Zones.ChooseZonesWrapsToNothing`).
- Zones.SelectZonesForVolume: promises at most numReplicas zones, not the exact count that the doc comment at util.go:338-340 gives. The `uint32` offsets can wrap, so fewer zones may come back (`Zones.ChooseZonesWrapsToNothing`). A `zone` parameter with 0 replicas also gives one zone. `Zones.ZonesByParameters` has the same bound.
- VolumeUtil.GenerateVolumeName: requires the volume name to be shorter than `maxLength`, since Go slices with a negative bound and panics otherwise (pkg/volume/util/util.go:563-573); the panic is not modelled.
- VolumeUtil.GenerateVolumeName: lengths count characters, where Go's `len` and slicing count UTF-8 bytes, so the model matches Go only for ASCII names.
- AzureFile.ShareName: requires the volume name to be shorter than 63 characters, where Go would panic on the negative slice bound of `GenerateVolumeName`; `AzureFile.PlanProvision`, `AzureFile.PlanContents`, `AzureFile.Provision` and `AzureFile.ProvisionedVolumeFindsSecret` inherit that requirement. The 63 limit is counted in characters, not UTF-8 bytes.
- AzureFile.ExpandVolumeDevice: reads the claim namespace as a plain field, where Go dereferences `ClaimRef` (pkg/volume/azure_file/azure_file.go:162) and panics when a volume has none.
- Operations requiring `InInt64(Value(q))`: quantities whose whole-unit value does not fit in 64 bits are outside the model, as `Value()` would overflow in the source.
- The remaining files of the repository (bootstrap certificates, TLS secret generation, Windows endpoints, plugin watcher, drain and service-controller tests, and constant stubs) are outside the modelled core.

## Findings

| source | as written | input that shows it | evidently intended | confidence | as-written member | corrected member |
|---|---|---|---|---|---|---|
| pkg/volume/awsebs/aws_ebs.go:435-461 | `makeGlobalPDPath` turns "aws:///vol-x" into ".../mounts/aws//vol-x", which path cleaning collapses to "aws/vol-x"; `getVolumeIDFromGlobalMount` restores only "aws://", giving "aws://vol-x" | volume ID "aws:///vol-x" | the global path of an ID reads back as that ID, here "aws:///vol-x" | not executed | AwsEbs.GlobalMountUnzonedAsWritten | AwsEbs.GlobalMountRoundTripUnzoned |

Three other behaviours differ from what the source's own text says, but the model follows the code:

- Logs.SelectorTailQuirks: with a selector, any tail other than -1 asks for 10 lines, whatever the value given. This differs from the flag help of `kubectl logs`.
- Logs.SelectorMasksNegativeTail: a tail below -1 therefore passes validation when a selector is given. This also differs from the flag help.
- AzureFile.SinglePassLeavesDoubleDash: the comment at azure_provision.go:146 says a share name "cannot contain two consecutive '-'s", but the single `strings.Replace` pass leaves "--" behind when it meets "---". For example, a cluster name ending in "--" gives "...---dynamic-..." and then "...--dynamic-...". The model keeps the single pass.
