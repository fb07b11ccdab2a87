/** The Azure managed-disk controller's decisions between its cloud calls:
    the resource group read out of a disk URI, the disk model sent to create
    a disk (tags, zones, resource group, size), what the creation reports
    after polling, the resize decision, and the zone labels of an Azure disk
    volume. Every cloud call is given as its answer. */
module AzureDisk {
  import opened Wrappers
  import opened Strings
  import opened Quantities
  import opened VolumeTypes
  import VolumeUtil

  // Error messages; the values Go formats into them are left out.
  const ErrInvalidDiskURI: string := "invalid disk URI: "
  const ErrNilDiskProperties: string := "invliad nil for DiskProperties of disk"
  const ErrParseZone: string := "failed to parse zone for AzureDisk"
  const ErrPollTimeout: string := "timed out waiting for the condition"

  const CreatedByKey: string := "created-by"
  const AzureDDTag: string := "kubernetes-azure-dd"
  const ResourceGroupsField: string := "resourceGroups"
  const Succeeded: string := "succeeded"

  // ---------------------------------------------------------------------
  // Disk URIs

  /** `getResourceGroupFromDiskURI`: the fifth '/'-separated field of a URI
      with exactly nine fields whose fourth is "resourceGroups", spelled
      with that exact case. */
  function GetResourceGroupFromDiskURI(diskURI: string): (r: Result<string>)
    ensures r.Ok? ==> |Split(diskURI, "/")| == 9
  {
    var fields := Split(diskURI, "/");
    if |fields| != 9 || fields[3] != ResourceGroupsField then Err(ErrInvalidDiskURI + diskURI)
    else Ok(fields[4])
  }

  /** A URI made of nine '/'-free fields names a resource group exactly when
      its fourth field is "resourceGroups", and then it is the fifth field;
      so the lower-case spelling of the documented form is rejected. */
  lemma ResourceGroupOfFields(fields: seq<string>)
    requires |fields| == 9
    requires forall k :: 0 <= k < 9 ==> '/' !in fields[k]
    ensures GetResourceGroupFromDiskURI(Join(fields, "/")).Ok? <==> fields[3] == ResourceGroupsField
    ensures GetResourceGroupFromDiskURI(Join(fields, "/")).Ok? ==>
      GetResourceGroupFromDiskURI(Join(fields, "/")).value == fields[4]
  {
    JoinSplitChar(fields, '/');
  }

  /** Every URI the parser accepts is the nine fields it split, rejoined,
      with the resource group in the fifth place. */
  lemma ResourceGroupParsed(diskURI: string)
    requires GetResourceGroupFromDiskURI(diskURI).Ok?
    ensures exists fields: seq<string> ::
      && |fields| == 9 && fields[3] == ResourceGroupsField
      && fields[4] == GetResourceGroupFromDiskURI(diskURI).value
      && Join(fields, "/") == diskURI
  {
    SplitJoin(diskURI, "/");
    var fields := Split(diskURI, "/");
    assert Join(fields, "/") == diskURI;
  }

  // ---------------------------------------------------------------------
  // Tags

  /** A tag key or value with every '/' turned into '-', which Azure
      requires of tags. */
  function SanitizeTag(s: string): (r: string)
    ensures |r| == |s| && '/' !in r
    ensures forall i :: 0 <= i < |s| ==> r[i] == (if s[i] == '/' then '-' else s[i])
  {
    ReplaceCharPointwise(s, '/', '-');
    var r := Replace(s, ['/'], ['-']);
    assert forall i :: 0 <= i < |r| ==> r[i] != '/';
    r
  }

  /** The user tags written over a map, one after another in iteration
      order, each key and value sanitized. */
  function AddTags(m: map<string, string>, tags: seq<(string, string)>): map<string, string>
    decreases |tags|
  {
    if |tags| == 0 then m
    else
      var last := tags[|tags| - 1];
      AddTags(m, tags[..|tags| - 1])[SanitizeTag(last.0) := SanitizeTag(last.1)]
  }

  /** The sanitized value of the last user tag whose sanitized key is `key`. */
  function LastTag(tags: seq<(string, string)>, key: string): (r: Option<string>)
    ensures r.Some? ==> '/' !in r.value
    decreases |tags|
  {
    if |tags| == 0 then None
    else if SanitizeTag(tags[|tags| - 1].0) == key then Some(SanitizeTag(tags[|tags| - 1].1))
    else LastTag(tags[..|tags| - 1], key)
  }

  /** Some user tag's key sanitizes to `key`. */
  predicate SomeTagKey(tags: seq<(string, string)>, key: string) {
    exists i :: 0 <= i < |tags| && SanitizeTag(tags[i].0) == key
  }

  /** After writing the tags, a key holds the last tag written to it, or
      its old value when no tag was. */
  lemma {:induction false} AddTagsLookup(m: map<string, string>, tags: seq<(string, string)>, key: string)
    ensures key in AddTags(m, tags) <==> key in m || LastTag(tags, key).Some?
    ensures LastTag(tags, key).Some? ==> AddTags(m, tags)[key] == LastTag(tags, key).value
    ensures LastTag(tags, key).None? && key in m ==> AddTags(m, tags)[key] == m[key]
    decreases |tags|
  {
    if |tags| > 0 {
      AddTagsLookup(m, tags[..|tags| - 1], key);
    }
  }

  /** Some tag is written to a key exactly when some tag's key sanitizes to it. */
  lemma {:induction false} LastTagFound(tags: seq<(string, string)>, key: string)
    ensures LastTag(tags, key).Some? <==> SomeTagKey(tags, key)
    decreases |tags|
  {
    if |tags| > 0 {
      var front := tags[..|tags| - 1];
      LastTagFound(front, key);
      if SomeTagKey(front, key) {
        var i :| 0 <= i < |front| && SanitizeTag(front[i].0) == key;
        assert tags[i] == front[i];
      }
      if SomeTagKey(tags, key) && SanitizeTag(tags[|tags| - 1].0) != key {
        var i :| 0 <= i < |tags| && SanitizeTag(tags[i].0) == key;
        assert front[i] == tags[i];
      }
    }
  }

  /** The tags of a new disk: "created-by" set to "kubernetes-azure-dd",
      then every user tag sanitized and written over it in iteration order. */
  function DiskTags(userTags: Option<seq<(string, string)>>): (r: map<string, string>)
    ensures CreatedByKey in r
    ensures userTags.None? ==> r == map[CreatedByKey := AzureDDTag]
  {
    var base := map[CreatedByKey := AzureDDTag];
    match userTags
    case None => base
    case Some(tags) =>
      AddTagsLookup(base, tags, CreatedByKey);
      AddTags(base, tags)
  }

  /** The disk carries "created-by" and the sanitized key of every user tag,
      and nothing else; each user key holds the value of the last tag that
      sanitizes to it, and "created-by" keeps its value unless a user tag
      sanitizes to that key. */
  lemma DiskTagsLookup(userTags: Option<seq<(string, string)>>, key: string)
    ensures key in DiskTags(userTags) <==> key == CreatedByKey || (userTags.Some? && SomeTagKey(userTags.value, key))
    ensures userTags.Some? && SomeTagKey(userTags.value, key) ==>
      LastTag(userTags.value, key).Some? && DiskTags(userTags)[key] == LastTag(userTags.value, key).value
    ensures key == CreatedByKey && !(userTags.Some? && SomeTagKey(userTags.value, key)) ==>
      DiskTags(userTags)[key] == AzureDDTag
  {
    if userTags.Some? {
      AddTagsLookup(map[CreatedByKey := AzureDDTag], userTags.value, key);
      LastTagFound(userTags.value, key);
    }
  }

  /** No key or value of a new disk's tags holds a '/'. */
  lemma DiskTagsSlashFree(userTags: Option<seq<(string, string)>>)
    ensures forall key :: key in DiskTags(userTags) ==> '/' !in key && '/' !in DiskTags(userTags)[key]
  {
    forall key | key in DiskTags(userTags)
      ensures '/' !in key && '/' !in DiskTags(userTags)[key]
    {
      DiskTagsLookup(userTags, key);
      if userTags.Some? && SomeTagKey(userTags.value, key) {
        var tags := userTags.value;
        var i :| 0 <= i < |tags| && SanitizeTag(tags[i].0) == key;
      } else {
        CreatedByTagSlashFree();
      }
    }
  }

  lemma CreatedByTagSlashFree()
    ensures '/' !in CreatedByKey && '/' !in AzureDDTag
  {
    assert forall i :: 0 <= i < |CreatedByKey| ==> CreatedByKey[i] != '/';
    assert forall i :: 0 <= i < |AzureDDTag| ==> AzureDDTag[i] != '/';
  }

  // ---------------------------------------------------------------------
  // Creating a disk

  /** `ManagedDiskOptions`; the user tags are a map in iteration order, or
      absent (nil). */
  datatype ManagedDiskOptions = ManagedDiskOptions(
    diskName: string,
    sizeGB: int,
    pvcName: string,
    resourceGroup: string,
    availabilityZone: string,
    tags: Option<seq<(string, string)>>,
    storageAccountType: string)

  /** The controller's own location and resource group. */
  datatype Controller = Controller(location: string, resourceGroup: string)

  /** `compute.Disk` as the controller fills it in: an empty disk of the
      given 32-bit size. */
  datatype DiskModel = DiskModel(
    location: string,
    tags: map<string, string>,
    zones: Option<seq<string>>,
    sku: string,
    sizeGB: int)

  /** The disk creation request: the resource group and name, and the model. */
  datatype CreateRequest = CreateRequest(resourceGroup: string, diskName: string, model: DiskModel)

  /** The request `CreateManagedDisk` sends. `zoneID` stands for the cloud's
      `GetZoneID`, which is not part of this model. */
  function CreateRequestFor(c: Controller, options: ManagedDiskOptions, zoneID: string -> string): (r: CreateRequest)
    ensures r.resourceGroup == (if options.resourceGroup == "" then c.resourceGroup else options.resourceGroup)
    ensures r.diskName == options.diskName
    ensures r.model.location == c.location && r.model.sku == options.storageAccountType
    ensures r.model.tags == DiskTags(options.tags)
    ensures r.model.zones.Some? <==> options.availabilityZone != ""
    ensures r.model.zones.Some? ==> r.model.zones.value == [zoneID(options.availabilityZone)]
    ensures InInt32(r.model.sizeGB) && (InInt32(options.sizeGB) ==> r.model.sizeGB == options.sizeGB)
  {
    var zones := if |options.availabilityZone| > 0 then Some([zoneID(options.availabilityZone)]) else None;
    var model := DiskModel(c.location, DiskTags(options.tags), zones, options.storageAccountType, WrapInt32(options.sizeGB));
    var group := if options.resourceGroup == "" then c.resourceGroup else options.resourceGroup;
    CreateRequest(group, options.diskName, model)
  }

  /** A disk created with '/'-free subscription, group and name is found
      again in the same resource group from the URI Azure reports for it. */
  lemma CreatedDiskFoundByURI(c: Controller, options: ManagedDiskOptions, zoneID: string -> string, subscription: string)
    requires '/' !in subscription && '/' !in options.diskName
    requires '/' !in options.resourceGroup && '/' !in c.resourceGroup
    ensures var req := CreateRequestFor(c, options, zoneID);
      GetResourceGroupFromDiskURI(DiskURI(subscription, req.resourceGroup, req.diskName)) == Ok(req.resourceGroup)
  {
    var req := CreateRequestFor(c, options, zoneID);
    DiskURIFields(subscription, req.resourceGroup, req.diskName);
  }

  /** The URI of a managed disk, as Azure reports it. */
  function DiskURI(subscription: string, resourceGroup: string, diskName: string): string {
    Join(["", "subscriptions", subscription, ResourceGroupsField, resourceGroup,
          "providers", "Microsoft.Compute", "disks", diskName], "/")
  }

  lemma DiskURIFields(subscription: string, resourceGroup: string, diskName: string)
    requires '/' !in subscription && '/' !in resourceGroup && '/' !in diskName
    ensures GetResourceGroupFromDiskURI(DiskURI(subscription, resourceGroup, diskName)) == Ok(resourceGroup)
  {
    var fields := ["", "subscriptions", subscription, ResourceGroupsField, resourceGroup,
                   "providers", "Microsoft.Compute", "disks", diskName];
    assert forall k :: 0 <= k < 9 ==> '/' !in fields[k];
    ResourceGroupOfFields(fields);
  }

  /** One answer of `getDisk` while polling: an error, or the disk with or
      without a provisioning state (and then its ID). */
  datatype DiskGet = GetFailed(error: string) | NoState | State(provisioningState: string, id: string)

  /** What `getDisk` hands back as the disk ID: empty unless a state was read. */
  function IDOf(a: DiskGet): string {
    if a.State? then a.id else ""
  }

  /** The poll stops at an answer that is an error or a state that is
      "succeeded" in any case. */
  predicate Stops(a: DiskGet) {
    a.GetFailed? || (a.State? && ToLower(a.provisioningState) == Succeeded)
  }

  /** How the poll ends: the disk ID of the last answer read, whether the
      state was confirmed, and how many answers were read. */
  datatype PollResult = PollResult(diskID: string, confirmed: bool, attempts: nat)

  /** The provisioning-state poll over the answers of successive attempts:
      every attempt records the ID it read, and the poll stops at the first
      answer that stops it or when the attempts run out. */
  function PollDisk(answers: seq<DiskGet>): (r: PollResult)
    ensures r.attempts <= |answers|
    ensures r.attempts == 0 <==> |answers| == 0
    ensures r.attempts > 0 ==> r.diskID == IDOf(answers[r.attempts - 1])
    ensures r.attempts == 0 ==> r.diskID == ""
    ensures forall i :: 0 <= i < r.attempts - 1 ==> !Stops(answers[i])
    ensures r.attempts < |answers| ==> Stops(answers[r.attempts - 1])
    ensures r.confirmed <==> r.attempts > 0 && Stops(answers[r.attempts - 1]) && answers[r.attempts - 1].State?
  {
    if |answers| == 0 then PollResult("", false, 0)
    else if Stops(answers[0]) || |answers| == 1 then
      PollResult(IDOf(answers[0]), Stops(answers[0]) && answers[0].State?, 1)
    else
      var rest := PollDisk(answers[1..]);
      assert forall i :: 1 <= i < |answers| ==> answers[i] == answers[1..][i - 1];
      PollResult(rest.diskID, rest.confirmed, rest.attempts + 1)
  }

  /** `CreateManagedDisk`: the creation call's error, or the disk ID the
      poll read last, whether or not the poll confirmed the disk. */
  function CreateManagedDisk(created: Outcome, polls: seq<DiskGet>): (r: Result<string>)
    ensures r.Ok? <==> created.Pass?
    ensures r.Ok? ==> r.value == PollDisk(polls).diskID
  {
    match created
    case Fail(e) => Err(e)
    case Pass => Ok(PollDisk(polls).diskID)
  }

  /** When the first poll fails, creation still succeeds, with an empty
      disk ID. */
  lemma CreateAfterFailedPoll(polls: seq<DiskGet>)
    requires |polls| > 0 && polls[0].GetFailed?
    ensures CreateManagedDisk(Pass, polls) == Ok("")
    ensures !PollDisk(polls).confirmed
  {
  }

  /** A disk whose first answer is a state spelling "succeeded" in any case
      is reported, confirmed, by the ID read with it. */
  lemma CreateAfterSucceededPoll(polls: seq<DiskGet>)
    requires |polls| > 0 && polls[0].State? && ToLower(polls[0].provisioningState) == Succeeded
    ensures CreateManagedDisk(Pass, polls) == Ok(polls[0].id)
    ensures PollDisk(polls).confirmed
  {
  }

  // ---------------------------------------------------------------------
  // Resizing

  /** What `ResizeDisk` returns, and the size it wrote back to the cloud
      when it asked for a larger disk. */
  datatype ResizeResult = ResizeResult(size: Quantity, error: Option<string>, written: Option<int>)

  /** The requested size in whole GiB, as Go's `int32` conversion keeps it. */
  function RequestGiB(newSize: Quantity): (r: int)
    requires InInt64(Value(newSize))
    ensures InInt32(r)
    ensures InInt32(VolumeUtil.RoundUpToGiB(newSize)) ==> r == VolumeUtil.RoundUpToGiB(newSize)
    ensures 0 <= Value(newSize) <= MaxInt32 * GiB ==> r * GiB >= Value(newSize) && (r - 1) * GiB < Value(newSize)
  {
    WrapInt32(VolumeUtil.RoundUpToGiB(newSize))
  }

  /** `ResizeDisk`: `current` is the cloud's answer for the disk (its size in
      GB, or none when its properties or size are missing), `update` the
      answer to the write-back. */
  function ResizeDisk(diskURI: string, oldSize: Quantity, newSize: Quantity,
                      current: Result<Option<int>>, update: Outcome): (r: ResizeResult)
    requires InInt64(Value(newSize))
    ensures r.error.Some? ==> r.size == oldSize
    ensures r.error.None? ==> r.size == FromValue(RequestGiB(newSize) * GiB)
    ensures r.written.Some? <==>
      && GetResourceGroupFromDiskURI(diskURI).Ok? && current.Ok? && current.value.Some?
      && current.value.value < RequestGiB(newSize)
    ensures r.written.Some? ==> r.written.value == RequestGiB(newSize)
    ensures r.error.Some? <==>
      || GetResourceGroupFromDiskURI(diskURI).Err? || current.Err? || current.value.None?
      || (r.written.Some? && update.Fail?)
  {
    match GetResourceGroupFromDiskURI(diskURI)
    case Err(e) => ResizeResult(oldSize, Some(e), None)
    case Ok(_) =>
      match current
      case Err(e) => ResizeResult(oldSize, Some(e), None)
      case Ok(None) => ResizeResult(oldSize, Some(ErrNilDiskProperties), None)
      case Ok(Some(sizeGB)) =>
        var requested := RequestGiB(newSize);
        var quantity := FromValue(requested * GiB);
        if sizeGB >= requested then ResizeResult(quantity, None, None)
        else
          match update
          case Fail(e) => ResizeResult(oldSize, Some(e), Some(requested))
          case Pass => ResizeResult(quantity, None, Some(requested))
  }

  /** When the rounded request fits in 32 bits, a successful resize reports
      the least whole number of GiB holding the new size, and writes only
      to grow a disk too small to hold it. */
  lemma ResizeCoversRequest(diskURI: string, oldSize: Quantity, newSize: Quantity,
                            current: Result<Option<int>>, update: Outcome)
    requires InInt64(Value(newSize)) && Value(newSize) >= 0
    requires InInt32(VolumeUtil.RoundUpToGiB(newSize))
    ensures var r := ResizeDisk(diskURI, oldSize, newSize, current, update);
      r.error.None? ==> Value(r.size) >= Value(newSize) && Value(r.size) - GiB < Value(newSize)
    ensures var r := ResizeDisk(diskURI, oldSize, newSize, current, update);
      r.written.Some? ==> current.value.value * GiB < Value(newSize)
  {
    var g := VolumeUtil.RoundUpToGiB(newSize);
    var v := Value(newSize);
    assert RequestGiB(newSize) == g;
    ValueOfWhole(g * GiB);
    WholeUnitsBelow(v, g, g - 1, GiB);
    var r := ResizeDisk(diskURI, oldSize, newSize, current, update);
    if r.written.Some? {
      WholeUnitsBelow(v, g, current.value.value, GiB);
    }
  }

  /** With `g` the least number of units holding `v`, any fewer units
      hold less than `v`. */
  lemma WholeUnitsBelow(v: int, g: int, c: int, unit: int)
    requires unit > 0 && (g - 1) * unit < v && c < g
    ensures c * unit < v && g * unit - unit < v
  {
    assert g * unit - unit == (g - 1) * unit;
    if c < g - 1 {
      VolumeUtil.MulPositive(g - 1 - c, unit);
      assert (g - 1) * unit == c * unit + (g - 1 - c) * unit;
    }
  }

  /** A request of 2^31 GiB wraps to a negative 32-bit size, which any disk
      already exceeds, so the resize reports success with a negative size. */
  lemma ResizeWrapsAtInt32(diskURI: string, oldSize: Quantity, current: int, update: Outcome)
    requires GetResourceGroupFromDiskURI(diskURI).Ok? && current >= 0
    ensures var huge := FromValue(0x8000_0000 * GiB);
      ResizeDisk(diskURI, oldSize, huge, Ok(Some(current)), update) ==
        ResizeResult(FromValue(-0x8000_0000 * GiB), None, None)
  {
    var huge := FromValue(0x8000_0000 * GiB);
    ValueOfWhole(0x8000_0000 * GiB);
    VolumeUtil.RoundUpSizeExact(0x8000_0000, GiB);
  }

  // ---------------------------------------------------------------------
  // Zone labels

  /** `GetAzureDiskLabels`: `zones` is the cloud's answer for the disk's
      zones (none when nil), and `makeZone` stands for the cloud's
      `makeZone`, which is not part of this model. An unzoned disk has no
      labels; a zoned one the region and the zone built from the first
      zone's number. */
  function GetAzureDiskLabels(diskURI: string, location: string, makeZone: int -> string,
                              zones: Result<Option<seq<string>>>): (r: Result<Option<map<string, string>>>)
    ensures r.Ok? && r.value.Some? ==>
      && r.value.value.Keys == {LabelZoneRegion, LabelZoneFailureDomain}
      && r.value.value[LabelZoneRegion] == location
  {
    match GetResourceGroupFromDiskURI(diskURI)
    case Err(e) => Err(e)
    case Ok(_) =>
      match zones
      case Err(e) => Err(e)
      case Ok(None) => Ok(None)
      case Ok(Some(zs)) =>
        if |zs| == 0 then Ok(None)
        else
          match Atoi(zs[0])
          case None => Err(ErrParseZone)
          case Some(id) =>
            Ok(Some(map[LabelZoneRegion := location, LabelZoneFailureDomain := makeZone(id)]))
  }

  /** `GetLabelsForVolume`: nothing for a volume that is not an Azure disk or
      is still being provisioned, else the disk's zone labels. */
  function GetLabelsForVolume(pv: PersistentVolume, location: string, makeZone: int -> string,
                              zones: Result<Option<seq<string>>>): (r: Result<Option<map<string, string>>>)
    ensures pv.azureDisk.None? ==> r == Ok(None)
    ensures pv.azureDisk.Some? && pv.azureDisk.value.diskName == ProvisionedVolumeName ==> r == Ok(None)
  {
    match pv.azureDisk
    case None => Ok(None)
    case Some(disk) =>
      if disk.diskName == ProvisionedVolumeName then Ok(None)
      else GetAzureDiskLabels(disk.dataDiskURI, location, makeZone, zones)
  }

  /** A volume gets labels exactly when it is a provisioned Azure disk with
      a valid URI whose first zone is a number; the zone label is then the
      zone of that number. */
  lemma LabelsOnlyForZonedDisks(pv: PersistentVolume, location: string, makeZone: int -> string,
                                zones: Result<Option<seq<string>>>)
    ensures var r := GetLabelsForVolume(pv, location, makeZone, zones);
      r.Ok? && r.value.Some? <==>
        && pv.azureDisk.Some? && pv.azureDisk.value.diskName != ProvisionedVolumeName
        && GetResourceGroupFromDiskURI(pv.azureDisk.value.dataDiskURI).Ok?
        && zones.Ok? && zones.value.Some? && |zones.value.value| > 0
        && Atoi(zones.value.value[0]).Some?
    ensures var r := GetLabelsForVolume(pv, location, makeZone, zones);
      r.Ok? && r.value.Some? ==>
        r.value.value[LabelZoneFailureDomain] == makeZone(Atoi(zones.value.value[0]).value)
  {
  }

  /** A disk in zone number `n`, written in decimal, is labelled with the
      zone `makeZone(n)`. */
  lemma ZoneNumberLabel(diskURI: string, location: string, makeZone: int -> string, n: int, more: seq<string>)
    requires GetResourceGroupFromDiskURI(diskURI).Ok?
    requires MinInt64 <= n <= MaxInt64
    ensures GetAzureDiskLabels(diskURI, location, makeZone, Ok(Some([IntToString(n)] + more))) ==
      Ok(Some(map[LabelZoneRegion := location, LabelZoneFailureDomain := makeZone(n)]))
  {
    AtoiOfIntToString(n);
  }
}
