/** The Azure File volume plugin: where a spec's share, read-only flag and
    secret come from, the volume spec rebuilt from a mount, the CIFS mount
    source, the storage endpoint, expansion, and dynamic provisioning
    (validation, share name, parameters, account kind, capacity and the
    secret's namespace). The cloud's and the API server's answers are
    given as inputs. */
module AzureFile {
  import opened Wrappers
  import opened Strings
  import opened Quantities
  import opened VolumeTypes
  import VolumeUtil

  // Error messages; the values Go formats into them are left out.
  const ErrNotAzureFile: string := "spec does not reference an AzureFile volume type"
  const ErrNilNamespace: string := "invalid Azure volume: nil namespace"
  const ErrInvalidPvSpec: string := "invalid PV spec"
  const ErrNoAzureProvider: string := "failed to get Azure Cloud Provider"
  const ErrAccessModes: string := "invalid AccessModes: only AccessModes are supported"
  const ErrBlock: string := "kubernetes.io/azure-file does not support block volume provisioning"
  const ErrInvalidOption: string := "invalid option for volume plugin kubernetes.io/azure-file: "
  const ErrSelector: string := "claim.Spec.Selector is not supported for dynamic provisioning on Azure file"

  const PluginName: string := "kubernetes.io/azure-file"
  const ProvisionerName: string := "azure-file-dynamic-provisioner"
  const PublicCloudStorageEndpointSuffix: string := "core.windows.net"
  /** A file share name has at most 63 characters. */
  const MaxShareNameLength: int := 63

  /** The access modes the plugin supports. */
  const AccessModes: seq<AccessMode> := [ReadWriteOnce, ReadOnlyMany, ReadWriteMany]

  // ---------------------------------------------------------------------
  // Volume sources

  /** `getVolumeSource`: the share and read-only flag of the inline source,
      else of the persistent volume's source with the spec's read-only flag. */
  function GetVolumeSource(spec: Spec): (r: Result<(string, bool)>)
    ensures r.Ok? <==>
      (spec.volume.Some? && spec.volume.value.azureFile.Some?) || (spec.pv.Some? && spec.pv.value.azureFile.Some?)
  {
    if spec.volume.Some? && spec.volume.value.azureFile.Some? then
      var source := spec.volume.value.azureFile.value;
      Ok((source.shareName, source.readOnly))
    else if spec.pv.Some? && spec.pv.value.azureFile.Some? then
      Ok((spec.pv.value.azureFile.value.shareName, spec.readOnly))
    else Err(ErrNotAzureFile)
  }

  /** An inline source wins over a persistent volume's and brings its own
      read-only flag; a persistent volume's share is read-only as the spec
      says. */
  lemma VolumeSourcePrecedence(spec: Spec)
    ensures spec.volume.Some? && spec.volume.value.azureFile.Some? ==>
      GetVolumeSource(spec) == Ok((spec.volume.value.azureFile.value.shareName, spec.volume.value.azureFile.value.readOnly))
    ensures !(spec.volume.Some? && spec.volume.value.azureFile.Some?) && spec.pv.Some? && spec.pv.value.azureFile.Some? ==>
      GetVolumeSource(spec) == Ok((spec.pv.value.azureFile.value.shareName, spec.readOnly))
  {
  }

  /** `GetVolumeName`: the share name. */
  function GetVolumeName(spec: Spec): (r: Result<string>)
    ensures r.Ok? <==> GetVolumeSource(spec).Ok?
    ensures r.Ok? ==> r.value == GetVolumeSource(spec).value.0
  {
    match GetVolumeSource(spec)
    case Err(e) => Err(e)
    case Ok((share, _)) => Ok(share)
  }

  /** `getSecretNameAndNamespace`: the secret of the inline source in the
      default namespace, else the persistent volume's secret in its own
      namespace when it names one and in the default one otherwise; an empty
      namespace is an error. */
  function GetSecretNameAndNamespace(spec: Spec, defaultNamespace: string): (r: Result<(string, string)>)
    ensures r.Ok? ==> r.value.1 != ""
  {
    var found: Result<(string, string)> :=
      if spec.volume.Some? && spec.volume.value.azureFile.Some? then
        Ok((spec.volume.value.azureFile.value.secretName, defaultNamespace))
      else if spec.pv.Some? && spec.pv.value.azureFile.Some? then
        var source := spec.pv.value.azureFile.value;
        Ok((source.secretName, source.secretNamespace.GetOr(defaultNamespace)))
      else Err(ErrNotAzureFile);
    match found
    case Err(e) => Err(e)
    case Ok((name, namespace)) =>
      if |namespace| == 0 then Err(ErrNilNamespace) else Ok((name, namespace))
  }

  /** Where the secret is looked up: the default namespace for an inline
      source, the persistent volume's own namespace when it names one; the
      lookup fails exactly when no Azure File source is present or the
      chosen namespace is empty. */
  lemma SecretNamespaceChoice(spec: Spec, defaultNamespace: string)
    ensures var r := GetSecretNameAndNamespace(spec, defaultNamespace);
      spec.volume.Some? && spec.volume.value.azureFile.Some? ==>
        r == (if defaultNamespace == "" then Err(ErrNilNamespace)
              else Ok((spec.volume.value.azureFile.value.secretName, defaultNamespace)))
    ensures var r := GetSecretNameAndNamespace(spec, defaultNamespace);
      !(spec.volume.Some? && spec.volume.value.azureFile.Some?) && spec.pv.Some? && spec.pv.value.azureFile.Some? ==>
        var ns := spec.pv.value.azureFile.value.secretNamespace.GetOr(defaultNamespace);
        r == (if ns == "" then Err(ErrNilNamespace) else Ok((spec.pv.value.azureFile.value.secretName, ns)))
    ensures GetSecretNameAndNamespace(spec, defaultNamespace).Err? <==>
      GetVolumeSource(spec).Err? ||
      (spec.volume.Some? && spec.volume.value.azureFile.Some? && defaultNamespace == "") ||
      (!(spec.volume.Some? && spec.volume.value.azureFile.Some?) &&
       spec.pv.value.azureFile.value.secretNamespace.GetOr(defaultNamespace) == "")
  {
  }

  /** `ConstructVolumeSpec`: an inline volume whose secret and share are
      both named after the volume. */
  function ConstructVolumeSpec(volName: string): (spec: Spec)
    ensures spec.pv.None? && spec.volume.Some? && spec.volume.value.name == volName
  {
    Spec(Some(Volume(volName, None, None, Some(AzureFileSource(volName, volName, false)))), None, false)
  }

  /** A rebuilt spec names the share and the secret after the volume, and
      looks the secret up in the given namespace. */
  lemma ConstructedSpecNames(volName: string, namespace: string)
    requires namespace != ""
    ensures GetVolumeName(ConstructVolumeSpec(volName)) == Ok(volName)
    ensures GetSecretNameAndNamespace(ConstructVolumeSpec(volName), namespace) == Ok((volName, namespace))
    ensures GetVolumeSource(ConstructVolumeSpec(volName)) == Ok((volName, false))
  {
  }

  // ---------------------------------------------------------------------
  // Mounting

  /** `getStorageEndpointSuffix`: the Azure environment's suffix when the
      cloud provider is Azure (`azureSuffix` is present), else the public
      cloud's. */
  function GetStorageEndpointSuffix(azureSuffix: Option<string>): (r: string)
    ensures azureSuffix.None? ==> r == PublicCloudStorageEndpointSuffix
    ensures azureSuffix.Some? ==> r == azureSuffix.value
  {
    azureSuffix.GetOr(PublicCloudStorageEndpointSuffix)
  }

  /** The CIFS source: two separators, the account's file endpoint, a
      separator and the share. */
  function MountSource(separator: char, account: string, suffix: string, share: string): (r: string)
    ensures |r| >= 2 && r[..2] == [separator, separator]
    ensures HasSuffix(r, [separator] + share)
  {
    [separator, separator] + account + ".file." + suffix + [separator] + share
  }

  /** With a separator that neither the file endpoint nor the share holds,
      the mount source splits back into two empty fields, the endpoint and
      the share. */
  lemma MountSourceFields(separator: char, account: string, suffix: string, share: string)
    requires separator !in account + ".file." + suffix && separator !in share
    ensures Split(MountSource(separator, account, suffix, share), [separator]) ==
      ["", "", account + ".file." + suffix, share]
  {
    var host := account + ".file." + suffix;
    var sep := [separator];
    var parts := ["", "", host, share];
    assert Join(parts[2..], sep) == host + sep + share;
    assert Join(parts[1..], sep) == "" + sep + Join(parts[2..], sep);
    assert Join(parts, sep) == MountSource(separator, account, suffix, share);
    JoinSplitChar(parts, separator);
  }

  // ---------------------------------------------------------------------
  // Expansion

  /** What `ExpandVolumeDevice` returns, and the size in GiB it asked the
      cloud to resize the share to, when it got that far. */
  datatype ExpandResult = ExpandResult(size: Quantity, error: Option<string>, requestedGiB: Option<int>)

  /** `ExpandVolumeDevice`: `azureCloud` says whether the cloud provider is
      Azure, `credentials` is the secret's answer and `resized` the cloud's
      answer to the resize. The secret's namespace defaults to the claim's. */
  function ExpandVolumeDevice(spec: Spec, newSize: Quantity, oldSize: Quantity, azureCloud: bool,
                              credentials: Result<(string, string)>, resized: Outcome): (r: ExpandResult)
    requires InInt64(Value(newSize))
    ensures r.error.Some? ==> r.size == oldSize
    ensures r.error.None? ==> r.size == newSize
    ensures r.requestedGiB.Some? ==> r.requestedGiB.value == VolumeUtil.RoundUpToGiB(newSize)
  {
    if spec.pv.None? || spec.pv.value.azureFile.None? then ExpandResult(oldSize, Some(ErrInvalidPvSpec), None)
    else if !azureCloud then ExpandResult(oldSize, Some(ErrNoAzureProvider), None)
    else
      match GetSecretNameAndNamespace(spec, spec.pv.value.claimNamespace)
      case Err(e) => ExpandResult(oldSize, Some(e), None)
      case Ok(_) =>
        match credentials
        case Err(e) => ExpandResult(oldSize, Some(e), None)
        case Ok(_) =>
          var requested := VolumeUtil.RoundUpToGiB(newSize);
          match resized
          case Fail(e) => ExpandResult(oldSize, Some(e), Some(requested))
          case Pass => ExpandResult(newSize, None, Some(requested))
  }

  /** Expansion succeeds exactly when the spec is an Azure File persistent
      volume on Azure, its secret and credentials are found and the cloud
      resizes the share; a request, when made, holds the new size. */
  lemma ExpandSucceeds(spec: Spec, newSize: Quantity, oldSize: Quantity, azureCloud: bool,
                       credentials: Result<(string, string)>, resized: Outcome)
    requires InInt64(Value(newSize))
    ensures var r := ExpandVolumeDevice(spec, newSize, oldSize, azureCloud, credentials, resized);
      r.error.None? <==>
        && spec.pv.Some? && spec.pv.value.azureFile.Some? && azureCloud
        && GetSecretNameAndNamespace(spec, spec.pv.value.claimNamespace).Ok?
        && credentials.Ok? && resized.Pass?
    ensures var r := ExpandVolumeDevice(spec, newSize, oldSize, azureCloud, credentials, resized);
      r.requestedGiB.Some? && Value(newSize) >= 0 ==> Value(newSize) <= r.requestedGiB.value * GiB
  {
  }

  // ---------------------------------------------------------------------
  // Provisioning: the share name

  /** The share name: the generated volume name of at most 63 characters,
      with each "--" replaced by "-" in one left-to-right pass. */
  function ShareName(clusterName: string, pvName: string): (r: string)
    requires |pvName| < MaxShareNameLength
    ensures |r| <= MaxShareNameLength
  {
    var name := VolumeUtil.GenerateVolumeName(clusterName, pvName, MaxShareNameLength);
    ReplaceNotLonger(name, "--", "-");
    Replace(name, "--", "-")
  }

  /** The single pass leaves a "--" where the name had "---" followed by
      text with no further "--": the pass replaces the first two dashes and
      resumes after them. */
  lemma SinglePassLeavesDoubleDash(rest: string)
    requires !Contains("-" + rest, "--")
    ensures Replace("---" + rest, "--", "-") == "--" + rest
  {
    var s := "---" + rest;
    assert OccursAt(s, "--", 0);
    assert s[2..] == "-" + rest;
  }

  // ---------------------------------------------------------------------
  // Provisioning: parameters

  const ParamSkuName: string := "skuname"
  const ParamLocation: string := "location"
  const ParamStorageAccount: string := "storageaccount"
  const ParamSecretNamespace: string := "secretnamespace"
  const ParamResourceGroup: string := "resourcegroup"

  /** The storage-class parameters the provisioner accepts, by lower-cased name. */
  datatype FileParameters = FileParameters(
    sku: string, location: string, account: string, secretNamespace: string, resourceGroup: string)

  /** A lower-cased parameter name the provisioner knows. */
  predicate KnownParameter(name: string) {
    name == ParamSkuName || name == ParamLocation || name == ParamStorageAccount
    || name == ParamSecretNamespace || name == ParamResourceGroup
  }

  /** One parameter, matched on its lower-cased key. */
  function ApplyParameter(p: FileParameters, key: string, value: string): (r: Result<FileParameters>)
    ensures r.Ok? <==> KnownParameter(ToLower(key))
  {
    var name := ToLower(key);
    if name == ParamSkuName then Ok(p.(sku := value))
    else if name == ParamLocation then Ok(p.(location := value))
    else if name == ParamStorageAccount then Ok(p.(account := value))
    else if name == ParamSecretNamespace then Ok(p.(secretNamespace := value))
    else if name == ParamResourceGroup then Ok(p.(resourceGroup := value))
    else Err(ErrInvalidOption + key)
  }

  /** The parameters applied in iteration order; the first unknown key is
      an error. */
  function ApplyParameters(p: FileParameters, params: seq<(string, string)>): (r: Result<FileParameters>)
    ensures r.Ok? <==> AllKnown(params)
    decreases |params|
  {
    if |params| == 0 then Ok(p)
    else
      var last := params[|params| - 1];
      assert forall i :: 0 <= i < |params| - 1 ==> params[..|params| - 1][i] == params[i];
      match ApplyParameters(p, params[..|params| - 1])
      case Err(e) => Err(e)
      case Ok(q) => ApplyParameter(q, last.0, last.1)
  }

  /** The value of the last parameter whose lower-cased key is `name`. */
  function LastValue(params: seq<(string, string)>, name: string): Option<string>
    decreases |params|
  {
    if |params| == 0 then None
    else if ToLower(params[|params| - 1].0) == name then Some(params[|params| - 1].1)
    else LastValue(params[..|params| - 1], name)
  }

  /** Every parameter key, lower-cased, is known. */
  predicate AllKnown(params: seq<(string, string)>) {
    forall i :: 0 <= i < |params| ==> KnownParameter(ToLower(params[i].0))
  }

  /** Applying the parameters fails exactly when some key is unknown, and
      otherwise sets each field to the last value given for it, keeping the
      initial value of a field no parameter names. */
  lemma {:induction false} ApplyParametersMeaning(p: FileParameters, params: seq<(string, string)>)
    ensures ApplyParameters(p, params).Ok? <==> AllKnown(params)
    ensures ApplyParameters(p, params).Ok? ==> ApplyParameters(p, params).value == FileParameters(
      LastValue(params, ParamSkuName).GetOr(p.sku),
      LastValue(params, ParamLocation).GetOr(p.location),
      LastValue(params, ParamStorageAccount).GetOr(p.account),
      LastValue(params, ParamSecretNamespace).GetOr(p.secretNamespace),
      LastValue(params, ParamResourceGroup).GetOr(p.resourceGroup))
    decreases |params|
  {
    if |params| > 0 {
      var front := params[..|params| - 1];
      ApplyParametersMeaning(p, front);
      assert forall i :: 0 <= i < |front| ==> front[i] == params[i];
      if !AllKnown(front) {
        var i :| 0 <= i < |front| && !KnownParameter(ToLower(front[i].0));
        assert !KnownParameter(ToLower(params[i].0));
      }
    }
  }

  // ---------------------------------------------------------------------
  // Provisioning: account kind and capacity

  datatype AccountKind = StorageV2 | FileStorage

  const PremiumPrefix: string := "premium"

  /** Premium SKUs need a FileStorage account; anything else gets StorageV2. */
  function AccountKindFor(sku: string): (r: AccountKind)
    ensures r == FileStorage <==>
      |sku| >= |PremiumPrefix| && forall i :: 0 <= i < |PremiumPrefix| ==> ToLowerChar(sku[i]) == PremiumPrefix[i]
  {
    var lower := ToLower(sku);
    PrefixPointwise(lower, PremiumPrefix);
    if HasPrefix(lower, PremiumPrefix) then FileStorage else StorageV2
  }

  lemma PrefixPointwise(s: string, p: string)
    ensures HasPrefix(s, p) <==> |p| <= |s| && forall i :: 0 <= i < |p| ==> s[i] == p[i]
  {
    if |p| <= |s| && forall i :: 0 <= i < |p| ==> s[i] == p[i] {
      assert s[..|p|] == p;
    }
  }

  /** The claim's storage request, zero when it has none. */
  function RequestedStorage(pvc: Claim): Quantity {
    if ResourceStorage in pvc.requests then pvc.requests[ResourceStorage] else Quantity(0)
  }

  // ---------------------------------------------------------------------
  // Provisioning

  /** The file share the provisioner asks the cloud for. */
  datatype ShareRequest = ShareRequest(
    name: string,
    account: string,
    sku: string,
    accountKind: AccountKind,
    resourceGroup: string,
    location: string,
    requestGiB: int)

  /** What provisioning decides before its first cloud call: the share to
      create and the namespace of the secret that will hold its key. */
  datatype ProvisionPlan = ProvisionPlan(share: ShareRequest, secretNamespace: string)

  /** The checks and derivations of `Provision` up to creating the share. */
  function PlanProvision(options: VolumeOptions, gates: Gates): (r: Result<ProvisionPlan>)
    requires |options.pvName| < MaxShareNameLength
    requires InInt64(Value(RequestedStorage(options.pvc)))
    ensures r.Ok? <==>
      && VolumeUtil.AccessModesContainedInAll(AccessModes, options.pvc.accessModes)
      && !ClaimWantsBlock(gates, options.pvc)
      && AllKnown(options.parameters)
      && !options.pvc.hasSelector
  {
    var initial := FileParameters("", "", "", options.pvc.namespace, "");
    ApplyParametersMeaning(initial, options.parameters);
    if !VolumeUtil.AccessModesContainedInAll(AccessModes, options.pvc.accessModes) then Err(ErrAccessModes)
    else if ClaimWantsBlock(gates, options.pvc) then Err(ErrBlock)
    else
      var name := ShareName(options.clusterName, options.pvName);
      var requestGiB := VolumeUtil.RoundUpSize(Value(RequestedStorage(options.pvc)), GiB);
      match ApplyParameters(initial, options.parameters)
      case Err(e) => Err(e)
      case Ok(p) =>
        if options.pvc.hasSelector then Err(ErrSelector)
        else
          var share := ShareRequest(name, p.account, p.sku, AccountKindFor(p.sku), p.resourceGroup, p.location, requestGiB);
          Ok(ProvisionPlan(share, p.secretNamespace))
  }

  /** A plan names a share of at most 63 characters, asks for the least
      number of GiB holding the claim's request, takes every parameter from
      its last occurrence, and puts the secret in the claim's namespace
      unless a parameter names another. */
  lemma PlanContents(options: VolumeOptions, gates: Gates)
    requires |options.pvName| < MaxShareNameLength
    requires InInt64(Value(RequestedStorage(options.pvc)))
    requires PlanProvision(options, gates).Ok?
    ensures var plan := PlanProvision(options, gates).value; var params := options.parameters;
      && plan.share.name == ShareName(options.clusterName, options.pvName)
      && |plan.share.name| <= MaxShareNameLength
      && plan.share.sku == LastValue(params, ParamSkuName).GetOr("")
      && plan.share.location == LastValue(params, ParamLocation).GetOr("")
      && plan.share.account == LastValue(params, ParamStorageAccount).GetOr("")
      && plan.share.resourceGroup == LastValue(params, ParamResourceGroup).GetOr("")
      && plan.share.accountKind == AccountKindFor(plan.share.sku)
      && plan.secretNamespace == LastValue(params, ParamSecretNamespace).GetOr(options.pvc.namespace)
    ensures var plan := PlanProvision(options, gates).value; var v := Value(RequestedStorage(options.pvc));
      v >= 0 ==> 0 <= plan.share.requestGiB && v <= plan.share.requestGiB * GiB && (plan.share.requestGiB - 1) * GiB < v
  {
    ApplyParametersMeaning(FileParameters("", "", "", options.pvc.namespace, ""), options.parameters);
    VolumeUtil.RoundUpBounds(Value(RequestedStorage(options.pvc)), GiB);
  }

  /** The cloud's answer to creating the share: the account it used and its key. */
  datatype CreatedShare = CreatedShare(account: string, key: string)

  /** `Provision`: the plan, the share the cloud created, the secret the
      account key was stored in, and the persistent volume describing them. */
  function Provision(options: VolumeOptions, gates: Gates, created: Result<CreatedShare>,
                     secretName: Result<string>): (r: Result<PersistentVolume>)
    requires |options.pvName| < MaxShareNameLength
    requires InInt64(Value(RequestedStorage(options.pvc)))
    ensures r.Ok? <==> PlanProvision(options, gates).Ok? && created.Ok? && secretName.Ok?
    ensures r.Ok? ==> r.value == DescribeShare(options, PlanProvision(options, gates).value, secretName.value)
    ensures r.Ok? ==> var pv := r.value; var params := options.parameters;
      && pv.name == options.pvName
      && pv.accessModes == options.pvc.accessModes
      && Value(pv.capacity[ResourceStorage]) == VolumeUtil.RoundUpSize(Value(RequestedStorage(options.pvc)), GiB) * GiB
      && pv.azureFile.Some?
      && pv.azureFile.value.secretName == secretName.value
      && pv.azureFile.value.shareName == ShareName(options.clusterName, options.pvName)
      && pv.azureFile.value.secretNamespace == Some(LastValue(params, ParamSecretNamespace).GetOr(options.pvc.namespace))
      && pv.mountOptions == options.mountOptions && pv.reclaimPolicy == options.reclaimPolicy
  {
    match PlanProvision(options, gates)
    case Err(e) => Err(e)
    case Ok(plan) =>
      PlanContents(options, gates);
      match created
      case Err(e) => Err(e)
      case Ok(_) =>
        match secretName
        case Err(e) => Err(e)
        case Ok(secret) => Ok(DescribeShare(options, plan, secret))
  }

  /** The persistent volume of a provisioned share. */
  function DescribeShare(options: VolumeOptions, plan: ProvisionPlan, secret: string): (pv: PersistentVolume)
    ensures pv.name == options.pvName && pv.labels == map[]
    ensures pv.annotations == map[VolumeDynamicallyCreatedByKey := ProvisionerName]
    ensures pv.accessModes == options.pvc.accessModes
    ensures pv.capacity.Keys == {ResourceStorage} && Value(pv.capacity[ResourceStorage]) == plan.share.requestGiB * GiB
    ensures pv.azureFile == Some(AzureFilePvSource(secret, plan.share.name, Some(plan.secretNamespace), false))
    ensures pv.ebs.None? && pv.gcePd.None? && pv.azureDisk.None? && pv.volumeMode.None? && pv.nodeAffinity.None?
    ensures pv.mountOptions == options.mountOptions && pv.reclaimPolicy == options.reclaimPolicy
  {
    ValueOfWhole(plan.share.requestGiB * GiB);
    PersistentVolume(
      name := options.pvName,
      labels := map[],
      annotations := map[VolumeDynamicallyCreatedByKey := ProvisionerName],
      accessModes := options.pvc.accessModes,
      capacity := map[ResourceStorage := FromValue(plan.share.requestGiB * GiB)],
      volumeMode := None,
      ebs := None,
      gcePd := None,
      azureFile := Some(AzureFilePvSource(secret, plan.share.name, Some(plan.secretNamespace), false)),
      azureDisk := None,
      mountOptions := options.mountOptions,
      reclaimPolicy := options.reclaimPolicy,
      nodeAffinity := None,
      claimNamespace := "")
  }

  /** A provisioned volume is mounted from the share that was created, and
      its secret is looked up where it was stored, whatever namespace the
      volume is later claimed from. */
  lemma ProvisionedVolumeFindsSecret(options: VolumeOptions, gates: Gates, created: Result<CreatedShare>,
                                     secretName: Result<string>, claimNamespace: string, readOnly: bool)
    requires |options.pvName| < MaxShareNameLength
    requires InInt64(Value(RequestedStorage(options.pvc)))
    requires Provision(options, gates, created, secretName).Ok?
    requires PlanProvision(options, gates).value.secretNamespace != ""
    ensures var pv := Provision(options, gates, created, secretName).value;
      var spec := Spec(None, Some(pv), readOnly);
      && GetVolumeSource(spec) == Ok((PlanProvision(options, gates).value.share.name, readOnly))
      && GetSecretNameAndNamespace(spec, claimNamespace) ==
           Ok((secretName.value, PlanProvision(options, gates).value.secretNamespace))
  {
  }

  /** `NewProvisioner`: the options with the plugin's access modes filled in
      when the claim names none; an error when the cloud is not Azure. */
  function NewProvisioner(options: VolumeOptions, azureCloud: bool): (r: Result<VolumeOptions>)
    ensures r.Ok? <==> azureCloud
    ensures r.Ok? ==> r.value.pvc.accessModes == (if |options.pvc.accessModes| == 0 then AccessModes else options.pvc.accessModes)
    ensures r.Ok? ==> r.value == options.(pvc := r.value.pvc)
    ensures r.Ok? ==> r.value.pvc == options.pvc.(accessModes := r.value.pvc.accessModes)
  {
    if !azureCloud then Err(ErrNoAzureProvider)
    else if |options.pvc.accessModes| == 0 then Ok(options.(pvc := options.pvc.(accessModes := AccessModes)))
    else Ok(options)
  }

  /** A claim that names no access mode passes the provisioner's mode check
      and its volume gets every mode the plugin supports. */
  lemma DefaultModesProvision(options: VolumeOptions, gates: Gates, created: Result<CreatedShare>, secretName: Result<string>)
    requires |options.pvName| < MaxShareNameLength
    requires InInt64(Value(RequestedStorage(options.pvc)))
    requires |options.pvc.accessModes| == 0
    ensures var o := NewProvisioner(options, true).value;
      && VolumeUtil.AccessModesContainedInAll(AccessModes, o.pvc.accessModes)
      && (Provision(o, gates, created, secretName).Ok? ==> Provision(o, gates, created, secretName).value.accessModes == AccessModes)
  {
  }
}
