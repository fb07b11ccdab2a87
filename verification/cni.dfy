/** The CNI network plugin of the dockershim: its pod-CIDR state, the
    readiness check, the choice of the default network from the
    configuration directory, and the runtime configuration handed to the
    CNI library. The directory listing, the configuration loaders, the
    host's port mappings and bandwidth annotations and the library's
    delete call are given as their answers. */
module Cni {
  import opened Wrappers
  import opened Strings
  import opened StringOrder
  import opened Quantities

  const ErrUninitialized: string := "cni config uninitialized"
  const ErrNoPodCidr: string := "no PodCIDR set"
  const ErrNoNetworks: string := "no networks found in "
  const ErrNoValidNetworks: string := "no valid networks found in "
  const ErrPortMappings: string := "could not retrieve port mappings: "
  const ErrBandwidth: string := "error reading pod bandwidth annotations: "
  /** Delete errors containing this text mean the network is already gone. */
  const NoSuchFile: string := "no such file or directory"
  const ConfListExtension: string := ".conflist"
  const IpRangesCapability: string := "ipRanges"
  /** `network.DefaultInterfaceName` of the kubelet network package. */
  const DefaultInterfaceName: string := "eth0"

  /** One plugin of a configuration list: its type and capabilities. */
  datatype PluginConf = PluginConf(netType: string, capabilities: map<string, bool>)

  /** `libcni.NetworkConfigList`. */
  datatype ConfList = ConfList(name: string, plugins: seq<PluginConf>)

  /** A single-plugin configuration file as loaded, with the outcome of
      converting it into a list. */
  datatype Conf = Conf(netType: string, asList: Result<ConfList>)

  /** The configuration loaders' answers, per file name. */
  datatype Loader = Loader(loadList: string -> Result<ConfList>, loadConf: string -> Result<Conf>)

  /** `cniNetwork`: the chosen list and the plugin search path. */
  datatype Network = Network(name: string, config: ConfList, path: seq<string>)

  /** `cniNetworkPlugin`, without the loopback network, host and executor. */
  datatype Plugin = Plugin(confDir: string, binDirs: seq<string>, defaultNetwork: Option<Network>, podCidr: string)

  // ---------------------------------------------------------------------
  // Pod CIDR events

  datatype EventName = PodCidrChange | OtherEvent(name: string)

  /** An event; `cidr` is the CIDR detail when it is present and a string. */
  datatype Event = Event(name: EventName, cidr: Option<string>)

  /** `Event`: only a pod-CIDR change carrying a CIDR string is looked at,
      and it is taken only while no CIDR is set. */
  function HandleEvent(p: Plugin, e: Event): (q: Plugin)
    ensures q.confDir == p.confDir && q.binDirs == p.binDirs && q.defaultNetwork == p.defaultNetwork
    ensures p.podCidr != "" ==> q.podCidr == p.podCidr
    ensures e.name.OtherEvent? || e.cidr.None? ==> q == p
  {
    if e.name != PodCidrChange then p
    else
      match e.cidr
      case None => p
      case Some(c) => if p.podCidr != "" then p else p.(podCidr := c)
  }

  function HandleEvents(p: Plugin, es: seq<Event>): (q: Plugin)
    ensures q.confDir == p.confDir && q.binDirs == p.binDirs && q.defaultNetwork == p.defaultNetwork
    ensures p.podCidr != "" ==> q.podCidr == p.podCidr
    decreases |es|
  {
    if |es| == 0 then p else HandleEvents(HandleEvent(p, es[0]), es[1..])
  }

  /** The first non-empty CIDR carried by a pod-CIDR change. */
  function FirstCidr(es: seq<Event>): (r: Option<string>)
    ensures r.Some? ==> r.value != ""
    decreases |es|
  {
    if |es| == 0 then None
    else if es[0].name == PodCidrChange && es[0].cidr.Some? && es[0].cidr.value != "" then es[0].cidr
    else FirstCidr(es[1..])
  }

  /** The first CIDR sticks: after any events, the CIDR is the one already
      set, or else the first non-empty one delivered; nothing else changes. */
  lemma {:induction false} FirstCidrSticks(p: Plugin, es: seq<Event>)
    ensures var q := HandleEvents(p, es);
      && q.confDir == p.confDir && q.binDirs == p.binDirs && q.defaultNetwork == p.defaultNetwork
      && q.podCidr == (if p.podCidr != "" then p.podCidr
                       else match FirstCidr(es) case None => "" case Some(c) => c)
    decreases |es|
  {
    if |es| > 0 {
      FirstCidrSticks(HandleEvent(p, es[0]), es[1..]);
    }
  }

  // ---------------------------------------------------------------------
  // Readiness

  predicate HasIpRanges(c: PluginConf) {
    IpRangesCapability in c.capabilities && c.capabilities[IpRangesCapability]
  }

  /** The loop of `checkInitialized` over the plugins: the first plugin with
      the ipRanges capability decides. */
  function IpRangesCheck(plugins: seq<PluginConf>, podCidr: string): (r: Outcome)
    ensures podCidr != "" ==> r.Pass?
    ensures (forall i :: 0 <= i < |plugins| ==> !HasIpRanges(plugins[i])) ==> r.Pass?
    decreases |plugins|
  {
    if |plugins| == 0 then Pass
    else if HasIpRanges(plugins[0]) then (if podCidr == "" then Fail(ErrNoPodCidr) else Pass)
    else IpRangesCheck(plugins[1..], podCidr)
  }

  /** `checkInitialized`. */
  function CheckInitialized(p: Plugin): (r: Outcome)
    ensures p.defaultNetwork.None? ==> r == Fail(ErrUninitialized)
  {
    match p.defaultNetwork
    case None => Fail(ErrUninitialized)
    case Some(n) => IpRangesCheck(n.config.plugins, p.podCidr)
  }

  lemma {:induction false} IpRangesCheckMeaning(plugins: seq<PluginConf>, podCidr: string)
    ensures IpRangesCheck(plugins, podCidr).Fail? <==>
      podCidr == "" && exists i :: 0 <= i < |plugins| && HasIpRanges(plugins[i])
    ensures IpRangesCheck(plugins, podCidr).Fail? ==> IpRangesCheck(plugins, podCidr).error == ErrNoPodCidr
    decreases |plugins|
  {
    if |plugins| > 0 && !HasIpRanges(plugins[0]) {
      var tail := plugins[1..];
      IpRangesCheckMeaning(tail, podCidr);
      if exists i :: 0 <= i < |plugins| && HasIpRanges(plugins[i]) {
        var i :| 0 <= i < |plugins| && HasIpRanges(plugins[i]);
        assert HasIpRanges(tail[i - 1]);
      }
      if exists i :: 0 <= i < |tail| && HasIpRanges(tail[i]) {
        var i :| 0 <= i < |tail| && HasIpRanges(tail[i]);
        assert HasIpRanges(plugins[i + 1]);
      }
    }
  }

  /** The plugin is ready exactly when a default network is chosen and, if
      any of its plugins wants IP ranges, a pod CIDR is known. */
  lemma ReadyIff(p: Plugin)
    ensures CheckInitialized(p).Pass? <==>
      p.defaultNetwork.Some? &&
      (p.podCidr != "" || forall i :: 0 <= i < |p.defaultNetwork.value.config.plugins| ==>
                                        !HasIpRanges(p.defaultNetwork.value.config.plugins[i]))
  {
    if p.defaultNetwork.Some? {
      IpRangesCheckMeaning(p.defaultNetwork.value.config.plugins, p.podCidr);
    }
  }

  // ---------------------------------------------------------------------
  // Plugin directories

  /** `SplitDirs`: the comma-separated list of directories. */
  function SplitDirs(dirs: string): (r: seq<string>)
    ensures |r| >= 1
  {
    Split(dirs, ",")
  }

  /** Splitting loses nothing: the pieces join back. */
  lemma SplitDirsRoundTrip(dirs: string)
    ensures Join(SplitDirs(dirs), ",") == dirs
  {
    SplitJoin(dirs, ",");
  }

  /** Each directory named is free of commas. */
  lemma SplitDirsCommaFree(dirs: string)
    ensures forall k :: 0 <= k < |SplitDirs(dirs)| ==> ',' !in SplitDirs(dirs)[k]
  {
    var pieces := SplitDirs(dirs);
    SplitPiecesFree(dirs, ",");
    forall k | 0 <= k < |pieces|
      ensures ',' !in pieces[k]
    {
      NotContainsChar(pieces[k], ',');
    }
  }

  lemma NotContainsChar(s: string, c: char)
    requires !Contains(s, [c])
    ensures c !in s
  {
    if c in s {
      var j :| 0 <= j < |s| && s[j] == c;
      assert OccursAt(s, [c], j);
      ContainsMeansOccurs(s, [c]);
    }
  }

  /** The directories of `ProbeNetworkPlugins` with the empty ones dropped. */
  function NonEmptyDirs(dirs: seq<string>): (r: seq<string>)
    ensures "" !in r
    ensures |r| <= |dirs|
    decreases |dirs|
  {
    if |dirs| == 0 then []
    else (if dirs[0] == "" then [] else [dirs[0]]) + NonEmptyDirs(dirs[1..])
  }

  /** Dropping empties commutes with concatenation, so the kept directories
      stay in their order. */
  lemma {:induction false} NonEmptyDirsAppend(a: seq<string>, b: seq<string>)
    ensures NonEmptyDirs(a + b) == NonEmptyDirs(a) + NonEmptyDirs(b)
    decreases |a|
  {
    if |a| > 0 {
      assert (a + b)[1..] == a[1..] + b;
      NonEmptyDirsAppend(a[1..], b);
    } else {
      assert a + b == b;
    }
  }

  /** Every non-empty directory is kept as often as it is listed. */
  lemma {:induction false} NonEmptyDirsCounts(dirs: seq<string>, d: string)
    requires d != ""
    ensures multiset(NonEmptyDirs(dirs))[d] == multiset(dirs)[d]
    decreases |dirs|
  {
    if |dirs| > 0 {
      NonEmptyDirsCounts(dirs[1..], d);
      assert dirs == [dirs[0]] + dirs[1..];
    }
  }

  /** A list without empty directories is kept as it is. */
  lemma {:induction false} NonEmptyDirsKeeps(dirs: seq<string>)
    requires "" !in dirs
    ensures NonEmptyDirs(dirs) == dirs
    decreases |dirs|
  {
    if |dirs| > 0 {
      NonEmptyDirsKeeps(dirs[1..]);
    }
  }

  // ---------------------------------------------------------------------
  // Default network

  /** The configuration list a file yields, if it qualifies: it loads, a
      single-plugin file names a type and converts, and the list has a
      plugin. */
  function Qualifies(ld: Loader, file: string): (r: Option<ConfList>)
    ensures r.Some? ==> |r.value.plugins| > 0
    // A ".conflist" file qualifies exactly when it loads as a list with a plugin.
    ensures HasSuffix(file, ConfListExtension) ==>
      && (r.Some? <==> ld.loadList(file).Ok? && |ld.loadList(file).value.plugins| > 0)
      && (r.Some? ==> r.value == ld.loadList(file).value)
    // Any other file must load, name a plugin type, convert to a list, and
    // that list must have a plugin.
    ensures !HasSuffix(file, ConfListExtension) ==>
      && (r.Some? <==>
            && ld.loadConf(file).Ok?
            && ld.loadConf(file).value.netType != ""
            && ld.loadConf(file).value.asList.Ok?
            && |ld.loadConf(file).value.asList.value.plugins| > 0)
      && (r.Some? ==> r.value == ld.loadConf(file).value.asList.value)
  {
    var list: Option<ConfList> :=
      if HasSuffix(file, ConfListExtension) then
        (match ld.loadList(file) case Err(_) => None case Ok(l) => Some(l))
      else
        (match ld.loadConf(file)
         case Err(_) => None
         case Ok(c) =>
           if c.netType == "" then None
           else match c.asList case Err(_) => None case Ok(l) => Some(l));
    match list
    case None => None
    case Some(l) => if |l.plugins| == 0 then None else Some(l)
  }

  /** The loop of `getDefaultCNINetwork`: the first qualifying file. */
  function PickFirst(ld: Loader, files: seq<string>): (r: Option<(string, ConfList)>)
    ensures r.Some? ==> Qualifies(ld, r.value.0) == Some(r.value.1)
    decreases |files|
  {
    if |files| == 0 then None
    else match Qualifies(ld, files[0])
      case Some(l) => Some((files[0], l))
      case None => PickFirst(ld, files[1..])
  }

  lemma {:induction false} PickFirstMeaning(ld: Loader, files: seq<string>)
    ensures PickFirst(ld, files).None? <==> forall i :: 0 <= i < |files| ==> Qualifies(ld, files[i]).None?
    ensures PickFirst(ld, files).Some? ==>
      exists i :: 0 <= i < |files| && files[i] == PickFirst(ld, files).value.0
        && Qualifies(ld, files[i]) == Some(PickFirst(ld, files).value.1)
        && forall j :: 0 <= j < i ==> Qualifies(ld, files[j]).None?
    decreases |files|
  {
    if |files| > 0 && Qualifies(ld, files[0]).None? {
      var tail := files[1..];
      PickFirstMeaning(ld, tail);
      if PickFirst(ld, tail).Some? {
        var i :| 0 <= i < |tail| && tail[i] == PickFirst(ld, tail).value.0
          && Qualifies(ld, tail[i]) == Some(PickFirst(ld, tail).value.1)
          && forall j :: 0 <= j < i ==> Qualifies(ld, tail[j]).None?;
        assert files[i + 1] == tail[i];
        forall j | 0 <= j < i + 1
          ensures Qualifies(ld, files[j]).None?
        {
          if j > 0 { assert files[j] == tail[j - 1]; }
        }
      } else {
        forall i | 0 <= i < |files|
          ensures Qualifies(ld, files[i]).None?
        {
          if i > 0 { assert files[i] == tail[i - 1]; }
        }
      }
    }
  }

  /** `getDefaultCNINetwork`: `listing` is the configuration files the
      directory holds (or the listing error). */
  function GetDefaultNetwork(confDir: string, binDirs: seq<string>, listing: Result<set<string>>, ld: Loader): (r: Result<Network>)
    ensures listing.Ok? && listing.value == {} ==> r == Err(ErrNoNetworks + confDir)
    ensures r.Ok? ==> r.value.path == binDirs && r.value.name == r.value.config.name
    ensures r.Ok? ==> |r.value.config.plugins| > 0
  {
    match listing
    case Err(e) => Err(e)
    case Ok(files) =>
      if |files| == 0 then Err(ErrNoNetworks + confDir)
      else match PickFirst(ld, SortedList(files))
        case None => Err(ErrNoValidNetworks + confDir)
        case Some((_, l)) => Ok(Network(l.name, l, binDirs))
  }

  /** In a strictly sorted list, an element less than another comes first. */
  lemma SortedBefore(xs: seq<string>, i: nat, j: nat)
    requires StrictlySorted(xs) && i < |xs| && j < |xs| && Less(xs[j], xs[i])
    ensures j < i
  {
    if j == i {
      LessIrreflexive(xs[i]);
    } else if j > i {
      LessAsymmetric(xs[j], xs[i]);
    }
  }

  /** The first qualifying file of a sorted listing is its least qualifying one. */
  lemma PickFirstIsLeast(ld: Loader, files: seq<string>)
    requires StrictlySorted(files) && PickFirst(ld, files).Some?
    ensures forall k :: 0 <= k < |files| && Less(files[k], PickFirst(ld, files).value.0) ==> Qualifies(ld, files[k]).None?
  {
    PickFirstMeaning(ld, files);
    var i :| 0 <= i < |files| && files[i] == PickFirst(ld, files).value.0
      && Qualifies(ld, files[i]) == Some(PickFirst(ld, files).value.1)
      && forall j :: 0 <= j < i ==> Qualifies(ld, files[j]).None?;
    forall k | 0 <= k < |files| && Less(files[k], files[i])
      ensures Qualifies(ld, files[k]).None?
    {
      SortedBefore(files, i, k);
    }
  }

  /** A qualifying file in the listing is always found. */
  lemma PickFirstFinds(ld: Loader, files: set<string>, f: string)
    requires f in files && Qualifies(ld, f).Some?
    ensures PickFirst(ld, SortedList(files)).Some?
  {
    var sorted := SortedList(files);
    PickFirstMeaning(ld, sorted);
    assert f in sorted;
    var k :| 0 <= k < |sorted| && sorted[k] == f;
  }

  /** A default network is found exactly when some listed file qualifies. */
  lemma DefaultNetworkFound(confDir: string, binDirs: seq<string>, listing: Result<set<string>>, ld: Loader)
    ensures GetDefaultNetwork(confDir, binDirs, listing, ld).Ok? <==>
      listing.Ok? && exists f :: f in listing.value && Qualifies(ld, f).Some?
  {
    if listing.Ok? {
      if f :| f in listing.value && Qualifies(ld, f).Some? {
        PickFirstFinds(ld, listing.value, f);
      }
      var files := SortedList(listing.value);
      if PickFirst(ld, files).Some? {
        PickFirstMeaning(ld, files);
        assert PickFirst(ld, files).value.0 in files;
      }
    }
  }

  /** The default network comes from the least qualifying file name. */
  lemma DefaultNetworkIsLeast(confDir: string, binDirs: seq<string>, listing: Result<set<string>>, ld: Loader)
    requires GetDefaultNetwork(confDir, binDirs, listing, ld).Ok?
    ensures exists f :: (f in listing.value && Qualifies(ld, f) == Some(GetDefaultNetwork(confDir, binDirs, listing, ld).value.config)
      && forall g :: g in listing.value && Less(g, f) ==> Qualifies(ld, g).None?)
  {
    var files := SortedList(listing.value);
    var f := PickFirst(ld, files).value.0;
    PickFirstMeaning(ld, files);
    PickFirstIsLeast(ld, files);
    assert f in files;
    forall g | g in listing.value && Less(g, f)
      ensures Qualifies(ld, g).None?
    {
      assert g in files;
      var j :| 0 <= j < |files| && files[j] == g;
    }
  }

  /** `syncNetworkConfig`: a failed lookup keeps the previous network. */
  function SyncNetworkConfig(p: Plugin, listing: Result<set<string>>, ld: Loader): (q: Plugin)
    ensures q.confDir == p.confDir && q.binDirs == p.binDirs && q.podCidr == p.podCidr
    ensures q.defaultNetwork.None? ==> p.defaultNetwork.None?
    // A found network is installed ...
    ensures GetDefaultNetwork(p.confDir, p.binDirs, listing, ld).Ok? ==>
      q.defaultNetwork == Some(GetDefaultNetwork(p.confDir, p.binDirs, listing, ld).value)
    // ... which happens exactly when some listed file qualifies; the new
    // network searches the plugin's directories.
    ensures (listing.Ok? && exists f :: f in listing.value && Qualifies(ld, f).Some?) ==>
      && q.defaultNetwork.Some? && q.defaultNetwork.value.path == p.binDirs
      && exists f :: f in listing.value && Qualifies(ld, f) == Some(q.defaultNetwork.value.config)
    // Otherwise the plugin, with its old network, is kept as it was.
    ensures !(listing.Ok? && exists f :: f in listing.value && Qualifies(ld, f).Some?) ==> q == p
  {
    DefaultNetworkFound(p.confDir, p.binDirs, listing, ld);
    if GetDefaultNetwork(p.confDir, p.binDirs, listing, ld).Ok? then
      DefaultNetworkIsLeast(p.confDir, p.binDirs, listing, ld);
      p.(defaultNetwork := Some(GetDefaultNetwork(p.confDir, p.binDirs, listing, ld).value))
    else p
  }

  /** The file-by-file statement of `syncNetworkConfig`'s outcome: once a
      file qualifies, the installed network is the least such file's list,
      whatever network the plugin had before. */
  lemma SyncInstallsLeast(p: Plugin, listing: Result<set<string>>, ld: Loader, f: string)
    requires listing.Ok? && f in listing.value && Qualifies(ld, f).Some?
    ensures var q := SyncNetworkConfig(p, listing, ld);
      && q.defaultNetwork.Some?
      && exists g :: && g in listing.value && Qualifies(ld, g) == Some(q.defaultNetwork.value.config)
                     && forall h :: h in listing.value && Less(h, g) ==> Qualifies(ld, h).None?
  {
    DefaultNetworkFound(p.confDir, p.binDirs, listing, ld);
    DefaultNetworkIsLeast(p.confDir, p.binDirs, listing, ld);
  }

  /** `ProbeNetworkPlugins`: the plugin with the non-empty directories, and
      the default network if one is found already. */
  function ProbeNetworkPlugins(confDir: string, binDirs: seq<string>, listing: Result<set<string>>, ld: Loader): (p: Plugin)
    ensures p.confDir == confDir && p.podCidr == ""
    ensures "" !in p.binDirs
    ensures p.binDirs == NonEmptyDirs(binDirs)
    ensures p.defaultNetwork.Some? ==> p.defaultNetwork.value.path == NonEmptyDirs(binDirs)
  {
    SyncNetworkConfig(Plugin(confDir, NonEmptyDirs(binDirs), None, ""), listing, ld)
  }

  /** After probing, the plugin is ready exactly when some configuration
      qualifies and none of its plugins wants IP ranges, since no pod CIDR
      has arrived yet; the chosen network searches the kept directories. */
  lemma ProbedReadiness(confDir: string, binDirs: seq<string>, listing: Result<set<string>>, ld: Loader)
    ensures var p := ProbeNetworkPlugins(confDir, binDirs, listing, ld);
      p.defaultNetwork.Some? ==> p.defaultNetwork.value.path == NonEmptyDirs(binDirs)
    ensures var p := ProbeNetworkPlugins(confDir, binDirs, listing, ld);
      p.defaultNetwork.Some? <==> listing.Ok? && exists f :: f in listing.value && Qualifies(ld, f).Some?
    ensures var p := ProbeNetworkPlugins(confDir, binDirs, listing, ld);
      CheckInitialized(p).Pass? <==>
        && p.defaultNetwork.Some?
        && forall i :: 0 <= i < |p.defaultNetwork.value.config.plugins| ==> !HasIpRanges(p.defaultNetwork.value.config.plugins[i])
  {
    var p := ProbeNetworkPlugins(confDir, binDirs, listing, ld);
    DefaultNetworkFound(confDir, NonEmptyDirs(binDirs), listing, ld);
    ReadyIff(p);
  }

  /** `Status`: re-read the configuration, then check readiness. */
  function Status(p: Plugin, listing: Result<set<string>>, ld: Loader): (r: (Plugin, Outcome))
    ensures r.0 == SyncNetworkConfig(p, listing, ld)
    ensures r.1 == CheckInitialized(r.0)
    // A network is held afterwards exactly when one was held before or one
    // is found now.
    ensures r.0.defaultNetwork.Some? <==>
      p.defaultNetwork.Some? || (listing.Ok? && exists f :: f in listing.value && Qualifies(ld, f).Some?)
  {
    var q := SyncNetworkConfig(p, listing, ld);
    (q, CheckInitialized(q))
  }

  /** A configuration directory that cannot be read does not take a ready
      plugin out of service. */
  lemma StatusKeepsStaleNetwork(p: Plugin, e: string, ld: Loader)
    requires CheckInitialized(p).Pass?
    ensures Status(p, Err(e), ld).1.Pass? && Status(p, Err(e), ld).0 == p
  {
  }

  // ---------------------------------------------------------------------
  // Runtime configuration

  /** A port mapping, as the host reports it and as the CNI capability takes it. */
  datatype PortMapping = PortMapping(hostPort: int, containerPort: int, protocol: string, hostIP: string)

  /** `cniBandwidthEntry`. */
  datatype BandwidthEntry = BandwidthEntry(ingressRate: int, ingressBurst: int, egressRate: int, egressBurst: int)

  /** `libcni.RuntimeConf` with its capability arguments. */
  datatype RuntimeConf = RuntimeConf(
    containerID: string,
    netNS: string,
    ifName: string,
    args: seq<(string, string)>,
    portMappings: seq<PortMapping>,
    bandwidth: Option<BandwidthEntry>,
    ipRanges: seq<seq<string>>)

  /** The mappings passed to CNI: those with a positive host port, the
      protocol lower-cased. */
  function CniPortMappings(ps: seq<PortMapping>): (r: seq<PortMapping>)
    ensures |r| <= |ps|
    decreases |ps|
  {
    if |ps| == 0 then []
    else
      var p := ps[0];
      (if p.hostPort <= 0 then [] else [p.(protocol := ToLower(p.protocol))]) + CniPortMappings(ps[1..])
  }

  lemma {:induction false} CniPortMappingsAppend(a: seq<PortMapping>, b: seq<PortMapping>)
    ensures CniPortMappings(a + b) == CniPortMappings(a) + CniPortMappings(b)
    decreases |a|
  {
    if |a| > 0 {
      assert (a + b)[1..] == a[1..] + b;
      CniPortMappingsAppend(a[1..], b);
    } else {
      assert a + b == b;
    }
  }

  /** Every mapping passed on has a positive host port. */
  lemma {:induction false} CniPortMappingsPositive(ps: seq<PortMapping>)
    ensures forall k :: 0 <= k < |CniPortMappings(ps)| ==> CniPortMappings(ps)[k].hostPort > 0
    decreases |ps|
  {
    if |ps| > 0 {
      CniPortMappingsPositive(ps[1..]);
    }
  }

  /** With every host port positive, the mappings pass one for one, only
      their protocol lower-cased. */
  lemma {:induction false} CniPortMappingsAllKept(ps: seq<PortMapping>)
    requires forall i :: 0 <= i < |ps| ==> ps[i].hostPort > 0
    ensures |CniPortMappings(ps)| == |ps|
    ensures forall i :: 0 <= i < |ps| ==> CniPortMappings(ps)[i] == ps[i].(protocol := ToLower(ps[i].protocol))
    decreases |ps|
  {
    if |ps| > 0 {
      var tail := ps[1..];
      CniPortMappingsAllKept(tail);
      forall i | 1 <= i < |ps|
        ensures CniPortMappings(ps)[i] == ps[i].(protocol := ToLower(ps[i].protocol))
      {
        assert ps[i] == tail[i - 1];
      }
    }
  }

  /** The rate of a bandwidth limit: its value divided by 1000. */
  function Rate(q: Quantity): int
    requires InInt64(Value(q))
  {
    TruncDiv(Value(q), 1000)
  }

  /** The bandwidth capability: present when either direction is limited. */
  function BandwidthParam(ingress: Option<Quantity>, egress: Option<Quantity>): (r: Option<BandwidthEntry>)
    requires ingress.Some? ==> InInt64(Value(ingress.value))
    requires egress.Some? ==> InInt64(Value(egress.value))
    ensures r.Some? <==> ingress.Some? || egress.Some?
    ensures r.Some? ==> r.value.ingressBurst == 0 && r.value.egressBurst == 0
    ensures r.Some? && ingress.None? ==> r.value.ingressRate == 0
    ensures r.Some? && egress.None? ==> r.value.egressRate == 0
    // A non-negative limit becomes its whole thousands of bits per second.
    ensures r.Some? && ingress.Some? && Value(ingress.value) >= 0 ==>
      0 <= 1000 * r.value.ingressRate <= Value(ingress.value) < 1000 * (r.value.ingressRate + 1)
    ensures r.Some? && egress.Some? && Value(egress.value) >= 0 ==>
      0 <= 1000 * r.value.egressRate <= Value(egress.value) < 1000 * (r.value.egressRate + 1)
  {
    if ingress.None? && egress.None? then None
    else
      var inRate := if ingress.Some? then Rate(ingress.value) else 0;
      var outRate := if egress.Some? then Rate(egress.value) else 0;
      Some(BandwidthEntry(inRate, 0, outRate, 0))
  }

  /** `buildCNIRuntimeConf`: `portMappings` is the host's answer for the
      sandbox, `bandwidth` the ingress and egress limits read from the
      annotations. */
  function BuildRuntimeConf(p: Plugin, podName: string, podNs: string, sandboxID: string, netnsPath: string,
                            portMappings: Result<seq<PortMapping>>,
                            bandwidth: Result<(Option<Quantity>, Option<Quantity>)>): (r: Result<RuntimeConf>)
    requires bandwidth.Ok? && bandwidth.value.0.Some? ==> InInt64(Value(bandwidth.value.0.value))
    requires bandwidth.Ok? && bandwidth.value.1.Some? ==> InInt64(Value(bandwidth.value.1.value))
    ensures r.Ok? <==> portMappings.Ok? && bandwidth.Ok?
    ensures portMappings.Err? ==> r == Err(ErrPortMappings + portMappings.error)
    ensures r.Ok? ==> r.value.containerID == sandboxID && r.value.netNS == netnsPath
  {
    match portMappings
    case Err(e) => Err(ErrPortMappings + e)
    case Ok(ps) =>
      match bandwidth
      case Err(e) => Err(ErrBandwidth + e)
      case Ok((ingress, egress)) =>
        Ok(RuntimeConf(
          sandboxID, netnsPath, DefaultInterfaceName,
          [("IgnoreUnknown", "1"), ("K8S_POD_NAMESPACE", podNs), ("K8S_POD_NAME", podName), ("K8S_POD_INFRA_CONTAINER_ID", sandboxID)],
          CniPortMappings(ps),
          BandwidthParam(ingress, egress),
          [[p.podCidr]]))
  }

  /** The pod's identity travels in the arguments, its CIDR as the only IP
      range, and a bandwidth entry exactly when a limit is set, with the
      rates in thousands and the bursts left unlimited. */
  lemma RuntimeConfContents(p: Plugin, podName: string, podNs: string, sandboxID: string, netnsPath: string,
                            ps: seq<PortMapping>, ingress: Option<Quantity>, egress: Option<Quantity>)
    requires ingress.Some? ==> InInt64(Value(ingress.value))
    requires egress.Some? ==> InInt64(Value(egress.value))
    ensures var r := BuildRuntimeConf(p, podName, podNs, sandboxID, netnsPath, Ok(ps), Ok((ingress, egress)));
      && r.Ok?
      && |r.value.args| == 4
      && r.value.args[0] == ("IgnoreUnknown", "1")
      && r.value.args[1] == ("K8S_POD_NAMESPACE", podNs) && r.value.args[2] == ("K8S_POD_NAME", podName)
      && r.value.args[3] == ("K8S_POD_INFRA_CONTAINER_ID", sandboxID)
      && r.value.ipRanges == [[p.podCidr]]
      && r.value.portMappings == CniPortMappings(ps)
      && (r.value.bandwidth.Some? <==> ingress.Some? || egress.Some?)
      && (r.value.bandwidth.Some? ==>
            && r.value.bandwidth.value.ingressBurst == 0 && r.value.bandwidth.value.egressBurst == 0
            && (ingress.Some? ==> r.value.bandwidth.value.ingressRate * 1000 + TruncMod(Value(ingress.value), 1000) == Value(ingress.value))
            && (egress.Some? ==> r.value.bandwidth.value.egressRate * 1000 + TruncMod(Value(egress.value), 1000) == Value(egress.value))
            && (ingress.None? ==> r.value.bandwidth.value.ingressRate == 0)
            && (egress.None? ==> r.value.bandwidth.value.egressRate == 0))
  {
  }

  /** `deleteFromNetwork`: `deleted` is the CNI library's answer; an error
      saying the network is already gone counts as success. */
  function DeleteFromNetwork(p: Plugin, podName: string, podNs: string, sandboxID: string, netnsPath: string,
                             portMappings: Result<seq<PortMapping>>,
                             bandwidth: Result<(Option<Quantity>, Option<Quantity>)>,
                             deleted: Outcome): (r: Outcome)
    requires bandwidth.Ok? && bandwidth.value.0.Some? ==> InInt64(Value(bandwidth.value.0.value))
    requires bandwidth.Ok? && bandwidth.value.1.Some? ==> InInt64(Value(bandwidth.value.1.value))
    ensures portMappings.Err? ==> r.Fail?
  {
    match BuildRuntimeConf(p, podName, podNs, sandboxID, netnsPath, portMappings, bandwidth)
    case Err(e) => Fail(e)
    case Ok(_) =>
      if deleted.Fail? && !Contains(deleted.error, NoSuchFile) then deleted else Pass
  }

  /** Deleting succeeds exactly when the configuration builds and the
      library either succeeds or reports a missing file; its own error is
      passed on otherwise. */
  lemma DeleteToleratesMissing(p: Plugin, podName: string, podNs: string, sandboxID: string, netnsPath: string,
                               portMappings: Result<seq<PortMapping>>,
                               bandwidth: Result<(Option<Quantity>, Option<Quantity>)>, deleted: Outcome)
    requires bandwidth.Ok? && bandwidth.value.0.Some? ==> InInt64(Value(bandwidth.value.0.value))
    requires bandwidth.Ok? && bandwidth.value.1.Some? ==> InInt64(Value(bandwidth.value.1.value))
    ensures var r := DeleteFromNetwork(p, podName, podNs, sandboxID, netnsPath, portMappings, bandwidth, deleted);
      r.Pass? <==> portMappings.Ok? && bandwidth.Ok? && (deleted.Pass? || Contains(deleted.error, NoSuchFile))
    ensures var r := DeleteFromNetwork(p, podName, podNs, sandboxID, netnsPath, portMappings, bandwidth, deleted);
      portMappings.Ok? && bandwidth.Ok? && r.Fail? ==> r == deleted
  {
  }
}
