/** Zone selection for dynamically provisioned volumes: the zones a storage
    class, a node or the cluster allow, and the round-robin choice among them
    keyed by the claim's name. Zone sets are `sets.String`; their `List()` is
    the sorted sequence of their members. Go's `uint32` arithmetic is written
    out modulo 2^32. */
module Zones {
  import opened Wrappers
  import opened Strings
  import opened StringOrder
  import Fnv
  import opened VolumeTypes

  // ---------------------------------------------------------------------
  // Error messages; the values Go formats into them are left out.

  const ErrInvalidReplicas: string := "invalid number of replicas passed"
  const ErrNotEnoughZones: string := "not enough zones found to provision a volume"
  const ErrIncludeNotMember: string := "zone to be included needs to be member of set"
  const ErrUnsupportedKey: string := "unsupported key found in matchLabelExpressions"
  const ErrZoneAndZones: string := "both zone and zones StorageClass parameters must not be used at the same time"
  const ErrZonesWithDelayedBinding: string := "zone[s] cannot be specified in StorageClass if VolumeBindingMode is set to WaitForFirstConsumer"
  const ErrNodeZoneMissing: string := "zone label for node missing"
  const ErrNoZoneKey: string := "no matchLabelExpressions with the zone key found in allowedTopologies"
  const ErrZonesWithTopologies: string := "zone[s] cannot be specified in StorageClass if allowedTopologies specified"
  const ErrTopologyZones: string := "cannot process zones in allowedTopologies: "
  const ErrZoneWithReplicas: string := "zone cannot be specified if desired number of replicas for pv is greater than 1"
  const ErrNotEnoughZonesParameter: string := "not enough zones found in zones parameter"
  const ErrNodeZones: string := "cannot process zones where nodes exist in the cluster: "
  const ErrNoZones: string := "cannot determine zones to provision volume in"

  // ---------------------------------------------------------------------
  // The claim name's hash and StatefulSet index

  /** A claim name of the form "<prefix>-<id>" with `id` a decimal `uint32`:
      the prefix and the id. */
  function StatefulSetSuffix(pvcName: string): (r: Option<(string, nat)>)
    ensures r.Some? ==> r.value.1 < TwoTo32 && |r.value.0| < |pvcName|
  {
    match LastIndexOfChar(pvcName, '-')
    case None => None
    case Some(d) =>
      match ParseUint32(pvcName[d + 1..])
      case None => None
      case Some(id) => Some((pvcName[..d], id))
  }

  /** The part of a StatefulSet claim prefix that is hashed: what follows its
      last '-', or the whole prefix when it has none. */
  function HashedPart(prefix: string): (r: string)
    ensures '-' !in r
    ensures HasSuffix(prefix, r)
  {
    match LastIndexOfChar(prefix, '-')
    case None => prefix
    case Some(e) =>
      assert prefix[|prefix| - |prefix[e + 1..]|..] == prefix[e + 1..];
      prefix[e + 1..]
  }

  /** `getPVCNameHashAndIndexOffset`: the FNV-1 hash of the claim name (or of
      the StatefulSet name inside it) and the StatefulSet index. An empty
      name hashes to `randomHash`, Go's `rand.Uint32()`. */
  function HashAndIndexOffset(pvcName: string, randomHash: nat): (r: (nat, nat))
    requires randomHash < TwoTo32
    ensures r.0 < TwoTo32 && r.1 < TwoTo32
    ensures pvcName == "" ==> r == (randomHash, 0)
    ensures pvcName != "" && StatefulSetSuffix(pvcName).None? ==> r == (Fnv.Hash32(pvcName), 0)
  {
    if pvcName == "" then (randomHash, 0)
    else
      match StatefulSetSuffix(pvcName)
      case None => (Fnv.Hash32(pvcName), 0)
      case Some(suffix) => (Fnv.Hash32(HashedPart(suffix.0)), suffix.1)
  }

  /** The last occurrence of `c` in `x + [c] + y` is the one after `x` when
      `y` holds none. */
  lemma {:induction false} LastIndexOfCharAfter(x: string, c: char, y: string)
    requires c !in y
    ensures LastIndexOfChar(x + [c] + y, c) == Some(|x|)
    decreases |y|
  {
    var s := x + [c] + y;
    if |y| == 0 {
      assert s[|s| - 1] == c;
    } else {
      var y' := y[..|y| - 1];
      assert s[|s| - 1] == y[|y| - 1];
      assert s[..|s| - 1] == x + [c] + y';
      assert c !in y' by {
        assert forall k :: 0 <= k < |y'| ==> y'[k] == y[k];
      }
      LastIndexOfCharAfter(x, c, y');
    }
  }

  lemma DigitsHaveNoDash(n: nat)
    ensures '-' !in NatToString(n)
  {
    var d := NatToString(n);
    assert forall k :: 0 <= k < |d| ==> IsDigit(d[k]);
  }

  /** "<claim>-<set>-<id>", the name a StatefulSet gives its claims, hashes
      only the StatefulSet name and offsets by the member's id. */
  lemma StatefulSetClaim(claim: string, setName: string, id: nat, randomHash: nat)
    requires '-' !in setName && id < TwoTo32 && randomHash < TwoTo32
    ensures HashAndIndexOffset(claim + "-" + setName + "-" + NatToString(id), randomHash)
      == (Fnv.Hash32(setName), id)
  {
    var prefix := claim + "-" + setName;
    var digits := NatToString(id);
    var name := prefix + "-" + digits;
    DigitsHaveNoDash(id);
    assert name == prefix + ['-'] + digits;
    LastIndexOfCharAfter(prefix, '-', digits);
    assert name[|prefix| + 1..] == digits;
    assert name[..|prefix|] == prefix;
    ParseUint32OfNatToString(id);
    assert StatefulSetSuffix(name) == Some((prefix, id));
    assert prefix == claim + ['-'] + setName;
    LastIndexOfCharAfter(claim, '-', setName);
    assert prefix[|claim| + 1..] == setName;
  }

  // ---------------------------------------------------------------------
  // Round-robin choice

  /** The position in a sorted zone list of length `n` used for offset `i`:
      `(hash + i) % n` with the sum taken as a `uint32`. */
  function Slot(hash: nat, i: nat, n: nat): (r: nat)
    requires n > 0
    ensures r < n
  {
    ((hash + i) % TwoTo32) % n
  }

  /** The zones visited by the loop for offsets `from` up to (excluding) `to`. */
  function Picks(slice: seq<string>, hash: nat, from: nat, to: nat): set<string>
    requires |slice| > 0
    decreases if from < to then to - from else 0
  {
    if from >= to then {}
    else {slice[Slot(hash, from, |slice|)]} + Picks(slice, hash, from + 1, to)
  }

  /** The loop only visits zones of the list, at most one per offset. */
  lemma {:induction false} PicksBounds(slice: seq<string>, hash: nat, from: nat, to: nat)
    requires |slice| > 0
    ensures forall z :: z in Picks(slice, hash, from, to) ==> z in slice
    ensures |Picks(slice, hash, from, to)| <= (if from < to then to - from else 0)
    decreases if from < to then to - from else 0
  {
    if from < to {
      PicksBounds(slice, hash, from + 1, to);
      var rest := Picks(slice, hash, from + 1, to);
      var z := slice[Slot(hash, from, |slice|)];
      assert |{z} + rest| <= 1 + |rest|;
    }
  }

  /** The zones picked are exactly those at the visited slots. */
  lemma {:induction false} PicksMembers(slice: seq<string>, hash: nat, from: nat, to: nat)
    requires |slice| > 0
    ensures forall z :: z in Picks(slice, hash, from, to) <==>
      exists i :: from <= i < to && z == slice[Slot(hash, i, |slice|)]
    decreases if from < to then to - from else 0
  {
    if from < to {
      PicksMembers(slice, hash, from + 1, to);
    }
  }

  /** `ChooseZoneForVolume`: one zone from the sorted list, or "" when there
      is none. */
  function ChooseZoneForVolume(zones: set<string>, pvcName: string, randomHash: nat): (r: string)
    requires randomHash < TwoTo32
    ensures zones == {} ==> r == ""
    ensures zones != {} ==> r in zones
  {
    if zones == {} then ""
    else
      var (hash, index) := HashAndIndexOffset(pvcName, randomHash);
      var slice := SortedList(zones);
      slice[Slot(hash, index, |slice|)]
  }

  /** The first offset of the loop in `ChooseZonesForVolume`. */
  function StartIndex(index: nat, numZones: nat): (r: nat)
    ensures r < TwoTo32
  {
    (index * numZones) % TwoTo32
  }

  /** The loop bound `start + numZones` as a `uint32`. */
  function LoopBound(start: nat, numZones: nat): (r: nat)
    requires start < TwoTo32 && numZones < TwoTo32
    ensures r <= start + numZones
    ensures start + numZones < TwoTo32 ==> r == start + numZones
    ensures start + numZones >= TwoTo32 ==> r == start + numZones - TwoTo32
  {
    (start + numZones) % TwoTo32
  }

  /** The loop of `ChooseZonesForVolume` over the sorted zone list: the
      zones at `numZones` consecutive offsets from `start`, all as `uint32`.
      The loop bound `start + numZones` wraps, so fewer zones than asked
      for can come out. */
  function ZonesFromStart(slice: seq<string>, hash: nat, start: nat, numZones: nat): (r: set<string>)
    requires |slice| > 0 && start < TwoTo32 && numZones < TwoTo32
    ensures forall z :: z in r ==> z in slice
    ensures |r| <= numZones
  {
    PicksBounds(slice, hash, start, LoopBound(start, numZones));
    Picks(slice, hash, start, LoopBound(start, numZones))
  }

  /** `ChooseZonesForVolume`. */
  function ChooseZonesForVolume(zones: set<string>, pvcName: string, numZones: nat, randomHash: nat): (r: set<string>)
    requires numZones < TwoTo32 && randomHash < TwoTo32
    ensures r <= zones
    ensures |r| <= numZones
    ensures zones == {} ==> r == {}
  {
    if zones == {} then {}
    else
      var (hash, index) := HashAndIndexOffset(pvcName, randomHash);
      ZonesFromStart(SortedList(zones), hash, StartIndex(index, numZones), numZones)
  }

  /** No zone appears twice in the list. */
  predicate DistinctElems(xs: seq<string>) {
    forall i, j :: 0 <= i < |xs| && 0 <= j < |xs| && i != j ==> xs[i] != xs[j]
  }

  lemma SortedDistinct(xs: seq<string>)
    requires StrictlySorted(xs)
    ensures DistinctElems(xs)
  {
    forall i, j | 0 <= i < |xs| && 0 <= j < |xs| && i != j
      ensures xs[i] != xs[j]
    {
      if i < j {
        LessIrreflexive(xs[i]);
      } else {
        LessIrreflexive(xs[j]);
      }
    }
  }

  /** Euclidean division is determined by quotient and remainder. */
  lemma ModUnique(b: int, n: int, q: int, rem: int)
    requires n > 0 && b == n * q + rem && 0 <= rem < n
    ensures b % n == rem
  {
    var q2, r2 := b / n, b % n;
    assert n * (q - q2) == r2 - rem;
    if q - q2 >= 1 {
    } else if q - q2 <= -1 {
    }
  }

  lemma ModDistinct(a: nat, b: nat, n: nat)
    requires n > 0 && a < b < a + n
    ensures a % n != b % n
  {
    var qa, ra := a / n, a % n;
    var d := b - a;
    if ra + d < n {
      ModUnique(b, n, qa, ra + d);
    } else {
      ModUnique(b, n, qa + 1, ra + d - n);
    }
  }

  lemma SlotNoWrap(hash: nat, i: nat, n: nat)
    requires n > 0 && hash + i < TwoTo32
    ensures Slot(hash, i, n) == (hash + i) % n
  {
  }

  /** Two offsets closer than the number of zones, neither wrapping, pick
      different zones. */
  lemma DistinctPick(slice: seq<string>, hash: nat, from: nat, i: nat)
    requires DistinctElems(slice) && |slice| > 0
    requires from < i < from + |slice| && hash + i < TwoTo32
    ensures slice[Slot(hash, i, |slice|)] != slice[Slot(hash, from, |slice|)]
  {
    var n := |slice|;
    SlotNoWrap(hash, from, n);
    SlotNoWrap(hash, i, n);
    ModDistinct(hash + from, hash + i, n);
    assert Slot(hash, from, n) != Slot(hash, i, n);
  }

  /** Without wrap-around, offsets fewer than the zones visit distinct zones. */
  lemma {:induction false} PicksCount(slice: seq<string>, hash: nat, from: nat, to: nat)
    requires DistinctElems(slice) && |slice| > 0
    requires from <= to && to - from <= |slice| && hash + to <= TwoTo32
    ensures |Picks(slice, hash, from, to)| == to - from
    decreases if from < to then to - from else 0
  {
    if from < to {
      var z := slice[Slot(hash, from, |slice|)];
      var rest := Picks(slice, hash, from + 1, to);
      PicksCount(slice, hash, from + 1, to);
      NotPickedAfter(slice, hash, from, from + 1, to);
      PicksUnfold(slice, hash, from, to);
      AddFresh(z, rest);
    }
  }

  /** One unfolding of `Picks`. */
  lemma PicksUnfold(slice: seq<string>, hash: nat, from: nat, to: nat)
    requires |slice| > 0 && from < to
    ensures Picks(slice, hash, from, to) == {slice[Slot(hash, from, |slice|)]} + Picks(slice, hash, from + 1, to)
  {
  }

  /** Adding an element not yet present grows a set by one. */
  lemma AddFresh(z: string, rest: set<string>)
    requires z !in rest
    ensures |{z} + rest| == |rest| + 1
  {
  }

  /** The zone of offset `from` is not visited again by offsets `lo` up to
      `to`, when no offset wraps and fewer offsets than zones are taken. */
  lemma {:induction false} NotPickedAfter(slice: seq<string>, hash: nat, from: nat, lo: nat, to: nat)
    requires DistinctElems(slice) && |slice| > 0
    requires from < lo && to <= from + |slice| && hash + to <= TwoTo32
    ensures slice[Slot(hash, from, |slice|)] !in Picks(slice, hash, lo, to)
    decreases if lo < to then to - lo else 0
  {
    if lo < to {
      DistinctPick(slice, hash, from, lo);
      NotPickedAfter(slice, hash, from, lo + 1, to);
      PicksUnfold(slice, hash, lo, to);
    }
  }

  /** When neither the loop bound nor the hashed offsets wrap, exactly
      `numZones` distinct zones are chosen. */
  lemma ZonesFromStartExact(slice: seq<string>, hash: nat, start: nat, numZones: nat)
    requires StrictlySorted(slice) && 0 < |slice| && numZones <= |slice|
    requires start + numZones < TwoTo32 && hash + start + numZones <= TwoTo32
    ensures |ZonesFromStart(slice, hash, start, numZones)| == numZones
  {
    var bound := LoopBound(start, numZones);
    assert ZonesFromStart(slice, hash, start, numZones) == Picks(slice, hash, start, bound);
    assert bound == start + numZones;
    SortedDistinct(slice);
    PicksCount(slice, hash, start, bound);
  }

  /** The start 2^32 - 1 asking for one zone gets none: the loop bound
      wraps to 0. */
  lemma ZonesFromStartWraps(slice: seq<string>, hash: nat)
    requires |slice| > 0
    ensures ZonesFromStart(slice, hash, TwoTo32 - 1, 1) == {}
  {
  }

  /** When neither the loop bound nor the hashed offsets wrap, exactly
      `numZones` distinct zones are chosen for a claim. */
  lemma ChooseZonesExact(zones: set<string>, pvcName: string, numZones: nat, randomHash: nat)
    requires numZones < TwoTo32 && randomHash < TwoTo32
    requires 0 < |zones| && numZones <= |zones|
    requires var (hash, index) := HashAndIndexOffset(pvcName, randomHash);
      StartIndex(index, numZones) + numZones < TwoTo32
      && hash + StartIndex(index, numZones) + numZones <= TwoTo32
    ensures |ChooseZonesForVolume(zones, pvcName, numZones, randomHash)| == numZones
  {
    var (hash, index) := HashAndIndexOffset(pvcName, randomHash);
    ZonesFromStartExact(SortedList(zones), hash, StartIndex(index, numZones), numZones);
  }

  /** The wrap-around the loop bound suffers: the StatefulSet member with id
      2^32 - 1 asking for one zone gets none, whatever the zones. */
  lemma ChooseZonesWrapsToNothing(zones: set<string>, claim: string, setName: string, randomHash: nat)
    requires '-' !in setName && randomHash < TwoTo32
    ensures ChooseZonesForVolume(zones, claim + "-" + setName + "-" + NatToString(TwoTo32 - 1), 1, randomHash) == {}
  {
    StatefulSetClaim(claim, setName, TwoTo32 - 1, randomHash);
    LastOffsetWraps(zones, claim + "-" + setName + "-" + NatToString(TwoTo32 - 1), randomHash);
  }

  /** Asking for one zone starts at the claim's own offset. */
  lemma StartOfOne(index: nat)
    requires index < TwoTo32
    ensures StartIndex(index, 1) == index
  {
  }

  /** Any claim whose ordinal is 2^32 - 1 gets no zone when it asks for one. */
  lemma LastOffsetWraps(zones: set<string>, pvcName: string, randomHash: nat)
    requires randomHash < TwoTo32 && HashAndIndexOffset(pvcName, randomHash).1 == TwoTo32 - 1
    ensures ChooseZonesForVolume(zones, pvcName, 1, randomHash) == {}
  {
    if zones != {} {
      var hash := HashAndIndexOffset(pvcName, randomHash).0;
      var slice := SortedList(zones);
      StartOfOne(TwoTo32 - 1);
      assert ChooseZonesForVolume(zones, pvcName, 1, randomHash) == ZonesFromStart(slice, hash, TwoTo32 - 1, 1);
      ZonesFromStartWraps(slice, hash);
    }
  }

  /** Claims of the same StatefulSet member land in the same zones, whatever
      the claim template is called. */
  lemma SameMemberSameZones(zones: set<string>, claim1: string, claim2: string, setName: string, id: nat, numZones: nat, randomHash: nat)
    requires '-' !in setName && id < TwoTo32 && numZones < TwoTo32 && randomHash < TwoTo32
    ensures ChooseZonesForVolume(zones, claim1 + "-" + setName + "-" + NatToString(id), numZones, randomHash)
         == ChooseZonesForVolume(zones, claim2 + "-" + setName + "-" + NatToString(id), numZones, randomHash)
  {
    StatefulSetClaim(claim1, setName, id, randomHash);
    StatefulSetClaim(claim2, setName, id, randomHash);
  }

  // ---------------------------------------------------------------------
  // Including a given zone

  /** The chosen zones, and the input set as the caller sees it afterwards:
      Go deletes the zone to include from the caller's set. */
  datatype Inclusion = Inclusion(chosen: set<string>, zonesAfter: set<string>)

  /** `chooseZonesForVolumeIncludingZone`. */
  function ChooseZonesIncludingZone(zones: set<string>, pvcName: string, zoneToInclude: string, numReplicas: nat, randomHash: nat): (r: Result<Inclusion>)
    requires numReplicas < TwoTo32 && randomHash < TwoTo32
    ensures numReplicas == 0 ==> r.Err?
    ensures |zones| < numReplicas ==> r.Err?
    ensures zoneToInclude != "" && zoneToInclude !in zones ==> r.Err?
    ensures r.Ok? <==> numReplicas > 0 && |zones| >= numReplicas && (zoneToInclude == "" || zoneToInclude in zones)
    ensures r.Ok? ==> r.value.chosen <= zones && |r.value.chosen| <= numReplicas
    ensures r.Ok? && zoneToInclude != "" ==> zoneToInclude in r.value.chosen
    ensures r.Ok? && |zones| == numReplicas ==> r.value.chosen == zones
    ensures r.Ok? ==> (r.value.zonesAfter ==
      if zoneToInclude != "" && |zones| != numReplicas then zones - {zoneToInclude} else zones)
  {
    if numReplicas == 0 then Err(ErrInvalidReplicas)
    else if |zones| < numReplicas then Err(ErrNotEnoughZones)
    else if zoneToInclude != "" && zoneToInclude !in zones then Err(ErrIncludeNotMember)
    else if |zones| == numReplicas then Ok(Inclusion(zones, zones))
    else if zoneToInclude != "" then
      var rest := zones - {zoneToInclude};
      var chosen := ChooseZonesForVolume(rest, pvcName, numReplicas - 1, randomHash);
      Ok(Inclusion(chosen + {zoneToInclude}, rest))
    else
      Ok(Inclusion(ChooseZonesForVolume(zones, pvcName, numReplicas, randomHash), zones))
  }

  // ---------------------------------------------------------------------
  // Allowed topologies

  /** The zone values of label expressions, or an error at the first
      expression on another key. */
  function ExpressionZones(exprs: seq<Requirement>): (r: Result<set<string>>)
    ensures r.Ok? <==> forall i :: 0 <= i < |exprs| ==> exprs[i].key == LabelZoneFailureDomain
    ensures r.Ok? ==> forall z :: z in r.value <==> exists i :: 0 <= i < |exprs| && z in exprs[i].values
  {
    if |exprs| == 0 then Ok({})
    else if exprs[0].key != LabelZoneFailureDomain then Err(ErrUnsupportedKey)
    else
      match ExpressionZones(exprs[1..])
      case Err(e) => Err(e)
      case Ok(rest) =>
        assert forall i :: 1 <= i < |exprs| ==> exprs[i] == exprs[1..][i - 1];
        Ok((set v | v in exprs[0].values) + rest)
  }

  /** Every expression of every term is on the zone label. */
  predicate OnlyZoneKeys(terms: seq<TopologyTerm>) {
    forall t, i :: 0 <= t < |terms| && 0 <= i < |terms[t].expressions| ==>
      terms[t].expressions[i].key == LabelZoneFailureDomain
  }

  /** Some expression of some term lists `z`. */
  predicate Mentions(terms: seq<TopologyTerm>, z: string) {
    exists t, i :: 0 <= t < |terms| && 0 <= i < |terms[t].expressions| && z in terms[t].expressions[i].values
  }

  /** `ZonesFromAllowedTopologies`: every zone the terms list, or an error if
      an expression is on another label. */
  function ZonesFromAllowedTopologies(terms: seq<TopologyTerm>): (r: Result<set<string>>)
    ensures r.Ok? <==> OnlyZoneKeys(terms)
    ensures r.Ok? ==> forall z :: z in r.value <==> Mentions(terms, z)
  {
    if |terms| == 0 then Ok({})
    else
      match ExpressionZones(terms[0].expressions)
      case Err(e) => Err(e)
      case Ok(first) =>
        match ZonesFromAllowedTopologies(terms[1..])
        case Err(e) =>
          assert !OnlyZoneKeys(terms[1..]);
          var t, i :| 0 <= t < |terms[1..]| && 0 <= i < |terms[1..][t].expressions|
            && terms[1..][t].expressions[i].key != LabelZoneFailureDomain;
          assert terms[t + 1].expressions[i].key != LabelZoneFailureDomain;
          Err(e)
        case Ok(rest) =>
          assert forall t :: 1 <= t < |terms| ==> terms[t] == terms[1..][t - 1];
          Ok(first + rest)
  }

  // ---------------------------------------------------------------------
  // Selection

  /** `SelectZonesForVolume`. A node carries its zone label; `zone` and
      `zones` are the storage-class parameters, each with its presence. */
  function SelectZonesForVolume(zoneParameterPresent: bool, zonesParameterPresent: bool,
                                zoneParameter: string, zonesParameter: set<string>,
                                zonesWithNodes: set<string>, node: Option<Node>,
                                allowedTopologies: seq<TopologyTerm>, pvcName: string,
                                numReplicas: nat, randomHash: nat): (r: Result<set<string>>)
    requires numReplicas < TwoTo32 && randomHash < TwoTo32
    ensures zoneParameterPresent && zonesParameterPresent ==> r.Err?
    ensures node.Some? && !zoneParameterPresent && !zonesParameterPresent
      && LabelZoneFailureDomain in node.value.labels && numReplicas == 1
      ==> r == Ok({node.value.labels[LabelZoneFailureDomain]})
    ensures r.Ok? ==> |r.value| <= numReplicas || (numReplicas == 0 && zoneParameterPresent && r.value == {zoneParameter})
  {
    if zoneParameterPresent && zonesParameterPresent then
      Err(ErrZoneAndZones)
    else if node.Some? && (zoneParameterPresent || zonesParameterPresent) then
      Err(ErrZonesWithDelayedBinding)
    else if node.Some? && LabelZoneFailureDomain !in node.value.labels then
      Err(ErrNodeZoneMissing)
    else if node.Some? && numReplicas == 1 then
      Ok({node.value.labels[LabelZoneFailureDomain]})
    else
      var zoneFromNode := if node.Some? then node.value.labels[LabelZoneFailureDomain] else "";
      ZonesByParameters(zoneParameterPresent, zonesParameterPresent, zoneParameter, zonesParameter,
                        zonesWithNodes, zoneFromNode, allowedTopologies, pvcName, numReplicas, randomHash)
  }

  /** The part of `SelectZonesForVolume` after the node checks: the allowed
      topologies first, then the `zone` and `zones` parameters, then the
      zones that have nodes, each time keeping `zoneFromNode` when given. */
  function ZonesByParameters(zoneParameterPresent: bool, zonesParameterPresent: bool,
                             zoneParameter: string, zonesParameter: set<string>,
                             zonesWithNodes: set<string>, zoneFromNode: string,
                             allowedTopologies: seq<TopologyTerm>, pvcName: string,
                             numReplicas: nat, randomHash: nat): (r: Result<set<string>>)
    requires numReplicas < TwoTo32 && randomHash < TwoTo32
    ensures zoneParameterPresent && numReplicas > 1 ==> r.Err?
    ensures !OnlyZoneKeys(allowedTopologies) ==> r.Err?
    ensures r.Ok? && |allowedTopologies| > 0 ==> forall z :: z in r.value ==> Mentions(allowedTopologies, z)
    ensures r.Ok? ==> |r.value| <= numReplicas || (numReplicas == 0 && zoneParameterPresent && r.value == {zoneParameter})
  {
    match ZonesFromAllowedTopologies(allowedTopologies)
    case Err(e) => Err(e)
    case Ok(allowedZones) =>
      if |allowedTopologies| > 0 && allowedZones == {} then
        Err(ErrNoZoneKey)
      else if allowedZones != {} then
        if zoneParameterPresent || zonesParameterPresent then
          Err(ErrZonesWithTopologies)
        else
          match ChooseZonesIncludingZone(allowedZones, pvcName, zoneFromNode, numReplicas, randomHash)
          case Err(e) => Err(ErrTopologyZones + e)
          case Ok(inclusion) => Ok(inclusion.chosen)
      else if zoneParameterPresent then
        if numReplicas > 1 then Err(ErrZoneWithReplicas)
        else Ok({zoneParameter})
      else if zonesParameterPresent then
        if |zonesParameter| < numReplicas then Err(ErrNotEnoughZonesParameter)
        else Ok(ChooseZonesForVolume(zonesParameter, pvcName, numReplicas, randomHash))
      else if zonesWithNodes != {} then
        match ChooseZonesIncludingZone(zonesWithNodes, pvcName, zoneFromNode, numReplicas, randomHash)
        case Err(e) => Err(ErrNodeZones + e)
        case Ok(inclusion) => Ok(inclusion.chosen)
      else Err(ErrNoZones)
  }

  /** The caller's `zonesWithNodes` as `SelectZonesForVolume` leaves it. Go
      passes the set by reference, and `chooseZonesForVolumeIncludingZone`
      deletes the zone to include from it; this follows the same branches
      as `SelectZonesForVolume` and returns the set afterwards. The node's
      zone is removed exactly when a node with a non-empty zone in the set
      asks for more replicas than one, there are no zone parameters or
      allowed topologies, and the set holds more zones than replicas. */
  function ZonesWithNodesAfterSelection(zoneParameterPresent: bool, zonesParameterPresent: bool,
                                        zoneParameter: string, zonesParameter: set<string>,
                                        zonesWithNodes: set<string>, node: Option<Node>,
                                        allowedTopologies: seq<TopologyTerm>, pvcName: string,
                                        numReplicas: nat, randomHash: nat): (after: set<string>)
    requires numReplicas < TwoTo32 && randomHash < TwoTo32
    ensures after <= zonesWithNodes
    ensures after == zonesWithNodes
      || (node.Some? && LabelZoneFailureDomain in node.value.labels
          && after == zonesWithNodes - {node.value.labels[LabelZoneFailureDomain]})
    ensures after != zonesWithNodes <==>
      && node.Some? && !zoneParameterPresent && !zonesParameterPresent
      && LabelZoneFailureDomain in node.value.labels
      && node.value.labels[LabelZoneFailureDomain] != ""
      && node.value.labels[LabelZoneFailureDomain] in zonesWithNodes
      && |allowedTopologies| == 0
      && 1 < numReplicas < |zonesWithNodes|
  {
    if zoneParameterPresent && zonesParameterPresent then zonesWithNodes
    else if node.Some? && (zoneParameterPresent || zonesParameterPresent) then zonesWithNodes
    else if node.Some? && LabelZoneFailureDomain !in node.value.labels then zonesWithNodes
    else if node.Some? && numReplicas == 1 then zonesWithNodes
    else
      var zoneFromNode := if node.Some? then node.value.labels[LabelZoneFailureDomain] else "";
      match ZonesFromAllowedTopologies(allowedTopologies)
      case Err(_) =>
        assert |allowedTopologies| > 0;
        zonesWithNodes
      case Ok(allowedZones) =>
        if |allowedTopologies| > 0 && allowedZones == {} then zonesWithNodes
        else if allowedZones != {} then
          assert |allowedTopologies| > 0;
          zonesWithNodes
        else if zoneParameterPresent || zonesParameterPresent then zonesWithNodes
        else if zonesWithNodes != {} then
          match ChooseZonesIncludingZone(zonesWithNodes, pvcName, zoneFromNode, numReplicas, randomHash)
          case Err(_) => zonesWithNodes
          case Ok(inclusion) => inclusion.zonesAfter
        else zonesWithNodes
  }

  /** The zone taken out of the caller's set is one the volume was placed in. */
  lemma RemovedZoneIsChosen(zoneParameterPresent: bool, zonesParameterPresent: bool,
                            zoneParameter: string, zonesParameter: set<string>,
                            zonesWithNodes: set<string>, node: Option<Node>,
                            allowedTopologies: seq<TopologyTerm>, pvcName: string,
                            numReplicas: nat, randomHash: nat)
    requires numReplicas < TwoTo32 && randomHash < TwoTo32
    requires ZonesWithNodesAfterSelection(zoneParameterPresent, zonesParameterPresent, zoneParameter,
                                          zonesParameter, zonesWithNodes, node, allowedTopologies,
                                          pvcName, numReplicas, randomHash) != zonesWithNodes
    ensures var r := SelectZonesForVolume(zoneParameterPresent, zonesParameterPresent, zoneParameter,
                                          zonesParameter, zonesWithNodes, node, allowedTopologies,
                                          pvcName, numReplicas, randomHash);
      && r.Ok? && node.Some?
      && node.value.labels[LabelZoneFailureDomain] in r.value
      && r.value <= zonesWithNodes && |r.value| <= numReplicas
  {
    assert ZonesFromAllowedTopologies(allowedTopologies) == Ok({});
  }

  /** A claim bound to a node takes its zone from the node: the storage
      class may not name zones, and the node must carry a zone label. */
  lemma SelectionForNode(zoneParameterPresent: bool, zonesParameterPresent: bool,
                         zoneParameter: string, zonesParameter: set<string>,
                         zonesWithNodes: set<string>, node: Option<Node>,
                         allowedTopologies: seq<TopologyTerm>, pvcName: string,
                         numReplicas: nat, randomHash: nat)
    requires numReplicas < TwoTo32 && randomHash < TwoTo32
    requires node.Some?
    ensures var r := SelectZonesForVolume(zoneParameterPresent, zonesParameterPresent, zoneParameter,
                                          zonesParameter, zonesWithNodes, node, allowedTopologies,
                                          pvcName, numReplicas, randomHash);
      && (zoneParameterPresent || zonesParameterPresent ==> r.Err?)
      && (LabelZoneFailureDomain !in node.value.labels ==> r.Err?)
  {
  }

  /** A single `zone` parameter cannot serve several replicas, and allowed
      topologies may only constrain the zone label (unless a single-replica
      volume follows its node). */
  lemma SelectionRejects(zoneParameterPresent: bool, zonesParameterPresent: bool,
                         zoneParameter: string, zonesParameter: set<string>,
                         zonesWithNodes: set<string>, node: Option<Node>,
                         allowedTopologies: seq<TopologyTerm>, pvcName: string,
                         numReplicas: nat, randomHash: nat)
    requires numReplicas < TwoTo32 && randomHash < TwoTo32
    ensures var r := SelectZonesForVolume(zoneParameterPresent, zonesParameterPresent, zoneParameter,
                                          zonesParameter, zonesWithNodes, node, allowedTopologies,
                                          pvcName, numReplicas, randomHash);
      && (zoneParameterPresent && numReplicas > 1 ==> r.Err?)
      && (!OnlyZoneKeys(allowedTopologies) ==> r.Err? || (node.Some? && numReplicas == 1))
  {
    SelectionDelegates(zoneParameterPresent, zonesParameterPresent, zoneParameter, zonesParameter,
                       zonesWithNodes, node, allowedTopologies, pvcName, numReplicas, randomHash);
  }

  /** Past the node checks, selection is `ZonesByParameters`. */
  lemma SelectionDelegates(zoneParameterPresent: bool, zonesParameterPresent: bool,
                           zoneParameter: string, zonesParameter: set<string>,
                           zonesWithNodes: set<string>, node: Option<Node>,
                           allowedTopologies: seq<TopologyTerm>, pvcName: string,
                           numReplicas: nat, randomHash: nat)
    requires numReplicas < TwoTo32 && randomHash < TwoTo32
    ensures var r := SelectZonesForVolume(zoneParameterPresent, zonesParameterPresent, zoneParameter,
                                          zonesParameter, zonesWithNodes, node, allowedTopologies,
                                          pvcName, numReplicas, randomHash);
      || (zoneParameterPresent && zonesParameterPresent && r.Err?)
      || (node.Some? && (zoneParameterPresent || zonesParameterPresent) && r.Err?)
      || (node.Some? && LabelZoneFailureDomain !in node.value.labels && r.Err?)
      || (node.Some? && numReplicas == 1 && r.Ok?)
      || r == ZonesByParameters(zoneParameterPresent, zonesParameterPresent, zoneParameter, zonesParameter,
                                zonesWithNodes, if node.Some? then node.value.labels[LabelZoneFailureDomain] else "",
                                allowedTopologies, pvcName, numReplicas, randomHash)
  {
  }

  /** Unless a single-replica volume follows its node, the chosen zones lie
      within the allowed topologies whenever those name any zone. */
  lemma SelectionRespectsAllowedTopologies(zoneParameterPresent: bool, zonesParameterPresent: bool,
                                           zoneParameter: string, zonesParameter: set<string>,
                                           zonesWithNodes: set<string>, node: Option<Node>,
                                           allowedTopologies: seq<TopologyTerm>, pvcName: string,
                                           numReplicas: nat, randomHash: nat)
    requires numReplicas < TwoTo32 && randomHash < TwoTo32
    requires node.None? || numReplicas != 1
    ensures var r := SelectZonesForVolume(zoneParameterPresent, zonesParameterPresent, zoneParameter,
                                          zonesParameter, zonesWithNodes, node, allowedTopologies,
                                          pvcName, numReplicas, randomHash);
      r.Ok? && |allowedTopologies| > 0 ==>
        forall z :: z in r.value ==> Mentions(allowedTopologies, z)
  {
    SelectionDelegates(zoneParameterPresent, zonesParameterPresent, zoneParameter, zonesParameter,
                       zonesWithNodes, node, allowedTopologies, pvcName, numReplicas, randomHash);
  }
}
