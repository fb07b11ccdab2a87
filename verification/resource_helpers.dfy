/** Pod resource aggregation: per-resource sums and maxima over a pod's
    containers, the request total the scheduler reads, and the container
    lookups behind the downward API's resource fields. A `ResourceList` is a
    map from resource name to quantity; Go's range over it is modelled by
    visiting its keys in ascending order, which no result depends on. */
module ResourceHelpers {
  import opened Wrappers
  import opened Strings
  import opened StringOrder
  import opened Quantities

  // Error messages; the values Go formats into them are left out.
  const ErrUnsupportedResource: string := "unsupported container resource : "

  const ResourceCPU: string := "cpu"
  const ResourceMemory: string := "memory"
  const ResourceEphemeralStorage: string := "ephemeral-storage"
  const ResourcePods: string := "pods"

  type ResourceList = map<string, Quantity>

  datatype Container = Container(name: string, requests: ResourceList, limits: ResourceList)

  datatype Pod = Pod(containers: seq<Container>, initContainers: seq<Container>)

  // ---------------------------------------------------------------------
  // Pointwise sum and maximum

  /** The value `addResourceList` stores for a key of `new`. */
  function Summed(list: ResourceList, added: ResourceList, k: string): Quantity
    requires k in added
  {
    if k in list then Add(list[k], added[k]) else added[k]
  }

  /** The range loop of `addResourceList` over the keys still to visit. */
  function AddEach(list: ResourceList, added: ResourceList, keys: set<string>): (r: ResourceList)
    requires keys <= added.Keys
    ensures r.Keys == list.Keys + keys
    ensures forall k :: k in keys ==> r[k] == Summed(list, added, k)
    ensures forall k :: k in list && k !in keys ==> r[k] == list[k]
    decreases keys
  {
    if keys == {} then list
    else
      var k := Least(keys);
      AddEach(list[k := Summed(list, added, k)], added, keys - {k})
  }

  /** `addResourceList`: every key of `new` is added into `list`; a key
      missing from `list` takes `new`'s quantity; other keys are untouched. */
  function AddResourceList(list: ResourceList, added: ResourceList): (r: ResourceList)
    ensures r.Keys == list.Keys + added.Keys
    ensures forall k :: k in added && k in list ==> r[k].milli == list[k].milli + added[k].milli
    ensures forall k :: k in added && k !in list ==> r[k] == added[k]
    ensures forall k :: k in list && k !in added ==> r[k] == list[k]
  {
    AddEach(list, added, added.Keys)
  }

  /** The value `maxResourceList` stores for a key of `new`. */
  function Raised(list: ResourceList, added: ResourceList, k: string): Quantity
    requires k in added
  {
    if k !in list || Greater(added[k], list[k]) then added[k] else list[k]
  }

  /** The range loop of `maxResourceList` over the keys still to visit. */
  function MaxEach(list: ResourceList, added: ResourceList, keys: set<string>): (r: ResourceList)
    requires keys <= added.Keys
    ensures r.Keys == list.Keys + keys
    ensures forall k :: k in keys ==> r[k] == Raised(list, added, k)
    ensures forall k :: k in list && k !in keys ==> r[k] == list[k]
    decreases keys
  {
    if keys == {} then list
    else
      var k := Least(keys);
      MaxEach(list[k := Raised(list, added, k)], added, keys - {k})
  }

  /** `maxResourceList`: every key of `new` is raised to at least `new`'s
      quantity; other keys are untouched. */
  function MaxResourceList(list: ResourceList, added: ResourceList): (r: ResourceList)
    ensures r.Keys == list.Keys + added.Keys
    ensures forall k :: k in added && k in list ==>
      r[k].milli == if added[k].milli > list[k].milli then added[k].milli else list[k].milli
    ensures forall k :: k in added && k !in list ==> r[k] == added[k]
    ensures forall k :: k in list && k !in added ==> r[k] == list[k]
  {
    MaxEach(list, added, added.Keys)
  }

  // ---------------------------------------------------------------------
  // Pod totals

  /** Requests or limits of a container. */
  function Resources(c: Container, limits: bool): ResourceList {
    if limits then c.limits else c.requests
  }

  /** The first loop of `PodRequestsAndLimits`, over the regular containers. */
  function SumContainers(acc: ResourceList, cs: seq<Container>, limits: bool): (r: ResourceList)
    ensures forall k :: k in r <==> k in acc || exists i :: 0 <= i < |cs| && k in Resources(cs[i], limits)
    decreases |cs|
  {
    if |cs| == 0 then acc
    else
      assert forall i :: 1 <= i < |cs| ==> cs[i] == cs[1..][i - 1];
      SumContainers(AddResourceList(acc, Resources(cs[0], limits)), cs[1..], limits)
  }

  /** The second loop, over the init containers. */
  function MaxContainers(acc: ResourceList, cs: seq<Container>, limits: bool): (r: ResourceList)
    ensures forall k :: k in r <==> k in acc || exists i :: 0 <= i < |cs| && k in Resources(cs[i], limits)
    decreases |cs|
  {
    if |cs| == 0 then acc
    else
      assert forall i :: 1 <= i < |cs| ==> cs[i] == cs[1..][i - 1];
      MaxContainers(MaxResourceList(acc, Resources(cs[0], limits)), cs[1..], limits)
  }

  /** `PodRequestsAndLimits`: the summed requests and the summed limits,
      each raised to any init container's value. */
  function PodRequestsAndLimits(pod: Pod): (r: (ResourceList, ResourceList))
    ensures forall k :: k in r.0 <==>
      || (exists i :: 0 <= i < |pod.containers| && k in pod.containers[i].requests)
      || (exists i :: 0 <= i < |pod.initContainers| && k in pod.initContainers[i].requests)
    ensures forall k :: k in r.1 <==>
      || (exists i :: 0 <= i < |pod.containers| && k in pod.containers[i].limits)
      || (exists i :: 0 <= i < |pod.initContainers| && k in pod.initContainers[i].limits)
  {
    (MaxContainers(SumContainers(map[], pod.containers, false), pod.initContainers, false),
     MaxContainers(SumContainers(map[], pod.containers, true), pod.initContainers, true))
  }

  // Reference definition, one resource at a time.

  /** The sum, in thousandths, of `k` over the containers listing it, or
      `None` when none lists it. */
  function SumOf(cs: seq<Container>, k: string, limits: bool): Option<int>
    decreases |cs|
  {
    if |cs| == 0 then None
    else
      var rest := SumOf(cs[..|cs| - 1], k, limits);
      var last := Resources(cs[|cs| - 1], limits);
      if k !in last then rest
      else if rest.None? then Some(last[k].milli)
      else Some(rest.value + last[k].milli)
  }

  /** The largest of `start` and `k`'s value in each container listing it. */
  function MaxOf(start: Option<int>, cs: seq<Container>, k: string, limits: bool): Option<int>
    decreases |cs|
  {
    if |cs| == 0 then start
    else
      var last := Resources(cs[|cs| - 1], limits);
      var before := MaxOf(start, cs[..|cs| - 1], k, limits);
      if k !in last then before
      else if before.None? || last[k].milli > before.value then Some(last[k].milli)
      else before
  }

  /** What `PodRequestsAndLimits` holds for resource `k`. */
  function PodTotal(pod: Pod, k: string, limits: bool): Option<int> {
    MaxOf(SumOf(pod.containers, k, limits), pod.initContainers, k, limits)
  }

  /** The summing loop agrees with the per-resource sum. */
  lemma {:induction false} SumContainersPerKey(cs: seq<Container>, limits: bool)
    ensures forall k :: (k in SumContainers(map[], cs, limits)) <==> SumOf(cs, k, limits).Some?
    ensures forall k :: k in SumContainers(map[], cs, limits) ==>
      SumContainers(map[], cs, limits)[k].milli == SumOf(cs, k, limits).value
    decreases |cs|
  {
    if |cs| > 0 {
      var init := cs[..|cs| - 1];
      var last := Resources(cs[|cs| - 1], limits);
      var prev := SumContainers(map[], init, limits);
      SumContainersPerKey(init, limits);
      SumContainersLast(cs, limits);
      var now := AddResourceList(prev, last);
      forall k
        ensures (k in now <==> SumOf(cs, k, limits).Some?)
        ensures k in now ==> now[k].milli == SumOf(cs, k, limits).value
      {
        SumStep(prev, last, k, SumOf(init, k, limits));
        SumOfLast(cs, k, limits);
      }
    }
  }

  lemma SumContainersLast(cs: seq<Container>, limits: bool)
    requires |cs| > 0
    ensures SumContainers(map[], cs, limits)
      == AddResourceList(SumContainers(map[], cs[..|cs| - 1], limits), Resources(cs[|cs| - 1], limits))
  {
    var init := cs[..|cs| - 1];
    SumContainersSnoc(map[], init, cs[|cs| - 1], limits);
    assert init + [cs[|cs| - 1]] == cs;
  }

  lemma SumOfLast(cs: seq<Container>, k: string, limits: bool)
    requires |cs| > 0
    ensures var before := SumOf(cs[..|cs| - 1], k, limits); var last := Resources(cs[|cs| - 1], limits);
      SumOf(cs, k, limits) == (
        if k !in last then before
        else if before.None? then Some(last[k].milli)
        else Some(before.value + last[k].milli))
  {
  }

  /** Adding one container's list advances each resource's running sum. */
  lemma SumStep(prev: ResourceList, last: ResourceList, k: string, before: Option<int>)
    requires (k in prev <==> before.Some?) && (k in prev ==> prev[k].milli == before.value)
    ensures var now := AddResourceList(prev, last);
      var after := if k !in last then before
        else if before.None? then Some(last[k].milli)
        else Some(before.value + last[k].milli);
      (k in now <==> after.Some?) && (k in now ==> now[k].milli == after.value)
  {
  }

  lemma {:induction false} SumContainersSnoc(acc: ResourceList, cs: seq<Container>, c: Container, limits: bool)
    ensures SumContainers(acc, cs + [c], limits) == AddResourceList(SumContainers(acc, cs, limits), Resources(c, limits))
    decreases |cs|
  {
    if |cs| == 0 {
      assert cs + [c] == [c];
    } else {
      assert (cs + [c])[1..] == cs[1..] + [c];
      SumContainersSnoc(AddResourceList(acc, Resources(cs[0], limits)), cs[1..], c, limits);
    }
  }

  lemma {:induction false} MaxContainersSnoc(acc: ResourceList, cs: seq<Container>, c: Container, limits: bool)
    ensures MaxContainers(acc, cs + [c], limits) == MaxResourceList(MaxContainers(acc, cs, limits), Resources(c, limits))
    decreases |cs|
  {
    if |cs| == 0 {
      assert cs + [c] == [c];
    } else {
      assert (cs + [c])[1..] == cs[1..] + [c];
      MaxContainersSnoc(MaxResourceList(acc, Resources(cs[0], limits)), cs[1..], c, limits);
    }
  }

  /** The maximum loop agrees with the per-resource maximum. */
  lemma {:induction false} MaxContainersPerKey(acc: ResourceList, cs: seq<Container>, limits: bool)
    ensures forall k :: (k in MaxContainers(acc, cs, limits)) <==>
      MaxOf(if k in acc then Some(acc[k].milli) else None, cs, k, limits).Some?
    ensures forall k :: k in MaxContainers(acc, cs, limits) ==>
      MaxContainers(acc, cs, limits)[k].milli == MaxOf(if k in acc then Some(acc[k].milli) else None, cs, k, limits).value
    decreases |cs|
  {
    if |cs| > 0 {
      var init := cs[..|cs| - 1];
      var last := Resources(cs[|cs| - 1], limits);
      var prev := MaxContainers(acc, init, limits);
      MaxContainersPerKey(acc, init, limits);
      MaxContainersSnoc(acc, init, cs[|cs| - 1], limits);
      assert init + [cs[|cs| - 1]] == cs;
      var now := MaxResourceList(prev, last);
      assert MaxContainers(acc, cs, limits) == now;
      forall k
        ensures var start := if k in acc then Some(acc[k].milli) else None;
          && (k in now <==> MaxOf(start, cs, k, limits).Some?)
          && (k in now ==> now[k].milli == MaxOf(start, cs, k, limits).value)
      {
        var start := if k in acc then Some(acc[k].milli) else None;
        var before := MaxOf(start, init, k, limits);
        assert MaxOf(start, cs, k, limits) == (
          if k !in last then before
          else if before.None? || last[k].milli > before.value then Some(last[k].milli)
          else before);
      }
    }
  }

  /** `PodRequestsAndLimits` holds, for each resource, the larger of the
      containers' sum and every init container's value. */
  lemma PodRequestsAndLimitsPerKey(pod: Pod, limits: bool)
    ensures var total := if limits then PodRequestsAndLimits(pod).1 else PodRequestsAndLimits(pod).0;
      forall k :: (k in total <==> PodTotal(pod, k, limits).Some?)
        && (k in total ==> total[k].milli == PodTotal(pod, k, limits).value)
  {
    var sums := SumContainers(map[], pod.containers, limits);
    SumContainersPerKey(pod.containers, limits);
    MaxContainersPerKey(sums, pod.initContainers, limits);
    forall k
      ensures (if k in sums then Some(sums[k].milli) else None) == SumOf(pod.containers, k, limits)
    {
    }
  }

  /** The per-resource total is at least every init container's value and at
      least the containers' sum. */
  lemma {:induction false} MaxOfBounds(start: Option<int>, cs: seq<Container>, k: string, limits: bool)
    ensures start.Some? ==> MaxOf(start, cs, k, limits).Some? && MaxOf(start, cs, k, limits).value >= start.value
    ensures forall i :: 0 <= i < |cs| && k in Resources(cs[i], limits) ==>
      MaxOf(start, cs, k, limits).Some? && MaxOf(start, cs, k, limits).value >= Resources(cs[i], limits)[k].milli
    decreases |cs|
  {
    if |cs| > 0 {
      var init := cs[..|cs| - 1];
      MaxOfBounds(start, init, k, limits);
      assert forall i :: 0 <= i < |init| ==> cs[i] == init[i];
    }
  }

  // ---------------------------------------------------------------------
  // Request of one resource

  /** A container's request for `resource` in the unit the scheduler uses:
      thousandths for CPU, whole units otherwise. */
  function RequestUnits(q: Quantity, resource: string): int {
    if resource == ResourceCPU then MilliValue(q) else Value(q)
  }

  /** The mathematical total of the containers' requests for `resource`, as
      an unbounded integer, summed from the last container backwards. */
  function RequestTotal(cs: seq<Container>, resource: string): int
    decreases |cs|
  {
    if |cs| == 0 then 0
    else
      var last := cs[|cs| - 1];
      RequestTotal(cs[..|cs| - 1], resource)
        + (if resource in last.requests then RequestUnits(last.requests[resource], resource) else 0)
  }

  /** The first loop of `GetResourceRequest`: an `int64` running sum. It is
      the mathematical total wrapped into `int64`, and so that total itself
      whenever the total fits. */
  function SumRequests(total: int, cs: seq<Container>, resource: string): (r: int)
    requires InInt64(total)
    ensures InInt64(r)
    ensures r == WrapInt64(total + RequestTotal(cs, resource))
    decreases |cs|
  {
    if |cs| == 0 then total
    else
      var next := if resource in cs[0].requests
        then WrapInt64(total + RequestUnits(cs[0].requests[resource], resource))
        else total;
      var u := if resource in cs[0].requests then RequestUnits(cs[0].requests[resource], resource) else 0;
      RequestTotalFront(cs, resource);
      WrapInt64Add(total + u, RequestTotal(cs[1..], resource));
      SumRequests(next, cs[1..], resource)
  }

  /** The total splits off the first container as well as the last. */
  lemma {:induction false} RequestTotalFront(cs: seq<Container>, resource: string)
    requires |cs| > 0
    ensures RequestTotal(cs, resource)
         == (if resource in cs[0].requests then RequestUnits(cs[0].requests[resource], resource) else 0)
            + RequestTotal(cs[1..], resource)
    decreases |cs|
  {
    if |cs| > 1 {
      var init := cs[..|cs| - 1];
      RequestTotalFront(init, resource);
      assert init[0] == cs[0];
      assert init[1..] == cs[1..][..|cs[1..]| - 1];
      assert cs[1..][|cs[1..]| - 1] == cs[|cs| - 1];
    } else {
      assert cs[..0] == [] && cs[1..] == [];
    }
  }

  /** One step of the init-container loop, written as the source writes it:
      for CPU the thousandths are compared first, and when they do not win
      the whole-unit value is still tried. */
  function InitStep(total: int, q: Quantity, resource: string): int {
    if resource == ResourceCPU && MilliValue(q) > total then MilliValue(q)
    else if Value(q) > total then Value(q)
    else total
  }

  /** The second loop of `GetResourceRequest`. */
  function RaiseByInits(total: int, cs: seq<Container>, resource: string): int
    decreases |cs|
  {
    if |cs| == 0 then total
    else
      var next := if resource in cs[0].requests then InitStep(total, cs[0].requests[resource], resource) else total;
      RaiseByInits(next, cs[1..], resource)
  }

  /** `GetResourceRequest`: 1 for pods; otherwise the containers' total
      request (wrapped into `int64`), raised to any larger init-container
      request. For resources other than CPU all values are whole units and
      the result is the largest of them; for CPU, with non-negative init
      requests, it is the largest in thousandths. */
  function GetResourceRequest(pod: Pod, resource: string): (r: int)
    ensures resource == ResourcePods ==> r == 1
    ensures resource != ResourcePods ==> r >= WrapInt64(RequestTotal(pod.containers, resource))
    ensures resource != ResourcePods && resource != ResourceCPU ==>
      && (forall i :: 0 <= i < |pod.initContainers| && resource in pod.initContainers[i].requests ==>
            r >= Value(pod.initContainers[i].requests[resource]))
      && (|| r == WrapInt64(RequestTotal(pod.containers, resource))
          || exists i :: 0 <= i < |pod.initContainers| && resource in pod.initContainers[i].requests
                && r == Value(pod.initContainers[i].requests[resource]))
    ensures (&& resource == ResourceCPU
             && forall i :: 0 <= i < |pod.initContainers| && ResourceCPU in pod.initContainers[i].requests ==>
                  pod.initContainers[i].requests[ResourceCPU].milli >= 0) ==>
      && (forall i :: 0 <= i < |pod.initContainers| && ResourceCPU in pod.initContainers[i].requests ==>
            r >= pod.initContainers[i].requests[ResourceCPU].milli)
      && (|| r == WrapInt64(RequestTotal(pod.containers, resource))
          || exists i :: 0 <= i < |pod.initContainers| && ResourceCPU in pod.initContainers[i].requests
                && r == pod.initContainers[i].requests[ResourceCPU].milli)
  {
    if resource == ResourcePods then 1
    else
      var total := SumRequests(0, pod.containers, resource);
      if resource == ResourceCPU then
        if forall i :: 0 <= i < |pod.initContainers| && ResourceCPU in pod.initContainers[i].requests ==>
             pod.initContainers[i].requests[ResourceCPU].milli >= 0
        then
          RaiseByInitsCpu(total, pod.initContainers);
          RaiseByInits(total, pod.initContainers, resource)
        else
          RaiseByInitsAtLeast(total, pod.initContainers, resource);
          RaiseByInits(total, pod.initContainers, resource)
      else
        RaiseByInitsBounds(total, pod.initContainers, resource);
        RaiseByInits(total, pod.initContainers, resource)
  }

  /** The init-container loop never lowers the running value. */
  lemma {:induction false} RaiseByInitsAtLeast(total: int, cs: seq<Container>, resource: string)
    ensures RaiseByInits(total, cs, resource) >= total
    decreases |cs|
  {
    if |cs| > 0 {
      var next := if resource in cs[0].requests then InitStep(total, cs[0].requests[resource], resource) else total;
      RaiseByInitsAtLeast(next, cs[1..], resource);
    }
  }

  /** For resources other than CPU, the result is the largest of the
      containers' sum and every init container's request: at least each,
      and equal to one of them. */
  lemma {:induction false} RaiseByInitsBounds(total: int, cs: seq<Container>, resource: string)
    requires resource != ResourceCPU
    ensures RaiseByInits(total, cs, resource) >= total
    ensures forall i :: 0 <= i < |cs| && resource in cs[i].requests ==>
      RaiseByInits(total, cs, resource) >= Value(cs[i].requests[resource])
    ensures RaiseByInits(total, cs, resource) == total
      || (exists i :: 0 <= i < |cs| && resource in cs[i].requests
            && RaiseByInits(total, cs, resource) == Value(cs[i].requests[resource]))
    decreases |cs|
  {
    if |cs| > 0 {
      var next := if resource in cs[0].requests then InitStep(total, cs[0].requests[resource], resource) else total;
      RaiseByInitsBounds(next, cs[1..], resource);
      assert forall i :: 1 <= i < |cs| ==> cs[i] == cs[1..][i - 1];
      var r := RaiseByInits(total, cs, resource);
      if r != next {
        var j :| 0 <= j < |cs[1..]| && resource in cs[1..][j].requests && r == Value(cs[1..][j].requests[resource]);
        assert cs[j + 1] == cs[1..][j];
      }
    }
  }

  /** For CPU with non-negative requests the whole-unit comparison never
      wins, so the result is the larger of the sum and every init
      container's request, all in thousandths. */
  lemma {:induction false} RaiseByInitsCpu(total: int, cs: seq<Container>)
    requires forall i :: 0 <= i < |cs| && ResourceCPU in cs[i].requests ==> cs[i].requests[ResourceCPU].milli >= 0
    ensures RaiseByInits(total, cs, ResourceCPU) >= total
    ensures forall i :: 0 <= i < |cs| && ResourceCPU in cs[i].requests ==>
      RaiseByInits(total, cs, ResourceCPU) >= cs[i].requests[ResourceCPU].milli
    ensures RaiseByInits(total, cs, ResourceCPU) == total
      || (exists i :: 0 <= i < |cs| && ResourceCPU in cs[i].requests
            && RaiseByInits(total, cs, ResourceCPU) == cs[i].requests[ResourceCPU].milli)
    decreases |cs|
  {
    if |cs| > 0 {
      var next := if ResourceCPU in cs[0].requests then InitStep(total, cs[0].requests[ResourceCPU], ResourceCPU) else total;
      assert forall i :: 1 <= i < |cs| ==> cs[i] == cs[1..][i - 1];
      RaiseByInitsCpu(next, cs[1..]);
      var r := RaiseByInits(total, cs, ResourceCPU);
      if r != next {
        var j :| 0 <= j < |cs[1..]| && ResourceCPU in cs[1..][j].requests && r == cs[1..][j].requests[ResourceCPU].milli;
        assert cs[j + 1] == cs[1..][j];
      }
    }
  }

  /** With a negative CPU request the whole-unit branch does fire: a
      container asking for -1 CPU and an init container asking for -1.5 CPU
      give -2, a count of whole CPUs, where the larger request in
      thousandths would be -1000. */
  lemma CpuUnitBranch()
    ensures var c := Container("app", map[ResourceCPU := Quantity(-1000)], map[]);
      var i := Container("init", map[ResourceCPU := Quantity(-1500)], map[]);
      GetResourceRequest(Pod([c], [i]), ResourceCPU) == -2
  {
    var c := Container("app", map[ResourceCPU := Quantity(-1000)], map[]);
    var i := Container("init", map[ResourceCPU := Quantity(-1500)], map[]);
    assert [c][1..] == [] && [i][1..] == [];
    assert SumRequests(0, [c], ResourceCPU) == SumRequests(WrapInt64(-1000), [], ResourceCPU) == -1000;
    assert Value(Quantity(-1500)) == -2;
    assert RaiseByInits(-1000, [i], ResourceCPU) == RaiseByInits(-2, [], ResourceCPU);
    assert InitStep(-1000, Quantity(-1500), ResourceCPU) == -2;
  }

  // ---------------------------------------------------------------------
  // Containers and the downward API

  /** `findContainerInPod`: the first container with the name. */
  function FindContainerInPod(pod: Pod, name: string): (r: Result<Container>)
    ensures r.Err? <==> forall i :: 0 <= i < |pod.containers| ==> pod.containers[i].name != name
    ensures r.Ok? ==> (exists i :: 0 <= i < |pod.containers| && pod.containers[i] == r.value
                         && forall j :: 0 <= j < i ==> pod.containers[j].name != name)
    ensures r.Ok? ==> r.value.name == name
    decreases |pod.containers|
  {
    if |pod.containers| == 0 then Err("container " + name + " not found")
    else if pod.containers[0].name == name then Ok(pod.containers[0])
    else
      var rest := Pod(pod.containers[1..], pod.initContainers);
      var r := FindContainerInPod(rest, name);
      assert forall i :: 1 <= i < |pod.containers| ==> pod.containers[i] == rest.containers[i - 1];
      if r.Ok? then
        var i :| 0 <= i < |rest.containers| && rest.containers[i] == r.value
          && forall j :: 0 <= j < i ==> rest.containers[j].name != name;
        assert pod.containers[i + 1] == r.value;
        r
      else r
  }

  /** The three resources the downward API reports, and whose missing
      limits are defaulted from the node. */
  predicate DownwardResource(k: string) {
    k == ResourceCPU || k == ResourceMemory || k == ResourceEphemeralStorage
  }

  /** The limit missing or zero. */
  predicate NoLimit(limits: ResourceList, k: string) {
    k !in limits || IsZero(limits[k])
  }

  /** `MergeContainerResourceLimits`, returning the updated container. */
  function MergeContainerResourceLimits(c: Container, allocatable: ResourceList): (r: Container)
    ensures r.name == c.name && r.requests == c.requests
    ensures forall k :: DownwardResource(k) && NoLimit(c.limits, k) && k in allocatable ==>
      k in r.limits && r.limits[k] == allocatable[k]
    ensures forall k :: !(DownwardResource(k) && NoLimit(c.limits, k) && k in allocatable) ==>
      (k in r.limits <==> k in c.limits) && (k in c.limits ==> r.limits[k] == c.limits[k])
  {
    var limits := c.limits;
    var limits := FillLimit(limits, allocatable, ResourceCPU);
    var limits := FillLimit(limits, allocatable, ResourceMemory);
    var limits := FillLimit(limits, allocatable, ResourceEphemeralStorage);
    Container(c.name, c.requests, limits)
  }

  /** One iteration of the loop in `MergeContainerResourceLimits`. */
  function FillLimit(limits: ResourceList, allocatable: ResourceList, k: string): (r: ResourceList)
    ensures NoLimit(limits, k) && k in allocatable ==> k in r && r[k] == allocatable[k]
    ensures !(NoLimit(limits, k) && k in allocatable) ==> r == limits
    ensures forall j :: j != k ==> (j in r <==> j in limits) && (j in limits ==> r[j] == limits[j])
  {
    if NoLimit(limits, k) && k in allocatable then limits[k := allocatable[k]] else limits
  }

  /** The six resource fields the downward API exposes. */
  predicate SupportedField(resource: string) {
    resource in {"limits.cpu", "limits.memory", "limits.ephemeral-storage",
                 "requests.cpu", "requests.memory", "requests.ephemeral-storage"}
  }

  datatype ResourceFieldSelector = ResourceFieldSelector(resource: string, divisor: Quantity)

  /** What the conversion divides: CPU compares thousandths, the others
      whole units. */
  datatype Conversion = Conversion(cpu: bool, quantity: Quantity, divisor: Quantity)

  /** A listed quantity, or zero when the list lacks it (`ResourceList.Cpu()`
      and friends). */
  function Lookup(list: ResourceList, k: string): Quantity {
    if k in list then list[k] else Quantity(0)
  }

  /** Where a field reads: from the limits (`true`) or the requests, and
      which resource; nothing for an unsupported field. */
  datatype FieldTarget = FieldTarget(fromLimits: bool, key: string)

  /** The switch in `ExtractContainerResourceValue`. */
  function TargetOf(resource: string): (r: Option<FieldTarget>)
    ensures r.Some? <==> SupportedField(resource)
    ensures r.Some? ==> DownwardResource(r.value.key)
  {
    match resource
    case "limits.cpu" => Some(FieldTarget(true, ResourceCPU))
    case "limits.memory" => Some(FieldTarget(true, ResourceMemory))
    case "limits.ephemeral-storage" => Some(FieldTarget(true, ResourceEphemeralStorage))
    case "requests.cpu" => Some(FieldTarget(false, ResourceCPU))
    case "requests.memory" => Some(FieldTarget(false, ResourceMemory))
    case "requests.ephemeral-storage" => Some(FieldTarget(false, ResourceEphemeralStorage))
    case _ => None
  }

  /** "limits.<k>" and "requests.<k>" name resource `k` in the limits and
      in the requests. */
  lemma TargetOfField(k: string)
    requires DownwardResource(k)
    ensures TargetOf("limits." + k) == Some(FieldTarget(true, k))
    ensures TargetOf("requests." + k) == Some(FieldTarget(false, k))
  {
    if k == ResourceCPU {
      TargetOfCpu();
    } else if k == ResourceMemory {
      TargetOfMemory();
    } else {
      TargetOfEphemeralStorage();
    }
  }

  lemma TargetOfCpu()
    ensures TargetOf("limits." + ResourceCPU) == Some(FieldTarget(true, ResourceCPU))
    ensures TargetOf("requests." + ResourceCPU) == Some(FieldTarget(false, ResourceCPU))
  {
    assert "limits." + ResourceCPU == "limits.cpu";
    assert "requests." + ResourceCPU == "requests.cpu";
  }

  lemma TargetOfMemory()
    ensures TargetOf("limits." + ResourceMemory) == Some(FieldTarget(true, ResourceMemory))
    ensures TargetOf("requests." + ResourceMemory) == Some(FieldTarget(false, ResourceMemory))
  {
    assert "limits." + ResourceMemory == "limits.memory";
    assert "requests." + ResourceMemory == "requests.memory";
  }

  lemma TargetOfEphemeralStorage()
    ensures TargetOf("limits." + ResourceEphemeralStorage) == Some(FieldTarget(true, ResourceEphemeralStorage))
    ensures TargetOf("requests." + ResourceEphemeralStorage) == Some(FieldTarget(false, ResourceEphemeralStorage))
  {
    EphemeralStorageFields();
  }

  lemma EphemeralStorageFields()
    ensures "limits." + ResourceEphemeralStorage == "limits.ephemeral-storage"
    ensures "requests." + ResourceEphemeralStorage == "requests.ephemeral-storage"
  {
  }

  /** `ExtractContainerResourceValue` up to the floating-point division:
      which quantity is divided by which divisor, or the error for an
      unsupported field. */
  function ExtractContainerResourceValue(fs: ResourceFieldSelector, c: Container): (r: Result<Conversion>)
    ensures r.Ok? <==> SupportedField(fs.resource)
    ensures r.Ok? ==> r.value.divisor == (if IsZero(fs.divisor) then FromValue(1) else fs.divisor)
  {
    var divisor := if IsZero(fs.divisor) then FromValue(1) else fs.divisor;
    match TargetOf(fs.resource)
    case Some(t) => Ok(Conversion(t.key == ResourceCPU, Lookup(if t.fromLimits then c.limits else c.requests, t.key), divisor))
    case None => Err(ErrUnsupportedResource + fs.resource)
  }

  /** "limits.<k>" divides the container's limit for `k` (zero when unset),
      "requests.<k>" its request; only CPU compares thousandths. */
  lemma FieldReadsContainer(k: string, divisor: Quantity, c: Container)
    requires DownwardResource(k)
    ensures var d := if IsZero(divisor) then FromValue(1) else divisor;
      && ExtractContainerResourceValue(ResourceFieldSelector("limits." + k, divisor), c)
         == Ok(Conversion(k == ResourceCPU, Lookup(c.limits, k), d))
      && ExtractContainerResourceValue(ResourceFieldSelector("requests." + k, divisor), c)
         == Ok(Conversion(k == ResourceCPU, Lookup(c.requests, k), d))
  {
    TargetOfField(k);
  }

  /** `ExtractResourceValueByContainerNameAndNodeAllocatable`: find the
      container, default its limits from the node, then dispatch. */
  function ExtractResourceValueByContainerNameAndNodeAllocatable(fs: ResourceFieldSelector, pod: Pod, name: string, allocatable: ResourceList): (r: Result<Conversion>)
    ensures (forall i :: 0 <= i < |pod.containers| ==> pod.containers[i].name != name) ==> r.Err?
    ensures r.Ok? ==> SupportedField(fs.resource)
    ensures r.Ok? <==> (exists i :: 0 <= i < |pod.containers| && pod.containers[i].name == name)
                       && SupportedField(fs.resource)
    // The value is read from the named container with its limits back-filled.
    ensures FindContainerInPod(pod, name).Ok? ==>
      r == ExtractContainerResourceValue(fs, MergeContainerResourceLimits(FindContainerInPod(pod, name).value, allocatable))
  {
    var c :- FindContainerInPod(pod, name);
    ExtractContainerResourceValue(fs, MergeContainerResourceLimits(c, allocatable))
  }

  /** A "limits.<k>" field of the first container with the name reads the
      node's allocatable amount when the container sets no (or a zero)
      limit, and the container's own limit otherwise. */
  lemma LimitFieldReadsAllocatable(k: string, divisor: Quantity, pod: Pod, i: int, allocatable: ResourceList)
    requires DownwardResource(k)
    requires 0 <= i < |pod.containers|
    requires forall j :: 0 <= j < i ==> pod.containers[j].name != pod.containers[i].name
    ensures var c := pod.containers[i];
      var d := if IsZero(divisor) then FromValue(1) else divisor;
      var r := ExtractResourceValueByContainerNameAndNodeAllocatable(
        ResourceFieldSelector("limits." + k, divisor), pod, c.name, allocatable);
      && (NoLimit(c.limits, k) && k in allocatable ==> r == Ok(Conversion(k == ResourceCPU, allocatable[k], d)))
      && (!NoLimit(c.limits, k) ==> r == Ok(Conversion(k == ResourceCPU, c.limits[k], d)))
  {
    var c := pod.containers[i];
    var f := FindContainerInPod(pod, c.name);
    var j :| 0 <= j < |pod.containers| && pod.containers[j] == f.value
      && forall m :: 0 <= m < j ==> pod.containers[m].name != c.name;
    assert j == i;
    FieldReadsContainer(k, divisor, MergeContainerResourceLimits(c, allocatable));
  }
}
