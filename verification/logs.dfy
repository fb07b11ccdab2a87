/** `kubectl logs`: the options a command line yields, the pod-log request
    options derived from them, the argument dispatch of `Complete` and the
    checks of `Validate`. Durations are Go `time.Duration`s, in
    nanoseconds. The kubeconfig namespace, the pod-running timeout flag and
    the RFC 3339 parser are given as their answers. */
module Logs {
  import opened Wrappers
  import opened Strings
  import opened Quantities

  // Error messages; the values Go formats into them are left out.
  const ErrUsage: string := "expected 'logs [-f] [-p] (POD | TYPE/NAME) [-c CONTAINER]'. POD or TYPE/NAME is a required argument for the logs command"
  const ErrSelectorOrPod: string := "only a selector (-l) or a POD name is allowed"
  const ErrFollowSelector: string := "only one of follow (-f) or selector (-l) is allowed"
  const ErrSinceBoth: string := "at most one of `sinceTime` or `sinceSeconds` may be specified"
  const ErrNoLogOptions: string := "unexpected logs options object"
  const ErrAllContainersNamed: string := "--all-containers=true should not be specified with container name"
  const ErrContainerTwice: string := "only one of -c or an inline [CONTAINER] arg is allowed"
  const ErrLimitBytes: string := "--limit-bytes must be greater than 0"
  const ErrSince: string := "--since must be greater than 0"
  const ErrTailLines: string := "tailLines must be greater than or equal to 0"

  /** The tail used whenever a selector is given with an explicit tail. */
  const SelectorTail: int := 10
  /** `time.Second`, in nanoseconds. */
  const Second: int := 1_000_000_000

  /** `corev1.PodLogOptions`; a nil pointer field is `None`, and a time is
      whatever the RFC 3339 parser returns. */
  datatype PodLogOptions = PodLogOptions(
    container: string,
    follow: bool,
    previous: bool,
    timestamps: bool,
    sinceTime: Option<int>,
    limitBytes: Option<int>,
    sinceSeconds: Option<int>,
    tailLines: Option<int>)

  /** `LogsOptions`, reduced to the fields option derivation and validation
      read; `options` is the derived request, absent until `Complete`. */
  datatype LogsOptions = LogsOptions(
    namespace: string,
    resourceArg: string,
    allContainers: bool,
    options: Option<PodLogOptions>,
    resources: seq<string>,
    sinceTime: string,
    sinceSeconds: int,
    follow: bool,
    previous: bool,
    timestamps: bool,
    limitBytes: int,
    tail: int,
    container: string,
    containerNameSpecified: bool,
    selector: string,
    getPodTimeout: int)

  /** `NewLogsOptions`: everything zero or empty except the tail, -1. */
  function NewLogsOptions(allContainers: bool): (o: LogsOptions)
    ensures o.tail == -1 && o.allContainers == allContainers
    ensures o.options.None? && o.selector == "" && o.container == "" && o.sinceTime == ""
    ensures o.sinceSeconds == 0 && o.limitBytes == 0 && !o.follow && |o.resources| == 0
  {
    LogsOptions("", "", allContainers, None, [], "", 0, false, false, false, 0, -1, "", false, "", 0)
  }

  // ---------------------------------------------------------------------
  // Durations

  /** Go's `Duration.Round(time.Second)`: the nearest whole second, halfway
      values away from zero, saturating at the int64 bounds. */
  function RoundToSecond(d: int): (r: int)
    requires InInt64(d)
    ensures InInt64(r)
  {
    var rem := TruncMod(d, Second);
    if d < 0 then
      var back := -rem;
      if back + back < Second then d + back
      else if d - Second + back >= MinInt64 then d - Second + back
      else MinInt64
    else
      if rem + rem < Second then d - rem
      else if d + Second - rem <= MaxInt64 then d + Second - rem
      else MaxInt64
  }

  /** `int64(d.Round(time.Second).Seconds())`: the duration in whole seconds,
      rounded to the nearest. */
  function SecondsOf(d: int): (r: int)
    requires InInt64(d)
    ensures d >= 0 ==> r >= 0
    ensures d <= 0 ==> r <= 0
  {
    TruncDiv(RoundToSecond(d), Second)
  }

  /** Away from the int64 bounds, a duration rounds to the nearest whole
      second, halfway values away from zero. */
  lemma SecondsOfNearest(d: int)
    requires MinInt64 + Second <= d <= MaxInt64 - Second
    ensures var s := SecondsOf(d);
      && (d >= 0 ==> s * Second - Second / 2 <= d < s * Second + Second / 2)
      && (d < 0 ==> s * Second - Second / 2 < d <= s * Second + Second / 2)
  {
    var rem := TruncMod(d, Second);
    var q := TruncDiv(d, Second);
    assert q * Second + rem == d;
    var r := RoundToSecond(d);
    if d >= 0 {
      if rem + rem < Second {
        assert r == q * Second;
        DivWhole(q, Second);
      } else {
        assert r == (q + 1) * Second;
        DivWhole(q + 1, Second);
      }
    } else {
      if -rem - rem < Second {
        assert r == q * Second;
        DivWhole(q, Second);
      } else {
        assert r == (q - 1) * Second;
        DivWhole(q - 1, Second);
      }
    }
  }

  lemma DivWhole(k: int, m: int)
    requires m > 0
    ensures TruncDiv(k * m, m) == k
  {
    var q := TruncDiv(k * m, m);
    var rem := TruncMod(k * m, m);
    assert q * m + rem == k * m;
    if q > k {
      assert (q - k) * m == q * m - k * m;
      MulAtLeast(q - k, m);
    } else if q < k {
      assert (k - q) * m == k * m - q * m;
      MulAtLeast(k - q, m);
    }
  }

  lemma MulAtLeast(a: int, m: int)
    requires a >= 1 && m > 0
    ensures a * m >= m
  {
  }

  /** A negative `--since` shorter than half a second rounds to zero, so it
      is not rejected as negative. */
  lemma SmallNegativeSinceRoundsToZero(d: int)
    requires -Second / 2 < d < 0
    ensures SecondsOf(d) == 0
  {
  }

  // ---------------------------------------------------------------------
  // Request options

  /** `ToLogOptions`: `parsedSinceTime` is the RFC 3339 parser's answer for
      the since-time text. */
  function ToLogOptions(o: LogsOptions, parsedSinceTime: Result<int>): (r: Result<PodLogOptions>)
    requires InInt64(o.sinceSeconds)
    ensures r.Ok? <==> o.sinceTime == "" || parsedSinceTime.Ok?
    ensures r.Ok? ==> r.value.container == o.container && r.value.follow == o.follow
    ensures r.Ok? ==> r.value.previous == o.previous && r.value.timestamps == o.timestamps
    ensures r.Ok? ==> (r.value.sinceTime.Some? <==> o.sinceTime != "")
    ensures r.Ok? && o.sinceTime != "" ==> r.value.sinceTime == Some(parsedSinceTime.value)
  {
    if |o.sinceTime| > 0 && parsedSinceTime.Err? then Err(parsedSinceTime.error)
    else
      var sinceTime := if |o.sinceTime| > 0 then Some(parsedSinceTime.value) else None;
      var limitBytes := if o.limitBytes != 0 then Some(o.limitBytes) else None;
      var sinceSeconds := if o.sinceSeconds != 0 then Some(SecondsOf(o.sinceSeconds)) else None;
      var tailLines :=
        if |o.selector| > 0 && o.tail != -1 then Some(SelectorTail)
        else if o.tail != -1 then Some(o.tail)
        else None;
      Ok(PodLogOptions(o.container, o.follow, o.previous, o.timestamps, sinceTime, limitBytes, sinceSeconds, tailLines))
  }

  /** The optional limits are set exactly when their flags are non-zero;
      the tail is unset at -1, the flag's value without a selector, and 10
      with one. */
  lemma LimitsRule(o: LogsOptions, parsedSinceTime: Result<int>)
    requires InInt64(o.sinceSeconds)
    requires ToLogOptions(o, parsedSinceTime).Ok?
    ensures var p := ToLogOptions(o, parsedSinceTime).value;
      && (p.limitBytes.Some? <==> o.limitBytes != 0)
      && (p.limitBytes.Some? ==> p.limitBytes.value == o.limitBytes)
      && (p.sinceSeconds.Some? <==> o.sinceSeconds != 0)
      && (p.sinceSeconds.Some? ==> p.sinceSeconds.value == SecondsOf(o.sinceSeconds))
      && (p.tailLines.None? <==> o.tail == -1)
      && (o.tail != -1 && o.selector == "" ==> p.tailLines == Some(o.tail))
      && (o.tail != -1 && o.selector != "" ==> p.tailLines == Some(SelectorTail))
  {
  }

  /** Unlike the flag's help text promises, a selector with the default
      tail asks for every line, not 10; and a selector replaces any explicit
      tail, even a negative one, by 10. */
  lemma SelectorTailQuirks(o: LogsOptions, parsedSinceTime: Result<int>)
    requires InInt64(o.sinceSeconds) && o.selector != ""
    requires ToLogOptions(o, parsedSinceTime).Ok?
    ensures o.tail == -1 ==> ToLogOptions(o, parsedSinceTime).value.tailLines.None?
    ensures o.tail != -1 ==> ToLogOptions(o, parsedSinceTime).value.tailLines == Some(SelectorTail)
  {
  }

  /** Fresh options ask for no tail, no limit and no since bound. */
  lemma NewOptionsRequestEverything(allContainers: bool, parsedSinceTime: Result<int>)
    ensures var r := ToLogOptions(NewLogsOptions(allContainers), parsedSinceTime);
      r.Ok? && r.value.tailLines.None? && r.value.limitBytes.None? && r.value.sinceSeconds.None? && r.value.sinceTime.None?
  {
  }

  // ---------------------------------------------------------------------
  // Complete

  /** The argument dispatch of `Complete`: no argument needs a selector,
      one argument (the resource) forbids it, two name the resource and the
      container, and more are a usage error. */
  function DispatchArgs(o: LogsOptions, args: seq<string>): (r: Result<LogsOptions>)
    ensures r.Ok? <==> |args| <= 2 && (|args| == 0 ==> o.selector != "") && (|args| == 1 ==> o.selector == "")
    ensures r.Ok? && |args| >= 1 ==> r.value.resourceArg == args[0]
    ensures r.Ok? && |args| == 2 ==> r.value.container == args[1]
    ensures r.Ok? ==> r.value == o.(resourceArg := r.value.resourceArg, container := r.value.container)
    ensures r.Ok? && |args| < 2 ==> r.value.container == o.container
  {
    if |args| == 0 then
      (if |o.selector| == 0 then Err(ErrUsage) else Ok(o))
    else if |args| == 1 then
      (if |o.selector| != 0 then Err(ErrSelectorOrPod) else Ok(o.(resourceArg := args[0])))
    else if |args| == 2 then Ok(o.(resourceArg := args[0], container := args[1]))
    else Err(ErrUsage)
  }

  /** `Complete` up to deriving the request options: the argument dispatch,
      then the kubeconfig namespace, the pod-running timeout and the request
      options, each of which may fail. `containerFlagChanged` says whether
      -c was given. */
  function Complete(o: LogsOptions, args: seq<string>, containerFlagChanged: bool,
                    namespace: Result<string>, podTimeout: Result<int>, parsedSinceTime: Result<int>): (r: Result<LogsOptions>)
    requires InInt64(o.sinceSeconds)
    ensures r.Ok? ==> |args| <= 2
    ensures r.Ok? ==> r.value.resources == args && r.value.containerNameSpecified == containerFlagChanged
  {
    match DispatchArgs(o.(containerNameSpecified := containerFlagChanged, resources := args), args)
    case Err(e) => Err(e)
    case Ok(o2) =>
      match namespace
      case Err(e) => Err(e)
      case Ok(ns) =>
        match podTimeout
        case Err(e) => Err(e)
        case Ok(timeout) =>
          var o3 := o2.(namespace := ns, getPodTimeout := timeout);
          match ToLogOptions(o3, parsedSinceTime)
          case Err(e) => Err(e)
          case Ok(options) => Ok(o3.(options := Some(options)))
  }

  /** `Complete` succeeds exactly when the arguments dispatch and the
      namespace, timeout and since-time are available; the request then
      names the container the arguments or -c chose. */
  lemma CompleteSucceeds(o: LogsOptions, args: seq<string>, containerFlagChanged: bool,
                         namespace: Result<string>, podTimeout: Result<int>, parsedSinceTime: Result<int>)
    requires InInt64(o.sinceSeconds)
    ensures var r := Complete(o, args, containerFlagChanged, namespace, podTimeout, parsedSinceTime);
      r.Ok? <==>
        && |args| <= 2 && (|args| == 0 ==> o.selector != "") && (|args| == 1 ==> o.selector == "")
        && namespace.Ok? && podTimeout.Ok? && (o.sinceTime == "" || parsedSinceTime.Ok?)
    ensures var r := Complete(o, args, containerFlagChanged, namespace, podTimeout, parsedSinceTime);
      r.Ok? ==> && r.value.options.Some? && r.value.namespace == namespace.value
                && r.value.options.value.container == (if |args| == 2 then args[1] else o.container)
  {
  }

  // ---------------------------------------------------------------------
  // Validate

  /** `Validate`. */
  function Validate(o: LogsOptions): (r: Outcome)
    ensures o.follow && o.selector != "" ==> r.Fail?
    ensures o.sinceTime != "" && o.sinceSeconds != 0 ==> r.Fail?
    ensures o.options.None? ==> r.Fail?
  {
    if o.follow && |o.selector| > 0 then Fail(ErrFollowSelector)
    else if |o.sinceTime| > 0 && o.sinceSeconds != 0 then Fail(ErrSinceBoth)
    else
      match o.options
      case None => Fail(ErrNoLogOptions)
      case Some(p) =>
        if o.allContainers && |p.container| > 0 then Fail(ErrAllContainersNamed)
        else if o.containerNameSpecified && |o.resources| == 2 then Fail(ErrContainerTwice)
        else if o.limitBytes < 0 then Fail(ErrLimitBytes)
        else if p.sinceSeconds.Some? && p.sinceSeconds.value < 0 then Fail(ErrSince)
        else if p.tailLines.Some? && p.tailLines.value < 0 then Fail(ErrTailLines)
        else Pass
  }

  /** The options pass exactly when none of the conflicts or negative
      values is present; zero limits are accepted. */
  lemma ValidateAccepts(o: LogsOptions)
    ensures Validate(o).Pass? <==>
      && !(o.follow && o.selector != "")
      && !(o.sinceTime != "" && o.sinceSeconds != 0)
      && o.options.Some?
      && !(o.allContainers && o.options.value.container != "")
      && !(o.containerNameSpecified && |o.resources| == 2)
      && o.limitBytes >= 0
      && (o.options.value.sinceSeconds.Some? ==> o.options.value.sinceSeconds.value >= 0)
      && (o.options.value.tailLines.Some? ==> o.options.value.tailLines.value >= 0)
  {
  }

  /** Completed options with a selector pass validation even with a
      negative tail, which the selector replaces by 10. */
  lemma SelectorMasksNegativeTail(o: LogsOptions, namespace: Result<string>, podTimeout: Result<int>,
                                  parsedSinceTime: Result<int>)
    requires InInt64(o.sinceSeconds)
    requires o.selector != "" && o.tail < -1 && !o.follow && o.sinceTime == "" && o.sinceSeconds == 0
    requires !o.allContainers && o.container == "" && o.limitBytes >= 0
    requires namespace.Ok? && podTimeout.Ok?
    ensures var r := Complete(o, [], false, namespace, podTimeout, parsedSinceTime);
      r.Ok? && Validate(r.value).Pass?
  {
  }

  /** An inline container argument conflicts with --all-containers. */
  lemma InlineContainerWithAllContainers(o: LogsOptions, pod: string, container: string,
                                         namespace: Result<string>, podTimeout: Result<int>,
                                         parsedSinceTime: Result<int>)
    requires InInt64(o.sinceSeconds)
    requires o.allContainers && container != ""
    requires Complete(o, [pod, container], false, namespace, podTimeout, parsedSinceTime).Ok?
    ensures Validate(Complete(o, [pod, container], false, namespace, podTimeout, parsedSinceTime).value).Fail?
  {
  }
}
