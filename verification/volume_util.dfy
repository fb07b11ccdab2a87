/** The pure helpers of the volume utility library (`pkg/volume/util`):
    size rounding, delimited-list parsing, mount-option merging, name
    generation, unique-name splitting, access-mode containment and path
    rewriting. Zone selection is in module `Zones`. */
module VolumeUtil {
  import opened Wrappers
  import opened Strings
  import opened Quantities
  import opened StringOrder
  import FilePath
  import opened VolumeTypes

  // Error messages; the values Go formats into them are left out.
  const ErrCapacityOverflow: string := "capacity is too great, casting results in integer overflow"
  const ErrEmptyListItem: string := "separated list must not contain an empty string"
  const ErrUniqueNameFormat: string := "cannot split volume unique name to plugin/volume components"

  // ---------------------------------------------------------------------
  // Size rounding

  /** `RoundUpSize`: the number of allocation units needed to hold a volume,
      in Go's int64 arithmetic (truncating division; the quotient of the most
      negative value by -1 wraps). Division by zero panics in Go. */
  function RoundUpSize(size: int, unit: int): (r: int)
    requires InInt64(size) && InInt64(unit) && unit != 0
    ensures InInt64(r)
  {
    var q := WrapInt64(TruncDiv(size, unit));
    if TruncMod(size, unit) > 0 then
      RoundUpInRange(size, unit);
      q + 1
    else q
  }

  /** A positive remainder needs a divisor of magnitude two or more, so the
      quotient is at most half the size and one more still fits. */
  lemma RoundUpInRange(size: int, unit: int)
    requires InInt64(size) && InInt64(unit) && unit != 0 && TruncMod(size, unit) > 0
    ensures InInt64(TruncDiv(size, unit)) && InInt64(TruncDiv(size, unit) + 1)
    ensures WrapInt64(TruncDiv(size, unit)) == TruncDiv(size, unit)
  {
    var q := TruncDiv(size, unit);
    var m := TruncMod(size, unit);
    assert size > 0;
    var au := if unit > 0 then unit else -unit;
    var aq := if q >= 0 then q else -q;
    NegMul(unit, q);
    NegMul(q, unit);
    assert aq * au == size - m;
    MulCancel(aq * 2, aq * au, 1);
    MulMonotone(aq, 2, au);
  }

  lemma MulMonotone(a: nat, b: int, c: int)
    requires b <= c
    ensures a * b <= a * c
  {
  }

  /** For a non-negative size and a positive unit, the result is the least
      number of units whose total holds the size. */
  lemma RoundUpBounds(size: int, unit: int)
    requires InInt64(size) && InInt64(unit) && unit > 0
    ensures var r := RoundUpSize(size, unit); size >= 0 ==> 0 <= r && size <= r * unit && (r - 1) * unit < size
  {
    if size < 0 { return; }
    var q := TruncDiv(size, unit);
    var m := TruncMod(size, unit);
    assert unit * q == size - m;
    MulMonotone(q, 1, unit);
    assert q <= size;
    if m > 0 {
      assert (q + 1) * unit == q * unit + unit;
    } else {
      assert (q - 1) * unit == q * unit - unit;
    }
  }

  /** Whole units are not rounded. */
  lemma RoundUpSizeExact(n: int, unit: int)
    requires 0 <= n && 0 < unit && InInt64(n * unit) && InInt64(unit)
    ensures RoundUpSize(n * unit, unit) == n
  {
    var r := RoundUpSize(n * unit, unit);
    RoundUpBounds(n * unit, unit);
    MulCancel(n, r, unit);
    MulLess(r - 1, n, unit);
  }

  lemma MulLess(a: int, b: int, c: int)
    requires c > 0
    ensures a * c < b * c ==> a < b
  {
    if a >= b {
      MulCancel(b, a, c);
      assert a * c == b * c + (a - b) * c;
      if a > b {
        MulPositive(a - b, c);
      }
    }
  }

  lemma MulCancel(a: int, b: int, c: int)
    requires c > 0
    ensures a * c <= b * c ==> a <= b
  {
    if a > b {
      var d := a - b;
      assert a * c == b * c + d * c;
      MulPositive(d, c);
    }
  }

  lemma MulPositive(d: int, c: int)
    requires d > 0 && c > 0
    ensures d * c > 0
  {
  }

  /** 1500 MiB needs two GiB-sized units. */
  lemma RoundUpSizeExample()
    ensures RoundUpSize(1500 * 1024 * 1024, GiB) == 2
  {
  }

  /** `RoundUpToGiB`. */
  function RoundUpToGiB(size: Quantity): (r: int)
    requires InInt64(Value(size))
    ensures InInt64(r)
    ensures Value(size) >= 0 ==> 0 <= r && Value(size) <= r * GiB && (r - 1) * GiB < Value(size)
  {
    RoundUpBounds(Value(size), GiB);
    RoundUpSize(Value(size), GiB)
  }

  /** `RoundUpToGB`. */
  function RoundUpToGB(size: Quantity): (r: int)
    requires InInt64(Value(size))
    ensures InInt64(r)
    ensures Value(size) >= 0 ==> 0 <= r && Value(size) <= r * GB && (r - 1) * GB < Value(size)
  {
    RoundUpBounds(Value(size), GB);
    RoundUpSize(Value(size), GB)
  }

  /** `RoundUpSizeInt`: the rounded size as a Go `int`, an error when it does
      not fit. `intIs32Bit` selects the platform's `int` width. */
  function RoundUpSizeInt(size: int, unit: int, intIs32Bit: bool): (r: Result<int>)
    requires InInt64(size) && InInt64(unit) && unit != 0
    ensures r.Ok? <==> (!intIs32Bit || InInt32(RoundUpSize(size, unit)))
    ensures r.Ok? ==> r.value == RoundUpSize(size, unit)
  {
    var rounded := RoundUpSize(size, unit);
    var asInt := if intIs32Bit then WrapInt32(rounded) else rounded;
    if asInt != rounded then Err(ErrCapacityOverflow)
    else Ok(asInt)
  }

  // ---------------------------------------------------------------------
  // Delimited lists

  /** No piece is empty or pure white space. */
  predicate NoBlankPiece(pieces: seq<string>) {
    forall i :: 0 <= i < |pieces| ==> TrimSpace(pieces[i]) != ""
  }

  /** The trimmed pieces, or an error as soon as one trims to nothing. */
  function TrimPieces(pieces: seq<string>): Result<seq<string>> {
    if |pieces| == 0 then Ok([])
    else
      var head := TrimSpace(pieces[0]);
      if head == "" then Err(ErrEmptyListItem)
      else
        match TrimPieces(pieces[1..])
        case Err(e) => Err(e)
        case Ok(rest) => Ok([head] + rest)
  }

  /** The loop fails exactly when some piece is blank, and otherwise keeps
      every piece, trimmed, in place. */
  lemma {:induction false} TrimPiecesMeaning(pieces: seq<string>)
    ensures TrimPieces(pieces).Ok? <==> NoBlankPiece(pieces)
    ensures TrimPieces(pieces).Ok? ==> |TrimPieces(pieces).value| == |pieces|
    ensures TrimPieces(pieces).Ok? ==>
      forall i :: 0 <= i < |pieces| ==> TrimPieces(pieces).value[i] == TrimSpace(pieces[i])
  {
    if |pieces| > 0 {
      var tail := pieces[1..];
      TrimPiecesMeaning(tail);
      assert forall i :: 0 <= i < |tail| ==> tail[i] == pieces[i + 1];
      if TrimSpace(pieces[0]) != "" && TrimPieces(tail).Ok? {
        var rest := TrimPieces(tail).value;
        var r := [TrimSpace(pieces[0])] + rest;
        assert TrimPieces(pieces) == Ok(r);
        forall i | 0 <= i < |pieces|
          ensures r[i] == TrimSpace(pieces[i])
        {
          if i > 0 { assert r[i] == rest[i - 1]; }
        }
      }
      if !NoBlankPiece(tail) {
        var k :| 0 <= k < |tail| && TrimSpace(tail[k]) == "";
        assert TrimSpace(pieces[k + 1]) == "";
      }
    }
  }

  /** `stringToList`: the delimiter-separated pieces, each trimmed. */
  function StringToList(str: string, delimiter: string): (r: Result<seq<string>>)
    requires |delimiter| > 0
    ensures r.Ok? <==> NoBlankPiece(Split(str, delimiter))
    ensures r.Ok? ==> |r.value| == |Split(str, delimiter)|
    ensures r.Ok? ==> forall i :: 0 <= i < |r.value| ==> r.value[i] == TrimSpace(Split(str, delimiter)[i])
  {
    TrimPiecesMeaning(Split(str, delimiter));
    TrimPieces(Split(str, delimiter))
  }

  /** `stringToSet`: the same pieces as a set. */
  function StringToSet(str: string, delimiter: string): (r: Result<set<string>>)
    requires |delimiter| > 0
    ensures r.Ok? <==> StringToList(str, delimiter).Ok?
    ensures r.Ok? ==> forall z :: z in r.value <==> z in StringToList(str, delimiter).value
  {
    match StringToList(str, delimiter)
    case Err(e) => Err(e)
    case Ok(zones) => Ok(set z | z in zones)
  }

  /** `LabelZonesToList`: zones joined with "__" in a label value. */
  function LabelZonesToList(value: string): (r: Result<seq<string>>)
    ensures r.Ok? <==> NoBlankPiece(Split(value, LabelMultiZoneDelimiter))
    ensures r.Ok? ==> |r.value| == |Split(value, LabelMultiZoneDelimiter)|
    ensures r.Ok? ==> forall i :: 0 <= i < |r.value| ==> r.value[i] != ""
  {
    StringToList(value, LabelMultiZoneDelimiter)
  }

  /** `LabelZonesToSet`. */
  function LabelZonesToSet(value: string): Result<set<string>> {
    StringToSet(value, LabelMultiZoneDelimiter)
  }

  /** `ZonesToSet`: a comma-separated zone list. */
  function ZonesToSet(zones: string): Result<set<string>> {
    StringToSet(zones, ",")
  }

  /** No piece of the empty string is non-blank, so it is rejected. */
  lemma EmptyListRejected(delimiter: string)
    requires |delimiter| > 0
    ensures StringToList("", delimiter).Err?
  {
    assert IndexOf("", delimiter).None?;
    assert Split("", delimiter) == [""];
  }

  /** A non-blank string with no surrounding white space trims to itself. */
  lemma TrimSpaceOfTrimmed(z: string)
    requires z != "" && !IsSpace(z[0]) && !IsSpace(z[|z| - 1])
    ensures TrimSpace(z) == z
  {
  }

  /** Joining trimmed, non-empty zones with a comma and parsing the result
      gives the zones back. */
  lemma ZoneListRoundTrip(zones: seq<string>)
    requires |zones| >= 1
    requires forall i :: 0 <= i < |zones| ==> zones[i] != "" && ',' !in zones[i]
    requires forall i :: 0 <= i < |zones| ==> !IsSpace(zones[i][0]) && !IsSpace(zones[i][|zones[i]| - 1])
    ensures StringToList(Join(zones, ","), ",") == Ok(zones)
  {
    JoinSplitChar(zones, ',');
    forall i | 0 <= i < |zones|
      ensures TrimSpace(zones[i]) == zones[i]
    {
      TrimSpaceOfTrimmed(zones[i]);
    }
    assert NoBlankPiece(zones);
    TrimPiecesMeaning(zones);
    var r := TrimPieces(zones);
    assert r.value == zones;
  }

  // ---------------------------------------------------------------------
  // Mount options

  /** `JoinMountOptions`: the non-empty user options and all system options,
      without duplicates, in sorted order. */
  function JoinMountOptions(userOptions: seq<string>, systemOptions: seq<string>): (r: seq<string>)
    ensures StrictlySorted(r)
    ensures forall o :: o in r <==> (o in userOptions && o != "") || o in systemOptions
  {
    SortedList((set o | o in userOptions && o != "") + (set o | o in systemOptions))
  }

  /** The merge does not depend on which list an option came from, as long
      as neither holds an empty option. */
  lemma JoinMountOptionsSymmetric(a: seq<string>, b: seq<string>)
    requires "" !in a && "" !in b
    ensures JoinMountOptions(a, b) == JoinMountOptions(b, a)
  {
    var x := JoinMountOptions(a, b);
    var y := JoinMountOptions(b, a);
    SortedUnique(x, y);
  }

  /** `MountOptionFromSpec`: options from a persistent volume's annotation
      (comma-separated, taking precedence) or its mount-option field, merged
      with the given ones; without either, the given options unchanged. */
  function MountOptionFromSpec(spec: Spec, options: seq<string>): (r: seq<string>)
    ensures forall o :: o in options ==> o in r
    ensures spec.pv.None? ==> r == options
    ensures forall o :: o in r ==>
      (|| o in options
       || (spec.pv.Some? && MountOptionAnnotation in spec.pv.value.annotations
           && o in Split(spec.pv.value.annotations[MountOptionAnnotation], ","))
       || (spec.pv.Some? && o in spec.pv.value.mountOptions))
    // The annotation, when present, is the source of the volume's options.
    ensures spec.pv.Some? && MountOptionAnnotation in spec.pv.value.annotations ==>
      && StrictlySorted(r)
      && forall o :: o in r <==>
           (o in Split(spec.pv.value.annotations[MountOptionAnnotation], ",") && o != "") || o in options
    // Otherwise a non-empty mount-option field is.
    ensures (&& spec.pv.Some? && MountOptionAnnotation !in spec.pv.value.annotations
             && |spec.pv.value.mountOptions| > 0) ==>
      && StrictlySorted(r)
      && forall o :: o in r <==> (o in spec.pv.value.mountOptions && o != "") || o in options
    // With neither, nothing is added and the given options keep their order.
    ensures (&& spec.pv.Some? && MountOptionAnnotation !in spec.pv.value.annotations
             && |spec.pv.value.mountOptions| == 0) ==> r == options
  {
    match spec.pv
    case None => options
    case Some(pv) =>
      if MountOptionAnnotation in pv.annotations then
        JoinMountOptions(Split(pv.annotations[MountOptionAnnotation], ","), options)
      else if |pv.mountOptions| > 0 then JoinMountOptions(pv.mountOptions, options)
      else options
  }

  /** The annotation takes precedence: while it is present, the volume's
      mount-option field has no effect on the result. */
  lemma AnnotationWinsOverField(spec: Spec, mountOptions: seq<string>, options: seq<string>)
    requires spec.pv.Some? && MountOptionAnnotation in spec.pv.value.annotations
    ensures MountOptionFromSpec(spec, options)
         == MountOptionFromSpec(spec.(pv := Some(spec.pv.value.(mountOptions := mountOptions))), options)
  {
    var a := MountOptionFromSpec(spec, options);
    var b := MountOptionFromSpec(spec.(pv := Some(spec.pv.value.(mountOptions := mountOptions))), options);
    SortedUnique(a, b);
  }

  /** Every non-empty option of the volume's field is mounted when no
      annotation overrides it. */
  lemma FieldOptionsMounted(spec: Spec, options: seq<string>, o: string)
    requires spec.pv.Some? && MountOptionAnnotation !in spec.pv.value.annotations
    requires o in spec.pv.value.mountOptions && o != ""
    ensures o in MountOptionFromSpec(spec, options)
  {
  }

  // ---------------------------------------------------------------------
  // Names

  /** `GenerateVolumeName`: "<cluster>-dynamic-<pv>", with the
      "<cluster>-dynamic" prefix cut so the whole fits `maxLength`.
      Go panics on a negative slice bound, hence the precondition. */
  function GenerateVolumeName(clusterName: string, pvName: string, maxLength: int): (r: string)
    requires |pvName| < maxLength
    ensures HasSuffix(r, "-" + pvName)
    ensures |r| <= maxLength
    ensures |pvName| + 1 + |clusterName + "-dynamic"| <= maxLength ==> r == clusterName + "-dynamic-" + pvName
    ensures |pvName| + 1 + |clusterName + "-dynamic"| > maxLength ==> |r| == maxLength
    ensures HasPrefix(clusterName + "-dynamic", r[..|r| - |pvName| - 1])
  {
    var prefix := clusterName + "-dynamic";
    var cut := if |pvName| + 1 + |prefix| > maxLength then prefix[..maxLength - |pvName| - 1] else prefix;
    var r := cut + "-" + pvName;
    assert r[..|r| - |pvName| - 1] == cut;
    assert r[|r| - |pvName| - 1..] == "-" + pvName;
    r
  }

  /** `GetUniqueVolumeName`: "<plugin>/<volume>". */
  function GetUniqueVolumeName(pluginName: string, volumeName: string): (r: string)
    ensures |r| == |pluginName| + 1 + |volumeName|
    ensures r[..|pluginName|] == pluginName && r[|pluginName|] == '/' && r[|pluginName| + 1..] == volumeName
  {
    pluginName + "/" + volumeName
  }

  /** There are two '/' characters in `s`. */
  predicate TwoSlashes(s: string) {
    exists i, j :: 0 <= i < j < |s| && s[i] == '/' && s[j] == '/'
  }

  /** `SplitUniqueName`: the plugin name (up to the second '/') and the
      volume name (the rest). */
  function SplitUniqueName(uniqueName: string): (r: Result<(string, string)>)
    ensures r.Ok? <==> TwoSlashes(uniqueName)
    ensures r.Ok? ==> GetUniqueVolumeName(r.value.0, r.value.1) == uniqueName
    ensures r.Ok? ==> |set k | 0 <= k < |r.value.0| && r.value.0[k] == '/'| == 1
  {
    var components := SplitN(uniqueName, "/", 3);
    SplitNThree(uniqueName);
    if |components| != 3 then Err(ErrUniqueNameFormat)
    else
      SlashCountOne(components[0], components[1]);
      Ok((components[0] + "/" + components[1], components[2]))
  }

  lemma SlashCountOne(a: string, b: string)
    requires '/' !in a && '/' !in b
    ensures |set k | 0 <= k < |a + "/" + b| && (a + "/" + b)[k] == '/'| == 1
  {
    var s := a + "/" + b;
    var ks := set k | 0 <= k < |s| && s[k] == '/';
    forall k | k in ks
      ensures k == |a|
    {
    }
    assert ks == {|a|};
  }

  /** What the search for the first '/' tells about the string. */
  lemma FirstSlash(s: string)
    ensures IndexOf(s, "/").None? ==> '/' !in s
    ensures IndexOf(s, "/").Some? ==>
      var i := IndexOf(s, "/").value; s[i] == '/' && '/' !in s[..i]
  {
    FilePath.CharInMeansContains(s, '/');
    match IndexOf(s, "/")
    case None =>
    case Some(i) =>
      assert s[i..i + 1] == "/";
      FilePath.CharInMeansContains(s[..i], '/');
      if Contains(s[..i], "/") {
        var k :| OccursAt(s[..i], "/", k);
        assert s[k..k + 1] == s[..i][k..k + 1];
        assert OccursAt(s, "/", k);
      }
  }

  lemma SplitNFound(s: string, n: nat, i: nat)
    requires n >= 2 && IndexOf(s, "/") == Some(i)
    ensures SplitN(s, "/", n) == [s[..i]] + SplitN(s[i + 1..], "/", n - 1)
  {
  }

  lemma SplitNNotFound(s: string, n: nat)
    requires n == 1 || (n >= 1 && IndexOf(s, "/") == None)
    ensures SplitN(s, "/", n) == [s]
  {
  }

  /** Two slashes in a string whose first slash is at `i` mean a slash
      after `i`. */
  lemma SecondSlash(s: string, i: nat)
    requires i < |s| && '/' !in s[..i] && TwoSlashes(s)
    ensures '/' in s[i + 1..]
  {
    var a, b :| 0 <= a < b < |s| && s[a] == '/' && s[b] == '/';
    assert a >= i;
    assert s[i + 1..][b - i - 1] == '/';
  }

  /** Three-way splitting on '/' yields three pieces exactly when there are
      two slashes, and the pieces join back to the input. */
  lemma SplitNThree(s: string)
    ensures |SplitN(s, "/", 3)| == 3 <==> TwoSlashes(s)
    ensures |SplitN(s, "/", 3)| == 3 ==>
      var c := SplitN(s, "/", 3);
      s == c[0] + "/" + c[1] + "/" + c[2] && '/' !in c[0] && '/' !in c[1]
  {
    FirstSlash(s);
    var first := IndexOf(s, "/");
    if first.None? {
      SplitNNotFound(s, 3);
    } else {
      var i := first.value;
      SplitNFound(s, 3, i);
      SplitNThreeAfter(s, i);
    }
  }

  lemma SplitNThreeAfter(s: string, i: nat)
    requires i < |s| && s[i] == '/' && '/' !in s[..i]
    ensures var c := [s[..i]] + SplitN(s[i + 1..], "/", 2);
      && (|c| == 3 <==> TwoSlashes(s))
      && (|c| == 3 ==> s == c[0] + "/" + c[1] + "/" + c[2] && '/' !in c[0] && '/' !in c[1])
  {
    var rest := s[i + 1..];
    FirstSlash(rest);
    match IndexOf(rest, "/")
    case None => ThreeAfterNoSecond(s, i);
    case Some(j) => ThreeAfterSecond(s, i, j);
  }

  /** With no second '/', three-way splitting stops at two pieces. */
  lemma ThreeAfterNoSecond(s: string, i: nat)
    requires i < |s| && s[i] == '/' && '/' !in s[..i]
    requires IndexOf(s[i + 1..], "/") == None && '/' !in s[i + 1..]
    ensures |[s[..i]] + SplitN(s[i + 1..], "/", 2)| == 2 && !TwoSlashes(s)
  {
    SplitNNotFound(s[i + 1..], 2);
    if TwoSlashes(s) {
      SecondSlash(s, i);
    }
  }

  /** With a second '/' at offset `j` after the first, the three pieces are
      the text before, between and after the two. */
  lemma ThreeAfterSecond(s: string, i: nat, j: nat)
    requires i < |s| && s[i] == '/' && '/' !in s[..i]
    requires IndexOf(s[i + 1..], "/") == Some(j)
    requires j < |s[i + 1..]| && s[i + 1..][j] == '/' && '/' !in s[i + 1..][..j]
    ensures var rest := s[i + 1..];
      [s[..i]] + SplitN(rest, "/", 2) == [s[..i], rest[..j], rest[j + 1..]]
      && TwoSlashes(s) && s == s[..i] + "/" + rest[..j] + "/" + rest[j + 1..]
  {
    var rest := s[i + 1..];
    SplitNFound(rest, 2, j);
    SplitNNotFound(rest[j + 1..], 1);
    assert s == s[..i] + "/" + rest;
    assert rest == rest[..j] + "/" + rest[j + 1..];
    assert s[i + 1 + j] == '/';
  }

  /** Splitting at a first '/' that follows a slash-free prefix. */
  lemma SplitNAfterPrefix(a: string, b: string, n: nat)
    requires n >= 2 && '/' !in a
    ensures SplitN(a + "/" + b, "/", n) == [a] + SplitN(b, "/", n - 1)
  {
    var u := a + "/" + b;
    assert u == a + ['/'] + b;
    IndexOfCharAfter(a, '/', b);
    SplitNFound(u, n, |a|);
    assert u[..|a|] == a;
    assert u[|a| + 1..] == b;
  }

  /** With a namespaced plugin name ("namespace/plugin"), splitting the
      unique name gives back the plugin and volume names. */
  lemma UniqueNameRoundTrip(pluginName: string, volumeName: string)
    requires exists k :: 0 <= k < |pluginName| && pluginName[k] == '/'
    requires forall i, j :: 0 <= i < j < |pluginName| && pluginName[i] == '/' ==> pluginName[j] != '/'
    ensures SplitUniqueName(GetUniqueVolumeName(pluginName, volumeName)) == Ok((pluginName, volumeName))
  {
    var k :| 0 <= k < |pluginName| && pluginName[k] == '/';
    var ns := pluginName[..k];
    var pl := pluginName[k + 1..];
    forall i | 0 <= i < |ns|
      ensures ns[i] != '/'
    {
      assert pluginName[i] == ns[i];
    }
    forall i | 0 <= i < |pl|
      ensures pl[i] != '/'
    {
      assert pluginName[k + 1 + i] == pl[i];
    }
    assert pluginName == ns + "/" + pl;
    UniqueNameSplit(ns, pl, volumeName);
  }

  /** The unique name of a plugin "ns/pl" splits back into its parts. */
  lemma UniqueNameSplit(ns: string, pl: string, volumeName: string)
    requires '/' !in ns && '/' !in pl
    ensures SplitUniqueName(GetUniqueVolumeName(ns + "/" + pl, volumeName)) == Ok((ns + "/" + pl, volumeName))
  {
    var u := GetUniqueVolumeName(ns + "/" + pl, volumeName);
    assert u == ns + "/" + (pl + "/" + volumeName);
    UniqueNamePieces(ns, pl, volumeName);
  }

  /** Splitting "ns/pl/v" into at most three pieces gives the three parts. */
  lemma UniqueNamePieces(ns: string, pl: string, v: string)
    requires '/' !in ns && '/' !in pl
    ensures SplitN(ns + "/" + (pl + "/" + v), "/", 3) == [ns, pl, v]
  {
    SplitNAfterPrefix(ns, pl + "/" + v, 3);
    SplitNAfterPrefix(pl, v, 2);
    SplitNNotFound(v, 1);
  }

  // ---------------------------------------------------------------------
  // Access modes, zones and timeouts

  /** `AccessModesContains`. */
  function AccessModesContains(modes: seq<AccessMode>, mode: AccessMode): (r: bool)
    ensures r <==> mode in modes
  {
    if |modes| == 0 then false
    else if modes[0] == mode then true
    else AccessModesContains(modes[1..], mode)
  }

  /** `AccessModesContainedInAll`: every requested mode is indexed. */
  function AccessModesContainedInAll(indexed: seq<AccessMode>, requested: seq<AccessMode>): (r: bool)
    ensures r <==> forall m :: m in requested ==> m in indexed
  {
    if |requested| == 0 then true
    else if !AccessModesContains(indexed, requested[0]) then false
    else AccessModesContainedInAll(indexed, requested[1..])
  }

  const ErrInvalidZone: string := "the provided zone is not valid, it's an empty string or contains only spaces and tab characters"

  /** `ValidateZone`: a zone must hold something other than white space. */
  function ValidateZone(zone: string): (r: Outcome)
    ensures r.Fail? <==> forall i :: 0 <= i < |zone| ==> IsSpace(zone[i])
  {
    TrimSpaceEmpty(zone);
    if TrimSpace(zone) == "" then Fail(ErrInvalidZone)
    else Pass
  }

  /** `CalculateTimeoutForVolume`: the timeout increment per whole GiB of the
      volume's capacity (in Go's int64 arithmetic), but at least the minimum.
      A missing capacity counts as zero. */
  function CalculateTimeoutForVolume(minimumTimeout: int, timeoutIncrement: int, pv: PersistentVolume): (r: int)
    requires InInt64(minimumTimeout) && InInt64(timeoutIncrement)
    requires ResourceStorage in pv.capacity ==> InInt64(Value(pv.capacity[ResourceStorage]))
    // The greater of the minimum and the per-GiB timeout.
    ensures r >= minimumTimeout
    ensures r >= WrapInt64(TruncDiv(Value(CapacityOf(pv)), GiB) * timeoutIncrement)
    ensures r == minimumTimeout || r == WrapInt64(TruncDiv(Value(CapacityOf(pv)), GiB) * timeoutIncrement)
  {
    var pvSize := Value(CapacityOf(pv));
    var timeout := WrapInt64(TruncDiv(pvSize, GiB) * timeoutIncrement);
    if timeout < minimumTimeout then minimumTimeout else timeout
  }

  function CapacityOf(pv: PersistentVolume): Quantity {
    if ResourceStorage in pv.capacity then pv.capacity[ResourceStorage] else Quantity(0)
  }

  /** Without overflow, a larger volume never gets a shorter timeout. */
  lemma {:induction false} TimeoutMonotone(minimumTimeout: int, timeoutIncrement: int, pv1: PersistentVolume, pv2: PersistentVolume)
    requires InInt64(minimumTimeout) && 0 <= timeoutIncrement <= MaxInt64
    requires ResourceStorage in pv1.capacity ==> InInt64(Value(pv1.capacity[ResourceStorage]))
    requires ResourceStorage in pv2.capacity ==> InInt64(Value(pv2.capacity[ResourceStorage]))
    requires 0 <= Value(CapacityOf(pv1)) <= Value(CapacityOf(pv2))
    requires InInt64(TruncDiv(Value(CapacityOf(pv2)), GiB) * timeoutIncrement)
    ensures CalculateTimeoutForVolume(minimumTimeout, timeoutIncrement, pv1)
         <= CalculateTimeoutForVolume(minimumTimeout, timeoutIncrement, pv2)
  {
    var v1 := Value(CapacityOf(pv1));
    var v2 := Value(CapacityOf(pv2));
    var q1 := TruncDiv(v1, GiB);
    var q2 := TruncDiv(v2, GiB);
    TruncDivNonNegative(v1, GiB);
    TruncDivNonNegative(v2, GiB);
    DivMonotone(v1, v2, GiB);
    var t1 := q1 * timeoutIncrement;
    var t2 := q2 * timeoutIncrement;
    MulMonotone(timeoutIncrement, q1, q2);
    MulMonotone(timeoutIncrement, 0, q1);
    assert 0 <= t1 <= t2;
    assert WrapInt64(t1) == t1 && WrapInt64(t2) == t2;
  }

  /** Go's division of a non-negative number by a positive one is Euclidean division. */
  lemma TruncDivNonNegative(a: int, b: int)
    requires a >= 0 && b > 0
    ensures TruncDiv(a, b) == a / b
  {
  }

  /** Euclidean division by a positive number is monotone. */
  lemma DivMonotone(a: nat, b: nat, d: int)
    requires a <= b && d > 0
    ensures a / d <= b / d
  {
    if a / d > b / d {
      assert d * (a / d) >= d * (b / d + 1) by { MulMonotone(d, b / d + 1, a / d); }
    }
  }

  /** Ten GiB at one minute per GiB, above a half-minute floor, takes ten minutes. */
  lemma TimeoutExample(pv: PersistentVolume)
    requires pv.capacity == map[ResourceStorage := FromValue(10 * GiB)]
    ensures CalculateTimeoutForVolume(30, 60, pv) == 600
  {
  }

  // ---------------------------------------------------------------------
  // Paths

  /** `GetWindowsPath`: forward slashes become back slashes, and a path that
      then starts with one is put on drive "c:". */
  function GetWindowsPath(path: string): (r: string)
    ensures '/' !in r
    // "c:" is added exactly when the path starts with either slash.
    ensures |r| == |path| + 2 <==> |path| > 0 && (path[0] == '/' || path[0] == '\\')
    ensures |r| == |path| || (|r| == |path| + 2 && r[..2] == "c:")
    ensures forall i :: 0 <= i < |path| ==>
      r[|r| - |path| + i] == (if path[i] == '/' then '\\' else path[i])
  {
    var windowsPath := Replace(path, "/", "\\");
    ReplaceCharPointwise(path, '/', '\\');
    assert forall i :: 0 <= i < |windowsPath| ==> windowsPath[i] != '/';
    if HasPrefix(windowsPath, "\\") then "c:" + windowsPath else windowsPath
  }

  /** Rewriting a path that is already a Windows path changes nothing. */
  lemma GetWindowsPathIdempotent(path: string)
    ensures GetWindowsPath(GetWindowsPath(path)) == GetWindowsPath(path)
  {
    var r := GetWindowsPath(path);
    var rr := GetWindowsPath(r);
    assert |rr| == |r|;
    forall i | 0 <= i < |r|
      ensures rr[i] == r[i]
    {
    }
  }

  /** `MakeAbsolutePath`: on Linux the cleaned path under "/"; on Windows the
      path itself when it names a drive, else the path on drive "c:". */
  function MakeAbsolutePath(goos: string, path: string): (r: string)
    ensures goos != "windows" ==> |r| > 0 && r[0] == '/' && FilePath.Clean(r) == r
    ensures goos != "windows" ==> r == FilePath.Clean("/" + path)
    ensures goos == "windows" ==> HasSuffix(r, path) && ':' in r
    ensures goos == "windows" && ':' in path ==> r == path
    ensures goos == "windows" && ':' !in path && |path| > 0 && (path[0] == '/' || path[0] == '\\') ==>
      r == "c:" + path
    ensures goos == "windows" && ':' !in path && !(|path| > 0 && (path[0] == '/' || path[0] == '\\')) ==>
      r == "c:\\" + path
  {
    if goos != "windows" then
      var r := FilePath.Clean("/" + path);
      FilePath.CleanIdempotent("/" + path);
      r
    else if Contains(path, ":") then
      assert ':' in path by { FilePath.CharInMeansContains(path, ':'); }
      path
    else if HasPrefix(path, "/") || HasPrefix(path, "\\") then
      assert ':' !in path by { FilePath.CharInMeansContains(path, ':'); }
      "c:" + path
    else
      assert ':' !in path by { FilePath.CharInMeansContains(path, ':'); }
      "c:\\" + path
  }

  /** On Windows an absolute path is left as it is: making it absolute
      again changes nothing. */
  lemma MakeAbsolutePathWindowsIdempotent(path: string)
    ensures MakeAbsolutePath("windows", MakeAbsolutePath("windows", path)) == MakeAbsolutePath("windows", path)
  {
  }
}
