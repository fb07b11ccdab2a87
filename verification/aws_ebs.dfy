/** The AWS Elastic Block Store volume plugin (pkg/volume/awsebs/aws_ebs.go):
    where a spec's EBS source comes from, how a volume ID maps to the
    directory its disk is mounted at and back, and what a provisioned
    persistent volume looks like. The cloud's `CreateVolume` answer is an
    input. */
module AwsEbs {
  import opened Wrappers
  import opened Strings
  import opened FilePath
  import opened Quantities
  import opened VolumeTypes
  import opened DiskPlugins
  import VolumeUtil

  // Error messages; the values Go formats into them are left out.
  const ErrNotEbs: string := "spec does not reference an AWS EBS volume type"
  const ErrMountPathFormat: string := "failed to get AWS volume id from mount path: invalid volume name format"
  const ErrVolumeNameFormat: string := "invalid volume name format for AWS volume"
  const ErrAccessModes: string := "invalid AccessModes: only ReadWriteOnce is supported"

  const PluginName: string := "kubernetes.io/aws-ebs"
  const UrlNamePrefix: string := "aws://"
  const ProvisionerName: string := "aws-ebs-dynamic-provisioner"

  /** `GetAccessModes`: EBS disks attach to one node at a time. */
  const AccessModes: seq<AccessMode> := [ReadWriteOnce]

  // ---------------------------------------------------------------------
  // Volume source

  /** `getVolumeSource`: the inline EBS source with its own read-only flag,
      else the persistent volume's with the spec's read-only flag. */
  function GetVolumeSource(spec: Spec): (r: Result<(EbsSource, bool)>)
    ensures r.Ok? <==> (spec.volume.Some? && spec.volume.value.ebs.Some?) || (spec.pv.Some? && spec.pv.value.ebs.Some?)
    ensures spec.volume.Some? && spec.volume.value.ebs.Some? ==>
      r == Ok((spec.volume.value.ebs.value, spec.volume.value.ebs.value.readOnly))
    ensures r.Ok? && !(spec.volume.Some? && spec.volume.value.ebs.Some?) ==>
      r.value == (spec.pv.value.ebs.value, spec.readOnly)
  {
    if spec.volume.Some? && spec.volume.value.ebs.Some? then
      var ebs := spec.volume.value.ebs.value;
      Ok((ebs, ebs.readOnly))
    else if spec.pv.Some? && spec.pv.value.ebs.Some? then
      Ok((spec.pv.value.ebs.value, spec.readOnly))
    else
      Err(ErrNotEbs)
  }

  /** `GetVolumeName`: the volume ID of the selected source. */
  function GetVolumeName(spec: Spec): (r: Result<string>)
    ensures r.Ok? <==> GetVolumeSource(spec).Ok?
    ensures r.Ok? ==> r.value == GetVolumeSource(spec).value.0.volumeID
  {
    match GetVolumeSource(spec)
    case Err(e) => Err(e)
    case Ok(source) => Ok(source.0.volumeID)
  }

  /** What `newMounterInternal` derives from a spec: the volume ID, the
      partition text and the read-only flag. */
  datatype MountTarget = MountTarget(volumeID: string, partition: string, readOnly: bool)

  function MounterTarget(spec: Spec): (r: Result<MountTarget>)
    requires GetVolumeSource(spec).Ok? ==> InInt32(GetVolumeSource(spec).value.0.partition)
    ensures r.Ok? <==> GetVolumeSource(spec).Ok?
    ensures r.Ok? ==> var (source, readOnly) := GetVolumeSource(spec).value;
      && r.value.volumeID == source.volumeID
      && r.value.readOnly == readOnly
      && (r.value.partition == "" <==> source.partition == 0)
      && (source.partition != 0 ==> Atoi(r.value.partition) == Some(source.partition) && CanonicalDecimal(r.value.partition))
  {
    match GetVolumeSource(spec)
    case Err(e) => Err(e)
    case Ok((source, readOnly)) => Ok(MountTarget(source.volumeID, PartitionName(source.partition), readOnly))
  }

  // ---------------------------------------------------------------------
  // Volume ID normalisation in ConstructVolumeSpec

  /** The workaround in `ConstructVolumeSpec`: a name read back from a mount
      path as "aws/vol-x" or "aws/zone/vol-x" becomes "aws:///vol-x" or
      "aws://zone/vol-x"; other names are kept. */
  function NormalizeVolumeID(volumeID: string): (r: Result<string>)
    ensures !HasPrefix(volumeID, "aws/") ==> r == Ok(volumeID)
    ensures HasPrefix(volumeID, "aws/") ==>
      (r.Ok? <==> |Split(volumeID, "/")| <= 3 && HasPrefix(Split(volumeID, "/")[|Split(volumeID, "/")| - 1], "vol-"))
    ensures r.Ok? && HasPrefix(volumeID, "aws/") ==> HasPrefix(r.value, UrlNamePrefix)
  {
    if HasPrefix(volumeID, "aws/") then
      var names := Split(volumeID, "/");
      var length := |names|;
      if length < 2 || length > 3 then
        Err(ErrMountPathFormat)
      else
        var volName := names[length - 1];
        if !HasPrefix(volName, "vol-") then
          Err(ErrVolumeNameFormat)
        else if length == 2 then
          Ok(UrlNamePrefix + "" + "/" + volName)
        else
          Ok(UrlNamePrefix + names[1] + "/" + volName)
    else
      Ok(volumeID)
  }

  /** A volume ID's last component, as AWS issues them: "vol-" then no '/'. */
  predicate EbsVolumeName(v: string) {
    HasPrefix(v, "vol-") && '/' !in v
  }

  lemma JoinThree(a: string, b: string, c: string)
    ensures Join([a, b, c], "/") == a + "/" + b + "/" + c
  {
    assert [a, b, c][1..] == [b, c];
    assert [b, c][1..] == [c];
    assert Join([b, c], "/") == b + "/" + c;
    assert Join([a, b, c], "/") == a + "/" + (b + "/" + c);
  }

  lemma JoinTwo(a: string, b: string)
    ensures Join([a, b], "/") == a + "/" + b
  {
    assert [a, b][1..] == [b];
  }

  /** A '/'-free head comes off first when splitting on '/'. */
  lemma SplitSlashCons(a: string, rest: string)
    requires '/' !in a
    ensures Split(a + "/" + rest, "/") == [a] + Split(rest, "/")
  {
    IndexOfCharAfter(a, '/', rest);
    SplitAround(a, "/", rest);
  }

  /** A '/'-free string is its own only piece. */
  lemma SplitSlashFree(a: string)
    requires '/' !in a
    ensures Split(a, "/") == [a]
  {
    IndexOfCharAbsent(a, '/');
  }

  lemma SplitTwo(a: string, b: string)
    requires '/' !in a && '/' !in b
    ensures Split(a + "/" + b, "/") == [a, b]
  {
    SplitSlashCons(a, b);
    SplitSlashFree(b);
  }

  lemma SplitThree(a: string, b: string, c: string)
    requires '/' !in a && '/' !in b && '/' !in c
    ensures Split(a + "/" + b + "/" + c, "/") == [a, b, c]
  {
    assert a + "/" + b + "/" + c == a + "/" + (b + "/" + c);
    SplitSlashCons(a, b + "/" + c);
    SplitTwo(b, c);
  }

  /** "aws/" followed by some text. */
  lemma AwsPrefixed(x: string)
    ensures "aws/" + x == "aws" + "/" + x
    ensures HasPrefix("aws/" + x, "aws/")
  {
    assert ("aws/" + x)[..4] == "aws/";
  }

  /** The two names read back from AWS mount paths become full AWS IDs. */
  lemma NormalizeVolumeIDUnzoned(v: string)
    requires EbsVolumeName(v)
    ensures NormalizeVolumeID("aws/" + v) == Ok("aws:///" + v)
  {
    AwsPrefixed(v);
    SplitTwo("aws", v);
    assert UrlNamePrefix + "" + "/" + v == "aws:///" + v;
  }

  lemma NormalizeVolumeIDZoned(zone: string, v: string)
    requires EbsVolumeName(v) && '/' !in zone
    ensures NormalizeVolumeID("aws/" + zone + "/" + v) == Ok("aws://" + zone + "/" + v)
  {
    AwsPrefixed(zone + "/" + v);
    assert "aws/" + zone + "/" + v == "aws/" + (zone + "/" + v);
    assert "aws" + "/" + (zone + "/" + v) == "aws" + "/" + zone + "/" + v;
    SplitThree("aws", zone, v);
  }

  /** Every accepted "aws/" name is rewritten in place: its leading "aws"
      becomes "aws://" when it has two parts and "aws:/" when it has three,
      so the zone and volume text that follow are kept as they were. */
  lemma NormalizeVolumeIDRewritesPrefix(volumeID: string)
    requires HasPrefix(volumeID, "aws/") && NormalizeVolumeID(volumeID).Ok?
    ensures var names := Split(volumeID, "/");
      && (|names| == 2 ==> NormalizeVolumeID(volumeID).value == "aws://" + volumeID[3..])
      && (|names| == 3 ==> NormalizeVolumeID(volumeID).value == "aws:/" + volumeID[3..])
  {
    var n := |Split(volumeID, "/")|;
    if n == 2 {
      RewritesUnzoned(volumeID);
    } else if n == 3 {
      RewritesZoned(volumeID);
    }
  }

  lemma RewritesUnzoned(volumeID: string)
    requires HasPrefix(volumeID, "aws/") && |Split(volumeID, "/")| == 2
    ensures var v := Split(volumeID, "/")[1];
      HasPrefix(v, "vol-") ==> NormalizeVolumeID(volumeID) == Ok("aws://" + volumeID[3..])
  {
    var rest := AwsHead(volumeID);
    var names := Split(volumeID, "/");
    assert Split(rest, "/")[0] == names[1];
    JoinOne(rest);
    assert "aws://" + volumeID[3..] == UrlNamePrefix + "" + "/" + names[1];
  }

  lemma RewritesZoned(volumeID: string)
    requires HasPrefix(volumeID, "aws/") && |Split(volumeID, "/")| == 3
    ensures var v := Split(volumeID, "/")[2];
      HasPrefix(v, "vol-") ==> NormalizeVolumeID(volumeID) == Ok("aws:/" + volumeID[3..])
  {
    var names := Split(volumeID, "/");
    var zone, v := names[1], names[2];
    if HasPrefix(v, "vol-") {
      ZonedValue(volumeID);
      var rest := AwsHead(volumeID);
      assert rest == zone + "/" + v by {
        assert Split(rest, "/")[0] == zone && Split(rest, "/")[1] == v;
        JoinTwoOf(rest);
      }
      PrefixedZoneText(volumeID[3..], zone, v);
    }
  }

  /** The value `NormalizeVolumeID` builds for three accepted parts. */
  lemma ZonedValue(volumeID: string)
    requires HasPrefix(volumeID, "aws/") && |Split(volumeID, "/")| == 3
    requires HasPrefix(Split(volumeID, "/")[2], "vol-")
    ensures NormalizeVolumeID(volumeID) == Ok(UrlNamePrefix + Split(volumeID, "/")[1] + "/" + Split(volumeID, "/")[2])
  {
  }

  lemma PrefixedZoneText(tail: string, zone: string, v: string)
    requires tail == "/" + (zone + "/" + v)
    ensures "aws:/" + tail == UrlNamePrefix + zone + "/" + v
  {
  }

  /** An "aws/" name splits into "aws" and the pieces of what follows. */
  lemma AwsHead(volumeID: string) returns (rest: string)
    requires HasPrefix(volumeID, "aws/")
    ensures rest == volumeID[4..] && volumeID[3..] == "/" + rest
    ensures Split(volumeID, "/") == ["aws"] + Split(rest, "/")
  {
    rest := volumeID[4..];
    assert volumeID == "aws" + "/" + rest by {
      assert volumeID[..4] == "aws/";
    }
    SplitSlashCons("aws", rest);
  }

  lemma JoinOne(s: string)
    requires |Split(s, "/")| == 1
    ensures Split(s, "/")[0] == s
  {
    SplitJoin(s, "/");
    assert Split(s, "/") == [Split(s, "/")[0]];
  }

  lemma JoinTwoOf(s: string)
    requires |Split(s, "/")| == 2
    ensures Split(s, "/")[0] + "/" + Split(s, "/")[1] == s
  {
    var t := Split(s, "/");
    SplitJoin(s, "/");
    assert t == [t[0], t[1]];
    JoinTwo(t[0], t[1]);
  }

  /** A name with more than two '/'-separated parts after "aws" is rejected. */
  lemma NormalizeVolumeIDRejectsLong(a: string, b: string, c: string)
    requires '/' !in a && '/' !in b
    ensures NormalizeVolumeID("aws/" + a + "/" + b + "/" + c).Err?
  {
    var s := "aws/" + a + "/" + b + "/" + c;
    assert s == "aws/" + (a + "/" + (b + "/" + c));
    AwsPrefixed(a + "/" + (b + "/" + c));
    SplitSlashCons("aws", a + "/" + (b + "/" + c));
    SplitSlashCons(a, b + "/" + c);
    SplitSlashCons(b, c);
  }

  /** A name whose last part does not start with "vol-" is rejected. */
  lemma NormalizeVolumeIDRejectsName(w: string)
    requires !HasPrefix(w, "vol-") && '/' !in w
    ensures NormalizeVolumeID("aws/" + w).Err?
  {
    AwsPrefixed(w);
    SplitTwo("aws", w);
  }

  // ---------------------------------------------------------------------
  // Global mount path <-> volume ID

  /** `makeGlobalPDPath`: every "://" of the ID becomes "/", and the result is
      placed under the plugin's mounts directory. */
  function MakeGlobalPDPath(pluginDir: string, volumeID: string): (r: string)
    ensures r != "" && FilePath.Clean(r) == r
  {
    var elems := [pluginDir, MountsInGlobalPDPath, Replace(volumeID, "://", "/")];
    assert elems[1] != "";
    JoinPath(elems)
  }

  /** The directory all global mounts lie under. */
  function MountsDir(pluginDir: string): string {
    JoinPath([pluginDir, MountsInGlobalPDPath])
  }

  /** `getVolumeIDFromGlobalMount` as written: the path relative to the
      mounts directory, refused when it climbs out with "../", with one
      leading "aws/" turned back into "aws://". What it reads back for each
      form of volume ID is stated by `UnzonedReadBack`, `ZonedReadBack` and
      `BareReadBack`. */
  function GetVolumeIDFromGlobalMount(pluginDir: string, globalPath: string): (r: Result<string>)
    ensures Rel(MountsDir(pluginDir), globalPath).Err? ==> r.Err?
    ensures r.Ok? <==> Rel(MountsDir(pluginDir), globalPath).Ok? && !Contains(Rel(MountsDir(pluginDir), globalPath).value, "../")
    ensures r.Ok? ==> var rel := Rel(MountsDir(pluginDir), globalPath).value;
      && (HasPrefix(rel, "aws/") ==> r.value == UrlNamePrefix + rel[4..])
      && (!HasPrefix(rel, "aws/") ==> r.value == rel)
  {
    match Rel(MountsDir(pluginDir), globalPath)
    case Err(e) => Err(e)
    case Ok(rel) =>
      if Contains(rel, "../") then Err("unexpected mount path: " + globalPath)
      else if HasPrefix(rel, "aws/") then
        ReplaceFirstAtStart(rel, "aws/", UrlNamePrefix);
        Ok(ReplaceFirst(rel, "aws/", UrlNamePrefix))
      else Ok(rel)
  }

  /** The reversal `getVolumeIDFromGlobalMount` is meant to perform: like the
      code as written, but a relative path of exactly two parts "aws/v",
      which cleaning made out of "aws//v", is read back as "aws:///v". */
  function GetVolumeIDFromGlobalMountCorrected(pluginDir: string, globalPath: string): (r: Result<string>)
    ensures r.Ok? <==> GetVolumeIDFromGlobalMount(pluginDir, globalPath).Ok?
    ensures r.Ok? && r != GetVolumeIDFromGlobalMount(pluginDir, globalPath) ==>
      var rel := Rel(MountsDir(pluginDir), globalPath).value;
      |Split(rel, "/")| == 2 && r.value == UrlNamePrefix + "/" + Split(rel, "/")[1]
  {
    match Rel(MountsDir(pluginDir), globalPath)
    case Err(e) => Err(e)
    case Ok(rel) =>
      if Contains(rel, "../") then Err("unexpected mount path: " + globalPath)
      else if HasPrefix(rel, "aws/") then
        var names := Split(rel, "/");
        if |names| == 2 then Ok(UrlNamePrefix + "/" + names[1])
        else Ok(ReplaceFirst(rel, "aws/", UrlNamePrefix))
      else Ok(rel)
  }

  lemma ReplaceFirstAtStart(s: string, pat: string, rep: string)
    requires |pat| > 0 && HasPrefix(s, pat)
    ensures ReplaceFirst(s, pat, rep) == rep + s[|pat|..]
  {
    assert OccursAt(s, pat, 0);
  }

  /** The text `filepath.Join` cleans for the mounts directory. */
  function MountsText(pluginDir: string): (r: string)
    ensures r != ""
  {
    if pluginDir == "" then MountsInGlobalPDPath else pluginDir + "/" + MountsInGlobalPDPath
  }

  /** The mounts directory is the cleaning of its text. */
  lemma MountsDirText(pluginDir: string)
    ensures MountsDir(pluginDir) == Clean(MountsText(pluginDir))
  {
    var elems := [pluginDir, MountsInGlobalPDPath];
    if pluginDir == "" {
      assert elems[1..] == [MountsInGlobalPDPath];
      assert JoinPath(elems) == JoinPath([MountsInGlobalPDPath]);
      var joined := Join([MountsInGlobalPDPath], "/");
      assert joined == MountsInGlobalPDPath;
      assert JoinPath([MountsInGlobalPDPath]) == Clean(joined);
    } else {
      JoinTwo(pluginDir, MountsInGlobalPDPath);
      var joined := Join(elems, "/");
      assert joined == MountsText(pluginDir);
      assert JoinPath(elems) == Clean(joined);
    }
  }

  /** A global path is the cleaning of the mounts text extended by the name. */
  lemma GlobalPathText(pluginDir: string, name: string)
    ensures JoinPath([pluginDir, MountsInGlobalPDPath, name]) == Clean(MountsText(pluginDir) + "/" + name)
  {
    var elems := [pluginDir, MountsInGlobalPDPath, name];
    if pluginDir == "" {
      var rest := [MountsInGlobalPDPath, name];
      assert elems[1..] == rest;
      assert JoinPath(elems) == JoinPath(rest);
      JoinTwo(MountsInGlobalPDPath, name);
      var joined := Join(rest, "/");
      assert joined == MountsInGlobalPDPath + "/" + name;
      assert JoinPath(rest) == Clean(joined);
    } else {
      JoinThree(pluginDir, MountsInGlobalPDPath, name);
      var joined := Join(elems, "/");
      assert joined == MountsText(pluginDir) + "/" + name;
      assert JoinPath(elems) == Clean(joined);
    }
  }

  /** The mounts directory always has a component: "mounts" itself. */
  lemma MountsComponents(pluginDir: string)
    ensures |Components(MountsText(pluginDir))| >= 1
  {
    if pluginDir == "" {
      MountsAlone();
    } else {
      MountsBelow(pluginDir);
    }
  }

  lemma MountsAlone()
    ensures Components(MountsInGlobalPDPath) == [MountsInGlobalPDPath]
  {
    IndexOfCharAbsent(MountsInGlobalPDPath, '/');
    assert Split(MountsInGlobalPDPath, "/") == [MountsInGlobalPDPath];
    assert Normalize(false, [], [MountsInGlobalPDPath]) == [MountsInGlobalPDPath];
  }

  lemma MountsBelow(pluginDir: string)
    requires pluginDir != ""
    ensures |Components(pluginDir + "/" + MountsInGlobalPDPath)| >= 1
  {
    var a := pluginDir + "/" + MountsInGlobalPDPath;
    var rooted := pluginDir[0] == '/';
    assert a[0] == pluginDir[0];
    IndexOfCharAbsent(MountsInGlobalPDPath, '/');
    assert Split(MountsInGlobalPDPath, "/") == [MountsInGlobalPDPath];
    SplitAppend(pluginDir, MountsInGlobalPDPath);
    SplitPiecesNoSlash(pluginDir);
    NormalizeAppend(rooted, [], Split(pluginDir, "/"), [MountsInGlobalPDPath]);
    NormalizeOnePlain(rooted, Components(pluginDir), MountsInGlobalPDPath);
  }

  /** Cleaning appends a plain component as it is. */
  lemma NormalizeOnePlain(rooted: bool, acc: seq<string>, c: string)
    requires IsCleanComps(rooted, acc) && Plain(c)
    ensures Normalize(rooted, acc, [c]) == acc + [c]
  {
    NormalizeUnfold(rooted, acc, [c]);
    StepPlainOrEmpty(rooted, acc, c);
  }

  /** A volume ID whose rewritten name splits into empty or plain pieces
      lies below the mounts directory at the path made of its non-empty
      pieces. */
  lemma RelOfGlobalPath(pluginDir: string, volumeID: string, pieces: seq<string>, rel: string)
    requires Split(Replace(volumeID, "://", "/"), "/") == pieces
    requires forall i :: 0 <= i < |pieces| ==> pieces[i] == "" || Plain(pieces[i])
    requires |NonEmpty(pieces)| >= 1 && Join(NonEmpty(pieces), "/") == rel
    ensures Rel(MountsDir(pluginDir), MakeGlobalPDPath(pluginDir, volumeID)) == Ok(rel)
  {
    var name := Replace(volumeID, "://", "/");
    var a := MountsText(pluginDir);
    MountsDirText(pluginDir);
    GlobalPathText(pluginDir, name);
    MountsComponents(pluginDir);
    CleanBelow(a, name);
    var rooted := a[0] == '/';
    var b := Components(a);
    NormalizePlainOrEmpty(rooted, b, pieces);
    RelExtension(rooted, b, NonEmpty(pieces));
  }

  lemma NoColonSlashSlash(s: string, k: nat)
    requires forall j :: k <= j < |s| - 1 ==> !(s[j] == '/' && s[j + 1] == '/')
    ensures forall j :: k <= j ==> !OccursAt(s, "://", j)
  {
    forall j | k <= j && j + 3 <= |s|
      ensures !OccursAt(s, "://", j)
    {
      assert s[j..j + 3] == [s[j], s[j + 1], s[j + 2]];
    }
  }

  lemma ReplaceAbsent(s: string, pat: string, rep: string)
    requires |pat| > 0 && forall j :: !OccursAt(s, pat, j)
    ensures Replace(s, pat, rep) == s
  {
  }

  lemma NotAtStart(s: string)
    requires HasPrefix(s, "aws")
    ensures forall j :: 0 <= j < 3 ==> !OccursAt(s, "://", j)
  {
    forall j | 0 <= j < 3
      ensures !OccursAt(s, "://", j)
    {
      if j + 3 <= |s| {
        assert s[j..j + 3][0] == s[j] == "aws"[j];
      }
    }
  }

  /** Replacing "://" in text with no "//" changes nothing. */
  lemma ReplaceNoDoubleSlash(s: string)
    requires forall j :: 0 <= j < |s| - 1 ==> !(s[j] == '/' && s[j + 1] == '/')
    ensures Replace(s, "://", "/") == s
  {
    NoColonSlashSlash(s, 0);
    ReplaceAbsent(s, "://", "/");
  }

  /** In "aws://" followed by anything, the first "://" follows "aws". */
  lemma SchemeAfterAws(rest: string)
    ensures IndexOf("aws" + "://" + rest, "://") == Some(3)
  {
    var s := "aws" + "://" + rest;
    assert s[3..6] == "://";
    assert OccursAt(s, "://", 3);
    assert HasPrefix(s, "aws") by {
      assert s[..3] == "aws";
    }
    NotAtStart(s);
  }

  /** Replacing in "aws://" + rest rewrites the scheme and then the rest. */
  lemma ReplaceAfterAws(rest: string)
    ensures Replace("aws" + "://" + rest, "://", "/") == "aws" + "/" + Replace(rest, "://", "/")
  {
    var s := "aws" + "://" + rest;
    SchemeAfterAws(rest);
    assert s[..3] == "aws";
    assert s[6..] == rest;
  }

  /** Two '/'-free names joined by one '/' hold no "://". */
  lemma ReplaceSlashJoin(zone: string, v: string)
    requires '/' !in zone && '/' !in v
    ensures Replace(zone + "/" + v, "://", "/") == zone + "/" + v
  {
    var rest := zone + "/" + v;
    forall j | 0 <= j < |rest| - 1
      ensures !(rest[j] == '/' && rest[j + 1] == '/')
    {
      if j < |zone| {
        assert rest[j] == zone[j];
      } else {
        assert rest[j + 1] == v[j - |zone|];
      }
    }
    ReplaceNoDoubleSlash(rest);
  }

  /** "aws:///v" becomes "aws//v". */
  lemma ReplaceUnzoned(v: string)
    requires '/' !in v
    ensures Replace("aws:///" + v, "://", "/") == "aws//" + v
  {
    UnzonedText(v);
    ReplaceAfterAws("" + "/" + v);
    ReplaceSlashJoin("", v);
  }

  /** The unzoned ID and its rewritten name, regrouped around an empty zone. */
  lemma UnzonedText(v: string)
    ensures "aws:///" + v == "aws" + "://" + ("" + "/" + v)
    ensures "aws" + "/" + ("" + "/" + v) == "aws//" + v
  {
  }

  /** "aws://z/v" becomes "aws/z/v". */
  lemma ReplaceZoned(zone: string, v: string)
    requires '/' !in zone && '/' !in v
    ensures Replace("aws://" + zone + "/" + v, "://", "/") == "aws/" + zone + "/" + v
  {
    ZonedText(zone, v);
    ReplaceAfterAws(zone + "/" + v);
    ReplaceSlashJoin(zone, v);
  }

  /** The zoned ID and its rewritten name, regrouped around the zone. */
  lemma ZonedText(zone: string, v: string)
    ensures "aws://" + zone + "/" + v == "aws" + "://" + (zone + "/" + v)
    ensures "aws" + "/" + (zone + "/" + v) == "aws/" + zone + "/" + v
  {
  }

  /** A '/'-free name has no "://" to replace. */
  lemma ReplaceBare(v: string)
    requires '/' !in v
    ensures Replace(v, "://", "/") == v
  {
    forall j | 0 <= j < |v| - 1
      ensures !(v[j] == '/' && v[j + 1] == '/')
    {
      assert v[j] in v;
    }
    ReplaceNoDoubleSlash(v);
  }

  lemma DotDotSuffix(z: string)
    requires |z| >= 2
    ensures HasSuffix(z, "..") <==> z[|z| - 2] == '.' && z[|z| - 1] == '.'
  {
    assert z[|z| - 2..] == [z[|z| - 2], z[|z| - 1]];
  }

  /** "aws/v" and "aws/z/v" never hold "../" when z does not end in "..". */
  lemma NoParentStep(zone: string, v: string)
    requires '/' !in zone && '/' !in v && |zone| >= 1 && !HasSuffix(zone, "..")
    ensures !Contains("aws/" + v, "../")
    ensures !Contains("aws/" + zone + "/" + v, "../")
    ensures !Contains(v, "../")
  {
    NoParentUnzoned(v);
    NoParentZoned(zone, v);
    NoParentBare(v);
  }

  lemma NoParentUnzoned(v: string)
    requires '/' !in v
    ensures !Contains("aws/" + v, "../")
  {
    var s1 := "aws/" + v;
    forall j | 0 <= j && j + 3 <= |s1|
      ensures !OccursAt(s1, "../", j)
    {
      assert s1[j..j + 3] == [s1[j], s1[j + 1], s1[j + 2]];
      if j + 2 > 3 {
        assert s1[j + 2] == v[j - 2];
      } else if j + 2 == 3 {
        assert s1[j] == 'w';
      } else {
        assert s1[j + 2] == 's';
      }
    }
  }

  lemma NoParentZoned(zone: string, v: string)
    requires '/' !in zone && '/' !in v && |zone| >= 1 && !HasSuffix(zone, "..")
    ensures !Contains("aws/" + zone + "/" + v, "../")
  {
    var s2 := "aws/" + zone + "/" + v;
    if |zone| >= 2 {
      DotDotSuffix(zone);
    }
    forall j | 0 <= j && j + 3 <= |s2|
      ensures !OccursAt(s2, "../", j)
    {
      assert s2[j..j + 3] == [s2[j], s2[j + 1], s2[j + 2]];
      if j + 2 > 4 + |zone| {
        assert s2[j + 2] == v[j + 2 - 5 - |zone|];
      } else if 3 < j + 2 < 4 + |zone| {
        assert s2[j + 2] == zone[j - 2];
      } else if j + 2 == 4 + |zone| && |zone| >= 2 {
        assert s2[j] == zone[|zone| - 2] && s2[j + 1] == zone[|zone| - 1];
      } else if j + 2 == 4 + |zone| {
        assert s2[j] == '/';
      } else if j + 2 == 3 {
        assert s2[j] == 'w';
      } else {
        assert s2[j + 2] == 's';
      }
    }
  }

  lemma NoParentBare(v: string)
    requires '/' !in v
    ensures !Contains(v, "../")
  {
    forall j | 0 <= j && j + 3 <= |v|
      ensures !OccursAt(v, "../", j)
    {
      assert v[j..j + 3] == [v[j], v[j + 1], v[j + 2]];
      assert v[j + 2] in v;
    }
  }

  /** Where the global path of each AWS volume ID form lies below the
      mounts directory: "aws:///v" at "aws/v", "aws://z/v" at "aws/z/v", and
      a bare "v" at "v". */
  lemma RelUnzoned(pluginDir: string, v: string)
    requires Plain(v)
    ensures Rel(MountsDir(pluginDir), MakeGlobalPDPath(pluginDir, "aws:///" + v)) == Ok("aws/" + v)
  {
    UnzonedPieces(v);
    RelOfGlobalPath(pluginDir, "aws:///" + v, ["aws", "", v], "aws/" + v);
  }

  /** The pieces of the unzoned form's rewritten name; the empty one is dropped. */
  lemma UnzonedPieces(v: string)
    requires Plain(v)
    ensures Split(Replace("aws:///" + v, "://", "/"), "/") == ["aws", "", v]
    ensures NonEmpty(["aws", "", v]) == ["aws", v]
    ensures Join(["aws", v], "/") == "aws/" + v
  {
    assert Split(Replace("aws:///" + v, "://", "/"), "/") == ["aws", "", v] by {
      ReplaceUnzoned(v);
      SplitDoubleSlash(v);
    }
    NonEmptyDoubleSlash(v);
    JoinTwo("aws", v);
  }

  lemma SplitDoubleSlash(v: string)
    requires '/' !in v
    ensures Split("aws//" + v, "/") == ["aws", "", v]
  {
    JoinThree("aws", "", v);
    assert "aws" + "/" + "" + "/" + v == "aws//" + v;
    JoinSplitChar(["aws", "", v], '/');
  }

  lemma NonEmptyDoubleSlash(v: string)
    requires v != ""
    ensures NonEmpty(["aws", "", v]) == ["aws", v]
  {
    assert ["aws", "", v][1..] == ["", v];
    assert ["", v][1..] == [v];
    assert [v][1..] == [];
    assert NonEmpty([v]) == [v];
  }

  lemma ZonedJoin(zone: string, v: string)
    ensures Join(["aws", zone, v], "/") == "aws/" + zone + "/" + v
  {
    JoinThree("aws", zone, v);
  }

  /** The pieces of the zoned form's rewritten name, all kept. */
  lemma ZonedPieces(zone: string, v: string)
    requires Plain(v) && Plain(zone)
    ensures Split(Replace("aws://" + zone + "/" + v, "://", "/"), "/") == ["aws", zone, v]
    ensures NonEmpty(["aws", zone, v]) == ["aws", zone, v]
    ensures Join(["aws", zone, v], "/") == "aws/" + zone + "/" + v
  {
    assert Split(Replace("aws://" + zone + "/" + v, "://", "/"), "/") == ["aws", zone, v] by {
      ZonedSplit(zone, v);
    }
    assert NonEmpty(["aws", zone, v]) == ["aws", zone, v] by {
      NonEmptyKeeps(["aws", zone, v]);
    }
    ZonedJoin(zone, v);
  }

  lemma ZonedSplit(zone: string, v: string)
    requires '/' !in v && '/' !in zone
    ensures Split(Replace("aws://" + zone + "/" + v, "://", "/"), "/") == ["aws", zone, v]
  {
    ReplaceZoned(zone, v);
    assert "aws/" + zone + "/" + v == "aws" + "/" + zone + "/" + v;
    SplitThree("aws", zone, v);
  }

  lemma RelZoned(pluginDir: string, zone: string, v: string)
    requires Plain(v) && Plain(zone)
    ensures Rel(MountsDir(pluginDir), MakeGlobalPDPath(pluginDir, "aws://" + zone + "/" + v)) == Ok("aws/" + zone + "/" + v)
  {
    ZonedPieces(zone, v);
    RelOfGlobalPath(pluginDir, "aws://" + zone + "/" + v, ["aws", zone, v], "aws/" + zone + "/" + v);
  }

  lemma RelBare(pluginDir: string, v: string)
    requires Plain(v)
    ensures Rel(MountsDir(pluginDir), MakeGlobalPDPath(pluginDir, v)) == Ok(v)
  {
    assert Split(Replace(v, "://", "/"), "/") == [v] by {
      ReplaceBare(v);
      IndexOfCharAbsent(v, '/');
    }
    assert NonEmpty([v]) == [v] by {
      NonEmptyKeeps([v]);
    }
    RelOfGlobalPath(pluginDir, v, [v], v);
  }

  lemma NotAwsPrefixed(v: string)
    requires '/' !in v
    ensures !HasPrefix(v, "aws/")
  {
    if |v| >= 4 {
      assert v[3] in v;
    }
  }

  /** What each reading of a global path gives once its relative path is known. */
  lemma ReadBack(pluginDir: string, globalPath: string, rel: string, id: string)
    requires Rel(MountsDir(pluginDir), globalPath) == Ok(rel) && !Contains(rel, "../")
    requires HasPrefix(rel, "aws/") ==> id == UrlNamePrefix + rel[4..]
    requires !HasPrefix(rel, "aws/") ==> id == rel
    ensures GetVolumeIDFromGlobalMount(pluginDir, globalPath) == Ok(id)
  {
  }

  lemma ReadBackCorrected(pluginDir: string, globalPath: string, rel: string, id: string)
    requires Rel(MountsDir(pluginDir), globalPath) == Ok(rel) && !Contains(rel, "../")
    requires HasPrefix(rel, "aws/") && |Split(rel, "/")| == 2 ==> id == UrlNamePrefix + "/" + Split(rel, "/")[1]
    requires HasPrefix(rel, "aws/") && |Split(rel, "/")| != 2 ==> id == UrlNamePrefix + rel[4..]
    requires !HasPrefix(rel, "aws/") ==> id == rel
    ensures GetVolumeIDFromGlobalMountCorrected(pluginDir, globalPath) == Ok(id)
  {
    if HasPrefix(rel, "aws/") {
      ReplaceFirstAtStart(rel, "aws/", UrlNamePrefix);
    }
  }

  lemma UnzonedRelFacts(v: string)
    requires Plain(v)
    ensures !Contains("aws/" + v, "../") && Split("aws/" + v, "/") == ["aws", v]
    ensures HasPrefix("aws/" + v, "aws/") && UrlNamePrefix + ("aws/" + v)[4..] == "aws://" + v
    ensures UrlNamePrefix + "/" + v == "aws:///" + v && "aws://" + v != "aws:///" + v
  {
    NoParentStep("a", v);
    AwsPrefixed(v);
    SplitTwo("aws", v);
    UnzonedIds(v);
  }

  /** The IDs that "aws/v" can be read back as. */
  lemma UnzonedIds(v: string)
    ensures UrlNamePrefix + ("aws/" + v)[4..] == "aws://" + v
    ensures UrlNamePrefix + "/" + v == "aws:///" + v && "aws://" + v != "aws:///" + v
  {
    assert ("aws/" + v)[4..] == v;
    assert |"aws://" + v| != |"aws:///" + v|;
  }

  lemma ZonedRelFacts(zone: string, v: string)
    requires Plain(v) && Plain(zone) && !HasSuffix(zone, "..")
    ensures var rel := "aws/" + zone + "/" + v;
      && !Contains(rel, "../") && HasPrefix(rel, "aws/") && |Split(rel, "/")| == 3
      && UrlNamePrefix + rel[4..] == "aws://" + zone + "/" + v
  {
    NoParentStep(zone, v);
    ZonedRelText(zone, v);
    SplitThree("aws", zone, v);
    ZonedSuffix(zone, v);
  }

  lemma ZonedRelText(zone: string, v: string)
    ensures "aws/" + zone + "/" + v == "aws" + "/" + zone + "/" + v
    ensures HasPrefix("aws/" + zone + "/" + v, "aws/")
  {
    assert ("aws/" + zone + "/" + v)[..4] == "aws/";
  }

  lemma ZonedSuffix(zone: string, v: string)
    ensures UrlNamePrefix + ("aws/" + zone + "/" + v)[4..] == "aws://" + zone + "/" + v
  {
    var rel := "aws/" + zone + "/" + v;
    assert rel[4..] == zone + "/" + v;
  }

  /** The global path of "aws:///v" is read back as "aws://v": cleaning
      turned "aws//v" into "aws/v", which names the zoned form. */
  lemma GlobalMountUnzonedAsWritten(pluginDir: string, v: string)
    requires Plain(v)
    ensures GetVolumeIDFromGlobalMount(pluginDir, MakeGlobalPDPath(pluginDir, "aws:///" + v)) == Ok("aws://" + v)
    ensures GetVolumeIDFromGlobalMount(pluginDir, MakeGlobalPDPath(pluginDir, "aws:///" + v)) != Ok("aws:///" + v)
  {
    RelUnzoned(pluginDir, v);
    UnzonedReadBack(pluginDir, MakeGlobalPDPath(pluginDir, "aws:///" + v), v);
  }

  /** The code as written does give back the zoned form... */
  lemma GlobalMountZonedAsWritten(pluginDir: string, zone: string, v: string)
    requires Plain(v) && Plain(zone) && !HasSuffix(zone, "..")
    ensures GetVolumeIDFromGlobalMount(pluginDir, MakeGlobalPDPath(pluginDir, "aws://" + zone + "/" + v))
         == Ok("aws://" + zone + "/" + v)
  {
    RelZoned(pluginDir, zone, v);
    ZonedReadBack(pluginDir, MakeGlobalPDPath(pluginDir, "aws://" + zone + "/" + v), zone, v);
  }

  /** ...and the bare form. */
  lemma GlobalMountBareAsWritten(pluginDir: string, v: string)
    requires Plain(v)
    ensures GetVolumeIDFromGlobalMount(pluginDir, MakeGlobalPDPath(pluginDir, v)) == Ok(v)
  {
    RelBare(pluginDir, v);
    BareReadBack(pluginDir, MakeGlobalPDPath(pluginDir, v), v);
  }

  /** The corrected reversal gives back "aws:///v". */
  lemma GlobalMountRoundTripUnzoned(pluginDir: string, v: string)
    requires Plain(v)
    ensures GetVolumeIDFromGlobalMountCorrected(pluginDir, MakeGlobalPDPath(pluginDir, "aws:///" + v)) == Ok("aws:///" + v)
  {
    RelUnzoned(pluginDir, v);
    UnzonedReadBack(pluginDir, MakeGlobalPDPath(pluginDir, "aws:///" + v), v);
  }

  /** The corrected reversal gives back "aws://z/v". */
  lemma GlobalMountRoundTripZoned(pluginDir: string, zone: string, v: string)
    requires Plain(v) && Plain(zone) && !HasSuffix(zone, "..")
    ensures GetVolumeIDFromGlobalMountCorrected(pluginDir, MakeGlobalPDPath(pluginDir, "aws://" + zone + "/" + v))
         == Ok("aws://" + zone + "/" + v)
  {
    RelZoned(pluginDir, zone, v);
    ZonedReadBack(pluginDir, MakeGlobalPDPath(pluginDir, "aws://" + zone + "/" + v), zone, v);
  }

  /** The corrected reversal gives back a bare "v". */
  lemma GlobalMountRoundTripBare(pluginDir: string, v: string)
    requires Plain(v)
    ensures GetVolumeIDFromGlobalMountCorrected(pluginDir, MakeGlobalPDPath(pluginDir, v)) == Ok(v)
  {
    RelBare(pluginDir, v);
    BareReadBack(pluginDir, MakeGlobalPDPath(pluginDir, v), v);
  }

  /** Both readings of a path found at "aws/v" below the mounts directory. */
  lemma UnzonedReadBack(pluginDir: string, globalPath: string, v: string)
    requires Plain(v) && Rel(MountsDir(pluginDir), globalPath) == Ok("aws/" + v)
    ensures GetVolumeIDFromGlobalMount(pluginDir, globalPath) == Ok("aws://" + v)
    ensures GetVolumeIDFromGlobalMount(pluginDir, globalPath) != Ok("aws:///" + v)
    ensures GetVolumeIDFromGlobalMountCorrected(pluginDir, globalPath) == Ok("aws:///" + v)
  {
    UnzonedRelFacts(v);
    ReadBack(pluginDir, globalPath, "aws/" + v, "aws://" + v);
    ReadBackCorrected(pluginDir, globalPath, "aws/" + v, "aws:///" + v);
  }

  /** Both readings of a path found at "aws/z/v" below the mounts directory. */
  lemma ZonedReadBack(pluginDir: string, globalPath: string, zone: string, v: string)
    requires Plain(v) && Plain(zone) && !HasSuffix(zone, "..")
    requires Rel(MountsDir(pluginDir), globalPath) == Ok("aws/" + zone + "/" + v)
    ensures GetVolumeIDFromGlobalMount(pluginDir, globalPath) == Ok("aws://" + zone + "/" + v)
    ensures GetVolumeIDFromGlobalMountCorrected(pluginDir, globalPath) == Ok("aws://" + zone + "/" + v)
  {
    var rel := "aws/" + zone + "/" + v;
    ZonedRelFacts(zone, v);
    ReadBack(pluginDir, globalPath, rel, "aws://" + zone + "/" + v);
    ReadBackCorrected(pluginDir, globalPath, rel, "aws://" + zone + "/" + v);
  }

  /** Both readings of a path found at a bare "v" below the mounts directory. */
  lemma BareReadBack(pluginDir: string, globalPath: string, v: string)
    requires Plain(v) && Rel(MountsDir(pluginDir), globalPath) == Ok(v)
    ensures GetVolumeIDFromGlobalMount(pluginDir, globalPath) == Ok(v)
    ensures GetVolumeIDFromGlobalMountCorrected(pluginDir, globalPath) == Ok(v)
  {
    assert !Contains(v, "../") && !HasPrefix(v, "aws/") by {
      NoParentStep("a", v);
      NotAwsPrefixed(v);
    }
    ReadBack(pluginDir, globalPath, v, v);
    ReadBackCorrected(pluginDir, globalPath, v, v);
  }

  // ---------------------------------------------------------------------
  // Provisioning

  /** `Provision`: validate the claim's access modes, take the cloud's
      answer, and describe the new persistent volume. */
  function Provision(options: VolumeOptions, gates: Gates, created: Result<CreatedDisk>): (r: Result<PersistentVolume>)
    requires created.Ok? ==> DistinctKeys(created.value.labels)
    ensures r.Ok? <==> (forall m :: m in options.pvc.accessModes ==> m == ReadWriteOnce) && created.Ok?
    ensures r.Ok? ==> var pv := r.value; var disk := created.value;
      && pv.name == options.pvName
      && pv.annotations == map[VolumeDynamicallyCreatedByKey := ProvisionerName]
      && |pv.accessModes| >= 1
      && (forall m :: m in pv.accessModes ==> m == ReadWriteOnce)
      && (|options.pvc.accessModes| > 0 ==> pv.accessModes == options.pvc.accessModes)
      && (|options.pvc.accessModes| == 0 ==> pv.accessModes == AccessModes)
      && ResourceStorage in pv.capacity && pv.capacity[ResourceStorage].milli == 1000 * GiB * disk.sizeGB
      && pv.volumeMode == (if gates.blockVolume then options.pvc.volumeMode else None)
      && pv.ebs.Some? && pv.gcePd.None? && pv.azureFile.None? && pv.azureDisk.None?
      && pv.ebs.value.volumeID == disk.volumeID
      && pv.ebs.value.partition == 0 && !pv.ebs.value.readOnly
      && (pv.ebs.value.fsType == "" <==> ClaimWantsBlock(gates, options.pvc))
      && (!ClaimWantsBlock(gates, options.pvc) && disk.fsType != "" ==> pv.ebs.value.fsType == disk.fsType)
      && (!ClaimWantsBlock(gates, options.pvc) && disk.fsType == "" ==> pv.ebs.value.fsType == DefaultFsType)
      && pv.mountOptions == options.mountOptions
      && pv.reclaimPolicy == options.reclaimPolicy
      && MapsPairs(pv.labels, disk.labels)
      && (pv.nodeAffinity.Some? <==> gates.volumeScheduling)
      && (pv.nodeAffinity.Some? ==> |pv.nodeAffinity.value| == |disk.labels|)
      && (pv.nodeAffinity.Some? ==> forall node :: SatisfiesAll(node, pv.nodeAffinity.value) <==> CarriesLabels(node, disk.labels))
  {
    if !VolumeUtil.AccessModesContainedInAll(AccessModes, options.pvc.accessModes) then
      Err(ErrAccessModes)
    else
      match created
      case Err(e) => Err(e)
      case Ok(disk) =>
        var reqs := SingleValueRequirements(disk.labels);
        SingleValueRequirementsMeaning(disk.labels);
        Ok(PersistentVolume(
          name := options.pvName,
          labels := ToMap(disk.labels),
          annotations := map[VolumeDynamicallyCreatedByKey := ProvisionerName],
          accessModes := ProvisionedAccessModes(AccessModes, options.pvc),
          capacity := GiBCapacity(disk.sizeGB),
          volumeMode := ProvisionedVolumeMode(gates, options.pvc),
          ebs := Some(EbsSource(disk.volumeID, ProvisionedFsType(gates, options.pvc, disk.fsType), 0, false)),
          gcePd := None,
          azureFile := None,
          azureDisk := None,
          mountOptions := options.mountOptions,
          reclaimPolicy := options.reclaimPolicy,
          nodeAffinity := if gates.volumeScheduling then Some(reqs) else None,
          claimNamespace := ""))
  }
}
