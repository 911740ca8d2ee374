/** Which host directory an extra path is mounted from, and where it appears in the container. */
module BindSources {
  import opened Text

  function UpperAscii(s: string): (r: string)
    ensures |r| == |s|
    ensures forall i | 0 <= i < |s| && !('a' <= s[i] <= 'z') :: r[i] == s[i]
    ensures forall i | 0 <= i < |s| && 'a' <= s[i] <= 'z' :: 'A' <= r[i] <= 'Z'
  {
    seq(|s|, i requires 0 <= i < |s| =>
      if 'a' <= s[i] <= 'z' then (s[i] as int - 32) as char else s[i])
  }

  /** `/host/c/Users` is `C:/Users` on Windows; `rest` is what follows `/host/`. */
  function DrivePath(rest: string): string {
    var slash := Find(rest, "/");
    if slash == -1 then UpperAscii(rest) + ":/"
    else UpperAscii(rest[..slash]) + ":/" + rest[slash + 1..]
  }

  /** Host path behind an in-container browse path. */
  function BindSource(path: string, windows: bool): string {
    var stripped := Strip(path);
    if "/host/" <= stripped then
      if windows then DrivePath(stripped[6..]) else "/" + stripped[6..]
    else if stripped == "/host" then "/"
    else stripped
  }

  /** The container side of the mount with this index. */
  function Target(index: nat): string {
    ":/data-" + Decimal(index) + ":ro"
  }

  function VolumeLine(path: string, index: nat, windows: bool): string {
    BindSource(path, windows) + Target(index)
  }

  // ---------- what a mount has to be ----------

  /** `up` is `s` with every letter from `a` to `z` replaced by the capital at the same place of the alphabet. */
  predicate IsUpperOf(up: string, s: string) {
    && |up| == |s|
    && forall i | 0 <= i < |s| ::
         if 'a' <= s[i] <= 'z' then up[i] as int - 'A' as int == s[i] as int - 'a' as int else up[i] == s[i]
  }

  /**
   The host directory of a path, by the form of the stripped path: what stands behind `/host` is a place below
   the host's root, on Windows on a drive; any other path is itself.
   */
  ghost predicate MountsFrom(source: string, path: string, windows: bool) {
    var p := Strip(path);
    && (forall rest | p == "/host/" + rest && !windows :: source == "/" + rest)
    && (forall drive, rest | p == "/host/" + drive + "/" + rest && '/' !in drive && windows ::
          exists up :: IsUpperOf(up, drive) && source == up + ":/" + rest)
    && (forall drive | p == "/host/" + drive && '/' !in drive && windows ::
          exists up :: IsUpperOf(up, drive) && source == up + ":/")
    && (p == "/host" ==> source == "/")
    && (p != "/host" && !("/host/" <= p) ==> source == p)
  }

  /** A read-only mount of that directory at the container path of its index. */
  ghost predicate Mounts(line: string, path: string, index: nat, windows: bool) {
    exists source, digits :: MountsFrom(source, path, windows) && ReadsAs(digits, index)
      && line == source + ":/data-" + digits + ":ro"
  }

  lemma UpperIs(s: string)
    ensures IsUpperOf(UpperAscii(s), s)
  {
  }

  lemma DriveForm(drive: string, rest: string)
    requires '/' !in drive
    ensures DrivePath(drive + "/" + rest) == UpperAscii(drive) + ":/" + rest
    ensures DrivePath(drive) == UpperAscii(drive) + ":/"
  {
    hide UpperAscii, Find;
    FindCharIs(drive, '/', rest);
    FindChar(drive, '/');
    var s := drive + "/" + rest;
    assert s[..|drive|] == drive && s[|drive| + 1..] == rest;
  }

  lemma BehindHost(stripped: string, rest: string)
    requires stripped == "/host/" + rest
    ensures "/host/" <= stripped && stripped[6..] == rest
  {
  }

  lemma SourceMounts(path: string, windows: bool)
    ensures MountsFrom(BindSource(path, windows), path, windows)
  {
    hide Strip, UpperAscii, DrivePath, IsUpperOf;
    var p := Strip(path);
    forall rest | p == "/host/" + rest && !windows
      ensures BindSource(path, windows) == "/" + rest
    {
      BehindHost(p, rest);
    }
    forall drive, rest | p == "/host/" + drive + "/" + rest && '/' !in drive && windows
      ensures exists up :: IsUpperOf(up, drive) && BindSource(path, windows) == up + ":/" + rest
    {
      assert p == "/host/" + (drive + "/" + rest);
      BehindHost(p, drive + "/" + rest);
      DriveForm(drive, rest);
      UpperIs(drive);
    }
    forall drive | p == "/host/" + drive && '/' !in drive && windows
      ensures exists up :: IsUpperOf(up, drive) && BindSource(path, windows) == up + ":/"
    {
      BehindHost(p, drive);
      DriveForm(drive, "");
      UpperIs(drive);
    }
  }

  lemma LineMounts(path: string, index: nat, windows: bool)
    ensures Mounts(VolumeLine(path, index, windows), path, index, windows)
  {
    hide BindSource, MountsFrom, ReadsAs, Decimal;
    SourceMounts(path, windows);
    DecimalReads(index);
    var source, digits := BindSource(path, windows), Decimal(index);
    assert source + Target(index) == source + ":/data-" + digits + ":ro";
  }

  // ---------- the forms leave no choice ----------

  lemma OneUpper(a: string, b: string, s: string)
    requires IsUpperOf(a, s) && IsUpperOf(b, s)
    ensures a == b
  {
    forall i | 0 <= i < |s|
      ensures a[i] == b[i]
    {
      assert 'a' <= s[i] <= 'z' ==> a[i] as int == b[i] as int;
    }
  }

  lemma OneDrive(a: string, b: string, path: string)
    requires MountsFrom(a, path, true) && MountsFrom(b, path, true) && "/host/" <= Strip(path)
    ensures a == b
  {
    hide Strip, IsUpperOf, Find;
    var p := Strip(path);
    var rest := p[6..];
    assert p == "/host/" + rest;
    FindChar(rest, '/');
    var slash := Find(rest, "/");
    if slash == -1 {
      var up :| IsUpperOf(up, rest) && a == up + ":/";
      var up' :| IsUpperOf(up', rest) && b == up' + ":/";
      OneUpper(up, up', rest);
    } else {
      var drive, dir := rest[..slash], rest[slash + 1..];
      assert p == "/host/" + drive + "/" + dir;
      var up :| IsUpperOf(up, drive) && a == up + ":/" + dir;
      var up' :| IsUpperOf(up', drive) && b == up' + ":/" + dir;
      OneUpper(up, up', drive);
    }
  }

  /** A path has one host directory. */
  lemma OneSource(a: string, b: string, path: string, windows: bool)
    requires MountsFrom(a, path, windows) && MountsFrom(b, path, windows)
    ensures a == b
  {
    hide Strip, IsUpperOf;
    var p := Strip(path);
    if "/host/" <= p {
      assert p == "/host/" + p[6..];
      if windows {
        OneDrive(a, b, path);
      }
    }
  }

  /** Two indexes have two container paths. */
  lemma TargetsDiffer(i: nat, j: nat)
    ensures Target(i) == Target(j) ==> i == j
  {
    hide Decimal;
    DecimalReads(i);
    DecimalReads(j);
    assert Target(i)[7..|Target(i)| - 3] == Decimal(i) && Target(j)[7..|Target(j)| - 3] == Decimal(j);
  }
}
