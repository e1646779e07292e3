/** Which offline installation package a host gets. */
module Package {
  import opened Api
  import opened Text

  /** What the semver library makes of a version string, if it accepts it. */
  datatype Version = Version(major: nat, minor: nat, patch: nat)

  /** ParseArch: the output of `uname -m` in the two spellings of each architecture. */
  function ParseArch(uname: string): Option<string> {
    if Contains(uname, "aarch64") || Contains(uname, "arm64") then Some("arm64")
    else if Contains(uname, "x86_64") || Contains(uname, "amd64") then Some("amd64")
    else None
  }

  /** getKubernetesVersionStr: only major and minor are kept. */
  function VersionText(v: Version): string {
    Decimal(v.major) + "." + Decimal(v.minor)
  }

  function Directory(nodeType: NodeType): string {
    match nodeType
    case Work => "work"
    case Kubeedge => "kubeedge"
  }

  function FileName(arch: string, version: string): string {
    arch + "-" + version + ".tar.gz"
  }

  const PKG_PATH := "/pkg/nodedeploy/"
  const TMP_PATH := "/tmp/nodedeploy-"

  function SourcePath(nodeType: NodeType, arch: string, version: string): string {
    PKG_PATH + Directory(nodeType) + "/" + FileName(arch, version)
  }

  function DestinationPath(arch: string, version: string): string {
    TMP_PATH + FileName(arch, version)
  }

  /** Each architecture by the names that uname has for it; where both are found, it is arm64. */
  lemma ArchitectureOf(uname: string)
    ensures var arm := StandsIn(uname, "aarch64") || StandsIn(uname, "arm64");
            var amd := StandsIn(uname, "x86_64") || StandsIn(uname, "amd64");
            && (ParseArch(uname) == Some("arm64") <==> arm)
            && (ParseArch(uname) == Some("amd64") <==> amd && !arm)
            && (ParseArch(uname) == None <==> !arm && !amd)
  {
    ContainsMeans(uname, "aarch64");
    ContainsMeans(uname, "arm64");
    ContainsMeans(uname, "x86_64");
    ContainsMeans(uname, "amd64");
    assert "arm64" != "amd64" by {
      assert "arm64"[1] != "amd64"[1];
    }
  }

  /** The paths, written out. */
  lemma PathsAre(arch: string, version: string)
    ensures var file := arch + "-" + version + ".tar.gz";
            && SourcePath(Work, arch, version) == "/pkg/nodedeploy/work/" + file
            && SourcePath(Kubeedge, arch, version) == "/pkg/nodedeploy/kubeedge/" + file
            && DestinationPath(arch, version) == "/tmp/nodedeploy-" + file
  {
    assert "/pkg/nodedeploy/" + "work" + "/" == "/pkg/nodedeploy/work/";
    assert "/pkg/nodedeploy/" + "kubeedge" + "/" == "/pkg/nodedeploy/kubeedge/";
  }

  /** Major and minor can be read back from the rest of the file name. */
  lemma VersionReadsBack(v: Version)
    ensures var parts := Split(VersionText(v) + ".tar.gz", '.');
            |parts| >= 2 && Number(parts[0]) == v.major && Number(parts[1]) == v.minor
  {
    var minor, end := Decimal(v.minor), "tar.gz";
    DecimalReadsBack(v.major);
    DecimalReadsBack(v.minor);
    assert VersionText(v) + ".tar.gz" == Decimal(v.major) + ['.'] + (minor + ['.'] + end);
    SplitAtFirst(Decimal(v.major), minor + ['.'] + end, '.');
    SplitAtFirst(minor, end, '.');
  }

  predicate Architecture(arch: string) {
    arch == "arm64" || arch == "amd64"
  }

  lemma FileNameIsInjective(a1: string, v1: Version, a2: string, v2: Version)
    requires Architecture(a1) && Architecture(a2)
    ensures FileName(a1, VersionText(v1)) == FileName(a2, VersionText(v2))
       <==> a1 == a2 && v1.major == v2.major && v1.minor == v2.minor
  {
    var f1, f2 := FileName(a1, VersionText(v1)), FileName(a2, VersionText(v2));
    VersionReadsBack(v1);
    VersionReadsBack(v2);
    FileNameSplits(a1, VersionText(v1));
    FileNameSplits(a2, VersionText(v2));
  }

  /** An architecture has five letters, so the rest of the file name can be cut off. */
  lemma FileNameSplits(arch: string, version: string)
    requires Architecture(arch)
    ensures var f := FileName(arch, version);
            |f| > 6 && f[..5] == arch && f[6..] == version + ".tar.gz"
  {
    var f := FileName(arch, version);
    assert |arch| == 5;
    assert f == arch + "-" + (version + ".tar.gz");
  }

  lemma CommonPrefix(prefix: string, a: string, b: string)
    ensures prefix + a == prefix + b <==> a == b
  {
    assert (prefix + a)[|prefix|..] == a && (prefix + b)[|prefix|..] == b;
  }

  lemma DirectoryThenFile(t1: NodeType, f1: string, t2: NodeType, f2: string)
    ensures Directory(t1) + "/" + f1 == Directory(t2) + "/" + f2 <==> t1 == t2 && f1 == f2
  {
    var d1, d2 := Directory(t1) + "/" + f1, Directory(t2) + "/" + f2;
    if t1 == t2 {
      CommonPrefix(Directory(t1) + "/", f1, f2);
    } else {
      assert d1[0] == Directory(t1)[0] && d2[0] == Directory(t2)[0];
    }
  }

  lemma Regroup(prefix: string, a: string, b: string, c: string)
    ensures prefix + a + b + c == prefix + (a + b + c)
  {
  }

  lemma UnderPrefix(prefix: string, t1: NodeType, f1: string, t2: NodeType, f2: string)
    ensures prefix + Directory(t1) + "/" + f1 == prefix + Directory(t2) + "/" + f2 <==> t1 == t2 && f1 == f2
  {
    Regroup(prefix, Directory(t1), "/", f1);
    Regroup(prefix, Directory(t2), "/", f2);
    CommonPrefix(prefix, Directory(t1) + "/" + f1, Directory(t2) + "/" + f2);
    DirectoryThenFile(t1, f1, t2, f2);
  }

  /** For any two hosts whose checks succeed, the source packages are the same file exactly when node type,
      normalized architecture, major and minor agree; the destination forgets the node type and nothing else. */
  lemma PackagePathIdentifies(t1: NodeType, u1: string, v1: Version, t2: NodeType, u2: string, v2: Version)
    requires ParseArch(u1).Some? && ParseArch(u2).Some?
    ensures var a1, a2 := ParseArch(u1).value, ParseArch(u2).value;
            var same := a1 == a2 && v1.major == v2.major && v1.minor == v2.minor;
            && (SourcePath(t1, a1, VersionText(v1)) == SourcePath(t2, a2, VersionText(v2)) <==> t1 == t2 && same)
            && (DestinationPath(a1, VersionText(v1)) == DestinationPath(a2, VersionText(v2)) <==> same)
  {
    var a1, a2 := ParseArch(u1).value, ParseArch(u2).value;
    var f1, f2 := FileName(a1, VersionText(v1)), FileName(a2, VersionText(v2));
    FileNameIsInjective(a1, v1, a2, v2);
    CommonPrefix(TMP_PATH, f1, f2);
    UnderPrefix(PKG_PATH, t1, f1, t2, f2);
  }
}
