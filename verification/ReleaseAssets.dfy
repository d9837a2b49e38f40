/** The native CLI assets of a release: scripts/publish-polis-cli-release.py, `validate`. */
module ReleaseAssets {
  import opened Wrappers
  import opened Ordering
  import opened ReleasePlan

  /** A directory's entries; None for a link or anything that is not a regular file. */
  type Directory = map<string, Option<Bytes>>

  /** SHA-256 in hexadecimal, text decoding, and the checks on one archive's size, members, manifest
      and binary, as parameters. */
  datatype Inspector = Inspector(
    sha256: Bytes -> string,
    text: Bytes -> string,
    archiveOk: (Bytes, string, string, string, string) -> bool)

  const TARGETS: seq<string> := ["aarch64-apple-darwin", "x86_64-apple-darwin",
                                 "x86_64-unknown-linux-gnu", "aarch64-unknown-linux-gnu"]

  function BaseName(version: string, commit: string, target: string): string
    requires |commit| >= 12
  {
    "polis-" + version + "-" + commit[..12] + "-" + target
  }

  function ArchiveName(version: string, commit: string, target: string): string
    requires |commit| >= 12
  {
    BaseName(version, commit, target) + ".tar.gz"
  }

  function ChecksumName(version: string, commit: string, target: string): string
    requires |commit| >= 12
  {
    ArchiveName(version, commit, target) + ".sha256"
  }

  predicate IsFile(d: Directory, name: string) {
    name in d && d[name].Some?
  }

  /** One target's archive and checksum are regular files, the checksum is the archive's, and the
      archive holds what it should. */
  predicate TargetOk(i: Inspector, d: Directory, version: string, commit: string, target: string)
    requires |commit| >= 12
  {
    var archive, checksum := ArchiveName(version, commit, target), ChecksumName(version, commit, target);
    && IsFile(d, archive) && IsFile(d, checksum)
    && i.text(d[checksum].value) == i.sha256(d[archive].value) + "  " + archive + "\n"
    && i.archiveOk(d[archive].value, BaseName(version, commit, target), version, commit, target)
  }

  function TargetNames(version: string, commit: string, t: nat): (r: seq<string>)
    requires |commit| >= 12 && t < |TARGETS|
    ensures |r| == 2
  {
    [ArchiveName(version, commit, TARGETS[t]), ChecksumName(version, commit, TARGETS[t])]
  }

  /** The names of the first `n` targets' assets, archive and checksum in turn. */
  function AssetNames(version: string, commit: string, n: nat): (r: seq<string>)
    requires |commit| >= 12 && n <= |TARGETS|
    ensures |r| == 2 * n
  {
    if n == 0 then [] else AssetNames(version, commit, n - 1) + TargetNames(version, commit, n - 1)
  }

  function NameSet(version: string, commit: string): set<string>
    requires |commit| >= 12
  {
    set name | name in AssetNames(version, commit, |TARGETS|)
  }

  /** The directory is a complete release: exactly the eight files, each as it should be. */
  predicate Complete(i: Inspector, d: Directory, tag: string, commit: string) {
    && IsCommit(commit) && IsReleaseTag(tag)
    && (forall t :: 0 <= t < |TARGETS| ==> TargetOk(i, d, tag[1..], commit, TARGETS[t]))
    && d.Keys == NameSet(tag[1..], commit)
  }

  method Validate(i: Inspector, d: Directory, tag: string, commit: string) returns (r: Option<seq<string>>)
    ensures r == if Complete(i, d, tag, commit) then Some(AssetNames(tag[1..], commit, |TARGETS|)) else None
  {
    if !IsCommit(commit) || !IsReleaseTag(tag) { return None; }
    var version := tag[1..];
    var expected: set<string> := {};
    var assets: seq<string> := [];
    for t := 0 to |TARGETS|
      invariant assets == AssetNames(version, commit, t)
      invariant expected == set name | name in assets
      invariant forall k :: 0 <= k < t ==> TargetOk(i, d, version, commit, TARGETS[k])
    {
      hide IsReleaseTag, IsCommit, ArchiveName, ChecksumName;
      var archive, checksum := ArchiveName(version, commit, TARGETS[t]), ChecksumName(version, commit, TARGETS[t]);
      expected := expected + {archive, checksum};
      if !TargetOk(i, d, version, commit, TARGETS[t]) { return None; }
      assets := assets + [archive, checksum];
    }
    if d.Keys != expected { return None; }
    return Some(assets);
  }

  // ----- Eight different names

  lemma {:induction false} AssetNamesAre(version: string, commit: string, n: nat, name: string)
    requires |commit| >= 12 && n <= |TARGETS| && name in AssetNames(version, commit, n)
    ensures exists t :: 0 <= t < n && name in TargetNames(version, commit, t)
  {
    hide TargetNames;
    if name !in TargetNames(version, commit, n - 1) { AssetNamesAre(version, commit, n - 1, name); }
  }

  lemma TargetNamesDisjoint(version: string, commit: string, s: nat, t: nat, name: string)
    requires |commit| >= 12 && s < t < |TARGETS| && name in TargetNames(version, commit, s)
    ensures name !in TargetNames(version, commit, t)
  {}

  lemma TargetNamesDistinct(version: string, commit: string, t: nat)
    requires |commit| >= 12 && t < |TARGETS|
    ensures NoDuplicates(TargetNames(version, commit, t))
  {}

  lemma {:induction false} AssetNamesDistinct(version: string, commit: string, n: nat)
    requires |commit| >= 12 && n <= |TARGETS|
    ensures NoDuplicates(AssetNames(version, commit, n))
  {
    if n > 0 {
      hide TargetNames;
      AssetNamesDistinct(version, commit, n - 1);
      TargetNamesDistinct(version, commit, n - 1);
      var rest, names := AssetNames(version, commit, n - 1), TargetNames(version, commit, n - 1);
      forall x | x in rest ensures x !in names {
        AssetNamesAre(version, commit, n - 1, x);
        var t :| 0 <= t < n - 1 && x in TargetNames(version, commit, t);
        TargetNamesDisjoint(version, commit, t, n - 1, x);
      }
      forall x ensures multiset(rest + names)[x] <= 1 {
        assert x in rest <==> x in multiset(rest);
        assert x in names <==> x in multiset(names);
      }
    }
  }

  lemma {:induction false} DistinctCardinality(s: seq<string>)
    requires NoDuplicates(s)
    ensures |set x | x in s| == |s|
  {
    if s != [] {
      NoDuplicatesSplit(s, 0);
      DistinctCardinality(s[1..]);
      assert (set x | x in s) == (set x | x in s[1..]) + {s[0]};
    } else {
      assert (set x | x in s) == {};
    }
  }

  /** A validated directory holds exactly eight files: every archive with its own checksum. */
  lemma ExactlyEight(i: Inspector, d: Directory, tag: string, commit: string)
    requires Complete(i, d, tag, commit)
    ensures |d.Keys| == 8
    ensures forall name :: name in d ==> IsFile(d, name)
  {
    var version := tag[1..];
    AssetNamesDistinct(version, commit, |TARGETS|);
    DistinctCardinality(AssetNames(version, commit, |TARGETS|));
    forall name | name in d ensures IsFile(d, name) {
      AssetNamesAre(version, commit, |TARGETS|, name);
      var t :| 0 <= t < |TARGETS| && name in TargetNames(version, commit, t);
      assert TargetOk(i, d, version, commit, TARGETS[t]);
    }
  }

  // ----- What a complete directory holds

  /** `name` with its two endings is there: the checksum names the archive and its digest, and the archive
      is that of this version, commit and target. */
  ghost predicate HoldsArchive(i: Inspector, d: Directory, name: string, version: string, commit: string,
                               target: string) {
    exists archive, checksum ::
      && name + ".tar.gz" in d && d[name + ".tar.gz"] == Some(archive)
      && name + ".tar.gz.sha256" in d && d[name + ".tar.gz.sha256"] == Some(checksum)
      && i.text(checksum) == i.sha256(archive) + "  " + name + ".tar.gz\n"
      && i.archiveOk(archive, name, version, commit, target)
  }

  /** The files of one target, named by version, the first twelve digits of the commit, and the target. */
  ghost predicate HoldsTarget(i: Inspector, d: Directory, version: string, commit: string, target: string)
    requires |commit| >= 12
  {
    HoldsArchive(i, d, "polis-" + version + "-" + commit[..12] + "-" + target, version, commit, target)
  }

  ghost predicate IsAssetOf(name: string, version: string, commit: string, target: string)
    requires |commit| >= 12
  {
    var base := "polis-" + version + "-" + commit[..12] + "-" + target;
    name == base + ".tar.gz" || name == base + ".tar.gz.sha256"
  }

  lemma TargetHolds(i: Inspector, d: Directory, version: string, commit: string, target: string)
    requires |commit| >= 12
    ensures TargetOk(i, d, version, commit, target) <==> HoldsTarget(i, d, version, commit, target)
  {
    var name := BaseName(version, commit, target);
    assert name + ".tar.gz" + ".sha256" == name + ".tar.gz.sha256";
    assert forall t: string :: t + "  " + (name + ".tar.gz") + "\n" == t + "  " + name + ".tar.gz\n";
  }

  lemma TargetAssets(version: string, commit: string, t: nat, name: string)
    requires |commit| >= 12 && t < |TARGETS|
    ensures name in TargetNames(version, commit, t) <==> IsAssetOf(name, version, commit, TARGETS[t])
  {
    var base := BaseName(version, commit, TARGETS[t]);
    assert base + ".tar.gz" + ".sha256" == base + ".tar.gz.sha256";
  }

  lemma {:induction false} TargetNamesListed(version: string, commit: string, n: nat, t: nat, name: string)
    requires |commit| >= 12 && t < n <= |TARGETS| && name in TargetNames(version, commit, t)
    ensures name in AssetNames(version, commit, n)
  {
    hide TargetNames;
    if t < n - 1 { TargetNamesListed(version, commit, n - 1, t, name); }
  }

  /** A directory is complete exactly when it holds, for each of the four targets, an archive of this
      version, commit and target with its own checksum, and nothing else. */
  lemma CompleteExactly(i: Inspector, d: Directory, tag: string, commit: string)
    ensures Complete(i, d, tag, commit) <==>
      && IsCommit(commit) && IsReleaseTag(tag)
      && (forall t :: 0 <= t < |TARGETS| ==> HoldsTarget(i, d, tag[1..], commit, TARGETS[t]))
      && forall name :: name in d ==> exists t :: 0 <= t < |TARGETS| && IsAssetOf(name, tag[1..], commit, TARGETS[t])
  {
    hide TargetOk, HoldsTarget, IsAssetOf, TargetNames, AssetNames, IsVersion;
    if IsCommit(commit) && IsReleaseTag(tag) {
      var version := tag[1..];
      forall t | 0 <= t < |TARGETS|
        ensures TargetOk(i, d, version, commit, TARGETS[t]) <==> HoldsTarget(i, d, version, commit, TARGETS[t])
      {
        TargetHolds(i, d, version, commit, TARGETS[t]);
      }
      forall name
        ensures name in NameSet(version, commit)
           <==> exists t :: 0 <= t < |TARGETS| && IsAssetOf(name, version, commit, TARGETS[t])
      {
        if name in NameSet(version, commit) {
          AssetNamesAre(version, commit, |TARGETS|, name);
          var t :| 0 <= t < |TARGETS| && name in TargetNames(version, commit, t);
          TargetAssets(version, commit, t, name);
        }
        if t :| 0 <= t < |TARGETS| && IsAssetOf(name, version, commit, TARGETS[t]) {
          TargetAssets(version, commit, t, name);
          TargetNamesListed(version, commit, |TARGETS|, t, name);
        }
      }
      if forall t :: 0 <= t < |TARGETS| ==> TargetOk(i, d, version, commit, TARGETS[t]) {
        AllNamesThere(i, d, version, commit);
      }
    }
  }

  lemma AllNamesThere(i: Inspector, d: Directory, version: string, commit: string)
    requires |commit| >= 12 && forall t :: 0 <= t < |TARGETS| ==> TargetOk(i, d, version, commit, TARGETS[t])
    ensures NameSet(version, commit) <= d.Keys
  {
    forall name | name in NameSet(version, commit) ensures name in d {
      AssetNamesAre(version, commit, |TARGETS|, name);
      var t :| 0 <= t < |TARGETS| && name in TargetNames(version, commit, t);
      assert TargetOk(i, d, version, commit, TARGETS[t]);
    }
  }
}
