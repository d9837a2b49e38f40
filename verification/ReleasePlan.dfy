/** The version tool's plan of a release, and what scripts/polis_release.py, `compute`, asks of it. */
module ReleasePlan {
  import Text

  /** An empty `previousTag` stands for none; `lines` are the migrations the release adds. */
  datatype Plan = Plan(schema: string, kind: string, newNumber: bool, version: string, reason: string,
                       previousTag: string, previous: string, candidate: string, lines: seq<string>)

  predicate IsCommit(s: string) {
    |s| == 40 && forall c :: c in s ==> '0' <= c <= '9' || 'a' <= c <= 'f'
  }

  predicate IsDigit(c: char) {
    '0' <= c <= '9'
  }

  /** A decimal number without leading zeros. */
  predicate IsNumber(s: string) {
    s != "" && (forall c :: c in s ==> IsDigit(c)) && (|s| > 1 ==> s[0] != '0')
  }

  predicate IsVersion(s: string) {
    var parts := Text.Split(s, '.');
    |parts| == 3 && IsNumber(parts[0]) && IsNumber(parts[1]) && IsNumber(parts[2])
  }

  predicate IsReleaseTag(name: string) {
    name != "" && name[0] == 'v' && IsVersion(name[1..])
  }

  /** The plan is one that `compute` returns for these commits. */
  predicate Computed(plan: Plan, previous: string, source: string) {
    && IsCommit(previous) && IsCommit(source)
    && plan.schema == "polis.release-plan/1" && plan.kind == "promotion" && plan.newNumber
    && plan.candidate == source && plan.previous == previous
  }

  /** The file names that the tool takes for migrations: `valid_name` in
      queue-rs/src/bin/polis-version/model.rs. */
  predicate IsMigration(name: string) {
    && |name| > 11
    && (forall c :: c in name[..6] ==> IsDigit(c)) && name[6] == '_' && name[|name| - 4..] == ".sql"
    && forall c :: c in name[7..|name| - 4] ==> IsDigit(c) || 'a' <= c <= 'z' || 'A' <= c <= 'Z' || c == '_'
  }

  // ----- What the tests on texts mean

  /** Forty lower-case hexadecimal digits. */
  ghost predicate FullSha(s: string) {
    |s| == 40 && forall i :: 0 <= i < 40 ==> s[i] in Text.HEX
  }

  lemma CommitExactly(s: string)
    ensures IsCommit(s) <==> FullSha(s)
  {
    Text.HexDigits();
    if IsCommit(s) { forall i | 0 <= i < 40 ensures s[i] in Text.HEX { assert s[i] in s; } }
  }

  lemma {:induction false} DecIsNumber(n: nat)
    ensures IsNumber(Text.Dec(n)) && (n > 0 ==> Text.Dec(n)[0] != '0')
  {
    if n >= 10 { DecIsNumber(n / 10); }
  }

  lemma {:induction false} NumberIsDec(s: string) returns (n: nat)
    requires IsNumber(s)
    ensures s == Text.Dec(n)
  {
    var last := |s| - 1;
    assert s[last] in s;
    var d := s[last] as int - '0' as int;
    assert Text.Digit(d) == s[last];
    if last == 0 {
      n := d;
      assert s == [s[0]];
    } else {
      var front := s[..last];
      assert IsNumber(front) by {
        forall c | c in front ensures IsDigit(c) { assert c in s; }
      }
      var m := NumberIsDec(front);
      n := 10 * m + d;
      assert s == front + [s[last]];
    }
  }

  ghost predicate Numbered(s: string, a: nat, b: nat, c: nat) {
    s == Text.Dec(a) + "." + Text.Dec(b) + "." + Text.Dec(c)
  }

  /** A version is three numbers in their canonical decimal form. */
  lemma VersionExactly(s: string)
    ensures IsVersion(s) <==> exists a: nat, b: nat, c: nat :: Numbered(s, a, b, c)
  {
    if IsVersion(s) {
      var p := Text.Split(s, '.');
      Text.JoinSplit(s, '.');
      JoinThree(p);
      var a := NumberIsDec(p[0]);
      var b := NumberIsDec(p[1]);
      var c := NumberIsDec(p[2]);
      assert Numbered(s, a, b, c);
    }
    if a: nat, b: nat, c: nat :| Numbered(s, a, b, c) {
      var p := [Text.Dec(a), Text.Dec(b), Text.Dec(c)];
      JoinThree(p);
      Text.SplitJoin(p, '.');
      DecIsNumber(a);
      DecIsNumber(b);
      DecIsNumber(c);
    }
  }

  /** A release tag is "v" and a version. */
  lemma ReleaseTagExactly(name: string)
    ensures IsReleaseTag(name) <==>
      exists version :: name == "v" + version && exists a: nat, b: nat, c: nat :: Numbered(version, a, b, c)
  {
    hide IsVersion, Numbered;
    if IsReleaseTag(name) {
      assert name == "v" + name[1..];
      VersionExactly(name[1..]);
    }
    forall version | name == "v" + version ensures version == name[1..] {}
    if name != "" { VersionExactly(name[1..]); }
  }

  lemma JoinThree(p: seq<string>)
    requires |p| == 3
    ensures Text.Join(p, ".") == p[0] + "." + p[1] + "." + p[2]
  {
    assert p[1..][1..] == [p[2]] && Text.Join([p[2]], ".") == p[2];
    assert Text.Join(p[1..], ".") == p[1] + "." + p[2];
    assert p[0] + "." + (p[1] + "." + p[2]) == p[0] + "." + p[1] + "." + p[2];
  }
}
