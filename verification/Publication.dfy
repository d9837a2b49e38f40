/** Publishing a release: scripts/polis_release.py, `compute`, `release_source`, `verify_packet`,
    `verify_tag_annotation`, `publication`, and `publish` in scripts/publish-polis-cli-release.py.

    The remote repository is an object whose tags and releases the attempts change, one remote write
    at a time. A write may fail without effect, or take effect with its reply lost; either ends the
    attempt, as does a crash. The version tool and what git shows of a commit are parameters. */
module Publication {
  import opened Wrappers
  import opened ReleaseAssets
  import opened ReleaseNotes
  import opened ReleasePlan

  // ----- The remote

  datatype TagRef =
    | Lightweight(commit: string)
    | Annotated(name: string, ofCommit: bool, target: string, message: string)

  datatype Release = Release(tag: string, name: string, body: string, draft: bool, prerelease: bool,
                             assets: map<string, Bytes>)

  datatype Remote = Remote(head: string, refs: map<string, TagRef>, releases: seq<Release>)

  function Peel(t: TagRef): string {
    match t
    case Lightweight(commit) => commit
    case Annotated(_, _, target, _) => target
  }

  /** The release tags and the commits they name. */
  function ReleaseTags(r: Remote): map<string, string> {
    map n | n in r.refs && IsReleaseTag(n) :: Peel(r.refs[n])
  }

  function ForTag(releases: seq<Release>, tag: string): seq<Release> {
    if releases == [] then []
    else
      var last := releases[|releases| - 1];
      ForTag(releases[..|releases| - 1], tag) + if last.tag == tag then [last] else []
  }

  // ----- One attempt

  datatype Packet = Packet(repository: string, stable: string, tag: string, plan: Plan, notesData: Notes, notes: string)

  /** What git shows of a commit: its parents, its tree, the text of its VERSION file, whether its version
      mirrors are prepared for that version, and whether its updater takes canonical tags. */
  datatype CommitFacts = CommitFacts(parents: seq<string>, tree: string, version: string,
                                     mirrorsPrepared: bool, updaterMerged: bool)

  datatype Tools = Tools(
    plan: (map<string, string>, string, string) -> Option<Plan>,
    facts: string -> CommitFacts,
    inspector: Inspector)

  datatype Fault = Fine | NoEffect | ReplyLost

  /** `uploaded` is the set of assets that arrive when the upload stops early. */
  datatype Faults = Faults(tagObject: Fault, ref: Fault, draft: Fault, uploadStops: bool, uploaded: set<string>,
                           edit: Fault)

  /** What an attempt meets: its checkout, the live notes, whether the budget, the gate and the
      approval pass, its asset directory, and the fate of its remote writes. */
  datatype Attempt = Attempt(checkedOut: string, localTags: map<string, string>, liveNotes: Option<Notes>,
                             approved: bool, assets: Directory, faults: Faults)

  datatype Outcome = AlreadyPublished | Published | Refused

  function Without(m: map<string, string>, k: string): map<string, string> {
    map n | n in m && n != k :: m[n]
  }

  /** The tool sees the release tags without the pending one, whose target is checked first. */
  function Compute(tools: Tools, r: Remote, a: Attempt, previous: string, source: string, tag: string,
                   commit: string): Option<Plan> {
    if ReleaseTags(r) != a.localTags || (tag in a.localTags && a.localTags[tag] != commit) then None
    else if !IsCommit(previous) || !IsCommit(source) then None
    else
      match tools.plan(Without(a.localTags, tag), previous, source)
      case None => None
      case Some(plan) => if Computed(plan, previous, source) then Some(plan) else None
  }

  function ReleaseSource(tools: Tools, r: Remote, a: Attempt, stable: string): Option<(string, Plan)> {
    var facts := tools.facts(stable);
    if !IsCommit(stable) || r.head != stable || a.checkedOut != stable || |facts.parents| != 2
      || tools.facts(facts.parents[1]).tree != facts.tree || !IsVersion(facts.version) then None
    else
      var tag := "v" + facts.version;
      match Compute(tools, r, a, facts.parents[0], facts.parents[1], tag, stable)
      case None => None
      case Some(plan) =>
        if plan.version != facts.version || !facts.mirrorsPrepared || !facts.updaterMerged then None
        else Some((tag, plan))
  }

  /** The packet is what would be prepared now. */
  predicate VerifyPacket(tools: Tools, r: Remote, a: Attempt, p: Packet) {
    && ReleaseSource(tools, r, a, p.stable) == Some((p.tag, p.plan))
    && a.liveNotes == Some(p.notesData)
    && p.notes == RenderNotes(p.repository, p.plan, p.stable, p.notesData)
  }

  function Annotation(p: Packet): TagRef {
    Annotated(p.tag, true, p.stable, TagAnnotation(p.repository, p.plan, p.stable, p.notesData))
  }

  predicate TagOk(r: Remote, p: Packet) {
    p.tag in r.refs && r.refs[p.tag] == Annotation(p)
  }

  function Title(tag: string): string {
    "Polis " + if tag == "" then "" else tag[1..]
  }

  function AsDirectory(assets: map<string, Bytes>): Directory {
    map n | n in assets :: Some(assets[n])
  }

  /** The release is the packet's, published, with exactly the attempt's assets. */
  predicate Matches(tools: Tools, rel: Release, p: Packet, assets: Directory) {
    && !rel.draft && !rel.prerelease && rel.body == p.notes && rel.name == Title(p.tag)
    && Complete(tools.inspector, AsDirectory(rel.assets), p.tag, p.stable)
    && AsDirectory(rel.assets) == assets
  }

  function NewDraft(p: Packet): Release {
    Release(p.tag, Title(p.tag), p.notes, true, false, map[])
  }

  function Files(d: Directory): map<string, Bytes> {
    map n | n in d && d[n].Some? :: d[n].value
  }

  function Arriving(a: Attempt): map<string, Bytes> {
    map n | n in Files(a.assets) && (!a.faults.uploadStops || n in a.faults.uploaded) :: Files(a.assets)[n]
  }

  function WithAssets(releases: seq<Release>, tag: string, assets: map<string, Bytes>): (r: seq<Release>)
    ensures |r| == |releases|
  {
    seq(|releases|, i requires 0 <= i < |releases| =>
      if releases[i].tag == tag then releases[i].(assets := releases[i].assets + assets) else releases[i])
  }

  function WithoutDraft(releases: seq<Release>, tag: string): (r: seq<Release>)
    ensures |r| == |releases|
  {
    seq(|releases|, i requires 0 <= i < |releases| =>
      if releases[i].tag == tag then releases[i].(draft := false) else releases[i])
  }

  /** `publish`: create the draft, upload the assets, publish it. */
  function Publish(tools: Tools, r: Remote, p: Packet, a: Attempt): (Remote, Outcome) {
    if !Complete(tools.inspector, a.assets, p.tag, p.stable) || !Contains(p.notes, "schema: ") then (r, Refused)
    else if p.tag !in r.refs || ForTag(r.releases, p.tag) != [] || a.faults.draft == NoEffect then (r, Refused)
    else
      var drafted := r.(releases := r.releases + [NewDraft(p)]);
      if a.faults.draft != Fine then (drafted, Refused)
      else
        var uploaded := drafted.(releases := WithAssets(drafted.releases, p.tag, Arriving(a)));
        if a.faults.uploadStops || a.faults.edit == NoEffect then (uploaded, Refused)
        else
          var published := uploaded.(releases := WithoutDraft(uploaded.releases, p.tag));
          (published, if a.faults.edit == Fine then Published else Refused)
  }

  /** The tag is created when absent; an existing one must be exactly the packet's. */
  function TagThenPublish(tools: Tools, r: Remote, p: Packet, a: Attempt): (Remote, Outcome) {
    if r.head != p.stable || ReleaseTags(r) != a.localTags then (r, Refused)
    else if p.tag in a.localTags then
      if a.localTags[p.tag] != p.stable || !TagOk(r, p) then (r, Refused) else Publish(tools, r, p, a)
    else if a.faults.tagObject != Fine || p.tag in r.refs || a.faults.ref == NoEffect then (r, Refused)
    else
      var tagged := r.(refs := r.refs[p.tag := Annotation(p)]);
      if a.faults.ref != Fine then (tagged, Refused) else Publish(tools, tagged, p, a)
  }

  function Attempted(tools: Tools, r: Remote, p: Packet, a: Attempt): (Remote, Outcome) {
    var existing := ForTag(r.releases, p.tag);
    if !a.approved || !VerifyPacket(tools, r, a, p) || !Complete(tools.inspector, a.assets, p.tag, p.stable) then
      (r, Refused)
    else if |existing| > 1 then (r, Refused)
    else if |existing| == 1 then
      if ReleaseTags(r) == a.localTags && p.tag in a.localTags && a.localTags[p.tag] == p.stable && TagOk(r, p)
        && Matches(tools, existing[0], p, a.assets)
      then (r, AlreadyPublished)
      else (r, Refused)
    else TagThenPublish(tools, r, p, a)
  }

  // ----- The attempt as the steps it takes

  class Hub {
    var remote: Remote

    constructor (r: Remote)
      ensures remote == r
    {
      remote := r;
    }

    /** `git/refs`: creation fails on a collision. */
    method CreateRef(tag: string, t: TagRef, fault: Fault) returns (ok: bool)
      modifies this
      ensures ok == (fault == Fine && tag !in old(remote.refs))
      ensures remote == if fault != NoEffect && tag !in old(remote.refs)
                        then old(remote).(refs := old(remote.refs)[tag := t]) else old(remote)
    {
      if fault == NoEffect || tag in remote.refs { return false; }
      remote := remote.(refs := remote.refs[tag := t]);
      ok := fault == Fine;
    }

    /** `gh release create --verify-tag --draft`: needs the tag and no release for it. */
    method CreateDraft(rel: Release, fault: Fault) returns (ok: bool)
      modifies this
      ensures var can := rel.tag in old(remote.refs) && ForTag(old(remote.releases), rel.tag) == [];
        ok == (can && fault == Fine) &&
        remote
        == if can && fault != NoEffect then old(remote).(releases := old(remote.releases) + [rel]) else old(remote)
    {
      if rel.tag !in remote.refs || ForTag(remote.releases, rel.tag) != [] || fault == NoEffect { return false; }
      remote := remote.(releases := remote.releases + [rel]);
      ok := fault == Fine;
    }

    /** `gh release upload`: when it stops early, any of the assets may have arrived. */
    method Upload(tag: string, arriving: map<string, Bytes>, stops: bool) returns (ok: bool)
      modifies this
      ensures ok == !stops
      ensures remote == old(remote).(releases := WithAssets(old(remote.releases), tag, arriving))
    {
      remote := remote.(releases := WithAssets(remote.releases, tag, arriving));
      ok := !stops;
    }

    /** `gh release edit --draft=false --latest`. */
    method Edit(tag: string, fault: Fault) returns (ok: bool)
      modifies this
      ensures ok == (fault == Fine)
      ensures remote == if fault == NoEffect then old(remote)
                        else old(remote).(releases := WithoutDraft(old(remote.releases), tag))
    {
      if fault == NoEffect { return false; }
      remote := remote.(releases := WithoutDraft(remote.releases, tag));
      ok := fault == Fine;
    }

    method PublishRelease(tools: Tools, p: Packet, a: Attempt) returns (o: Outcome)
      modifies this
      ensures (remote, o) == Publish(tools, old(remote), p, a)
    {
      var assets := Validate(tools.inspector, a.assets, p.tag, p.stable);
      hide Complete;
      if assets.None? || !Contains(p.notes, "schema: ") { return Refused; }
      var ok := CreateDraft(NewDraft(p), a.faults.draft);
      if !ok { return Refused; }
      ok := Upload(p.tag, Arriving(a), a.faults.uploadStops);
      if !ok { return Refused; }
      ok := Edit(p.tag, a.faults.edit);
      o := if ok then Published else Refused;
    }

    method Publication(tools: Tools, p: Packet, a: Attempt) returns (o: Outcome)
      modifies this
      ensures (remote, o) == Attempted(tools, old(remote), p, a)
    {
      if !a.approved || !VerifyPacket(tools, remote, a, p) { return Refused; }
      var assets := Validate(tools.inspector, a.assets, p.tag, p.stable);
      hide Complete, VerifyPacket, Publish, IsReleaseTag;
      if assets.None? { return Refused; }
      var existing := ForTag(remote.releases, p.tag);
      if |existing| > 1 { return Refused; }
      var inventory := ReleaseTags(remote);
      if |existing| == 1 {
        if inventory != a.localTags || p.tag !in inventory || inventory[p.tag] != p.stable || !TagOk(remote, p)
          || !Matches(tools, existing[0], p, a.assets) { return Refused; }
        return AlreadyPublished;
      }
      if remote.head != p.stable || inventory != a.localTags { return Refused; }
      if p.tag !in inventory {
        if a.faults.tagObject != Fine { return Refused; }
        var ok := CreateRef(p.tag, Annotation(p), a.faults.ref);
        if !ok { return Refused; }
      } else if inventory[p.tag] != p.stable || !TagOk(remote, p) {
        return Refused;
      }
      o := PublishRelease(tools, p, a);
    }
  }

  // ----- What one attempt can do

  lemma ForTagAppend(releases: seq<Release>, rel: Release, tag: string)
    ensures ForTag(releases + [rel], tag) == ForTag(releases, tag) + if rel.tag == tag then [rel] else []
  {}

  lemma {:induction false} ForTagWithAssets(releases: seq<Release>, tag: string, assets: map<string, Bytes>, t: string)
    ensures ForTag(WithAssets(releases, tag, assets), t)
         == if t == tag then WithAssets(ForTag(releases, t), tag, assets) else ForTag(releases, t)
  {
    if releases != [] {
      var last := |releases| - 1;
      ForTagWithAssets(releases[..last], tag, assets, t);
      assert WithAssets(releases, tag, assets)[..last] == WithAssets(releases[..last], tag, assets);
    }
  }

  lemma {:induction false} ForTagWithoutDraft(releases: seq<Release>, tag: string, t: string)
    ensures ForTag(WithoutDraft(releases, tag), t)
         == if t == tag then WithoutDraft(ForTag(releases, t), tag) else ForTag(releases, t)
  {
    if releases != [] {
      var last := |releases| - 1;
      ForTagWithoutDraft(releases[..last], tag, t);
      assert WithoutDraft(releases, tag)[..last] == WithoutDraft(releases[..last], tag);
    }
  }

  /** The packet's release as far as an attempt may bring it: a draft, or published with a complete
      set of assets. */
  ghost predicate Ours(tools: Tools, rel: Release, p: Packet) {
    && rel.tag == p.tag && rel.name == Title(p.tag) && rel.body == p.notes && !rel.prerelease
    && (rel.draft || Complete(tools.inspector, AsDirectory(rel.assets), p.tag, p.stable))
  }

  lemma CompleteFiles(tools: Tools, d: Directory, p: Packet)
    requires Complete(tools.inspector, d, p.tag, p.stable)
    ensures AsDirectory(Files(d)) == d
  {
    ExactlyEight(tools.inspector, d, p.tag, p.stable);
    hide Complete;
  }

  /** The releases of one tag after each of the three writes. */
  lemma PublishStages(r: Remote, p: Packet, assets: map<string, Bytes>, t: string)
    requires ForTag(r.releases, p.tag) == []
    ensures var drafted := r.releases + [NewDraft(p)];
      var uploaded := WithAssets(drafted, p.tag, assets);
      var published := WithoutDraft(uploaded, p.tag);
      if t == p.tag then
        && ForTag(drafted, t) == [NewDraft(p)]
        && ForTag(uploaded, t) == [NewDraft(p).(assets := assets)]
        && ForTag(published, t) == [NewDraft(p).(assets := assets, draft := false)]
      else ForTag(drafted, t) == ForTag(uploaded, t) == ForTag(published, t) == ForTag(r.releases, t)
  {
    var drafted := r.releases + [NewDraft(p)];
    ForTagAppend(r.releases, NewDraft(p), t);
    ForTagWithAssets(drafted, p.tag, assets, t);
    ForTagWithoutDraft(WithAssets(drafted, p.tag, assets), p.tag, t);
    assert map[] + assets == assets;
  }

  lemma PublishElsewhere(tools: Tools, r: Remote, p: Packet, a: Attempt, t: string)
    requires ForTag(r.releases, p.tag) == [] && t != p.tag
    ensures ForTag(Publish(tools, r, p, a).0.releases, t) == ForTag(r.releases, t)
  {
    PublishStages(r, p, Arriving(a), t);
    hide Complete, Contains;
  }

  lemma PublishEffect(tools: Tools, r: Remote, p: Packet, a: Attempt)
    requires ForTag(r.releases, p.tag) == []
    ensures var (r', o) := Publish(tools, r, p, a); var mine := ForTag(r'.releases, p.tag);
      && r'.refs == r.refs && r'.head == r.head
      && (mine == [] ==> r' == r && o == Refused)
      && (mine != [] ==> |mine| == 1 && Ours(tools, mine[0], p) && p.tag in r.refs)
      && (mine != [] && !mine[0].draft ==> AsDirectory(mine[0].assets) == a.assets)
      && (o == Published ==> mine != [] && !mine[0].draft)
  {
    hide Complete, Contains, ForTag, WithAssets, WithoutDraft, AsDirectory, Files;
    if Complete(tools.inspector, a.assets, p.tag, p.stable) { CompleteFiles(tools, a.assets, p); }
    PublishStages(r, p, Arriving(a), p.tag);
    AllArrive(a);
  }

  lemma AllArrive(a: Attempt)
    ensures !a.faults.uploadStops ==> Arriving(a) == Files(a.assets)
  {
    hide Files;
  }

  /** Every remote effect of an attempt: at most the packet's own tag is created, no tag changes,
      an existing release is untouched, and a new one is ours. */
  lemma AttemptEffect(tools: Tools, r: Remote, p: Packet, a: Attempt)
    ensures var (r', o) := Attempted(tools, r, p, a); var mine := ForTag(r'.releases, p.tag);
      && r'.head == r.head
      && (r'.refs == r.refs || (p.tag !in r.refs && r'.refs == r.refs[p.tag := Annotation(p)]))
      && (ForTag(r.releases, p.tag) != [] ==> r' == r)
      && (ForTag(r.releases, p.tag) == [] && mine != [] ==> |mine| == 1 && Ours(tools, mine[0], p) && TagOk(r', p))
      && (o == Published ==> mine != [] && !mine[0].draft && AsDirectory(mine[0].assets) == a.assets)
  {
    hide Publish, VerifyPacket, Complete, Ours, Matches, Annotation, IsReleaseTag, ForTag, ReleaseTags, AsDirectory;
    if ForTag(r.releases, p.tag) == [] {
      PublishEffect(tools, r, p, a);
      PublishEffect(tools, r.(refs := r.refs[p.tag := Annotation(p)]), p, a);
    }
  }

  lemma OtherReleasesUntouched(tools: Tools, r: Remote, p: Packet, a: Attempt, t: string)
    requires t != p.tag
    ensures ForTag(Attempted(tools, r, p, a).0.releases, t) == ForTag(r.releases, t)
  {
    hide Publish, VerifyPacket, Complete, Ours, Matches, Annotation, IsReleaseTag, ForTag, ReleaseTags;
    if ForTag(r.releases, p.tag) == [] {
      PublishElsewhere(tools, r, p, a, t);
      PublishElsewhere(tools, r.(refs := r.refs[p.tag := Annotation(p)]), p, a, t);
    }
  }

  // ----- Runs of attempts

  /** Attempts come one at a time; in between, anything may happen elsewhere. */
  datatype Event = Try(attempt: Attempt) | Elsewhere

  ghost predicate Undisturbed(r: Remote, s: Remote, tag: string) {
    && (tag in r.refs <==> tag in s.refs) && (tag in r.refs ==> s.refs[tag] == r.refs[tag])
    && ForTag(s.releases, tag) == ForTag(r.releases, tag)
  }

  ghost predicate Step(tools: Tools, p: Packet, r: Remote, e: Event, s: Remote) {
    match e
    case Try(a) => s == Attempted(tools, r, p, a).0
    case Elsewhere => Undisturbed(r, s, p.tag)
  }

  ghost predicate IsRun(tools: Tools, p: Packet, run: seq<Remote>, events: seq<Event>) {
    && |run| == |events| + 1
    && ForTag(run[0].releases, p.tag) == []
    && forall i :: 0 <= i < |events| ==> Step(tools, p, run[i], events[i], run[i + 1])
  }

  ghost predicate Safe(tools: Tools, p: Packet, r: Remote) {
    var mine := ForTag(r.releases, p.tag);
    mine != [] ==> |mine| == 1 && Ours(tools, mine[0], p) && TagOk(r, p)
  }

  /** Whatever crashes, faults and retries a run holds: at most one release exists for the tag, it has
      the packet's title and notes over exactly the packet's annotated tag, and if it is published
      it holds a complete, validated set of assets. */
  lemma {:induction false} EveryReleaseIsOurs(tools: Tools, p: Packet, run: seq<Remote>, events: seq<Event>, i: nat)
    requires IsRun(tools, p, run, events) && i < |run|
    ensures Safe(tools, p, run[i])
  {
    hide Attempted, Ours, Annotation, ForTag;
    if i > 0 {
      EveryReleaseIsOurs(tools, p, run, events, i - 1);
      assert Step(tools, p, run[i - 1], events[i - 1], run[i]);
      if events[i - 1].Try? { AttemptEffect(tools, run[i - 1], p, events[i - 1].attempt); }
    }
  }

  /** A tag, once there, keeps its target and annotation; a release, once there, is never rewritten. */
  lemma {:induction false} NothingIsOverwritten(tools: Tools, p: Packet, run: seq<Remote>, events: seq<Event>, i: nat,
                                                j: nat)
    requires IsRun(tools, p, run, events) && i <= j < |run|
    ensures p.tag in run[i].refs ==> p.tag in run[j].refs && run[j].refs[p.tag] == run[i].refs[p.tag]
    ensures ForTag(run[i].releases, p.tag) != [] ==> ForTag(run[j].releases, p.tag) == ForTag(run[i].releases, p.tag)
  {
    hide Attempted, Ours, Annotation, ForTag;
    if i < j {
      NothingIsOverwritten(tools, p, run, events, i, j - 1);
      assert Step(tools, p, run[j - 1], events[j - 1], run[j]);
      if events[j - 1].Try? { AttemptEffect(tools, run[j - 1], p, events[j - 1].attempt); }
    }
  }

  // ----- When a packet verifies

  /** The release tags other than this one, with the commits they name. */
  function OtherTags(r: Remote, tag: string): map<string, string> {
    map n | n in r.refs && IsReleaseTag(n) && n != tag :: Peel(r.refs[n])
  }

  /** The stable head is a merge of `first` and `second` with the tree of `second`, and the tag is that of
      its version. */
  ghost predicate Merged(tools: Tools, r: Remote, a: Attempt, p: Packet, first: string, second: string) {
    var stable := tools.facts(p.stable);
    && FullSha(p.stable) && r.head == p.stable && a.checkedOut == p.stable
    && stable.parents == [first, second] && stable.tree == tools.facts(second).tree
    && (exists x: nat, y: nat, z: nat :: Numbered(stable.version, x, y, z)) && p.tag == "v" + stable.version
    && stable.mirrorsPrepared && stable.updaterMerged
  }

  /** The tool, shown the other release tags, plans this promotion from `first` to `second`. */
  ghost predicate Planned(tools: Tools, r: Remote, a: Attempt, p: Packet, first: string, second: string) {
    && FullSha(first) && FullSha(second)
    && a.localTags == ReleaseTags(r) && (p.tag in r.refs ==> Peel(r.refs[p.tag]) == p.stable)
    && tools.plan(OtherTags(r, p.tag), first, second) == Some(p.plan)
    && p.plan.schema == "polis.release-plan/1" && p.plan.kind == "promotion" && p.plan.newNumber
    && p.plan.previous == first && p.plan.candidate == second && p.plan.version == tools.facts(p.stable).version
  }

  /** All that git, the tool and the hosting service show is as the packet says. */
  ghost predicate Promotes(tools: Tools, r: Remote, a: Attempt, p: Packet, first: string, second: string) {
    && Merged(tools, r, a, p, first, second) && Planned(tools, r, a, p, first, second)
    && a.liveNotes == Some(p.notesData) && p.notes == RenderNotes(p.repository, p.plan, p.stable, p.notesData)
  }

  lemma ToolSees(r: Remote, tag: string)
    ensures Without(ReleaseTags(r), tag) == OtherTags(r, tag)
    ensures IsReleaseTag(tag) ==> (tag in ReleaseTags(r) <==> tag in r.refs)
    ensures tag in ReleaseTags(r) ==> ReleaseTags(r)[tag] == Peel(r.refs[tag])
  {
    hide IsReleaseTag;
  }

  lemma PromotionVerifies(tools: Tools, r: Remote, a: Attempt, p: Packet, first: string, second: string)
    requires Promotes(tools, r, a, p, first, second)
    ensures VerifyPacket(tools, r, a, p)
  {
    hide ReleaseTags, OtherTags, Without, RenderNotes, IsReleaseTag, IsVersion, IsCommit, FullSha, Numbered;
    CommitExactly(p.stable);
    CommitExactly(first);
    CommitExactly(second);
    VersionExactly(tools.facts(p.stable).version);
    ToolSees(r, p.tag);
    VersionTag(p.tag, tools.facts(p.stable).version);
  }

  lemma VerifiedPromotes(tools: Tools, r: Remote, a: Attempt, p: Packet) returns (first: string, second: string)
    requires VerifyPacket(tools, r, a, p)
    ensures Promotes(tools, r, a, p, first, second)
  {
    hide ReleaseTags, OtherTags, Without, RenderNotes, IsReleaseTag, IsVersion, IsCommit, FullSha, Numbered;
    ToolSees(r, p.tag);
    var stable := tools.facts(p.stable);
    VersionTag("v" + stable.version, stable.version);
    first, second := stable.parents[0], stable.parents[1];
    CommitExactly(p.stable);
    CommitExactly(first);
    CommitExactly(second);
    VersionExactly(stable.version);
    assert stable.parents == [first, second];
  }

  /** A packet verifies exactly when the stable head is the promotion it describes. */
  lemma VerifiedExactly(tools: Tools, r: Remote, a: Attempt, p: Packet)
    ensures VerifyPacket(tools, r, a, p) <==> exists first, second :: Promotes(tools, r, a, p, first, second)
  {
    hide VerifyPacket, Promotes;
    if VerifyPacket(tools, r, a, p) { var first, second := VerifiedPromotes(tools, r, a, p); }
    if first, second :| Promotes(tools, r, a, p, first, second) { PromotionVerifies(tools, r, a, p, first, second); }
  }

  lemma VersionTag(tag: string, version: string)
    requires tag == "v" + version && IsVersion(version)
    ensures IsReleaseTag(tag)
  {
    hide IsVersion;
    assert tag[1..] == version;
  }

  /** Whatever an attempt writes or finds finished, it was approved, its assets are complete, and the stable
      head is the promotion its packet describes: a merge whose second parent's tree it has, planned by the
      tool from the first parent to the second. */
  lemma PublishedIsPromotion(tools: Tools, r: Remote, p: Packet, a: Attempt) returns (first: string, second: string)
    requires Attempted(tools, r, p, a) != (r, Refused)
    ensures a.approved && Complete(tools.inspector, a.assets, p.tag, p.stable)
    ensures Promotes(tools, r, a, p, first, second)
  {
    VerifiedExactly(tools, r, a, p);
    hide VerifyPacket, Complete, TagThenPublish, ForTag, Matches, Promotes;
    first, second :| Promotes(tools, r, a, p, first, second);
  }

  // ----- What an attempt leaves

  /** What a release looks like to its readers. */
  ghost predicate Presents(tools: Tools, rel: Release, p: Packet, assets: Directory) {
    && rel.tag == p.tag && rel.name == "Polis " + tools.facts(p.stable).version && rel.body == p.notes
    && !rel.draft && !rel.prerelease && AsDirectory(rel.assets) == assets
  }

  lemma PacketTitle(tools: Tools, r: Remote, a: Attempt, p: Packet, first: string, second: string)
    requires Promotes(tools, r, a, p, first, second)
    ensures Title(p.tag) == "Polis " + tools.facts(p.stable).version
  {
    assert p.tag[1..] == tools.facts(p.stable).version;
  }

  lemma {:induction false} ForTagTagged(releases: seq<Release>, tag: string)
    ensures forall rel :: rel in ForTag(releases, tag) ==> rel.tag == tag
  {
    if releases != [] { ForTagTagged(releases[..|releases| - 1], tag); }
  }

  lemma NotAlready(tools: Tools, r: Remote, p: Packet, a: Attempt)
    ensures TagThenPublish(tools, r, p, a).1 != AlreadyPublished
  {
    hide Complete, Contains, ForTag, TagOk;
  }

  /** A release is reported as already published exactly when it is the one of its tag, stands over the
      packet's annotated tag, and is the promotion's, with the attempt's complete assets. */
  lemma AlreadyPublishedExactly(tools: Tools, r: Remote, p: Packet, a: Attempt)
    ensures Attempted(tools, r, p, a).1 == AlreadyPublished <==>
      && a.approved && Complete(tools.inspector, a.assets, p.tag, p.stable)
      && (exists first, second :: Promotes(tools, r, a, p, first, second))
      && TagOk(r, p) && |ForTag(r.releases, p.tag)| == 1
      && Presents(tools, ForTag(r.releases, p.tag)[0], p, a.assets)
  {
    hide Complete, ForTag, Promotes, TagThenPublish, VerifyPacket, IsReleaseTag;
    VerifiedExactly(tools, r, a, p);
    ForTagTagged(r.releases, p.tag);
    NotAlready(tools, r, p, a);
    if VerifyPacket(tools, r, a, p) {
      VerifiedTag(tools, r, a, p);
      var first, second :| Promotes(tools, r, a, p, first, second);
      PacketTitle(tools, r, a, p, first, second);
    }
    hide Title, TagOk, AsDirectory, ReleaseTags, Contains;
  }

  /** The packet's draft with these assets. */
  ghost predicate DraftWith(tools: Tools, mine: seq<Release>, p: Packet, assets: map<string, Bytes>) {
    mine == [Release(p.tag, "Polis " + tools.facts(p.stable).version, p.notes, true, false, assets)]
  }

  /** The files of the attempt's assets, all of them or those that arrived before the upload stopped. */
  ghost function Sent(a: Attempt): map<string, Bytes> {
    map n | n in a.assets && a.assets[n].Some? && (a.faults.uploadStops ==> n in a.faults.uploaded) :: a.assets[n].value
  }

  /** Publishing leaves its release where the first of its writes that fails leaves it. */
  ghost predicate StopsAtFault(tools: Tools, mine: seq<Release>, o: Outcome, p: Packet, a: Attempt) {
    var f := a.faults;
    && (o == Published <==> f.draft == Fine && !f.uploadStops && f.edit == Fine)
    && (o == Published || o == Refused)
    && if f.draft == NoEffect then mine == []
       else if f.draft == ReplyLost then DraftWith(tools, mine, p, map[])
       else if f.uploadStops || f.edit == NoEffect then DraftWith(tools, mine, p, Sent(a))
       else |mine| == 1 && Presents(tools, mine[0], p, a.assets)
  }

  lemma PublishStops(tools: Tools, r: Remote, p: Packet, a: Attempt)
    requires Complete(tools.inspector, a.assets, p.tag, p.stable) && Contains(p.notes, "schema: ")
    requires Title(p.tag) == "Polis " + tools.facts(p.stable).version
    requires p.tag in r.refs && ForTag(r.releases, p.tag) == []
    ensures var (s, o) := Publish(tools, r, p, a); StopsAtFault(tools, ForTag(s.releases, p.tag), o, p, a)
  {
    CompleteFiles(tools, a.assets, p);
    PublishStages(r, p, Arriving(a), p.tag);
    assert Arriving(a) == Sent(a);
    AllArrive(a);
    hide Complete, Contains, ForTag, WithAssets, WithoutDraft, AsDirectory, Files, Arriving, Sent, Title;
  }

  /** Where no release is yet, an attempt at a promotion creates the tag unless it is there, then publishes;
      the first write that fails, or whose reply is lost, is its last, and decides what it leaves. */
  lemma AttemptStops(tools: Tools, r: Remote, p: Packet, a: Attempt, first: string, second: string)
    requires Promotes(tools, r, a, p, first, second)
    requires a.approved && Complete(tools.inspector, a.assets, p.tag, p.stable)
    requires ForTag(r.releases, p.tag) == [] && (p.tag in r.refs ==> TagOk(r, p))
    ensures var (s, o) := Attempted(tools, r, p, a); var f, mine := a.faults, ForTag(s.releases, p.tag);
      if p.tag !in r.refs && (f.tagObject != Fine || f.ref == NoEffect) then (s, o) == (r, Refused)
      else
        && TagOk(s, p)
        && if p.tag !in r.refs && f.ref == ReplyLost then mine == [] && o == Refused
           else StopsAtFault(tools, mine, o, p, a)
  {
    VerifiedExactly(tools, r, a, p);
    VerifiedTag(tools, r, a, p);
    PacketTitle(tools, r, a, p, first, second);
    hide Promotes, VerifyPacket, Complete, Contains, Publish, ForTag, StopsAtFault, Title, IsReleaseTag, Annotation;
    var tagged := r.(refs := r.refs[p.tag := Annotation(p)]);
    if p.tag in r.refs {
      PublishStops(tools, r, p, a);
      PublishKeepsTags(tools, r, p, a);
    } else {
      PublishStops(tools, tagged, p, a);
      PublishKeepsTags(tools, tagged, p, a);
    }
  }

  lemma PublishKeepsTags(tools: Tools, r: Remote, p: Packet, a: Attempt)
    ensures Publish(tools, r, p, a).0.refs == r.refs
  {
    hide Complete, Contains, ForTag, WithAssets, WithoutDraft;
  }

  /** A leftover draft is refused, without a write, by every later attempt. */
  lemma DraftIsRefused(tools: Tools, r: Remote, p: Packet, a: Attempt)
    requires exists rel :: rel in ForTag(r.releases, p.tag) && rel.draft
    ensures Attempted(tools, r, p, a) == (r, Refused)
  {
    hide VerifyPacket, Complete;
  }

  /** On a finished release an attempt writes nothing, and reports it as already published exactly when
      its checks pass and its assets are the published ones. */
  lemma FinishedIsLeftAlone(tools: Tools, r: Remote, p: Packet, a: Attempt)
    requires Safe(tools, p, r) && ForTag(r.releases, p.tag) != [] && !ForTag(r.releases, p.tag)[0].draft
    ensures Attempted(tools, r, p, a).0 == r && Attempted(tools, r, p, a).1 != Published
    ensures Attempted(tools, r, p, a).1 == AlreadyPublished
       <==> a.approved && VerifyPacket(tools, r, a, p) && AsDirectory(ForTag(r.releases, p.tag)[0].assets) == a.assets
  {
    if VerifyPacket(tools, r, a, p) { VerifiedTag(tools, r, a, p); }
    hide VerifyPacket, Complete;
  }

  /** A verified packet's tag is a release tag, and where it exists it names the packet's commit. */
  lemma VerifiedTag(tools: Tools, r: Remote, a: Attempt, p: Packet)
    requires VerifyPacket(tools, r, a, p)
    ensures IsReleaseTag(p.tag) && ReleaseTags(r) == a.localTags
    ensures p.tag in r.refs ==>
      p.tag in a.localTags && a.localTags[p.tag] == p.stable && Peel(r.refs[p.tag]) == p.stable
    ensures r.head == p.stable && Contains(p.notes, "schema: ")
  {
    NotesStateSchema(p.repository, p.plan, p.stable, p.notesData);
    hide Contains, IsVersion, RenderNotes;
    assert p.tag[1..] == tools.facts(p.stable).version;
  }

  /** A release tag at another commit is refused without a write. */
  lemma MovedTagIsRefused(tools: Tools, r: Remote, p: Packet, a: Attempt)
    requires p.tag in r.refs && Peel(r.refs[p.tag]) != p.stable
    ensures Attempted(tools, r, p, a) == (r, Refused)
  {
    if VerifyPacket(tools, r, a, p) { VerifiedTag(tools, r, a, p); }
    hide VerifyPacket, Complete;
  }

  // ----- Retrying after the tag

  /** The other tags name the same commits. */
  ghost predicate SameOtherTags(r: Remote, s: Remote, tag: string) {
    forall n :: n != tag ==> (n in r.refs <==> n in s.refs) && (n in r.refs ==> Peel(s.refs[n]) == Peel(r.refs[n]))
  }

  /** The tool's view leaves the pending tag out, so it is the same before and after the tag exists:
      a packet that verified before its own tag was created verifies again afterwards. */
  lemma RetryVerifies(tools: Tools, r: Remote, a: Attempt, p: Packet, s: Remote, b: Attempt)
    requires VerifyPacket(tools, r, a, p)
    requires s.head == r.head && b.checkedOut == a.checkedOut && b.liveNotes == a.liveNotes
    requires (p.tag in s.refs ==> Peel(s.refs[p.tag]) == p.stable) && b.localTags == ReleaseTags(s)
    requires SameOtherTags(r, s, p.tag)
    ensures VerifyPacket(tools, s, b, p)
  {
    VerifiedTag(tools, r, a, p);
    SameView(r, s, p);
    hide IsReleaseTag, IsVersion, RenderNotes, Contains, ReleaseTags, Without;
  }

  lemma SameView(r: Remote, s: Remote, p: Packet)
    requires IsReleaseTag(p.tag) && SameOtherTags(r, s, p.tag)
    ensures Without(ReleaseTags(s), p.tag) == Without(ReleaseTags(r), p.tag)
    ensures p.tag in ReleaseTags(s) <==> p.tag in s.refs
  {
    hide IsReleaseTag;
  }

  /** The attempt meets no fault, and its checkout has the remote's tags. */
  ghost predicate Smooth(tools: Tools, r: Remote, p: Packet, b: Attempt) {
    && b.approved && b.localTags == ReleaseTags(r) && Complete(tools.inspector, b.assets, p.tag, p.stable)
    && b.faults.tagObject == Fine && b.faults.ref == Fine && b.faults.draft == Fine && !b.faults.uploadStops
    && b.faults.edit == Fine
  }

  lemma VerifiedAttemptPublishes(tools: Tools, r: Remote, p: Packet, b: Attempt)
    requires VerifyPacket(tools, r, b, p) && Smooth(tools, r, p, b)
    requires ForTag(r.releases, p.tag) == [] && (p.tag in r.refs ==> TagOk(r, p))
    ensures var (s, o) := Attempted(tools, r, p, b); var mine := ForTag(s.releases, p.tag);
      o == Published && |mine| == 1 && Ours(tools, mine[0], p) && TagOk(s, p) && Matches(tools, mine[0], p, b.assets)
  {
    VerifiedTag(tools, r, b, p);
    AttemptEffect(tools, r, p, b);
    hide VerifyPacket, Complete, Contains;
  }

  /** With no release there and the tag absent or ours, an attempt without faults publishes the promotion
      that git and the tool show, under its version and with exactly the attempt's assets. */
  lemma SmoothAttemptPublishes(tools: Tools, r: Remote, p: Packet, b: Attempt, first: string, second: string)
    requires Promotes(tools, r, b, p, first, second) && Smooth(tools, r, p, b)
    requires ForTag(r.releases, p.tag) == [] && (p.tag in r.refs ==> TagOk(r, p))
    ensures var (s, o) := Attempted(tools, r, p, b); var mine := ForTag(s.releases, p.tag);
      o == Published && |mine| == 1 && Presents(tools, mine[0], p, b.assets) && TagOk(s, p)
  {
    VerifiedExactly(tools, r, b, p);
    hide Promotes, VerifyPacket, Attempted, TagOk, Smooth, Complete, Title, ForTag, Matches, Ours, Presents;
    PacketTitle(tools, r, b, p, first, second);
    VerifiedAttemptPublishes(tools, r, p, b);
    MatchesPresents(tools, ForTag(Attempted(tools, r, p, b).0.releases, p.tag)[0], p, b.assets);
  }

  /** A crash right after the tag was created is completed by a retry: branches, other tags and the
      live notes being the same, an attempt without faults publishes the release. */
  lemma RetryCompletes(tools: Tools, r: Remote, p: Packet, a: Attempt, b: Attempt)
    requires p.tag !in r.refs && ForTag(r.releases, p.tag) == []
    requires var s := Attempted(tools, r, p, a).0; p.tag in s.refs && ForTag(s.releases, p.tag) == []
    requires var s := Attempted(tools, r, p, a).0; Smooth(tools, s, p, b)
    requires b.checkedOut == a.checkedOut && b.liveNotes == a.liveNotes
    ensures var s := Attempted(tools, r, p, a).0; var (s', o) := Attempted(tools, s, p, b);
      var mine := ForTag(s'.releases, p.tag);
      o == Published && |mine| == 1 && TagOk(s', p) && Presents(tools, mine[0], p, b.assets)
  {
    hide Promotes, Attempted, ForTag, Complete, Ours, Matches, ReleaseTags, Presents;
    var s := Attempted(tools, r, p, a).0;
    var first, second := PublishedIsPromotion(tools, r, p, a);
    AttemptEffect(tools, r, p, a);
    assert [r, s][0] == r && [r, s][1] == s;
    EveryRunCanFinish(tools, p, [r, s], [Try(a)], a, b, first, second);
  }

  // ----- Completion over runs

  lemma {:induction false} TagStaysOurs(tools: Tools, p: Packet, run: seq<Remote>, events: seq<Event>, i: nat)
    requires IsRun(tools, p, run, events) && i < |run| && (p.tag in run[0].refs ==> TagOk(run[0], p))
    ensures p.tag in run[i].refs ==> TagOk(run[i], p)
  {
    hide Attempted, Annotation, ForTag, Ours;
    if i > 0 {
      TagStaysOurs(tools, p, run, events, i - 1);
      assert Step(tools, p, run[i - 1], events[i - 1], run[i]);
      if events[i - 1].Try? { AttemptEffect(tools, run[i - 1], p, events[i - 1].attempt); }
    }
  }

  lemma MatchesPresents(tools: Tools, rel: Release, p: Packet, assets: Directory)
    requires Matches(tools, rel, p, assets) && Ours(tools, rel, p)
    requires Title(p.tag) == "Polis " + tools.facts(p.stable).version
    ensures Presents(tools, rel, p, assets)
  {}

  /** Wherever a run has got to without a release, through whatever faults and crashes, one attempt
      without faults publishes, as long as the stable head was the promotion of the packet when the run
      began, and branches, other tags and live notes are still the same. */
  lemma EveryRunCanFinish(tools: Tools, p: Packet, run: seq<Remote>, events: seq<Event>, a: Attempt, b: Attempt,
                          first: string, second: string)
    requires IsRun(tools, p, run, events) && (p.tag in run[0].refs ==> TagOk(run[0], p))
    requires Promotes(tools, run[0], a, p, first, second)
    requires var last := run[|events|];
      && ForTag(last.releases, p.tag) == [] && last.head == run[0].head && SameOtherTags(run[0], last, p.tag)
      && Smooth(tools, last, p, b)
    requires b.checkedOut == a.checkedOut && b.liveNotes == a.liveNotes
    ensures var (s, o) := Attempted(tools, run[|events|], p, b); var mine := ForTag(s.releases, p.tag);
      o == Published && |mine| == 1 && TagOk(s, p) && Presents(tools, mine[0], p, b.assets)
  {
    hide Promotes, VerifyPacket, Attempted, ForTag, SameOtherTags, Complete, Ours, Matches, Step, ReleaseTags, Title;
    hide Presents;
    var last := run[|events|];
    VerifiedExactly(tools, run[0], a, p);
    PacketTitle(tools, run[0], a, p, first, second);
    TagStaysOurs(tools, p, run, events, |events|);
    RetryVerifies(tools, run[0], a, p, last, b);
    VerifiedAttemptPublishes(tools, last, p, b);
    MatchesPresents(tools, ForTag(Attempted(tools, last, p, b).0.releases, p.tag)[0], p, b.assets);
  }
}
