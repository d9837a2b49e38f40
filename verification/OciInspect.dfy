/** Admission of an image archive: ci/private_cert/image_admission.py, `inspect_oci`.

    SHA-256, gzip, tar and JSON decoding are parameters; a decoder returns None where Python raises. */
module OciInspect {
  import opened Wrappers
  import opened OciLayers
  import opened OciPaths
  import opened OciOverlay
  import Text

  const MANIFEST := "application/vnd.oci.image.manifest.v1+json"
  const CONFIG := "application/vnd.oci.image.config.v1+json"
  const LAYER := "application/vnd.oci.image.layer.v1.tar"
  const GZIP_LAYER := "application/vnd.oci.image.layer.v1.tar+gzip"
  const MAX_JSON: nat := 4 * 1024 * 1024
  const LAYOUT_NAME := "oci-layout"
  const INDEX_NAME := "index.json"

  datatype TarKind =
    | Regular(body: Bytes)
    | Directory
    | SymbolicLink(target: string)
    | HardLinked(target: string)
    | Other

  datatype TarMember = TarMember(name: string, kind: TarKind)

  datatype Descriptor = Descriptor(mediaType: string, digest: string, size: int, urls: bool)
  datatype Index = Index(schemaVersion: int, manifests: seq<Descriptor>)
  datatype Manifest = Manifest(schemaVersion: int, mediaType: string, config: Descriptor, layers: seq<Descriptor>)
  datatype Config = Config(os: string, architecture: string, rootfsType: string, diffIds: seq<string>,
                           execution: string)

  datatype Codec = Codec(
    sha256: Bytes -> string,
    gunzip: Bytes -> Option<Bytes>,
    untar: Bytes -> Option<seq<TarMember>>,
    layoutVersion: Bytes -> Option<string>,
    index: Bytes -> Option<Index>,
    manifest: Bytes -> Option<Manifest>,
    config: Bytes -> Option<Config>)

  datatype Image = Image(manifestDigest: string, configDigest: string, config: Config,
                         privateFiles: map<string, string>)

  // ----- Names

  function RStripSlash(name: string): string {
    if name != "" && name[|name| - 1] == '/' then RStripSlash(name[..|name| - 1]) else name
  }

  function StripDots(name: string): string {
    if "./" <= name then StripDots(name[2..]) else name
  }

  function ArchiveName(m: TarMember): string {
    if m.kind.Directory? then RStripSlash(m.name) else m.name
  }

  function ToEntry(codec: Codec, m: TarMember): Entry {
    var rel := StripDots(m.name);
    match m.kind
    case Regular(body) => Entry(rel, File(codec.sha256(body)))
    case Directory => Entry(RStripSlash(rel), Dir)
    case SymbolicLink(target) => Entry(rel, Symlink(target))
    case HardLinked(target) => Entry(rel, HardLink(target))
    case Other => Entry(rel, Special)
  }

  function ToEntries(codec: Codec, ms: seq<TarMember>): (r: seq<Entry>)
    ensures |r| == |ms|
  {
    seq(|ms|, i requires 0 <= i < |ms| => ToEntry(codec, ms[i]))
  }

  // ----- What is admitted

  predicate IsHex64(s: string) {
    |s| == 64 && forall c :: c in s ==> '0' <= c <= '9' || 'a' <= c <= 'f'
  }

  function BlobName(d: Descriptor): string {
    "blobs/sha256/" + if |d.digest| >= 7 then d.digest[7..] else ""
  }

  /** The descriptor has the media type and names a member of its size and digest. */
  predicate DescriptorOk(codec: Codec, members: map<string, Bytes>, d: Descriptor, media: string) {
    && d.mediaType == media && "sha256:" <= d.digest && IsHex64(d.digest[7..]) && d.size >= 0 && !d.urls
    && BlobName(d) in members && |members[BlobName(d)]| == d.size
    && codec.sha256(members[BlobName(d)]) == d.digest[7..]
  }

  predicate SmallJson(members: map<string, Bytes>, name: string) {
    name in members && |members[name]| <= MAX_JSON
  }

  /** Every member has a safe name and is a directory or a regular file, and no two files share a name. */
  predicate MembersOk(archive: seq<TarMember>) {
    archive == [] ||
      var front, m := archive[..|archive| - 1], archive[|archive| - 1];
      MembersOk(front) && MemberOk(Members(front), m)
  }

  function Members(archive: seq<TarMember>): map<string, Bytes> {
    if archive == [] then map[]
    else
      var m := archive[|archive| - 1];
      var members := Members(archive[..|archive| - 1]);
      if m.kind.Regular? then members[m.name := m.kind.body] else members
  }

  /** The members of a layer, when its descriptor, its blob and the digest of its tar are in order. */
  function LayerMembers(codec: Codec, members: map<string, Bytes>, d: Descriptor, diffId: string)
    : Option<seq<TarMember>>
  {
    if d.mediaType !in {LAYER, GZIP_LAYER} || !DescriptorOk(codec, members, d, d.mediaType) then None
    else
      var blob := members[BlobName(d)];
      match if d.mediaType == GZIP_LAYER then codec.gunzip(blob) else Some(blob)
      case None => None
      case Some(tar) => if "sha256:" + codec.sha256(tar) != diffId then None else codec.untar(tar)
  }

  /** And as entries, when the layer pass lets all of them through. */
  function LayerTar(codec: Codec, members: map<string, Bytes>, d: Descriptor, diffId: string): (r: Option<Layer>)
    ensures r.Some? ==> forall e :: e in r.value ==> EntryOk(e)
  {
    match LayerMembers(codec, members, d, diffId)
    case None => None
    case Some(ms) =>
      var entries := ToEntries(codec, ms);
      if forall e :: e in entries ==> EntryOk(e) then Some(entries) else None
  }

  predicate LayersAdmitted(codec: Codec, members: map<string, Bytes>, ds: seq<Descriptor>, diffIds: seq<string>)
    requires |ds| == |diffIds|
  {
    forall i :: 0 <= i < |ds| ==> LayerTar(codec, members, ds[i], diffIds[i]).Some?
  }

  function AdmittedLayers(codec: Codec, members: map<string, Bytes>, ds: seq<Descriptor>,
                          diffIds: seq<string>): (r: seq<Layer>)
    requires |ds| == |diffIds| && LayersAdmitted(codec, members, ds, diffIds)
    ensures |r| == |ds|
  {
    seq(|ds|, i requires 0 <= i < |ds| => LayerTar(codec, members, ds[i], diffIds[i]).value)
  }

  /** The three JSON documents that describe the image. */
  datatype Documents = Documents(md: Descriptor, manifest: Manifest, config: Config)

  function ReadDocuments(codec: Codec, members: map<string, Bytes>): Option<Documents> {
    if !SmallJson(members, LAYOUT_NAME) || codec.layoutVersion(members[LAYOUT_NAME]) != Some("1.0.0") then None
    else if !SmallJson(members, INDEX_NAME) then None
    else match codec.index(members[INDEX_NAME])
      case None => None
      case Some(index) =>
        if index.schemaVersion != 2 || |index.manifests| != 1 then None
        else ReadManifest(codec, members, index.manifests[0])
  }

  function ReadManifest(codec: Codec, members: map<string, Bytes>, md: Descriptor): Option<Documents> {
    if !DescriptorOk(codec, members, md, MANIFEST) || !SmallJson(members, BlobName(md)) then None
    else match codec.manifest(members[BlobName(md)])
      case None => None
      case Some(manifest) =>
        if manifest.schemaVersion != 2 || manifest.mediaType != MANIFEST
          || !DescriptorOk(codec, members, manifest.config, CONFIG)
          || !SmallJson(members, BlobName(manifest.config)) then None
        else match codec.config(members[BlobName(manifest.config)])
          case None => None
          case Some(config) =>
            if config.os != "linux" || config.architecture != "arm64" || config.rootfsType != "layers"
              || |config.diffIds| != |manifest.layers| || manifest.layers == [] then None
            else Some(Documents(md, manifest, config))
  }

  /** The names of the members that the index entry reaches. */
  function Reached(docs: Documents): set<string> {
    {LAYOUT_NAME, INDEX_NAME, BlobName(docs.md), BlobName(docs.manifest.config)}
    + set d | d in docs.manifest.layers :: BlobName(d)
  }

  predicate Admissible(codec: Codec, archive: seq<TarMember>) {
    && MembersOk(archive)
    && var members := Members(archive);
       && ReadDocuments(codec, members).Some?
       && var docs := ReadDocuments(codec, members).value;
          && |docs.manifest.layers| == |docs.config.diffIds|
          && LayersAdmitted(codec, members, docs.manifest.layers, docs.config.diffIds)
          && members.Keys == Reached(docs)
  }

  function LayersOf(codec: Codec, archive: seq<TarMember>): seq<Layer>
    requires Admissible(codec, archive)
  {
    var members := Members(archive);
    var docs := ReadDocuments(codec, members).value;
    AdmittedLayers(codec, members, docs.manifest.layers, docs.config.diffIds)
  }

  function ImageOf(codec: Codec, archive: seq<TarMember>): Image
    requires Admissible(codec, archive)
  {
    var docs := ReadDocuments(codec, Members(archive)).value;
    Image(docs.md.digest, docs.manifest.config.digest, docs.config, PrivateFiles(Entries(LayersOf(codec, archive))))
  }

  // ----- The admission

  lemma {:induction false} MembersPrefix(archive: seq<TarMember>, i: nat)
    requires MembersOk(archive) && i <= |archive|
    ensures MembersOk(archive[..i])
  {
    hide MemberOk;
    if i < |archive| {
      MembersPrefix(archive[..|archive| - 1], i);
      assert archive[..|archive| - 1][..i] == archive[..i];
    } else {
      assert archive[..i] == archive;
    }
  }

  /** The check of one member, against those before it. */
  predicate MemberOk(members: map<string, Bytes>, m: TarMember) {
    OciPaths.Regular(ArchiveName(m)) && (m.kind.Directory? || (m.kind.Regular? && m.name !in members))
  }

  lemma MembersStep(archive: seq<TarMember>, i: nat)
    requires i < |archive| && MembersOk(archive[..i])
    ensures MembersOk(archive[..i + 1]) <==> MemberOk(Members(archive[..i]), archive[i])
    ensures MembersOk(archive) ==> MembersOk(archive[..i + 1])
    ensures var m := archive[i]; var members := Members(archive[..i]);
      Members(archive[..i + 1]) == if m.kind.Regular? then members[m.name := m.kind.body] else members
  {
    hide MemberOk;
    assert archive[..i + 1][..i] == archive[..i] && archive[..i + 1][i] == archive[i];
    if MembersOk(archive) { MembersPrefix(archive, i + 1); }
  }

  method ReadMembers(archive: seq<TarMember>) returns (r: Option<map<string, Bytes>>)
    ensures r == if MembersOk(archive) then Some(Members(archive)) else None
  {
    var members: map<string, Bytes> := map[];
    for i := 0 to |archive|
      invariant MembersOk(archive[..i]) && members == Members(archive[..i])
    {
      var m := archive[i];
      MembersStep(archive, i);
      if !MemberOk(members, m) { return None; }
      if m.kind.Regular? { members := members[m.name := m.kind.body]; }
    }
    assert archive[..|archive|] == archive;
    return Some(members);
  }

  lemma StoreStep(before: seq<Entry>, entries: seq<Entry>, i: nat)
    requires i < |entries|
    ensures PrivateFiles(before + entries[..i + 1]) == Store(PrivateFiles(before + entries[..i]), entries[i])
  {
    hide Store;
    var all := before + entries[..i + 1];
    assert all[..|all| - 1] == before + entries[..i];
  }

  method StoreEntries(codec: Codec, ms: seq<TarMember>, ghost before: seq<Entry>, files: map<string, string>)
    returns (r: Option<map<string, string>>)
    requires files == PrivateFiles(before)
    ensures var entries := ToEntries(codec, ms);
      r == if forall e :: e in entries ==> EntryOk(e) then Some(PrivateFiles(before + entries)) else None
  {
    hide EntryOk, Store, PrivateFiles;
    ghost var entries := ToEntries(codec, ms);
    var stored := files;
    assert before + entries[..0] == before;
    for i := 0 to |ms|
      invariant forall e :: e in entries[..i] ==> EntryOk(e)
      invariant stored == PrivateFiles(before + entries[..i])
    {
      var e := ToEntry(codec, ms[i]);
      assert entries[i] == e && entries[..i + 1] == entries[..i] + [e];
      if !EntryOk(e) {
        assert e in entries;
        return None;
      }
      StoreStep(before, entries, i);
      stored := Store(stored, e);
    }
    assert entries[..|entries|] == entries;
    return Some(stored);
  }

  method InspectLayer(codec: Codec, members: map<string, Bytes>, d: Descriptor, diffId: string,
                      ghost before: seq<Entry>, files: map<string, string>) returns (r: Option<map<string, string>>)
    requires files == PrivateFiles(before)
    ensures r == match LayerTar(codec, members, d, diffId)
      case None => None
      case Some(entries) => Some(PrivateFiles(before + entries))
  {
    if d.mediaType !in {LAYER, GZIP_LAYER} || !DescriptorOk(codec, members, d, d.mediaType) { return None; }
    var blob := members[BlobName(d)];
    var tar := if d.mediaType == GZIP_LAYER then codec.gunzip(blob) else Some(blob);
    if tar.None? || "sha256:" + codec.sha256(tar.value) != diffId { return None; }
    var ms := codec.untar(tar.value);
    if ms.None? { return None; }
    hide EntryOk;
    r := StoreEntries(codec, ms.value, before, files);
  }

  lemma LayersStep(codec: Codec, members: map<string, Bytes>, ds: seq<Descriptor>, diffIds: seq<string>, i: nat)
    requires |ds| == |diffIds| && i < |ds|
    requires LayersAdmitted(codec, members, ds[..i], diffIds[..i])
    ensures LayersAdmitted(codec, members, ds[..i + 1], diffIds[..i + 1])
       <==> LayerTar(codec, members, ds[i], diffIds[i]).Some?
    ensures LayersAdmitted(codec, members, ds, diffIds) ==> LayerTar(codec, members, ds[i], diffIds[i]).Some?
    ensures LayerTar(codec, members, ds[i], diffIds[i]).Some? ==>
      Entries(AdmittedLayers(codec, members, ds[..i + 1], diffIds[..i + 1]))
      == Entries(AdmittedLayers(codec, members, ds[..i], diffIds[..i]))
         + LayerTar(codec, members, ds[i], diffIds[i]).value
  {
    assert forall j :: 0 <= j < i ==> ds[..i + 1][j] == ds[..i][j] && diffIds[..i + 1][j] == diffIds[..i][j];
    if LayerTar(codec, members, ds[i], diffIds[i]).Some? {
      var after := AdmittedLayers(codec, members, ds[..i + 1], diffIds[..i + 1]);
      assert after[..i] == AdmittedLayers(codec, members, ds[..i], diffIds[..i]);
    }
  }

  lemma ReachedStep(docs: Documents, i: nat)
    requires i < |docs.manifest.layers|
    ensures var m := docs.manifest;
      Reached(docs.(manifest := m.(layers := m.layers[..i + 1])))
      == Reached(docs.(manifest := m.(layers := m.layers[..i]))) + {BlobName(m.layers[i])}
  {}

  // ----- What an archive holds

  /** Member `i` is the file `name`, and no other member is. */
  ghost predicate OnlyFileAt(archive: seq<TarMember>, i: int, name: string, body: Bytes) {
    && 0 <= i < |archive| && archive[i] == TarMember(name, Regular(body))
    && forall j :: 0 <= j < |archive| && j != i && archive[j].kind.Regular? ==> archive[j].name != name
  }

  ghost predicate OnlyFile(archive: seq<TarMember>, name: string, body: Bytes) {
    exists i :: OnlyFileAt(archive, i, name, body)
  }

  /** '/' so many times. */
  ghost function Slashes(k: nat): string {
    if k == 0 then "" else Slashes(k - 1) + "/"
  }

  /** A regular path, which for a directory may have '/' behind it. */
  ghost predicate SafeName(m: TarMember) {
    if m.kind.Directory? then exists rel, k: nat :: m.name == rel + Slashes(k) && OciPaths.Regular(rel)
    else OciPaths.Regular(m.name)
  }

  /** Safe names, nothing but files and directories, and no two files of one name. */
  ghost predicate SafeMembers(archive: seq<TarMember>) {
    && (forall m :: m in archive ==> SafeName(m) && (m.kind.Directory? || m.kind.Regular?))
    && forall i, j :: 0 <= i < j < |archive| && archive[i].kind.Regular? && archive[j].kind.Regular? ==>
         archive[i].name != archive[j].name
  }

  /** 64 lower-case hexadecimal digits. */
  ghost predicate HexDigest(s: string) {
    |s| == 64 && forall i :: 0 <= i < 64 ==> s[i] in Text.HEX
  }

  lemma HexExactly(s: string)
    ensures IsHex64(s) <==> HexDigest(s)
  {
    Text.HexDigits();
    if IsHex64(s) { forall i | 0 <= i < 64 ensures s[i] in Text.HEX { assert s[i] in s; } }
  }

  /** The descriptor names, under this media type, a blob that is there with its size and digest. */
  ghost predicate Declared(codec: Codec, archive: seq<TarMember>, d: Descriptor, media: string, body: Bytes) {
    && d.mediaType == media && "sha256:" <= d.digest && HexDigest(d.digest[7..]) && !d.urls
    && OnlyFile(archive, "blobs/sha256/" + d.digest[7..], body)
    && |body| == d.size && "sha256:" + codec.sha256(body) == d.digest
  }

  /** `tar` is what the layer's blob holds, plain or zipped, and has the digest the configuration names. */
  ghost predicate LayerBlob(codec: Codec, archive: seq<TarMember>, d: Descriptor, diffId: string, body: Bytes,
                            tar: Bytes) {
    && diffId == "sha256:" + codec.sha256(tar)
    && ((Declared(codec, archive, d, LAYER, body) && tar == body)
        || (Declared(codec, archive, d, GZIP_LAYER, body) && codec.gunzip(body) == Some(tar)))
  }

  ghost predicate LayerHolds(codec: Codec, archive: seq<TarMember>, d: Descriptor, diffId: string, ms: seq<TarMember>) {
    exists body, tar :: LayerBlob(codec, archive, d, diffId, body, tar) && codec.untar(tar) == Some(ms)
  }

  /** What the one entry of an index leads to; `layers` are the members of each layer's tar. */
  datatype Closure = Closure(layout: Bytes, index: Bytes, entry: Descriptor, manifestBlob: Bytes, manifest: Manifest,
                             configBlob: Bytes, config: Config, layers: seq<seq<TarMember>>) {
    predicate Reaches(name: string) {
      || name == LAYOUT_NAME || name == INDEX_NAME
      || exists d :: d in [entry, manifest.config] + manifest.layers && name == BlobName(d)
    }
  }

  /** The layout file and the index with its one entry. */
  ghost predicate Indexed(codec: Codec, archive: seq<TarMember>, c: Closure) {
    && OnlyFile(archive, LAYOUT_NAME, c.layout) && |c.layout| <= MAX_JSON
    && codec.layoutVersion(c.layout) == Some("1.0.0")
    && OnlyFile(archive, INDEX_NAME, c.index) && |c.index| <= MAX_JSON
    && codec.index(c.index) == Some(Index(2, [c.entry]))
  }

  /** The manifest and the configuration. */
  ghost predicate Described(codec: Codec, archive: seq<TarMember>, c: Closure) {
    && Declared(codec, archive, c.entry, MANIFEST, c.manifestBlob) && |c.manifestBlob| <= MAX_JSON
    && codec.manifest(c.manifestBlob) == Some(c.manifest)
    && c.manifest.schemaVersion == 2 && c.manifest.mediaType == MANIFEST
    && Declared(codec, archive, c.manifest.config, CONFIG, c.configBlob) && |c.configBlob| <= MAX_JSON
    && codec.config(c.configBlob) == Some(c.config)
    && c.config.os == "linux" && c.config.architecture == "arm64" && c.config.rootfsType == "layers"
  }

  ghost predicate Layered(codec: Codec, archive: seq<TarMember>, c: Closure) {
    && |c.layers| == |c.manifest.layers| == |c.config.diffIds| > 0
    && (forall i :: 0 <= i < |c.layers| ==>
          LayerHolds(codec, archive, c.manifest.layers[i], c.config.diffIds[i], c.layers[i]))
    && forall i :: 0 <= i < |c.layers| ==> MembersPass(c.layers[i])
  }

  /** "./" so many times. */
  ghost function Dots(k: nat): string {
    if k == 0 then "" else "./" + Dots(k - 1)
  }

  /** The member's name is `rel`, apart from leading "./" and, for a directory, '/' behind it. */
  ghost predicate NamedApart(m: TarMember, rel: string) {
    exists j: nat, k: nat :: Apart(m, rel, j, k)
  }

  ghost predicate Apart(m: TarMember, rel: string, j: nat, k: nat) {
    && m.name == Dots(j) + (rel + Slashes(k)) && !("./" <= rel + Slashes(k))
    && if m.kind.Directory? then rel == "" || rel[|rel| - 1] != '/' else k == 0
  }

  /** What the layer pass asks of a member of this name: a regular path, a directory at and above the
      private root, nothing but files and directories below it, and no whiteout near it; or the root. */
  ghost predicate Passes(m: TarMember, rel: string) {
    || (m.kind.Directory? && (rel == "" || rel == "."))
    || (&& OciPaths.Regular(rel) && !HidesPrivate(rel)
        && (rel == ROOT || rel + "/" <= ROOT ==> m.kind.Directory?)
        && (ROOT + "/" <= rel ==> m.kind.Regular? || m.kind.Directory?))
  }

  ghost predicate MembersPass(ms: seq<TarMember>) {
    forall m :: m in ms ==> exists rel :: NamedApart(m, rel) && Passes(m, rel)
  }

  /** The archive holds one index with one entry, what it leads to as declared, and no other file. */
  ghost predicate ClosedUnder(codec: Codec, archive: seq<TarMember>, c: Closure) {
    && SafeMembers(archive) && Indexed(codec, archive, c) && Described(codec, archive, c) && Layered(codec, archive, c)
    && forall m :: m in archive && m.kind.Regular? ==> c.Reaches(m.name)
  }

  /** The files of the table are the archive's files, each there once. */
  lemma {:induction false} MembersAreFiles(archive: seq<TarMember>)
    requires MembersOk(archive)
    ensures forall name :: name in Members(archive) ==> OnlyFile(archive, name, Members(archive)[name])
    ensures forall m :: m in archive ==> m.kind.Directory? || (m.kind.Regular? && m.name in Members(archive))
  {
    hide OciPaths.Regular;
    if archive != [] {
      var last := |archive| - 1;
      var front, m := archive[..last], archive[last];
      assert archive == front + [m];
      MembersAreFiles(front);
      forall name | name in Members(archive) ensures OnlyFile(archive, name, Members(archive)[name]) {
        if m.kind.Regular? && name == m.name {
          forall j | 0 <= j < last && archive[j].kind.Regular? ensures archive[j].name != name {
            assert front[j] in front;
          }
          assert OnlyFileAt(archive, last, name, m.kind.body);
        } else {
          var i :| OnlyFileAt(front, i, name, Members(front)[name]);
          assert OnlyFileAt(archive, i, name, Members(front)[name]);
        }
      }
    }
  }

  lemma OnlyOneBody(archive: seq<TarMember>, name: string, body: Bytes)
    requires MembersOk(archive)
    ensures OnlyFile(archive, name, body) <==> name in Members(archive) && Members(archive)[name] == body
  {
    MembersAreFiles(archive);
    if OnlyFile(archive, name, body) {
      var i :| OnlyFileAt(archive, i, name, body);
      assert archive[i] in archive;
      var j :| OnlyFileAt(archive, j, name, Members(archive)[name]);
      assert j == i;
    }
  }

  lemma {:induction false} SlashesStripped(rel: string, k: nat)
    requires rel == "" || rel[|rel| - 1] != '/'
    ensures RStripSlash(rel + Slashes(k)) == rel
  {
    if k == 0 {
      assert rel + Slashes(0) == rel;
    } else {
      assert rel + Slashes(k) == (rel + Slashes(k - 1)) + "/";
      hide RStripSlash;
      SlashesStripped(rel, k - 1);
      SlashStripped(rel + Slashes(k - 1));
    }
  }

  lemma SlashStripped(name: string)
    ensures RStripSlash(name + "/") == RStripSlash(name)
  {
    var longer := name + "/";
    assert longer[..|longer| - 1] == name;
  }

  lemma {:induction false} StrippedSlashes(name: string) returns (k: nat)
    ensures name == RStripSlash(name) + Slashes(k)
    ensures RStripSlash(name) == "" || RStripSlash(name)[|RStripSlash(name)| - 1] != '/'
  {
    if name != "" && name[|name| - 1] == '/' {
      var front := name[..|name| - 1];
      var j := StrippedSlashes(front);
      k := j + 1;
      assert name == front + "/";
    } else {
      k := 0;
    }
  }

  lemma RegularEnd(rel: string)
    requires OciPaths.Regular(rel)
    ensures rel != "" && rel[|rel| - 1] != '/'
  {
    if rel[|rel| - 1] == '/' {
      var front := rel[..|rel| - 1];
      assert rel == front + ['/'] + "";
      SplitConcat(front, "", '/');
      assert Text.Split("", '/') == [""];
      var parts := Text.Split(rel, '/');
      assert parts[|parts| - 1] == "" && parts[|parts| - 1] in parts;
      RegularNormal(rel);
    }
  }

  lemma SafeNameExactly(m: TarMember)
    ensures OciPaths.Regular(ArchiveName(m)) <==> SafeName(m)
  {
    hide OciPaths.Regular;
    if m.kind.Directory? {
      var k := StrippedSlashes(m.name);
      forall rel, j: nat | m.name == rel + Slashes(j) && OciPaths.Regular(rel) ensures ArchiveName(m) == rel {
        RegularEnd(rel);
        SlashesStripped(rel, j);
      }
    }
  }

  /** A file of this name is among the members. */
  ghost predicate Taken(archive: seq<TarMember>, name: string) {
    exists m :: m in archive && m.kind.Regular? && m.name == name
  }

  lemma TakenExactly(archive: seq<TarMember>, name: string)
    requires MembersOk(archive)
    ensures Taken(archive, name) <==> name in Members(archive)
  {
    MembersAreFiles(archive);
    if name in Members(archive) {
      var i :| OnlyFileAt(archive, i, name, Members(archive)[name]);
      assert archive[i] in archive;
    }
  }

  lemma SafeStep(front: seq<TarMember>, m: TarMember)
    ensures SafeMembers(front + [m]) <==>
      && SafeMembers(front) && SafeName(m)
      && (m.kind.Directory? || (m.kind.Regular? && !Taken(front, m.name)))
  {
    hide SafeName;
    var archive := front + [m];
    assert archive[|front|] == m && forall i :: 0 <= i < |front| ==> archive[i] == front[i];
    if SafeMembers(archive) {
      forall x | x in front ensures x in archive {}
    }
  }

  lemma {:induction false} MembersSafe(archive: seq<TarMember>)
    ensures MembersOk(archive) <==> SafeMembers(archive)
  {
    hide OciPaths.Regular, SafeMembers, SafeName, Taken;
    if archive == [] {
      NothingUnsafe();
    } else {
      var front, m := archive[..|archive| - 1], archive[|archive| - 1];
      assert archive == front + [m];
      MembersSafe(front);
      SafeStep(front, m);
      SafeNameExactly(m);
      if MembersOk(front) { TakenExactly(front, m.name); }
    }
  }

  lemma NothingUnsafe()
    ensures SafeMembers([])
  {}

  predicate IsBlob(members: map<string, Bytes>, d: Descriptor, body: Bytes) {
    BlobName(d) in members && members[BlobName(d)] == body
  }

  lemma DescriptorDeclared(codec: Codec, archive: seq<TarMember>, d: Descriptor, media: string, body: Bytes)
    requires MembersOk(archive)
    ensures Declared(codec, archive, d, media, body)
       <==> DescriptorOk(codec, Members(archive), d, media) && IsBlob(Members(archive), d, body)
  {
    hide MembersOk, IsHex64, HexDigest, OnlyFile, Members;
    if |d.digest| >= 7 { HexExactly(d.digest[7..]); }
    OnlyOneBody(archive, BlobName(d), body);
    if "sha256:" <= d.digest { DigestTail(d.digest, codec.sha256(body)); }
    assert "sha256:" <= d.digest ==> BlobName(d) == "blobs/sha256/" + d.digest[7..];
  }

  lemma DigestTail(digest: string, hash: string)
    requires "sha256:" <= digest
    ensures "sha256:" + hash == digest <==> hash == digest[7..]
  {
    assert digest == "sha256:" + digest[7..] && ("sha256:" + hash)[7..] == hash;
  }

  lemma LayerExactly(codec: Codec, archive: seq<TarMember>, d: Descriptor, diffId: string, ms: seq<TarMember>)
    requires MembersOk(archive)
    ensures LayerMembers(codec, Members(archive), d, diffId) == Some(ms) <==> LayerHolds(codec, archive, d, diffId, ms)
  {
    hide MembersOk, DescriptorOk, Declared;
    var members := Members(archive);
    PlainLayer();
    forall body
      ensures Declared(codec, archive, d, LAYER, body)
         <==> DescriptorOk(codec, members, d, LAYER) && IsBlob(members, d, body)
      ensures Declared(codec, archive, d, GZIP_LAYER, body)
         <==> DescriptorOk(codec, members, d, GZIP_LAYER) && IsBlob(members, d, body)
    {
      DescriptorDeclared(codec, archive, d, LAYER, body);
      DescriptorDeclared(codec, archive, d, GZIP_LAYER, body);
    }
    if LayerMembers(codec, members, d, diffId) == Some(ms) {
      MediaOk(codec, members, d);
      var body := members[BlobName(d)];
      var tar := if d.mediaType == GZIP_LAYER then codec.gunzip(body).value else body;
      assert LayerBlob(codec, archive, d, diffId, body, tar);
    }
    if LayerHolds(codec, archive, d, diffId, ms) {
      var body, tar :| LayerBlob(codec, archive, d, diffId, body, tar) && codec.untar(tar) == Some(ms);
      DeclaredMedia(codec, archive, d, LAYER, body);
      DeclaredMedia(codec, archive, d, GZIP_LAYER, body);
    }
  }

  lemma MediaOk(codec: Codec, members: map<string, Bytes>, d: Descriptor)
    requires d.mediaType in {LAYER, GZIP_LAYER} && DescriptorOk(codec, members, d, d.mediaType)
    ensures d.mediaType == LAYER || d.mediaType == GZIP_LAYER
    ensures BlobName(d) in members
  {}

  lemma DeclaredMedia(codec: Codec, archive: seq<TarMember>, d: Descriptor, media: string, body: Bytes)
    ensures Declared(codec, archive, d, media, body) ==> d.mediaType == media
  {}

  lemma PlainLayer()
    ensures LAYER != GZIP_LAYER
  {
    assert |LAYER| < |GZIP_LAYER|;
  }

  /** The documents read from the table are those that the archive's files hold. */
  lemma DocumentsExactly(codec: Codec, archive: seq<TarMember>, c: Closure)
    requires MembersOk(archive)
    requires Indexed(codec, archive, c) && Described(codec, archive, c) && |c.config.diffIds| == |c.manifest.layers| > 0
    ensures ReadDocuments(codec, Members(archive)) == Some(Documents(c.entry, c.manifest, c.config))
  {
    hide MembersOk, DescriptorOk, Declared, OnlyFile;
    OnlyOneBody(archive, LAYOUT_NAME, c.layout);
    OnlyOneBody(archive, INDEX_NAME, c.index);
    DescriptorDeclared(codec, archive, c.entry, MANIFEST, c.manifestBlob);
    DescriptorDeclared(codec, archive, c.manifest.config, CONFIG, c.configBlob);
    BlobThere(codec, Members(archive), c.entry, MANIFEST);
    BlobThere(codec, Members(archive), c.manifest.config, CONFIG);
  }

  lemma BlobThere(codec: Codec, members: map<string, Bytes>, d: Descriptor, media: string)
    requires DescriptorOk(codec, members, d, media)
    ensures BlobName(d) in members
  {}

  lemma DocumentsHeld(codec: Codec, archive: seq<TarMember>, c: Closure)
    requires MembersOk(archive)
    requires ReadDocuments(codec, Members(archive)) == Some(Documents(c.entry, c.manifest, c.config))
    requires var members := Members(archive);
      && LAYOUT_NAME in members && INDEX_NAME in members
      && c.layout == members[LAYOUT_NAME] && c.index == members[INDEX_NAME]
      && IsBlob(members, c.entry, c.manifestBlob) && IsBlob(members, c.manifest.config, c.configBlob)
    ensures Indexed(codec, archive, c) && Described(codec, archive, c) && |c.config.diffIds| == |c.manifest.layers| > 0
  {
    hide MembersOk, DescriptorOk, Declared, OnlyFile;
    OnlyOneBody(archive, LAYOUT_NAME, c.layout);
    OnlyOneBody(archive, INDEX_NAME, c.index);
    DescriptorDeclared(codec, archive, c.entry, MANIFEST, c.manifestBlob);
    DescriptorDeclared(codec, archive, c.manifest.config, CONFIG, c.configBlob);
    assert codec.index(c.index).value.manifests == [c.entry];
  }

  /** What an admitted archive holds. */
  lemma BlobClosure(codec: Codec, archive: seq<TarMember>) returns (c: Closure)
    requires Admissible(codec, archive)
    ensures ClosedUnder(codec, archive, c)
  {
    hide MembersOk, DescriptorOk, LayerMembers, OnlyFile, Declared, Indexed, Described, LayerHolds, SafeMembers;
    var members := Members(archive);
    var docs := ReadDocuments(codec, members).value;
    var ds, diffIds := docs.manifest.layers, docs.config.diffIds;
    var layers := seq(|ds|, i requires 0 <= i < |ds| => LayerMembers(codec, members, ds[i], diffIds[i]).value);
    DocumentsThere(codec, members);
    c := Closure(members[LAYOUT_NAME], members[INDEX_NAME], docs.md, members[BlobName(docs.md)], docs.manifest,
                 members[BlobName(docs.manifest.config)], docs.config, layers);
    MembersSafe(archive);
    MembersAreFiles(archive);
    DocumentsHeld(codec, archive, c);
    forall i | 0 <= i < |layers|
      ensures LayerHolds(codec, archive, ds[i], diffIds[i], layers[i]) && MembersPass(layers[i])
    {
      LayerExactly(codec, archive, ds[i], diffIds[i], layers[i]);
      EntriesPass(codec, layers[i]);
    }
    forall m | m in archive && m.kind.Regular? ensures c.Reaches(m.name) {
      ReachedMeans(docs, c, m.name);
    }
  }

  lemma DocumentsThere(codec: Codec, members: map<string, Bytes>)
    requires ReadDocuments(codec, members).Some?
    ensures var docs := ReadDocuments(codec, members).value;
      && LAYOUT_NAME in members && INDEX_NAME in members && BlobName(docs.md) in members
      && BlobName(docs.manifest.config) in members && |docs.config.diffIds| == |docs.manifest.layers| > 0
  {}

  lemma {:induction false} DotsStripped(k: nat, rel: string)
    requires !("./" <= rel)
    ensures StripDots(Dots(k) + rel) == rel
  {
    if k == 0 {
      assert Dots(0) + rel == rel;
    } else {
      assert Dots(k) + rel == "./" + (Dots(k - 1) + rel);
      assert (Dots(k) + rel)[2..] == Dots(k - 1) + rel;
      DotsStripped(k - 1, rel);
    }
  }

  lemma {:induction false} StrippedDots(name: string) returns (k: nat)
    ensures name == Dots(k) + StripDots(name)
  {
    if "./" <= name {
      var j := StrippedDots(name[2..]);
      k := j + 1;
      assert name == "./" + name[2..];
    } else {
      k := 0;
    }
  }

  lemma ApartIs(codec: Codec, m: TarMember, rel: string, j: nat, k: nat)
    requires Apart(m, rel, j, k)
    ensures ToEntry(codec, m).name == rel
  {
    hide StripDots, RStripSlash;
    DotsStripped(j, rel + Slashes(k));
    if m.kind.Directory? { SlashesStripped(rel, k); } else { assert rel + Slashes(0) == rel; }
  }

  lemma EntryApart(codec: Codec, m: TarMember)
    ensures NamedApart(m, ToEntry(codec, m).name)
  {
    hide StripDots, RStripSlash;
    var rest := StripDots(m.name);
    var name := ToEntry(codec, m).name;
    var j := StrippedDots(m.name);
    var k := StrippedSlashes(rest);
    DotsGone(m.name);
    if m.kind.Directory? {
      assert Apart(m, name, j, k);
    } else {
      assert name + Slashes(0) == name;
      assert Apart(m, name, j, 0);
    }
  }

  lemma NameApart(codec: Codec, m: TarMember)
    ensures forall rel :: NamedApart(m, rel) <==> ToEntry(codec, m).name == rel
  {
    hide Apart, ToEntry;
    EntryApart(codec, m);
    forall rel | NamedApart(m, rel) ensures ToEntry(codec, m).name == rel {
      var j: nat, k: nat :| Apart(m, rel, j, k);
      ApartIs(codec, m, rel, j, k);
    }
  }

  lemma {:induction false} DotsGone(name: string)
    ensures !("./" <= StripDots(name))
  {
    if "./" <= name { DotsGone(name[2..]); }
  }

  lemma PassesExactly(codec: Codec, m: TarMember)
    ensures EntryOk(ToEntry(codec, m)) <==> exists rel :: NamedApart(m, rel) && Passes(m, rel)
  {
    NameApart(codec, m);
    var e := ToEntry(codec, m);
    hide NamedApart, StripDots, RStripSlash, OciPaths.Regular, HidesPrivate;
    assert NamedApart(m, e.name);
    assert EntryOk(e) <==> Passes(m, e.name);
  }

  lemma EntriesPass(codec: Codec, ms: seq<TarMember>)
    ensures MembersPass(ms) <==> forall e :: e in ToEntries(codec, ms) ==> EntryOk(e)
  {
    hide EntryOk, ToEntry, NamedApart, Passes;
    var entries := ToEntries(codec, ms);
    forall i | 0 <= i < |ms|
      ensures EntryOk(entries[i]) <==> exists rel :: NamedApart(ms[i], rel) && Passes(ms[i], rel)
    {
      PassesExactly(codec, ms[i]);
    }
    if MembersPass(ms) {
      forall e | e in entries ensures EntryOk(e) {
        var i :| 0 <= i < |entries| && entries[i] == e;
        assert ms[i] in ms;
      }
    }
    if forall e :: e in entries ==> EntryOk(e) {
      forall m | m in ms ensures exists rel :: NamedApart(m, rel) && Passes(m, rel) {
        var i :| 0 <= i < |ms| && ms[i] == m;
        assert entries[i] in entries;
      }
    }
  }

  lemma ReachedMeans(docs: Documents, c: Closure, name: string)
    requires docs == Documents(c.entry, c.manifest, c.config)
    ensures c.Reaches(name) <==> name in Reached(docs)
  {
    hide BlobName;
    forall d
      ensures d in [c.entry, c.manifest.config] + c.manifest.layers
         <==> d == c.entry || d == c.manifest.config || d in c.manifest.layers {}
  }

  /** And an archive that holds it is admitted, with these layers. */
  lemma ClosedIsAdmissible(codec: Codec, archive: seq<TarMember>, c: Closure)
    requires ClosedUnder(codec, archive, c)
    ensures Admissible(codec, archive)
    ensures ReadDocuments(codec, Members(archive)) == Some(Documents(c.entry, c.manifest, c.config))
    ensures |LayersOf(codec, archive)| == |c.layers|
    ensures forall i :: 0 <= i < |c.layers| ==> LayersOf(codec, archive)[i] == ToEntries(codec, c.layers[i])
  {
    hide MembersOk, DescriptorOk, LayerMembers, OnlyFile, Declared, Indexed, Described, LayerHolds, SafeMembers;
    var members, docs := Members(archive), Documents(c.entry, c.manifest, c.config);
    MembersSafe(archive);
    DocumentsExactly(codec, archive, c);
    forall i | 0 <= i < |c.layers|
      ensures LayerTar(codec, members, c.manifest.layers[i], c.config.diffIds[i]) == Some(ToEntries(codec, c.layers[i]))
    {
      LayerExactly(codec, archive, c.manifest.layers[i], c.config.diffIds[i], c.layers[i]);
      EntriesPass(codec, c.layers[i]);
    }
    AllReached(codec, archive, c);
  }

  lemma AllReached(codec: Codec, archive: seq<TarMember>, c: Closure)
    requires ClosedUnder(codec, archive, c) && MembersOk(archive)
    ensures Members(archive).Keys == Reached(Documents(c.entry, c.manifest, c.config))
  {
    hide MembersOk, Reached, HexDigest, MembersPass, SafeMembers;
    var members, docs := Members(archive), Documents(c.entry, c.manifest, c.config);
    MembersAreFiles(archive);
    forall name ensures name in members <==> name in Reached(docs) {
      ReachedMeans(docs, c, name);
      if name in members {
        var i :| OnlyFileAt(archive, i, name, members[name]);
        assert archive[i] in archive;
      }
      if c.Reaches(name) { ReachedThere(codec, archive, c, name); }
    }
  }

  lemma ReachedThere(codec: Codec, archive: seq<TarMember>, c: Closure, name: string)
    requires ClosedUnder(codec, archive, c) && MembersOk(archive) && c.Reaches(name)
    ensures name in Members(archive)
  {
    hide MembersOk, Reached, HexDigest, OnlyFile, SafeMembers, MembersPass, Members;
    var body: Bytes;
    if name == LAYOUT_NAME {
      body := c.layout;
    } else if name == INDEX_NAME {
      body := c.index;
    } else if name == BlobName(c.entry) {
      body := c.manifestBlob;
    } else if name == BlobName(c.manifest.config) {
      body := c.configBlob;
    } else {
      var i :| 0 <= i < |c.manifest.layers| && name == BlobName(c.manifest.layers[i]);
      assert LayerHolds(codec, archive, c.manifest.layers[i], c.config.diffIds[i], c.layers[i]);
      var b, tar :| LayerBlob(codec, archive, c.manifest.layers[i], c.config.diffIds[i], b, tar);
      body := b;
    }
    OnlyOneBody(archive, name, body);
  }

  /** Exactly the archives that hold what their one index entry leads to, and nothing else, are admitted. */
  lemma AdmittedExactly(codec: Codec, archive: seq<TarMember>)
    ensures Admissible(codec, archive) <==> exists c :: ClosedUnder(codec, archive, c)
  {
    hide ClosedUnder, Admissible;
    if Admissible(codec, archive) { var c := BlobClosure(codec, archive); }
    if c :| ClosedUnder(codec, archive, c) { ClosedIsAdmissible(codec, archive, c); }
  }

  // ----- The private files and the members they come from

  function Flat(layers: seq<seq<TarMember>>): seq<TarMember> {
    if layers == [] then [] else Flat(layers[..|layers| - 1]) + layers[|layers| - 1]
  }

  /** The member's name is `rel`, perhaps with leading "./". */
  ghost predicate Named(m: TarMember, rel: string) {
    exists k: nat :: m.name == Dots(k) + rel
  }

  ghost predicate IsPrivateFile(m: TarMember, n: string) {
    m.kind.Regular? && Named(m, ROOT + "/" + n)
  }

  /** Member `i` is the last that is the private file `n`. */
  ghost predicate LastPrivate(ms: seq<TarMember>, n: string, i: int) {
    0 <= i < |ms| && IsPrivateFile(ms[i], n) && forall j :: i < j < |ms| ==> !IsPrivateFile(ms[j], n)
  }

  /** The files are exactly the members that are private files, each with the digest of the content of
      its last member. */
  ghost predicate PrivateFrom(codec: Codec, ms: seq<TarMember>, files: map<string, string>) {
    && (forall n :: n in files <==> exists i :: LastPrivate(ms, n, i))
    && forall n, i :: LastPrivate(ms, n, i) ==> n in files && files[n] == codec.sha256(ms[i].kind.body)
  }

  lemma NamedExactly(m: TarMember, rel: string)
    requires !("./" <= rel)
    ensures Named(m, rel) <==> StripDots(m.name) == rel
  {
    if k: nat :| m.name == Dots(k) + rel { DotsStripped(k, rel); }
    var k := StrippedDots(m.name);
  }

  lemma PrivateName(n: string)
    ensures !("./" <= ROOT + "/" + n) && ROOT + "/" <= ROOT + "/" + n && PrivateKey(ROOT + "/" + n) == n
  {
    RootFirst();
    assert (ROOT + "/" + n)[0] == ROOT[0];
  }

  /** A member's entry is stored under `n` exactly when it is the private file `n`. */
  lemma StoredExactly(codec: Codec, m: TarMember, n: string, files: map<string, string>)
    ensures var e := ToEntry(codec, m); var after := Store(files, e);
      if IsPrivateFile(m, n) then n in after && after[n] == codec.sha256(m.kind.body)
      else (n in after <==> n in files) && (n in after ==> after[n] == files[n])
  {
    PrivateName(n);
    NamedExactly(m, ROOT + "/" + n);
    hide StripDots, Named, RStripSlash;
    var e := ToEntry(codec, m);
    if e.kind.File? && Inside(e.name) {
      assert e.name == ROOT + "/" + PrivateKey(e.name);
    }
  }

  lemma LastPrivateStep(front: seq<TarMember>, m: TarMember, n: string, i: int)
    ensures LastPrivate(front + [m], n, i)
       <==> if IsPrivateFile(m, n) then i == |front| else LastPrivate(front, n, i)
  {
    hide IsPrivateFile;
    var ms := front + [m];
    assert ms[|front|] == m && forall j :: 0 <= j < |front| ==> ms[j] == front[j];
  }

  lemma {:induction false} StoredFrom(codec: Codec, ms: seq<TarMember>)
    ensures PrivateFrom(codec, ms, PrivateFiles(ToEntries(codec, ms)))
  {
    hide IsPrivateFile, LastPrivate, ToEntry, Store;
    if ms == [] {
      NoneLast();
    } else {
      var front, m := ms[..|ms| - 1], ms[|ms| - 1];
      StoredFrom(codec, front);
      assert ms == front + [m] && ToEntries(codec, ms)[..|ms| - 1] == ToEntries(codec, front);
      var files := PrivateFiles(ToEntries(codec, front));
      StoredFromStep(codec, front, m, files);
    }
  }

  lemma NoneLast()
    ensures forall n, i :: !LastPrivate([], n, i)
  {}

  lemma StoredFromStep(codec: Codec, front: seq<TarMember>, m: TarMember, files: map<string, string>)
    requires PrivateFrom(codec, front, files)
    ensures PrivateFrom(codec, front + [m], Store(files, ToEntry(codec, m)))
  {
    hide Named, ToEntry, Store;
    var ms, after := front + [m], Store(files, ToEntry(codec, m));
    forall n
      ensures n in after <==> exists i :: LastPrivate(ms, n, i)
      ensures forall i :: LastPrivate(ms, n, i) ==> n in after && after[n] == codec.sha256(ms[i].kind.body)
    {
      hide LastPrivate;
      StoredExactly(codec, m, n, files);
      forall i
        ensures LastPrivate(ms, n, i) <==> if IsPrivateFile(m, n) then i == |front| else LastPrivate(front, n, i)
      {
        LastPrivateStep(front, m, n, i);
      }
      LastIsFile(front, n);
      LastIsFile(ms, n);
      if IsPrivateFile(m, n) { assert LastPrivate(ms, n, |front|); }
    }
  }

  lemma LastIsFile(ms: seq<TarMember>, n: string)
    ensures forall i :: LastPrivate(ms, n, i) ==> 0 <= i < |ms| && ms[i].kind.Regular?
  {}

  lemma {:induction false} FlatEntries(codec: Codec, layers: seq<Layer>, tars: seq<seq<TarMember>>)
    requires |layers| == |tars| && forall i :: 0 <= i < |tars| ==> layers[i] == ToEntries(codec, tars[i])
    ensures Entries(layers) == ToEntries(codec, Flat(tars))
  {
    hide ToEntry;
    if layers != [] {
      var last := |layers| - 1;
      FlatEntries(codec, layers[..last], tars[..last]);
      assert Entries(layers) == Entries(layers[..last]) + layers[last] && Flat(tars) == Flat(tars[..last]) + tars[last];
    }
  }

  /** The image that an archive's documents and layers describe. */
  ghost predicate Describes(codec: Codec, c: Closure, image: Image) {
    && image.manifestDigest == c.entry.digest && image.configDigest == c.manifest.config.digest
    && image.config == c.config
    && PrivateFrom(codec, Flat(c.layers), image.privateFiles)
  }

  /** An admitted image is what its archive describes: its private files are the regular members below
      the private root, in whatever layer, each with the digest of the content stored last. */
  lemma ImageFromMembers(codec: Codec, archive: seq<TarMember>, c: Closure)
    requires ClosedUnder(codec, archive, c)
    ensures Admissible(codec, archive) && Describes(codec, c, ImageOf(codec, archive))
  {
    ClosedIsAdmissible(codec, archive, c);
    FlatEntries(codec, LayersOf(codec, archive), c.layers);
    StoredFrom(codec, Flat(c.layers));
    hide PrivateFrom, ClosedUnder, LayersOf, PrivateFiles, Entries;
  }

  lemma PassedIsPlain(codec: Codec, m: TarMember, n: string)
    requires EntryOk(ToEntry(codec, m)) && Named(m, ROOT + "/" + n)
    ensures m.kind.Regular? || m.kind.Directory?
  {
    PrivateName(n);
    NamedExactly(m, ROOT + "/" + n);
    hide Named, StripDots, OciPaths.Regular, HidesPrivate;
    assert !m.kind.Directory? ==> Inside(ToEntry(codec, m).name);
  }

  /** No member below the private root is a link or a special file. */
  lemma PrivateMembersArePlain(codec: Codec, archive: seq<TarMember>, c: Closure, m: TarMember, n: string)
    requires ClosedUnder(codec, archive, c) && m in Flat(c.layers) && Named(m, ROOT + "/" + n)
    ensures m.kind.Regular? || m.kind.Directory?
  {
    hide EntryOk, ToEntry, Named, NamedApart, Passes, SafeMembers, Indexed, Described, LayerHolds, Flat;
    var i := FlatHas(c.layers, m);
    assert MembersPass(c.layers[i]);
    PassesExactly(codec, m);
    PassedIsPlain(codec, m, n);
  }

  lemma {:induction false} FlatHas(layers: seq<seq<TarMember>>, m: TarMember) returns (i: nat)
    requires m in Flat(layers)
    ensures i < |layers| && m in layers[i]
  {
    var last := |layers| - 1;
    if m in layers[last] { i := last; } else { i := FlatHas(layers[..last], m); }
  }

  lemma InspectedExactly(codec: Codec, archive: seq<TarMember>)
    ensures Admissible(codec, archive) <==> exists c :: ClosedUnder(codec, archive, c)
    ensures Admissible(codec, archive) ==> forall c ::
      ClosedUnder(codec, archive, c) ==> Describes(codec, c, ImageOf(codec, archive))
  {
    hide ClosedUnder, Describes, ImageOf, Admissible;
    AdmittedExactly(codec, archive);
    if Admissible(codec, archive) {
      forall c | ClosedUnder(codec, archive, c) ensures Describes(codec, c, ImageOf(codec, archive)) {
        ImageFromMembers(codec, archive, c);
      }
    }
  }

  method InspectOci(codec: Codec, archive: seq<TarMember>) returns (r: Option<Image>)
    ensures r == if Admissible(codec, archive) then Some(ImageOf(codec, archive)) else None
    ensures r.Some? <==> exists c :: ClosedUnder(codec, archive, c)
    ensures r.Some? ==> forall c :: ClosedUnder(codec, archive, c) ==> Describes(codec, c, r.value)
  {
    hide ClosedUnder, Describes, LayerTar;
    InspectedExactly(codec, archive);
    var m := ReadMembers(archive);
    if m.None? { return None; }
    var members := m.value;
    var docs := ReadDocuments(codec, members);
    if docs.None? { return None; }
    var Documents(md, manifest, config) := docs.value;
    var used := {LAYOUT_NAME, INDEX_NAME, BlobName(md), BlobName(manifest.config)};
    var files: map<string, string> := map[];
    assert |manifest.layers| == |config.diffIds|;
    for i := 0 to |manifest.layers|
      invariant LayersAdmitted(codec, members, manifest.layers[..i], config.diffIds[..i])
      invariant files
        == PrivateFiles(Entries(AdmittedLayers(codec, members, manifest.layers[..i], config.diffIds[..i])))
      invariant used == Reached(Documents(md, manifest.(layers := manifest.layers[..i]), config))
    {
      var d := manifest.layers[i];
      ghost var before := AdmittedLayers(codec, members, manifest.layers[..i], config.diffIds[..i]);
      LayersStep(codec, members, manifest.layers, config.diffIds, i);
      ReachedStep(docs.value, i);
      var next := InspectLayer(codec, members, d, config.diffIds[i], Entries(before), files);
      if next.None? { return None; }
      files := next.value;
      used := used + {BlobName(d)};
    }
    assert manifest.layers[..|manifest.layers|] == manifest.layers
      && config.diffIds[..|config.diffIds|] == config.diffIds;
    if members.Keys != used { return None; }
    return Some(Image(md.digest, manifest.config.digest, config, files));
  }

  // ----- What admission gives

  lemma {:induction false} EntriesAreOk(layers: seq<Layer>)
    requires forall l :: l in layers ==> forall e :: e in l ==> EntryOk(e)
    ensures LayersOk(layers)
  {
    if layers != [] {
      var last := |layers| - 1;
      assert layers[last] in layers && forall l :: l in layers[..last] ==> l in layers;
      EntriesAreOk(layers[..last]);
    }
  }

  /** The private files of an admitted image whose links lead no member to the private root are those
      of the file system its layers describe, when and only when no layer leaves a private file
      clobbered. */
  lemma AdmittedPrivateFiles(codec: Codec, archive: seq<TarMember>, links: nat)
    requires Admissible(codec, archive) && Straight(LayersOf(codec, archive), links)
    ensures var layers := LayersOf(codec, archive);
      Shows(ImageOf(codec, archive).privateFiles, Overlay(ItemLayers(layers), links)) <==> NothingStale(layers)
  {
    AdmittedLayersOk(codec, archive);
    PrivateFilesAgree(LayersOf(codec, archive), links);
  }

  lemma AdmittedLayersOk(codec: Codec, archive: seq<TarMember>)
    requires Admissible(codec, archive)
    ensures LayersOk(LayersOf(codec, archive))
  {
    var layers := LayersOf(codec, archive);
    forall l | l in layers ensures forall e :: e in l ==> EntryOk(e) {
      var i :| 0 <= i < |layers| && layers[i] == l;
    }
    EntriesAreOk(layers);
  }

  // ----- What a digest pins

  /** A name under which the two archives hold different contents of one digest. */
  ghost predicate Collide(hash: Bytes -> string, ma: map<string, Bytes>, mb: map<string, Bytes>) {
    exists n :: n in ma && n in mb && ma[n] != mb[n] && hash(ma[n]) == hash(mb[n])
  }

  lemma BlobPinned(codec: Codec, ma: map<string, Bytes>, mb: map<string, Bytes>, a: Descriptor, b: Descriptor,
                   media: string)
    requires !Collide(codec.sha256, ma, mb) && a.digest == b.digest
    requires DescriptorOk(codec, ma, a, media) && DescriptorOk(codec, mb, b, media)
    ensures ma[BlobName(a)] == mb[BlobName(a)]
  {
    var n := BlobName(a);
    assert n == BlobName(b) && codec.sha256(ma[n]) == codec.sha256(mb[n]);
  }

  lemma DocumentsPinned(codec: Codec, ma: map<string, Bytes>, mb: map<string, Bytes>, a: Descriptor, b: Descriptor)
    requires !Collide(codec.sha256, ma, mb) && a.digest == b.digest
    requires ReadManifest(codec, ma, a).Some? && ReadManifest(codec, mb, b).Some?
    ensures var da, db := ReadManifest(codec, ma, a).value, ReadManifest(codec, mb, b).value;
      da.manifest == db.manifest && da.config == db.config
    ensures ma[BlobName(a)] == mb[BlobName(a)]
    ensures var d := ReadManifest(codec, ma, a).value.manifest.config; ma[BlobName(d)] == mb[BlobName(d)]
  {
    hide DescriptorOk, Collide;
    BlobPinned(codec, ma, mb, a, b, MANIFEST);
    var d := ReadManifest(codec, ma, a).value.manifest.config;
    BlobPinned(codec, ma, mb, d, d, CONFIG);
  }

  lemma LayersPinned(codec: Codec, ma: map<string, Bytes>, mb: map<string, Bytes>, ds: seq<Descriptor>,
                     diffIds: seq<string>)
    requires !Collide(codec.sha256, ma, mb) && |ds| == |diffIds|
    requires LayersAdmitted(codec, ma, ds, diffIds) && LayersAdmitted(codec, mb, ds, diffIds)
    ensures AdmittedLayers(codec, ma, ds, diffIds) == AdmittedLayers(codec, mb, ds, diffIds)
    ensures forall d :: d in ds ==> BlobName(d) in ma && BlobName(d) in mb && ma[BlobName(d)] == mb[BlobName(d)]
  {}

  /** The manifest digest pins the image: archives admitted with the same manifest digest hold the same
      blobs under the same names, the same configuration and the same private files, or two of their
      blobs of one name collide. */
  lemma ManifestDigestPinsImage(codec: Codec, a: seq<TarMember>, b: seq<TarMember>)
    requires Admissible(codec, a) && Admissible(codec, b)
    requires ImageOf(codec, a).manifestDigest == ImageOf(codec, b).manifestDigest
    ensures Collide(codec.sha256, Members(a), Members(b)) || (
      && ImageOf(codec, a) == ImageOf(codec, b)
      && Members(a).Keys == Members(b).Keys
      && forall n :: n in Members(a) && n !in {LAYOUT_NAME, INDEX_NAME} ==> Members(a)[n] == Members(b)[n])
  {
    hide MembersOk, LayerTar, DescriptorOk, PrivateFiles, Entries, Collide;
    if !Collide(codec.sha256, Members(a), Members(b)) {
      var da, db := ReadDocuments(codec, Members(a)).value, ReadDocuments(codec, Members(b)).value;
      DocumentsPinned(codec, Members(a), Members(b), da.md, db.md);
      LayersPinned(codec, Members(a), Members(b), da.manifest.layers, da.config.diffIds);
      SameReach(da, db);
    }
  }

  lemma SameReach(a: Documents, b: Documents)
    requires a.manifest == b.manifest && a.md.digest == b.md.digest
    ensures Reached(a) == Reached(b)
  {}
}
