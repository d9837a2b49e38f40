/** Images for which the dictionary of private files is wrong, though the layer pass of `inspect_oci` in
    ci/private_cert/image_admission.py accepts them. */
module OciExamples {
  import opened Wrappers
  import opened OciLayers
  import opened OciPaths
  import opened OciOverlay
  import OciInspect
  import Text

  // ----- Names made of plain components

  predicate Plain(leaf: string) {
    leaf != "" && leaf != "." && leaf != ".." && forall c :: c in leaf ==> c != '/' && c != '\\' && c >= ' '
  }

  lemma LeafRegular(leaf: string)
    requires Plain(leaf)
    ensures Regular(leaf) && Parts(leaf) == [leaf]
  {
    SplitLeaf("", leaf);
    AllNamed([leaf]);
    assert leaf[0] in leaf && '\\' !in leaf;
    assert PathText([leaf]) == leaf && ".." !in [leaf];
  }

  lemma ChildRegular(parent: string, leaf: string)
    requires Regular(parent) && parent != "." && Plain(leaf)
    ensures Regular(parent + "/" + leaf) && Parts(parent + "/" + leaf) == Parts(parent) + [leaf]
  {
    var name := parent + "/" + leaf;
    RegularNormal(parent);
    SplitLeaf(parent, leaf);
    forall d | d in Parts(parent) + [leaf] ensures d != "" && d != "." && d != ".." {}
    AllNamed(Parts(parent) + [leaf]);
    Text.JoinSplit(name, '/');
    forall c | c in name ensures c != '\\' && c >= ' ' { assert c in parent || c == '/' || c in leaf; }
  }

  lemma {:induction false} RpartitionChild(parent: string, leaf: string)
    requires '/' !in leaf
    ensures Rpartition(parent + "/" + leaf) == (parent, leaf)
  {
    var name := parent + "/" + leaf;
    if leaf == "" {
      assert name[..|name| - 1] == parent;
    } else {
      var front := leaf[..|leaf| - 1];
      assert name[..|name| - 1] == parent + "/" + front && front + [leaf[|leaf| - 1]] == leaf;
      RpartitionChild(parent, front);
    }
  }

  // ----- Accepted members

  /** A file and a link that the two images below are built from. */
  datatype Names = Names(leaf: string, service: string) {
    predicate Valid() {
      && Plain(leaf) && Plain(service) && !(".wh." <= leaf) && !(".wh." <= service)
      && service[0] != 'o'
    }

    function Private(): string {
      ROOT + "/" + leaf
    }

    function PrivatePath(): Path {
      ROOT_PATH + [leaf]
    }

    function Below(): string {
      service + "/" + leaf
    }
  }

  lemma PrivateName(n: Names)
    requires n.Valid()
    ensures Regular(n.Private()) && Inside(n.Private()) && !Ancestor(n.Private())
      && Parts(n.Private()) == n.PrivatePath()
  {
    RootIsRegular();
    hide Regular, Parts, Plain;
    ChildRegular(ROOT, n.leaf);
    assert |n.Private()| > |ROOT|;
  }

  lemma HidesNothing(parent: string, leaf: string)
    requires '/' !in leaf && !(".wh." <= leaf)
    ensures !HidesPrivate(parent + "/" + leaf)
  {
    RpartitionChild(parent, leaf);
  }

  lemma StartsElsewhere(name: string)
    requires name != "" && name[0] != 'o'
    ensures !Ancestor(name) && !Inside(name)
  {
    RootFirst();
    assert (name + "/")[0] == name[0] && (ROOT + "/")[0] == ROOT[0];
  }

  lemma PrivateAccepted(n: Names, kind: Kind)
    requires n.Valid() && (kind.File? || kind.Dir?)
    ensures EntryOk(Entry(n.Private(), kind)) && Regular(n.Private()) && Inside(n.Private())
    ensures Parts(n.Private()) == n.PrivatePath() && !IsWhiteout(n.PrivatePath())
  {
    PrivateName(n);
    HidesNothing(ROOT, n.leaf);
    hide Regular, Parts, Plain, HidesPrivate, Inside, Ancestor;
  }

  lemma ServiceAccepted(n: Names)
    requires n.Valid()
    ensures EntryOk(Entry(n.service, Symlink(ROOT))) && Parts(n.service) == [n.service]
  {
    LeafRegular(n.service);
    StartsElsewhere(n.service);
    assert '/' !in n.service;
    hide Regular, Parts, Plain, Rpartition, Inside, Ancestor;
  }

  lemma BelowAccepted(n: Names, digest: string)
    requires n.Valid()
    ensures EntryOk(Entry(n.Below(), File(digest))) && Parts(n.Below()) == [n.service, n.leaf]
  {
    LeafRegular(n.service);
    HidesNothing(n.service, n.leaf);
    hide Regular, Parts, HidesPrivate, Inside, Ancestor;
    ChildRegular(n.service, n.leaf);
    assert n.Below()[0] == n.service[0];
    StartsElsewhere(n.Below());
  }

  lemma EntriesOfTwo(a: Layer, b: Layer)
    ensures Entries([a, b]) == a + b
  {
    assert [a, b][..1] == [a] && [a][..0] == [];
    assert Entries([a]) == Entries([]) + a;
  }

  lemma OneLayer(layer: Layer)
    ensures Entries([layer]) == layer && ItemLayers([layer]) == [Items(layer)]
  {
    assert [layer][..0] == [] && Entries([layer]) == [] + layer;
  }

  lemma ItemsOfThree(x: Entry, y: Entry, z: Entry)
    ensures Items([x, y, z]) == Items([x]) + Items([y]) + Items([z])
  {
    hide Parts;
  }

  // ----- A file turned into a directory

  function Turned(n: Names, digest: string): seq<Layer> {
    [[Entry(n.Private(), File(digest))], [Entry(n.Private(), Dir)]]
  }

  lemma TurnedItems(n: Names, digest: string)
    requires n.Valid()
    ensures LayersOk(Turned(n, digest))
    ensures Items(Entries(Turned(n, digest))) == [Item(n.PrivatePath(), File(digest)), Item(n.PrivatePath(), Dir)]
  {
    PrivateAccepted(n, File(digest));
    PrivateAccepted(n, Dir);
    hide EntryOk, Parts, Regular, Inside;
    EntriesOfTwo(Turned(n, digest)[0], Turned(n, digest)[1]);
  }

  /** A private file that a later layer turns into a directory is accepted and stays in the dictionary;
      no link is involved. */
  lemma TurnedIsWrong(n: Names, digest: string, links: nat)
    requires n.Valid()
    ensures var layers := Turned(n, digest);
      && LayersOk(layers) && Straight(layers, links) && !NothingStale(layers)
      && !Shows(PrivateFiles(Entries(layers)), Overlay(ItemLayers(layers), links))
  {
    var layers := Turned(n, digest);
    TurnedItems(n, digest);
    PrivateAccepted(n, Dir);
    assert StaleAt(Items(Entries(layers)), n.PrivatePath(), 0, 1);
    assert NoneBelowLinks(Items(Entries(layers)));
    hide LayersOk, Straight, Shows, Items;
    NoNameBelowLinkIsStraight(layers, links);
    StaleIsWrong(layers, links, n.PrivatePath());
  }

  // ----- A member below a link

  function Linked(n: Names, a: string, b: string): seq<Layer> {
    [[Entry(n.Private(), File(a)), Entry(n.service, Symlink(ROOT)), Entry(n.Below(), File(b))]]
  }

  function LinkedItems(n: Names, a: string, b: string): seq<Item> {
    [Item(n.PrivatePath(), File(a)), Item([n.service], Symlink(ROOT)), Item([n.service, n.leaf], File(b))]
  }

  lemma LinkedAre(n: Names, a: string, b: string)
    requires n.Valid()
    ensures LayersOk(Linked(n, a, b)) && Items(Entries(Linked(n, a, b))) == LinkedItems(n, a, b)
    ensures ItemLayers(Linked(n, a, b)) == [LinkedItems(n, a, b)]
  {
    hide EntryOk, Parts, Regular, Inside, Names.Valid, Plain, Names.Private, Names.Below, Names.PrivatePath;
    hide Entries, ItemLayers, IsWhiteout;
    PrivateAccepted(n, File(a));
    ServiceAccepted(n);
    BelowAccepted(n, b);
    var x, y, z := Entry(n.Private(), File(a)), Entry(n.service, Symlink(ROOT)), Entry(n.Below(), File(b));
    OneLayer([x, y, z]);
    ItemsOfThree(x, y, z);
    assert Items([x]) == [LinkedItems(n, a, b)[0]];
    assert Items([y]) == [LinkedItems(n, a, b)[1]];
    assert Items([z]) == [LinkedItems(n, a, b)[2]];
  }

  lemma WalkStep(fs: FileSystem, at: Path, c: string, rest: seq<string>, links: nat)
    requires c != "" && c != "." && c != ".." && at + [c] !in fs
    ensures Walk(fs, at, [c] + rest, links) == Walk(fs, at + [c], rest, links)
  {
    assert ([c] + rest)[1..] == rest;
  }

  lemma WalkLink(fs: FileSystem, c: string, target: string, links: nat)
    requires c != "" && c != "." && c != ".." && [c] in fs && fs[[c]] == Symlink(target) && links > 0
    requires target != "" && target[0] != '/'
    ensures Walk(fs, [], [c], links) == Walk(fs, [], Text.Split(target, '/'), links - 1)
  {
    assert [] + [c] == [c] && [c][1..] == [];
    assert Text.Split(target, '/') + [] == Text.Split(target, '/');
  }

  /** The walk through a link to a directory of two components. */
  lemma LinkLeads(fs: FileSystem, service: string, leaf: string, target: string, c: string, d: string, links: nat)
    requires Normal([service]) && Normal([c, d]) && service != c && links > 0
    requires fs.Keys == {[c, d, leaf], [service]} && fs[[service]] == Symlink(target)
    requires target != "" && target[0] != '/' && Text.Split(target, '/') == [c, d]
    ensures Place(fs, [service, leaf], links) == Some([c, d, leaf])
  {
    assert [service][0] == service && [c, d][0] == c && [c, d][1] == d;
    assert [service, leaf][..1] == [service];
    WalkLink(fs, service, target, links);
    assert [c] + [d] == [c, d] && [] + [c] == [c] && [d] + [] == [d];
    assert |[c]| == 1 && |[c, d]| == 2 && [c][0] == c;
    assert [c] !in fs.Keys && [c, d] !in fs.Keys;
    WalkStep(fs, [], c, [d], links - 1);
    WalkStep(fs, [c], d, [], links - 1);
    assert Walk(fs, [c, d], [], links - 1) == Some([c, d]) && [c, d] + [leaf] == [c, d, leaf];
  }

  lemma RootTarget()
    ensures ROOT != "" && ROOT[0] != '/' && Text.Split(ROOT, '/') == [ROOT_PATH[0], ROOT_PATH[1]]
    ensures Normal([ROOT_PATH[0], ROOT_PATH[1]]) && ROOT_PATH[0][0] == 'o'
  {
    RootSplit();
    RootFirst();
    RootIsRegular();
    NormalParts(ROOT);
    hide Normal, Regular, Parts;
    assert ROOT_PATH == [ROOT_PATH[0], ROOT_PATH[1]];
  }

  lemma FirstMember(x: Extraction, p: Path, digest: string, links: nat)
    requires x.fs == map[] && Place(map[], p, links) == Some(p) && !IsWhiteout(p)
    ensures Apply(x, Item(p, File(digest)), links).fs == map[p := File(digest)]
  {}

  lemma SecondMember(x: Extraction, p: Path, digest: string, service: string, target: string, links: nat)
    requires x.fs == map[p := File(digest)] && |p| > 1 && p[0] != service && !IsWhiteout([service])
    ensures Apply(x, Item([service], Symlink(target)), links).fs == map[p := File(digest), [service] := Symlink(target)]
  {
    assert [service][..0] == [] && [] + [service] == [service];
    assert [service][0] == service && !([service] < p) && !(p < [service]);
  }

  lemma ThirdMember(x: Extraction, path: Path, p: Path, digest: string, links: nat)
    requires Place(x.fs, path, links) == Some(p) && !IsWhiteout(p)
    ensures FileAt(Apply(x, Item(path, File(digest)), links).fs, p) == Some(digest)
  {}

  lemma ApplyThree(x: Item, y: Item, z: Item, links: nat)
    ensures var start := Extraction(map[], {});
      Overlay([[x, y, z]], links) == Apply(Apply(Apply(start, x, links), y, links), z, links).fs
  {
    hide Apply;
    var start := Extraction(map[], {});
    assert [[x, y, z]][..0] == [];
    assert [x, y, z][..2] == [x, y] && [x, y][..1] == [x] && [x][..0] == [];
    assert ApplyAll(start, [x], links) == Apply(start, x, links);
    assert ApplyAll(start, [x, y], links) == Apply(ApplyAll(start, [x], links), y, links);
  }

  /** One layer: a file, a link to its directory, and a file through the link. */
  lemma LinkedLayer(service: string, leaf: string, target: string, c: string, d: string, a: string, b: string,
                    links: nat)
    requires Normal([service]) && Normal([c, d]) && service != c && links > 0 && target != "" && target[0] != '/'
    requires Text.Split(target, '/') == [c, d] && !IsWhiteout([c, d, leaf]) && !IsWhiteout([service])
    requires Place(map[], [c, d, leaf], links) == Some([c, d, leaf])
    ensures var e := Item([c, d, leaf], File(a)); var l := Item([service], Symlink(target));
      var layer := [e, l, Item([service, leaf], File(b))];
      FileAt(Overlay([layer], links), [c, d, leaf]) == Some(b)
  {
    hide Overlay, Apply, Walk, Place, IsWhiteout, Normal;
    var p := [c, d, leaf];
    var x, y, z := Item(p, File(a)), Item([service], Symlink(target)), Item([service, leaf], File(b));
    ApplyThree(x, y, z, links);
    var start := Extraction(map[], {});
    var first := Apply(start, x, links);
    FirstMember(start, p, a, links);
    SecondMember(first, p, a, service, target, links);
    LinkLeads(Apply(first, y, links).fs, service, leaf, target, c, d, links);
    ThirdMember(Apply(first, y, links), z.path, p, b, links);
  }

  lemma PrivatePlaced(n: Names, links: nat)
    requires n.Valid()
    ensures Place(map[], n.PrivatePath(), links) == Some(n.PrivatePath()) && !IsWhiteout(n.PrivatePath())
  {
    hide Place, Guarded, EntryOk, Parts, Regular, Inside, Plain;
    PrivateAccepted(n, Dir);
    EntryGuarded(Entry(n.Private(), Dir));
    assert ROOT_PATH <= n.PrivatePath();
    PlaceStraight(map[], Item(n.PrivatePath(), Dir), links, ROOT_PATH);
  }

  lemma ServiceNormal(n: Names)
    requires n.Valid()
    ensures Normal([n.service]) && !IsWhiteout([n.service])
  {
    assert [n.service][0] == n.service;
  }

  lemma ServiceDiffers(n: Names)
    requires n.Valid()
    ensures n.service != ROOT_PATH[0]
  {
    RootTarget();
  }

  lemma LinkedExtracts(n: Names, a: string, b: string, links: nat)
    requires n.Valid() && links > 0
    ensures FileAt(Overlay(ItemLayers(Linked(n, a, b)), links), n.PrivatePath()) == Some(b)
  {
    hide Linked, ItemLayers, Parts, EntryOk, Plain, Overlay, Place, Normal, IsWhiteout, Inside, Regular;
    hide Names.Valid, Items, FileAt, LayersOk, Entries, LinksStayAway, Text.Split;
    LinkedAre(n, a, b);
    PrivatePlaced(n, links);
    ServiceNormal(n);
    ServiceDiffers(n);
    RootTarget();
    assert n.PrivatePath() == [ROOT_PATH[0], ROOT_PATH[1], n.leaf];
    LinkedLayer(n.service, n.leaf, ROOT, ROOT_PATH[0], ROOT_PATH[1], a, b, links);
  }

  lemma LinkedFresh(n: Names, a: string, b: string)
    requires n.Valid()
    ensures forall p :: ROOT_PATH < p ==> !Stale(LinkedItems(n, a, b), p)
  {
    forall p, i, j | ROOT_PATH < p ensures !StaleAt(LinkedItems(n, a, b), p, i, j) {
      assert p[0] == ROOT_PATH[0] && ROOT_PATH[0][0] == 'o' && p[0] != n.service;
    }
  }

  lemma LinkedLastFile(n: Names, a: string, b: string)
    requires n.Valid() && !IsWhiteout(n.PrivatePath())
    ensures LastFile(LinkedItems(n, a, b), n.PrivatePath()) == Some(a)
  {
    var e := LinkedItems(n, a, b);
    assert e[..2][..1] == [e[0]];
    assert LastFile([e[0]], n.PrivatePath()) == Some(a);
    assert LastFile(e[..2], n.PrivatePath()) == Some(a);
  }

  /** The condition on links is needed: through a link outside the private root a later member of one
      layer replaces a private file. All members are accepted and no private file is clobbered by name,
      but the dictionary holds the digest of the file that was replaced. */
  lemma LinkReachesPrivateFile(n: Names, a: string, b: string, links: nat)
    requires n.Valid() && a != b && links > 0
    ensures var layers := Linked(n, a, b);
      && LayersOk(layers) && NothingStale(layers) && !Straight(layers, links)
      && !Shows(PrivateFiles(Entries(layers)), Overlay(ItemLayers(layers), links))
  {
    var layers := Linked(n, a, b);
    LinkedAre(n, a, b);
    LinkedExtracts(n, a, b, links);
    LinkedFresh(n, a, b);
    PrivateAccepted(n, File(a));
    LinkedLastFile(n, a, b);
    InsideKey(n.Private());
    LookupIsLastFile(Entries(layers), n.Private());
    hide LayersOk, Overlay, PrivateFiles, Stale, LastFile, Straight, EntryOk, Parts, Regular;
    if Straight(layers, links) { FreshShows(layers, links); }
  }

  // ----- Whole archives

  /** Whatever the decoders and the hash are: an archive that is admitted with such layers comes with
      the wrong private files. */
  lemma AdmittedAndWrong(codec: OciInspect.Codec, archive: seq<OciInspect.TarMember>, n: Names, digest: string,
                         links: nat)
    requires n.Valid() && OciInspect.Admissible(codec, archive)
    requires OciInspect.LayersOf(codec, archive) == Turned(n, digest)
    ensures var layers := OciInspect.LayersOf(codec, archive);
      && Straight(layers, links)
      && !Shows(OciInspect.ImageOf(codec, archive).privateFiles, Overlay(ItemLayers(layers), links))
  {
    hide Shows, Straight, PrivateFiles, OciInspect.Admissible;
    TurnedIsWrong(n, digest, links);
  }

  lemma AdmittedAndReplaced(codec: OciInspect.Codec, archive: seq<OciInspect.TarMember>, n: Names, a: string, b: string,
                            links: nat)
    requires n.Valid() && a != b && links > 0 && OciInspect.Admissible(codec, archive)
    requires OciInspect.LayersOf(codec, archive) == Linked(n, a, b)
    ensures var layers := OciInspect.LayersOf(codec, archive);
      && NothingStale(layers)
      && !Shows(OciInspect.ImageOf(codec, archive).privateFiles, Overlay(ItemLayers(layers), links))
  {
    hide Shows, Straight, PrivateFiles, OciInspect.Admissible;
    LinkReachesPrivateFile(n, a, b, links);
  }

  // ----- The launcher

  const LAUNCHER := Names("launcher.py", "srv")

  lemma LauncherValid()
    ensures LAUNCHER.Valid()
  {
    assert LAUNCHER.leaf[0] == 'l' && LAUNCHER.service[0] == 's';
  }

  /** The launcher replaced by a directory: accepted, and the dictionary still lists it. */
  lemma FileTurnedDirectory(digest: string, links: nat)
    ensures var layers := Turned(LAUNCHER, digest);
      && LayersOk(layers) && Straight(layers, links)
      && !Shows(PrivateFiles(Entries(layers)), Overlay(ItemLayers(layers), links))
  {
    LauncherValid();
    hide *;
    TurnedIsWrong(LAUNCHER, digest, links);
  }

  /** The launcher replaced through the link srv: accepted, and the dictionary lists the old one. */
  lemma LauncherReplaced(links: nat)
    requires links > 0
    ensures var layers := Linked(LAUNCHER, "old", "new");
      && LayersOk(layers) && NothingStale(layers)
      && !Shows(PrivateFiles(Entries(layers)), Overlay(ItemLayers(layers), links))
  {
    LauncherValid();
    assert "old"[0] != "new"[0];
    hide *;
    LinkReachesPrivateFile(LAUNCHER, "old", "new", links);
  }
}
