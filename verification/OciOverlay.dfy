/** The private files of an image: the layer pass of `inspect_oci` in
    ci/private_cert/image_admission.py, against the file system that the layers describe.

    The file system is that of an extractor that follows symbolic links on the way to a member, up to
    any number of them. */
module OciOverlay {
  import opened Wrappers
  import opened OciLayers
  import opened OciPaths
  import Text

  /** A layer member, its name without leading "./" and, for a directory, trailing '/'. */
  datatype Entry = Entry(name: string, kind: Kind)

  type Layer = seq<Entry>

  const ROOT := "opt/polis-private-image"
  const ROOT_PATH: Path := ["opt", "polis-private-image"]

  // ----- The layer pass

  /** `name.rpartition('/')`: the text before and after the last '/'. */
  function Rpartition(name: string): (r: (string, string))
    ensures '/' !in r.1
    ensures '/' !in name ==> r == ("", name)
    ensures '/' in name ==> name == r.0 + "/" + r.1
    decreases |name|
  {
    if name == "" then ("", "")
    else
      var last := |name| - 1;
      if name[last] == '/' then (name[..last], "")
      else
        var (parent, leaf) := Rpartition(name[..last]);
        assert name == name[..last] + [name[last]];
        (parent, leaf + [name[last]])
  }

  predicate IsRootEntry(e: Entry) {
    e.name in {"", "."} && e.kind.Dir?
  }

  predicate Ancestor(name: string) {
    name == ROOT || name + "/" <= ROOT
  }

  predicate Inside(name: string) {
    ROOT + "/" <= name
  }

  predicate HidesPrivate(name: string) {
    var (parent, leaf) := Rpartition(name);
    ".wh." <= leaf && (parent + "/" <= ROOT || parent == ROOT || ROOT + "/" <= parent || parent == "")
  }

  /** The member passes the checks of the layer pass. */
  predicate EntryOk(e: Entry) {
    IsRootEntry(e) || (
      && Regular(e.name)
      && (Ancestor(e.name) ==> e.kind.Dir?)
      && (Inside(e.name) ==> e.kind.File? || e.kind.Dir?)
      && !HidesPrivate(e.name))
  }

  /** The private file an entry stores, under its name below the root. */
  function PrivateKey(name: string): string
    requires Inside(name)
  {
    name[|ROOT| + 1..]
  }

  function Store(files: map<string, string>, e: Entry): map<string, string> {
    if Inside(e.name) && e.kind.File? then files[PrivateKey(e.name) := e.kind.digest] else files
  }

  /** `private_files` after the entries. */
  function PrivateFiles(entries: seq<Entry>): map<string, string> {
    if entries == [] then map[]
    else Store(PrivateFiles(entries[..|entries| - 1]), entries[|entries| - 1])
  }

  function Items(layer: Layer): (r: seq<Item>)
    ensures |r| == |layer| && forall i :: 0 <= i < |r| ==> r[i] == Item(Parts(layer[i].name), layer[i].kind)
  {
    seq(|layer|, i requires 0 <= i < |layer| => Item(Parts(layer[i].name), layer[i].kind))
  }

  function ItemLayers(layers: seq<Layer>): (r: seq<seq<Item>>)
    ensures |r| == |layers|
  {
    seq(|layers|, i requires 0 <= i < |layers| => Items(layers[i]))
  }

  /** All entries of all layers, in order. */
  function Entries(layers: seq<Layer>): seq<Entry> {
    if layers == [] then [] else Entries(layers[..|layers| - 1]) + layers[|layers| - 1]
  }

  // ----- Text tests and component tests

  lemma RootText()
    ensures Text.Join(ROOT_PATH, "/") == ROOT
  {}

  lemma RootNamed()
    ensures Named(ROOT_PATH) == ROOT_PATH
  {}

  lemma RootChars()
    ensures '\\' !in ROOT && forall c :: c in ROOT ==> c >= ' '
  {}

  lemma RootSplit()
    ensures Text.Split(ROOT, '/') == ROOT_PATH
  {
    RootText();
    assert '/' !in ROOT_PATH[0] && '/' !in ROOT_PATH[1];
    Text.SplitJoin(ROOT_PATH, '/');
  }

  lemma RootFirst()
    ensures ROOT[0] == 'o' && |ROOT| > 1 && ".." !in ROOT_PATH
  {}

  lemma RootIsRegular()
    ensures Regular(ROOT) && ROOT != "." && Parts(ROOT) == ROOT_PATH
  {
    RootSplit();
    RootNamed();
    RootText();
    RootChars();
    RootFirst();
  }

  /** The key of a private file at `p`. */
  function Key(p: Path): string
    requires ROOT_PATH < p
  {
    Text.Join(p[2..], "/")
  }

  lemma InsideTest(name: string)
    requires Regular(name)
    ensures Inside(name) <==> name != "." && ROOT_PATH < Parts(name)
  {
    RootIsRegular();
    if name == "." {
      assert !Inside(name) by { assert |name| == 1; }
    } else {
      PrefixTest(ROOT, name);
    }
  }

  lemma InsideKey(name: string)
    requires Regular(name) && Inside(name)
    ensures ROOT_PATH < Parts(name) && Key(Parts(name)) == PrivateKey(name)
  {
    InsideTest(name);
    var key := PrivateKey(name);
    assert name == ROOT + ['/'] + key;
    SplitConcat(ROOT, key, '/');
    RootSplit();
    RegularNormal(name);
    assert Parts(name)[2..] == Text.Split(key, '/');
    Text.JoinSplit(key, '/');
  }

  lemma SplitLeaf(parent: string, leaf: string)
    requires '/' !in leaf
    ensures Text.Split(leaf, '/') == [leaf]
    ensures Text.Split(parent + "/" + leaf, '/') == Text.Split(parent, '/') + [leaf]
  {
    SplitConcat(parent, leaf, '/');
    Text.SplitPrepend(leaf, "", '/');
    assert leaf + "" == leaf;
  }

  lemma ParentRegular(parent: string, leaf: string)
    requires '/' !in leaf && Regular(parent + "/" + leaf)
    ensures Regular(parent) && parent != "." && Parts(parent + "/" + leaf) == Parts(parent) + [leaf]
  {
    var name := parent + "/" + leaf;
    var dirs := Text.Split(parent, '/');
    RegularNormal(name);
    SplitLeaf(parent, leaf);
    assert name[0] != '/' && parent != "";
    assert parent[0] == name[0];
    forall d | d in dirs ensures d !in {"", ".", ".."} { assert d in Parts(name); }
    AllNamed(dirs);
    Text.JoinSplit(parent, '/');
    if parent == "." { RootEntryPath(); }
    forall c | c in parent ensures c in name {}
  }

  lemma RpartitionParts(name: string)
    requires Regular(name) && name != "."
    ensures var (parent, leaf) := Rpartition(name);
      && Parts(name) == (if parent == "" then [] else Parts(parent)) + [leaf]
      && (parent != "" ==> Regular(parent) && parent != ".")
  {
    var (parent, leaf) := Rpartition(name);
    if '/' in name {
      ParentRegular(parent, leaf);
    } else {
      RegularNormal(name);
      SplitLeaf("", name);
    }
  }

  lemma {:induction false} AllNamed(parts: seq<string>)
    requires forall p :: p in parts ==> p != "" && p != "."
    ensures Named(parts) == parts
  {
    if parts != [] {
      assert parts[0] in parts && forall p :: p in parts[1..] ==> p in parts;
      AllNamed(parts[1..]);
    }
  }

  lemma CompareText(name: string)
    requires Regular(name) && name != "."
    ensures Comparable(Parts(name), ROOT_PATH) <==> name + "/" <= ROOT || name == ROOT || ROOT + "/" <= name
  {
    RootIsRegular();
    PrefixTest(name, ROOT);
    PrefixTest(ROOT, name);
  }

  lemma RootEntryPath()
    ensures Parts("") == [] && Parts(".") == []
  {}

  /** A whiteout the layer pass lets through names nothing above or below the private root. */
  lemma WhiteoutsElsewhere(e: Entry)
    requires EntryOk(e) && IsWhiteout(Parts(e.name))
    ensures var q := Parts(e.name); !Comparable(q[..|q| - 1], ROOT_PATH)
  {
    RootEntryPath();
    ParentText(e.name);
    CompareText(Rpartition(e.name).0);
  }

  lemma ParentText(name: string)
    requires Regular(name) && IsWhiteout(Parts(name)) && !HidesPrivate(name)
    ensures var parent := Rpartition(name).0; var p := Parts(name);
      && parent != "" && Regular(parent) && parent != "." && p[..|p| - 1] == Parts(parent)
      && !(parent + "/" <= ROOT || parent == ROOT || ROOT + "/" <= parent)
  {
    RootEntryPath();
    RpartitionParts(name);
  }

  // ----- The dictionary against the file system

  /** `files` holds the digest of every file under the private root, and nothing else. */
  ghost predicate Shows(files: map<string, string>, fs: FileSystem) {
    && (forall p :: ROOT_PATH < p && FileAt(fs, p).Some? ==> Key(p) in files && files[Key(p)] == FileAt(fs, p).value)
    && (forall k :: k in files ==> exists p :: ROOT_PATH < p && FileAt(fs, p).Some? && Key(p) == k)
  }

  ghost predicate EntriesOk(entries: seq<Entry>) {
    forall e :: e in entries ==> EntryOk(e)
  }

  ghost predicate LayersOk(layers: seq<Layer>) {
    EntriesOk(Entries(layers))
  }

  lemma {:induction false} FlattenItems(layers: seq<Layer>)
    ensures Flatten(ItemLayers(layers)) == Items(Entries(layers))
  {
    if layers != [] {
      var lower := layers[..|layers| - 1];
      FlattenItems(lower);
      assert ItemLayers(layers) == ItemLayers(lower) + [Items(layers[|layers| - 1])];
      assert ItemLayers(layers)[..|layers| - 1] == ItemLayers(lower);
    }
  }

  lemma NormalParts(name: string)
    requires Regular(name) && name != "."
    ensures Normal(Parts(name))
  {
    RegularNormal(name);
    hide Regular, Parts;
    forall i | 0 <= i < |Parts(name)| ensures Parts(name)[i] != "" && Parts(name)[i] != "." && Parts(name)[i] != ".." {
      assert Parts(name)[i] in Parts(name);
    }
  }

  lemma AncestorTest(name: string)
    requires Regular(name) && name != "."
    ensures Ancestor(name) <==> Parts(name) <= ROOT_PATH
  {
    RootIsRegular();
    PrefixTest(name, ROOT);
    hide Regular, Parts;
    assert Parts(name) <= ROOT_PATH <==> Parts(name) < ROOT_PATH || Parts(name) == ROOT_PATH;
  }

  /** What the checks of one member give, as components. */
  lemma EntryGuarded(e: Entry)
    requires EntryOk(e)
    ensures Guarded(Item(Parts(e.name), e.kind), ROOT_PATH)
  {
    RootEntryPath();
    if Parts(e.name) != [] {
      NormalParts(e.name);
      AncestorTest(e.name);
      InsideTest(e.name);
    }
    if IsWhiteout(Parts(e.name)) { WhiteoutsElsewhere(e); }
    hide Regular, Parts, HidesPrivate, Ancestor, Inside, Normal;
  }

  lemma ItemsGuarded(entries: seq<Entry>)
    requires EntriesOk(entries)
    ensures forall e :: e in Items(entries) ==> Guarded(e, ROOT_PATH)
  {
    hide EntryOk, Guarded;
    forall e | e in Items(entries) ensures Guarded(e, ROOT_PATH) {
      var i :| 0 <= i < |entries| && Items(entries)[i] == e;
      EntryGuarded(entries[i]);
    }
  }

  lemma InsideIsNoWhiteout(e: Entry)
    requires EntryOk(e) && ROOT_PATH < Parts(e.name)
    ensures !IsWhiteout(Parts(e.name))
  {
    var p := Parts(e.name);
    assert ROOT_PATH <= p[..|p| - 1];
    if IsWhiteout(p) { WhiteoutsElsewhere(e); }
  }

  /** An accepted file entry lies at `p`, below the root, exactly when it is stored under `p`'s key. */
  lemma FileEntryNamed(e: Entry, name: string)
    requires EntryOk(e) && Regular(name) && Inside(name)
    ensures FileEntryAt(Item(Parts(e.name), e.kind), Parts(name))
       <==> e.kind.File? && Inside(e.name) && PrivateKey(e.name) == PrivateKey(name)
  {
    InsideTest(name);
    if e.kind.File? {
      InsideTest(e.name);
      if e.name != "." { PrefixTest(e.name, name); }
      if Inside(e.name) {
        assert e.name == ROOT + "/" + PrivateKey(e.name) && name == ROOT + "/" + PrivateKey(name);
        InsideIsNoWhiteout(e);
      }
    }
  }

  function Lookup(files: map<string, string>, name: string): Option<string>
    requires Inside(name)
  {
    if PrivateKey(name) in files then Some(files[PrivateKey(name)]) else None
  }

  lemma StoreLookup(files: map<string, string>, e: Entry, name: string)
    requires EntryOk(e) && Regular(name) && Inside(name)
    ensures Lookup(Store(files, e), name)
         == if FileEntryAt(Item(Parts(e.name), e.kind), Parts(name)) then Some(e.kind.digest) else Lookup(files, name)
  {
    FileEntryNamed(e, name);
  }

  lemma LastFileStep(entries: seq<Entry>, p: Path)
    requires entries != []
    ensures var last := |entries| - 1; var e := Item(Parts(entries[last].name), entries[last].kind);
      LastFile(Items(entries), p)
      == if FileEntryAt(e, p) then Some(e.kind.digest) else LastFile(Items(entries[..last]), p)
  {
    assert Items(entries)[..|entries| - 1] == Items(entries[..|entries| - 1]);
  }

  lemma {:induction false} LookupIsLastFile(entries: seq<Entry>, name: string)
    requires EntriesOk(entries) && Regular(name) && Inside(name)
    ensures LastFile(Items(entries), Parts(name)) == Lookup(PrivateFiles(entries), name)
  {
    if entries != [] {
      var last := |entries| - 1;
      LookupIsLastFile(entries[..last], name);
      LastFileStep(entries, Parts(name));
      StoreLookup(PrivateFiles(entries[..last]), entries[last], name);
    }
  }

  lemma {:induction false} KeysAreNames(entries: seq<Entry>, k: string) returns (name: string)
    requires EntriesOk(entries) && k in PrivateFiles(entries)
    ensures Regular(name) && Inside(name) && PrivateKey(name) == k
  {
    var e := entries[|entries| - 1];
    assert EntryOk(e);
    if Inside(e.name) && e.kind.File? && PrivateKey(e.name) == k {
      name := e.name;
    } else {
      name := KeysAreNames(entries[..|entries| - 1], k);
    }
  }

  lemma FilesAreNamed(entries: seq<Entry>, p: Path) returns (name: string)
    requires EntriesOk(entries) && ROOT_PATH < p && LastFile(Items(entries), p).Some?
    ensures Regular(name) && Inside(name) && Parts(name) == p
  {
    LastFileNone(Items(entries), p);
    var i :| 0 <= i < |entries| && FileEntryAt(Items(entries)[i], p);
    name := entries[i].name;
    assert EntryOk(entries[i]);
    RootEntryPath();
    InsideTest(name);
  }

  ghost predicate NothingStale(layers: seq<Layer>) {
    forall p :: ROOT_PATH < p ==> !Stale(Items(Entries(layers)), p)
  }

  /** No member that links lead elsewhere lands above, at or below the private root. */
  ghost predicate Straight(layers: seq<Layer>, links: nat) {
    LinksStayAway(ItemLayers(layers), ROOT_PATH, links)
  }

  /** At `p` the final file system has the last file stored there, unless that is stale. */
  lemma FinalFile(layers: seq<Layer>, links: nat, p: Path)
    requires LayersOk(layers) && Straight(layers, links) && ROOT_PATH < p
    ensures FileAt(Overlay(ItemLayers(layers), links), p)
         == if Stale(Items(Entries(layers)), p) then None else LastFile(Items(Entries(layers)), p)
    ensures Stale(Items(Entries(layers)), p) ==> LastFile(Items(Entries(layers)), p).Some?
  {
    var items := Items(Entries(layers));
    FlattenItems(layers);
    ItemsGuarded(Entries(layers));
    hide Guarded, EntryOk, Overlay, LinksStayAway, Stale;
    OverlayIsFlat(ItemLayers(layers), links, ROOT_PATH, p);
    AgreeUnlessStale(items, p);
    if Stale(items, p) { DifferMeansNone(items, p); }
  }

  lemma FreshShows(layers: seq<Layer>, links: nat)
    requires LayersOk(layers) && Straight(layers, links) && NothingStale(layers)
    ensures Shows(PrivateFiles(Entries(layers)), Overlay(ItemLayers(layers), links))
  {
    hide EntryOk, Overlay, Straight, Stale, PrivateFiles, Items;
    var fs := Overlay(ItemLayers(layers), links);
    var files := PrivateFiles(Entries(layers));
    forall p | ROOT_PATH < p && FileAt(fs, p).Some? ensures Key(p) in files && files[Key(p)] == FileAt(fs, p).value {
      FinalFile(layers, links, p);
      var name := FilesAreNamed(Entries(layers), p);
      InsideKey(name);
      LookupIsLastFile(Entries(layers), name);
    }
    forall k | k in files ensures exists p :: ROOT_PATH < p && FileAt(fs, p).Some? && Key(p) == k {
      var name := KeysAreNames(Entries(layers), k);
      InsideKey(name);
      LookupIsLastFile(Entries(layers), name);
      FinalFile(layers, links, Parts(name));
    }
  }

  lemma KeysDistinct(layers: seq<Layer>, p: Path, q: Path)
    requires LayersOk(layers) && ROOT_PATH < p && ROOT_PATH < q && Key(p) == Key(q)
    requires LastFile(Items(Entries(layers)), p).Some? && LastFile(Items(Entries(layers)), q).Some?
    ensures p == q
  {
    var a := FilesAreNamed(Entries(layers), p);
    var b := FilesAreNamed(Entries(layers), q);
    InsideKey(a);
    InsideKey(b);
    assert a == ROOT + "/" + PrivateKey(a) && b == ROOT + "/" + PrivateKey(b);
  }

  lemma StaleIsWrong(layers: seq<Layer>, links: nat, p: Path)
    requires LayersOk(layers) && Straight(layers, links) && ROOT_PATH < p && Stale(Items(Entries(layers)), p)
    ensures !Shows(PrivateFiles(Entries(layers)), Overlay(ItemLayers(layers), links))
  {
    hide EntryOk, Overlay, Straight, Stale, PrivateFiles, Items;
    var fs := Overlay(ItemLayers(layers), links);
    FinalFile(layers, links, p);
    var name := FilesAreNamed(Entries(layers), p);
    InsideKey(name);
    LookupIsLastFile(Entries(layers), name);
    forall q | ROOT_PATH < q && FileAt(fs, q).Some? ensures Key(q) != Key(p) {
      FinalFile(layers, links, q);
      if Key(q) == Key(p) { KeysDistinct(layers, p, q); }
    }
  }

  /** For layers the pass accepts, and whose links lead no member to the private root, the dictionary it
      builds is the private part of the final file system exactly when no private file is clobbered by a
      later entry and left so. */
  lemma PrivateFilesAgree(layers: seq<Layer>, links: nat)
    requires LayersOk(layers) && Straight(layers, links)
    ensures Shows(PrivateFiles(Entries(layers)), Overlay(ItemLayers(layers), links)) <==> NothingStale(layers)
  {
    if NothingStale(layers) {
      FreshShows(layers, links);
    } else {
      var p :| ROOT_PATH < p && Stale(Items(Entries(layers)), p);
      StaleIsWrong(layers, links, p);
    }
  }

  /** The condition on links can be read off the names: it holds when none goes through the name of a
      link. */
  lemma NoNameBelowLinkIsStraight(layers: seq<Layer>, links: nat)
    requires LayersOk(layers) && NoneBelowLinks(Items(Entries(layers)))
    ensures Straight(layers, links)
  {
    hide NoneBelowLinks, EntryOk;
    FlattenItems(layers);
    ItemsGuarded(Entries(layers));
    NoneBelowStayAway(ItemLayers(layers), links, Items(Entries(layers)), ROOT_PATH);
  }

  /** No private path is a file in one entry and, in another, a directory or below something that
      is not one. */
  ghost predicate Unmixed(items: seq<Item>) {
    forall d, e, p :: d in items && e in items && ROOT_PATH < p && FileEntryAt(d, p) ==> !Clobbers(e, p)
  }

  lemma UnmixedPathsAgree(layers: seq<Layer>, links: nat)
    requires LayersOk(layers) && Straight(layers, links) && Unmixed(Items(Entries(layers)))
    ensures Shows(PrivateFiles(Entries(layers)), Overlay(ItemLayers(layers), links))
  {
    var items := Items(Entries(layers));
    forall p | ROOT_PATH < p ensures !Stale(items, p) {
      forall i, j ensures !StaleAt(items, p, i, j) {
        assert 0 <= i < |items| ==> items[i] in items;
        assert 0 <= j < |items| ==> items[j] in items;
      }
    }
    FreshShows(layers, links);
  }
}
