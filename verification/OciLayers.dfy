/** The file system that the layers of an image describe, as components of paths. Members are applied
    in order; a whiteout hides what lower layers hold (section "Whiteouts" of the OCI image layer
    specification), and the parents of every member are followed through symbolic links. */
module OciLayers {
  import opened Wrappers
  import Text

  /** A path as its components, from the root of the image. */
  type Path = seq<string>

  /** What a member is; a file carries the digest of its content, a link the text of its target, and
      `Special` is any other member. */
  datatype Kind = File(digest: string) | Dir | Symlink(target: string) | HardLink(target: string) | Special

  datatype Item = Item(path: Path, kind: Kind)

  type FileSystem = map<Path, Kind>

  predicate IsWhiteout(p: Path) {
    p != [] && ".wh." <= p[|p| - 1]
  }

  /** What a whiteout hides in the layers below: all children of its directory, or one sibling
      with everything under it. */
  predicate Hides(whiteout: Path, p: Path)
    requires IsWhiteout(whiteout)
  {
    var dir, leaf := whiteout[..|whiteout| - 1], whiteout[|whiteout| - 1];
    if leaf == ".wh..wh..opq" then dir < p else dir + [leaf[4..]] <= p
  }

  /** A whiteout of a name hides that sibling with everything under it; an opaque one, all of the
      directory's children. */
  lemma WhiteoutsHide(dir: Path, name: string, p: Path)
    ensures name != ".wh..opq" ==> (Hides(dir + [".wh." + name], p) <==> dir + [name] <= p)
    ensures Hides(dir + [".wh..wh..opq"], p) <==> dir <= p && p != dir
  {
    var leaf := ".wh." + name;
    assert (dir + [leaf])[..|dir|] == dir && (dir + [".wh..wh..opq"])[..|dir|] == dir;
    assert leaf[4..] == name;
    if leaf == ".wh..wh..opq" { assert name == ".wh..wh..opq"[4..] == ".wh..opq"; }
  }

  // ----- Where a member lands

  /** Where `rest` leads from the directory `at`, following at most `links` symbolic links. */
  function Walk(fs: FileSystem, at: Path, rest: seq<string>, links: nat): Option<Path>
    decreases links, |rest|
  {
    if rest == [] then Some(at)
    else if rest[0] == "" || rest[0] == "." then Walk(fs, at, rest[1..], links)
    else if rest[0] == ".." then Walk(fs, if at == [] then [] else at[..|at| - 1], rest[1..], links)
    else
      var q := at + [rest[0]];
      if q in fs && fs[q].Symlink? then
        if links == 0 then None
        else Walk(fs, if "/" <= fs[q].target then [] else at, Text.Split(fs[q].target, '/') + rest[1..], links - 1)
      else Walk(fs, q, rest[1..], links)
  }

  /** "." stays, ".." goes up and not above the root of the image, and a link leads from its own directory,
      or from the root when its target begins there, to its target, followed by what is left. */
  lemma WalkSteps(fs: FileSystem, at: Path, name: string, rest: seq<string>, links: nat)
    ensures Walk(fs, at, ["."] + rest, links) == Walk(fs, at, rest, links) == Walk(fs, at, [""] + rest, links)
    ensures Walk(fs, at + [name], [".."] + rest, links) == Walk(fs, at, rest, links)
    ensures Walk(fs, [], [".."] + rest, links) == Walk(fs, [], rest, links)
    ensures name !in {"", ".", ".."} && at + [name] in fs && fs[at + [name]].Symlink? && links > 0 ==>
      var target := fs[at + [name]].target;
      Walk(fs, at, [name] + rest, links)
      == Walk(fs, if "/" <= target then [] else at, Text.Split(target, '/') + rest, links - 1)
  {
    assert (at + [name])[..|at|] == at;
    assert (["."] + rest)[1..] == rest && ([""] + rest)[1..] == rest && ([".."] + rest)[1..] == rest;
    assert ([name] + rest)[1..] == rest;
  }

  /** A member lands, under its own last component, in the directory to which its parents lead; None
      when they lead through too many links, and it is not extracted. */
  function Place(fs: FileSystem, path: Path, links: nat): Option<Path> {
    if path == [] then Some([])
    else
      match Walk(fs, [], path[..|path| - 1], links)
      case None => None
      case Some(dir) => Some(dir + [path[|path| - 1]])
  }

  /** A hard link is another name for what its target is. */
  function Stored(fs: FileSystem, kind: Kind, links: nat): Kind {
    match kind
    case HardLink(target) =>
      (match Place(fs, Text.Split(target, '/'), links)
       case None => Special
       case Some(q) => if q in fs && !fs[q].Dir? then fs[q] else Special)
    case _ => kind
  }

  /** Adding a member turns what stands above it into directories, and unless it is a directory
      itself removes everything under it. */
  function AddItem(fs: FileSystem, e: Item): FileSystem {
    (map p | p in fs && !(p < e.path && !fs[p].Dir?) && !(e.path < p && !e.kind.Dir?) :: fs[p])[e.path := e.kind]
  }

  /** The file system so far, and the paths that the layer being applied has added. */
  datatype Extraction = Extraction(fs: FileSystem, added: set<Path>)

  /** A whiteout hides nothing of its own layer. */
  function Apply(x: Extraction, e: Item, links: nat): Extraction {
    match Place(x.fs, e.path, links)
    case None => x
    case Some(q) =>
      if IsWhiteout(q) then x.(fs := map p | p in x.fs && (p in x.added || !Hides(q, p)) :: x.fs[p])
      else Extraction(AddItem(x.fs, Item(q, Stored(x.fs, e.kind, links))), x.added + {q})
  }

  function ApplyAll(x: Extraction, items: seq<Item>, links: nat): Extraction {
    if items == [] then x
    else Apply(ApplyAll(x, items[..|items| - 1], links), items[|items| - 1], links)
  }

  function Overlay(layers: seq<seq<Item>>, links: nat): FileSystem {
    if layers == [] then map[]
    else ApplyAll(Extraction(Overlay(layers[..|layers| - 1], links), {}), layers[|layers| - 1], links).fs
  }

  function FileAt(fs: FileSystem, p: Path): Option<string> {
    if p in fs && fs[p].File? then Some(fs[p].digest) else None
  }

  function Flatten(layers: seq<seq<Item>>): seq<Item> {
    if layers == [] then [] else Flatten(layers[..|layers| - 1]) + layers[|layers| - 1]
  }

  ghost predicate Comparable(p: Path, q: Path) {
    p <= q || q <= p
  }

  // ----- One path through the items

  predicate FileEntryAt(e: Item, p: Path) {
    e.kind.File? && e.path == p && !IsWhiteout(p)
  }

  /** The entry leaves no file at `p`: it puts a directory there, or something that is not a
      directory above, or anything below. */
  predicate Clobbers(e: Item, p: Path) {
    var q := e.path;
    !IsWhiteout(q) &&
      ((q == p && !e.kind.File?) || (q < p && !e.kind.Dir?) || p < q)
  }

  lemma AddFile(fs: FileSystem, e: Item, p: Path)
    requires !IsWhiteout(e.path)
    ensures FileAt(AddItem(fs, e), p)
         == if FileEntryAt(e, p) then Some(e.kind.digest) else if Clobbers(e, p) then None else FileAt(fs, p)
  {}

  function OverlayFrom(start: Option<string>, items: seq<Item>, p: Path): Option<string> {
    if items == [] then start
    else
      var e := items[|items| - 1];
      if FileEntryAt(e, p) then Some(e.kind.digest)
      else if Clobbers(e, p) then None
      else OverlayFrom(start, items[..|items| - 1], p)
  }

  lemma {:induction false} OverlayFromConcat(start: Option<string>, a: seq<Item>, b: seq<Item>, p: Path)
    ensures OverlayFrom(OverlayFrom(start, a, p), b, p) == OverlayFrom(start, a + b, p)
  {
    if b == [] {
      assert a + b == a;
    } else {
      assert (a + b)[..|a + b| - 1] == a + b[..|b| - 1];
      OverlayFromConcat(start, a, b[..|b| - 1], p);
    }
  }

  // ----- Members that stay away from a root

  ghost predicate Normal(p: Path) {
    forall i :: 0 <= i < |p| ==> p[i] != "" && p[i] != "." && p[i] != ".."
  }

  /** By its name the item cannot put a link, or anything but directories and files, where it matters
      for `root`, and if it is a whiteout it names nothing above or below `root`. */
  ghost predicate Guarded(e: Item, root: Path) {
    && Normal(e.path)
    && (e.path != [] && e.path <= root ==> e.kind.Dir?)
    && (root < e.path ==> e.kind.File? || e.kind.Dir?)
    && (IsWhiteout(e.path) ==> !Comparable(e.path[..|e.path| - 1], root))
  }

  /** A member at `q` may change something above or below `root`. */
  ghost predicate Touches(q: Path, root: Path) {
    Comparable(if IsWhiteout(q) then q[..|q| - 1] else q, root)
  }

  /** The item lands where its name says, or, led elsewhere by links, away from `root`. */
  ghost predicate StaysAway(fs: FileSystem, e: Item, root: Path, links: nat) {
    var q := Place(fs, e.path, links);
    q.Some? ==> q.value == e.path || !Touches(q.value, root)
  }

  ghost predicate LayerStaysAway(x: Extraction, items: seq<Item>, root: Path, links: nat) {
    items == [] ||
      var front := items[..|items| - 1];
      LayerStaysAway(x, front, root, links) && StaysAway(ApplyAll(x, front, links).fs, items[|items| - 1], root, links)
  }

  /** No member that links lead elsewhere lands above, at or below `root`. */
  ghost predicate LinksStayAway(layers: seq<seq<Item>>, root: Path, links: nat) {
    layers == [] ||
      var lower := layers[..|layers| - 1];
      && LinksStayAway(lower, root, links)
      && LayerStaysAway(Extraction(Overlay(lower, links), {}), layers[|layers| - 1], root, links)
  }

  ghost predicate NoLinkNear(fs: FileSystem, root: Path) {
    forall p :: p in fs && p != [] && Comparable(p, root) ==> !fs[p].Symlink?
  }

  lemma PrefixesComparable(a: Path, b: Path, p: Path)
    requires a <= p && b <= p
    ensures Comparable(a, b)
  {}

  lemma {:induction false} WalkStraight(fs: FileSystem, at: Path, rest: seq<string>, links: nat, root: Path)
    requires NoLinkNear(fs, root) && Comparable(at + rest, root)
    requires Normal(rest)
    ensures Walk(fs, at, rest, links) == Some(at + rest)
    decreases |rest|
  {
    if rest == [] {
      assert at + rest == at;
    } else {
      var q := at + [rest[0]];
      assert q + rest[1..] == at + rest && q <= at + rest;
      if root <= at + rest { PrefixesComparable(q, root, at + rest); }
      WalkStraight(fs, q, rest[1..], links, root);
    }
  }

  /** Near `root` a name leads to itself. */
  lemma PlaceStraight(fs: FileSystem, e: Item, links: nat, root: Path)
    requires NoLinkNear(fs, root) && Guarded(e, root) && Comparable(e.path, root)
    ensures Place(fs, e.path, links) == Some(e.path)
  {
    if e.path != [] {
      var dir := e.path[..|e.path| - 1];
      assert dir <= e.path && [] + dir == dir && dir + [e.path[|e.path| - 1]] == e.path;
      if root <= e.path { PrefixesComparable(dir, root, e.path); }
      WalkStraight(fs, [], dir, links, root);
    }
  }

  lemma AddedNear(fs: FileSystem, e: Item, root: Path)
    requires NoLinkNear(fs, root) && (e.path != [] && Comparable(e.path, root) ==> !e.kind.Symlink?)
    ensures NoLinkNear(AddItem(fs, e), root)
  {}

  lemma ApplyNear(x: Extraction, e: Item, links: nat, root: Path, p: Path)
    requires NoLinkNear(x.fs, root) && Guarded(e, root) && StaysAway(x.fs, e, root, links) && root < p
    ensures NoLinkNear(Apply(x, e, links).fs, root)
    ensures FileAt(Apply(x, e, links).fs, p)
         == if FileEntryAt(e, p) then Some(e.kind.digest) else if Clobbers(e, p) then None else FileAt(x.fs, p)
  {
    hide Place, AddItem;
    var place := Place(x.fs, e.path, links);
    if Comparable(e.path, root) { PlaceStraight(x.fs, e, links, root); }
    if place.Some? && !IsWhiteout(place.value) {
      var stored := Item(place.value, Stored(x.fs, e.kind, links));
      AddFile(x.fs, stored, p);
      AddedNear(x.fs, stored, root);
    }
    if place.Some? && IsWhiteout(place.value) { SparesFile(x, place.value, root, p); }
  }

  lemma SparesFile(x: Extraction, q: Path, root: Path, p: Path)
    requires IsWhiteout(q) && !Comparable(q[..|q| - 1], root) && root < p
    ensures !Hides(q, p)
  {}

  lemma {:induction false} LayerNear(x: Extraction, items: seq<Item>, links: nat, root: Path, p: Path)
    requires NoLinkNear(x.fs, root) && (forall e :: e in items ==> Guarded(e, root))
    requires LayerStaysAway(x, items, root, links) && root < p
    ensures NoLinkNear(ApplyAll(x, items, links).fs, root)
    ensures FileAt(ApplyAll(x, items, links).fs, p) == OverlayFrom(FileAt(x.fs, p), items, p)
  {
    hide Guarded, Apply, NoLinkNear, StaysAway;
    if items != [] {
      var last := |items| - 1;
      assert items == items[..last] + [items[last]];
      LayerNear(x, items[..last], links, root, p);
      ApplyNear(ApplyAll(x, items[..last], links), items[last], links, root, p);
    }
  }

  /** Below `root` the file system is that of one list of items: layers, whiteouts and links make no
      difference, as long as no member that links lead elsewhere lands near `root`. */
  lemma {:induction false} OverlayIsFlat(layers: seq<seq<Item>>, links: nat, root: Path, p: Path)
    requires (forall e :: e in Flatten(layers) ==> Guarded(e, root)) && LinksStayAway(layers, root, links) && root < p
    ensures NoLinkNear(Overlay(layers, links), root)
    ensures FileAt(Overlay(layers, links), p) == OverlayFrom(None, Flatten(layers), p)
  {
    hide Guarded, LayerStaysAway;
    if layers != [] {
      var lower, layer := layers[..|layers| - 1], layers[|layers| - 1];
      assert forall e :: e in Flatten(lower) || e in layer ==> e in Flatten(layers);
      OverlayIsFlat(lower, links, root, p);
      LayerNear(Extraction(Overlay(lower, links), {}), layer, links, root, p);
      OverlayFromConcat(None, Flatten(lower), layer, p);
    }
  }

  // ----- Images without members below links

  /** No member's name goes through the name of a link. */
  ghost predicate NoneBelowLinks(items: seq<Item>) {
    forall d, e :: d in items && e in items && (e.kind.Symlink? || e.kind.HardLink?) ==> !(e.path < d.path)
  }

  /** Every symbolic link of the file system is one of the items. */
  ghost predicate LinksListed(fs: FileSystem, items: seq<Item>) {
    forall p :: p in fs && fs[p].Symlink? ==>
      exists e :: e in items && e.path == p && (e.kind.Symlink? || e.kind.HardLink?)
  }

  lemma {:induction false} WalkFree(fs: FileSystem, at: Path, rest: seq<string>, links: nat, items: seq<Item>, d: Item)
    requires LinksListed(fs, items) && NoneBelowLinks(items) && d in items
    requires at + rest < d.path && Normal(rest)
    ensures Walk(fs, at, rest, links) == Some(at + rest)
    decreases |rest|
  {
    if rest == [] {
      assert at + rest == at;
    } else {
      var q := at + [rest[0]];
      assert q + rest[1..] == at + rest && q <= at + rest;
      WalkFree(fs, q, rest[1..], links, items, d);
    }
  }

  lemma ApplyFree(x: Extraction, d: Item, links: nat, items: seq<Item>)
    requires LinksListed(x.fs, items) && NoneBelowLinks(items) && d in items && Normal(d.path)
    ensures Place(x.fs, d.path, links) == Some(d.path)
    ensures LinksListed(Apply(x, d, links).fs, items)
  {
    if d.path != [] {
      var dir := d.path[..|d.path| - 1];
      assert [] + dir == dir && dir + [d.path[|d.path| - 1]] == d.path;
      WalkFree(x.fs, [], dir, links, items, d);
    }
  }

  lemma {:induction false} LayerFree(x: Extraction, layer: seq<Item>, links: nat, items: seq<Item>, root: Path)
    requires LinksListed(x.fs, items) && NoneBelowLinks(items)
    requires forall d :: d in layer ==> d in items && Normal(d.path)
    ensures LayerStaysAway(x, layer, root, links) && LinksListed(ApplyAll(x, layer, links).fs, items)
  {
    hide LinksListed, NoneBelowLinks, Normal, Apply;
    if layer != [] {
      var last := |layer| - 1;
      assert layer == layer[..last] + [layer[last]];
      LayerFree(x, layer[..last], links, items, root);
      ApplyFree(ApplyAll(x, layer[..last], links), layer[last], links, items);
    }
  }

  /** What can be read off the members: if no name goes through the name of a link, every member
      lands where its name says. */
  lemma {:induction false} NoneBelowStayAway(layers: seq<seq<Item>>, links: nat, items: seq<Item>, root: Path)
    requires NoneBelowLinks(items) && forall d :: d in Flatten(layers) ==> d in items && Normal(d.path)
    ensures LinksStayAway(layers, root, links) && LinksListed(Overlay(layers, links), items)
  {
    hide NoneBelowLinks, Normal, LayerStaysAway;
    if layers != [] {
      var lower, layer := layers[..|layers| - 1], layers[|layers| - 1];
      assert forall d :: d in Flatten(lower) || d in layer ==> d in Flatten(layers);
      NoneBelowStayAway(lower, links, items, root);
      LayerFree(Extraction(Overlay(lower, links), {}), layer, links, items, root);
    }
  }

  // ----- The last file of a path

  /** The last file entry at `p`. */
  function LastFile(items: seq<Item>, p: Path): Option<string> {
    if items == [] then None
    else
      var e := items[|items| - 1];
      if FileEntryAt(e, p) then Some(e.kind.digest) else LastFile(items[..|items| - 1], p)
  }

  /** A file entry at `p` is clobbered and not written again. */
  ghost predicate Stale(items: seq<Item>, p: Path) {
    exists i, j :: StaleAt(items, p, i, j)
  }

  ghost predicate StaleAt(items: seq<Item>, p: Path, i: int, j: int) {
    && 0 <= i < j < |items|
    && FileEntryAt(items[i], p) && Clobbers(items[j], p)
    && forall k :: j < k < |items| ==> !FileEntryAt(items[k], p)
  }

  lemma {:induction false} LastFileNone(items: seq<Item>, p: Path)
    ensures LastFile(items, p).None? <==> forall i :: 0 <= i < |items| ==> !FileEntryAt(items[i], p)
  {
    if items != [] { LastFileNone(items[..|items| - 1], p); }
  }

  ghost predicate HasFile(items: seq<Item>, p: Path) {
    exists i :: 0 <= i < |items| && FileEntryAt(items[i], p)
  }

  lemma StaleStep(rest: seq<Item>, e: Item, p: Path)
    requires !FileEntryAt(e, p)
    ensures Stale(rest + [e], p) <==> Stale(rest, p) || (Clobbers(e, p) && HasFile(rest, p))
  {
    var all := rest + [e];
    forall i, j | 0 <= i < j < |rest| ensures StaleAt(all, p, i, j) <==> StaleAt(rest, p, i, j) {
      assert forall k :: j < k < |rest| ==> all[k] == rest[k];
      assert StaleAt(rest, p, i, j) ==> forall k :: j < k < |all| ==> k == |rest| || !FileEntryAt(rest[k], p);
    }
    forall i | 0 <= i < |rest| ensures StaleAt(all, p, i, |rest|) <==> FileEntryAt(rest[i], p) && Clobbers(e, p) {}
    if i, j :| StaleAt(all, p, i, j) {
      if j < |rest| { assert StaleAt(rest, p, i, j); } else { assert FileEntryAt(rest[i], p); }
    }
    if i, j :| StaleAt(rest, p, i, j) { assert StaleAt(all, p, i, j); }
    if Clobbers(e, p) && HasFile(rest, p) {
      var i :| 0 <= i < |rest| && FileEntryAt(rest[i], p);
      assert StaleAt(all, p, i, |rest|);
    }
  }

  lemma {:induction false} AgreeUnlessStale(items: seq<Item>, p: Path)
    ensures LastFile(items, p) == OverlayFrom(None, items, p) <==> !Stale(items, p)
  {
    if items != [] {
      var last := |items| - 1;
      AgreeUnlessStale(items[..last], p);
      LastFileNone(items[..last], p);
      assert items == items[..last] + [items[last]];
      if !FileEntryAt(items[last], p) { StaleStep(items[..last], items[last], p); }
    }
  }

  lemma {:induction false} DifferMeansNone(items: seq<Item>, p: Path)
    requires LastFile(items, p) != OverlayFrom(None, items, p)
    ensures OverlayFrom(None, items, p).None? && LastFile(items, p).Some?
  {
    if !FileEntryAt(items[|items| - 1], p) && !Clobbers(items[|items| - 1], p) {
      DifferMeansNone(items[..|items| - 1], p);
    }
  }
}
