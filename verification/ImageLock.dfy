/** The lock of an admitted image pair: ci/private_cert/image_admission.py, `make_lock` and
    `validate_lock`.

    `validate_recipe`, `validate_config` and the digests of JSON documents and files are parameters. */
module ImageLock {
  import opened Wrappers
  import opened OciInspect

  const SCHEMA := "polis-private-images/1"
  const RECIPE_SCHEMA := "polis-private-image-recipe/1"
  const REVIEW_SCHEMA := "polis-private-image-review/1"

  datatype Role = Producer | Verifier

  datatype Recipe = Recipe(schema: string, role: Role, candidateSha: string, oracleSha: string, policySha: string,
                           files: map<string, string>)

  datatype Review = Review(schema: string, gateReviewSha: string, controlsPass: bool, recipeSha: map<Role, string>)

  /** One image's archive, with the digest of the archive file itself. */
  datatype Archive = Archive(members: seq<TarMember>, sha256: string)

  datatype LockEntry = LockEntry(manifestDigest: string, configDigest: string, archiveSha: string,
                                 architecture: string, os: string, recipe: Recipe, recipeSha: string,
                                 launcherSha: string)

  datatype Lock = Lock(schema: string, producer: LockEntry, verifier: LockEntry, reviewSha: string)

  datatype Admission = Admission(runnerImage: string, verifierImage: string,
                                 candidateSha: string, oracleSha: string, policySha: string)

  datatype Checks = Checks(
    codec: Codec,
    recipeOk: Recipe -> bool,
    configOk: (Config, Recipe) -> bool,
    recipeSha: Recipe -> string,
    reviewSha: Review -> string,
    launcherSha: string)

  /** The digests are SHA-256 in hexadecimal. */
  ghost predicate HexDigests(c: Checks) {
    && (forall r :: IsHex64(c.recipeSha(r)))
    && (forall r :: IsHex64(c.reviewSha(r)))
    && IsHex64(c.launcherSha)
  }

  // ----- make_lock

  predicate ReviewOk(review: Review) {
    review.schema == REVIEW_SCHEMA && IsHex64(review.gateReviewSha) && review.controlsPass
  }

  /** The image's private files are exactly the recipe, the launcher and the recipe's payload. */
  predicate FilesMatch(c: Checks, recipe: Recipe, files: map<string, string>) {
    && files.Keys == {"recipe.json", "launcher.py"} + (set k | k in recipe.files :: "payload/" + k)
    && files["recipe.json"] == c.recipeSha(recipe)
    && files["launcher.py"] == c.launcherSha
    && forall k :: k in recipe.files ==> files["payload/" + k] == recipe.files[k]
  }

  /** The lock entry of one role, when every check passes. */
  function Entry(c: Checks, role: Role, archive: Archive, recipe: Recipe, review: Review): Option<LockEntry> {
    if !c.recipeOk(recipe) || recipe.schema != RECIPE_SCHEMA || recipe.role != role
      || role !in review.recipeSha || review.recipeSha[role] != c.recipeSha(recipe) then None
    else if !Admissible(c.codec, archive.members) then None
    else
      var image := ImageOf(c.codec, archive.members);
      if !c.configOk(image.config, recipe) || !FilesMatch(c, recipe, image.privateFiles) then None
      else Some(LockEntry(image.manifestDigest, image.configDigest, archive.sha256, "arm64", "linux",
                          recipe, c.recipeSha(recipe), c.launcherSha))
  }

  function LockOf(c: Checks, producer: Archive, verifier: Archive, recipes: map<Role, Recipe>,
                  review: Review): Option<Lock>
    requires Producer in recipes && Verifier in recipes
  {
    var p := Entry(c, Producer, producer, recipes[Producer], review);
    var v := Entry(c, Verifier, verifier, recipes[Verifier], review);
    if !ReviewOk(review) || p.None? || v.None? || p.value.manifestDigest == v.value.manifestDigest
      || !SamePins(recipes[Producer], recipes[Verifier]) then None
    else Some(Lock(SCHEMA, p.value, v.value, c.reviewSha(review)))
  }

  predicate SamePins(a: Recipe, b: Recipe) {
    a.candidateSha == b.candidateSha && a.oracleSha == b.oracleSha && a.policySha == b.policySha
  }

  method MakeEntry(c: Checks, role: Role, archive: Archive, recipe: Recipe, review: Review)
    returns (r: Option<LockEntry>)
    ensures r == Entry(c, role, archive, recipe, review)
  {
    if !c.recipeOk(recipe) || recipe.schema != RECIPE_SCHEMA || recipe.role != role { return None; }
    if role !in review.recipeSha || review.recipeSha[role] != c.recipeSha(recipe) { return None; }
    hide Admissible, ImageOf;
    var image := InspectOci(c.codec, archive.members);
    if image.None? || !c.configOk(image.value.config, recipe) || !FilesMatch(c, recipe, image.value.privateFiles) {
      return None;
    }
    r := Some(LockEntry(image.value.manifestDigest, image.value.configDigest, archive.sha256, "arm64", "linux",
                        recipe, c.recipeSha(recipe), c.launcherSha));
  }

  method MakeLock(c: Checks, producer: Archive, verifier: Archive, recipes: map<Role, Recipe>, review: Review)
    returns (r: Option<Lock>)
    requires Producer in recipes && Verifier in recipes
    ensures r == LockOf(c, producer, verifier, recipes, review)
  {
    hide Entry;
    if !ReviewOk(review) { return None; }
    var entries: map<Role, LockEntry> := map[];
    var p := MakeEntry(c, Producer, producer, recipes[Producer], review);
    if p.None? { return None; }
    entries := entries[Producer := p.value];
    var v := MakeEntry(c, Verifier, verifier, recipes[Verifier], review);
    if v.None? { return None; }
    entries := entries[Verifier := v.value];
    if entries[Producer].manifestDigest == entries[Verifier].manifestDigest { return None; }
    if !SamePins(recipes[Producer], recipes[Verifier]) { return None; }
    r := Some(Lock(SCHEMA, entries[Producer], entries[Verifier], c.reviewSha(review)));
  }

  // ----- validate_lock

  predicate IsNameChar(ch: char) {
    'a' <= ch <= 'z' || '0' <= ch <= '9' || ch in {'.', '/', ':', '_', '-'}
  }

  /** The regular expression of a pinned image reference: a name, '@', and a SHA-256 digest. */
  predicate IsImage(s: string) {
    && |s| >= 73
    && var n := |s| - 72;
       && (forall i :: 0 <= i < n ==> IsNameChar(s[i])) && ('a' <= s[0] <= 'z' || '0' <= s[0] <= '9')
       && s[n..n + 8] == "@sha256:" && IsHex64(s[n + 8..])
  }

  /** `s.rsplit('@', 1)[1]`. */
  function AfterAt(s: string): string {
    if s == "" || s[|s| - 1] == '@' then "" else AfterAt(s[..|s| - 1]) + [s[|s| - 1]]
  }

  predicate EntryValid(c: Checks, role: Role, e: LockEntry, image: string, a: Admission) {
    && c.recipeOk(e.recipe) && e.recipe.schema == RECIPE_SCHEMA
    && e.recipe.role == role && e.recipeSha == c.recipeSha(e.recipe)
    && e.architecture == "arm64" && e.os == "linux"
    && IsImage(image) && AfterAt(image) == e.manifestDigest
    && e.recipe.candidateSha == a.candidateSha && e.recipe.oracleSha == a.oracleSha && e.recipe.policySha == a.policySha
    && IsHex64(e.launcherSha) && IsHex64(e.archiveSha)
    && "sha256:" <= e.configDigest && IsHex64(e.configDigest[7..])
  }

  predicate ValidateLock(c: Checks, lock: Lock, a: Admission) {
    && lock.schema == SCHEMA && IsHex64(lock.reviewSha)
    && EntryValid(c, Producer, lock.producer, a.runnerImage, a)
    && EntryValid(c, Verifier, lock.verifier, a.verifierImage, a)
    && lock.producer.manifestDigest != lock.verifier.manifestDigest
  }

  // ----- The two agree

  lemma {:induction false} AfterAtSuffix(s: string, i: nat)
    requires i < |s| && s[i] == '@' && '@' !in s[i + 1..]
    ensures AfterAt(s) == s[i + 1..]
  {
    var last := |s| - 1;
    if i < last {
      assert s[last] in s[i + 1..];
      assert s[..last][i + 1..] == s[i + 1..][..last - i - 1];
      AfterAtSuffix(s[..last], i);
      assert s[i + 1..] == s[..last][i + 1..] + [s[last]];
    }
  }

  lemma ImageDigest(s: string)
    requires IsImage(s)
    ensures AfterAt(s) == s[|s| - 71..]
  {
    var n := |s| - 72;
    assert s[n] == s[n..n + 8][0] == '@';
    assert s[n + 1..] == s[n..n + 8][1..] + s[n + 8..];
    AfterAtSuffix(s, n);
  }

  lemma DigestsAreHex(codec: Codec, members: seq<TarMember>)
    requires Admissible(codec, members)
    ensures var d := ImageOf(codec, members).configDigest; "sha256:" <= d && IsHex64(d[7..])
  {}

  predicate NamesImage(image: string, digest: string) {
    IsImage(image) && image[|image| - 71..] == digest
  }

  predicate NamesSources(recipe: Recipe, a: Admission) {
    (a.candidateSha, a.oracleSha, a.policySha) == (recipe.candidateSha, recipe.oracleSha, recipe.policySha)
  }

  lemma MadeEntryValidates(c: Checks, role: Role, archive: Archive, recipe: Recipe, review: Review, image: string,
                           a: Admission)
    requires HexDigests(c) && IsHex64(archive.sha256) && Entry(c, role, archive, recipe, review).Some?
    ensures var e := Entry(c, role, archive, recipe, review).value;
      && e.recipe == recipe
      && (EntryValid(c, role, e, image, a) <==> NamesImage(image, e.manifestDigest) && NamesSources(recipe, a))
  {
    DigestsAreHex(c.codec, archive.members);
    if IsImage(image) { ImageDigest(image); }
    hide Admissible, ImageOf, IsImage, FilesMatch, IsHex64, AfterAt;
  }

  /** A lock that `make_lock` has made passes `validate_lock` for an admission record exactly when the
      record's image references and source pins are the locked ones. */
  lemma MadeLockValidates(c: Checks, producer: Archive, verifier: Archive, recipes: map<Role, Recipe>, review: Review,
                          a: Admission)
    requires HexDigests(c) && IsHex64(producer.sha256) && IsHex64(verifier.sha256)
    requires Producer in recipes && Verifier in recipes && LockOf(c, producer, verifier, recipes, review).Some?
    ensures var lock := LockOf(c, producer, verifier, recipes, review).value;
      ValidateLock(c, lock, a) <==>
        && NamesImage(a.runnerImage, lock.producer.manifestDigest)
        && NamesImage(a.verifierImage, lock.verifier.manifestDigest)
        && NamesSources(lock.producer.recipe, a)
  {
    hide Entry, EntryValid, IsImage, IsHex64, NamesImage;
    MadeEntryValidates(c, Producer, producer, recipes[Producer], review, a.runnerImage, a);
    MadeEntryValidates(c, Verifier, verifier, recipes[Verifier], review, a.verifierImage, a);
  }

  // ----- What a lock says of the archives

  /** The digest that the private file `n` of an image must have; None for a file it must not hold. */
  ghost function SourceDigest(c: Checks, recipe: Recipe, n: string): Option<string> {
    if n == "recipe.json" then Some(c.recipeSha(recipe))
    else if n == "launcher.py" then Some(c.launcherSha)
    else if "payload/" <= n && n[8..] in recipe.files then Some(recipe.files[n[8..]])
    else None
  }

  /** The private files among the members are those of the recipe, each with its digest, and no others. */
  ghost predicate HoldsSources(c: Checks, recipe: Recipe, ms: seq<TarMember>) {
    && (forall n :: SourceDigest(c, recipe, n).Some? ==> exists i :: LastPrivate(ms, n, i))
    && forall n, i :: LastPrivate(ms, n, i) ==> SourceDigest(c, recipe, n) == Some(c.codec.sha256(ms[i].kind.body))
  }

  /** The recipe is reviewed for its role, and the archive, closed under `held`, holds what it says. */
  ghost predicate Reviewed(c: Checks, role: Role, archive: Archive, recipe: Recipe, review: Review, held: Closure) {
    && c.recipeOk(recipe) && recipe.schema == "polis-private-image-recipe/1" && recipe.role == role
    && role in review.recipeSha && review.recipeSha[role] == c.recipeSha(recipe)
    && ClosedUnder(c.codec, archive.members, held)
    && c.configOk(held.config, recipe) && HoldsSources(c, recipe, Flat(held.layers))
  }

  ghost predicate Locks(c: Checks, archive: Archive, recipe: Recipe, held: Closure, e: LockEntry) {
    && e.manifestDigest == held.entry.digest && e.configDigest == held.manifest.config.digest
    && e.archiveSha == archive.sha256 && e.architecture == "arm64" && e.os == "linux"
    && e.recipe == recipe && e.recipeSha == c.recipeSha(recipe) && e.launcherSha == c.launcherSha
  }

  lemma PayloadName(k: string)
    ensures var n := "payload/" + k; "payload/" <= n && n[8..] == k && n != "recipe.json" && n != "launcher.py"
  {
    assert ("payload/" + k)[0] == 'p' && "recipe.json"[0] == 'r' && "launcher.py"[0] == 'l';
  }

  lemma SourceNames(c: Checks, recipe: Recipe, n: string)
    ensures SourceDigest(c, recipe, n).Some?
       <==> n in {"recipe.json", "launcher.py"} + set k | k in recipe.files :: "payload/" + k
  {
    if "payload/" <= n {
      PayloadName(n[8..]);
      assert n == "payload/" + n[8..];
    }
    forall k | k in recipe.files && n == "payload/" + k ensures SourceDigest(c, recipe, n).Some? { PayloadName(k); }
  }

  lemma FilesAreSources(c: Checks, recipe: Recipe, files: map<string, string>, n: string)
    requires FilesMatch(c, recipe, files)
    ensures SourceOf(files, n) == SourceDigest(c, recipe, n)
  {
    SourceNames(c, recipe, n);
    if "payload/" <= n {
      PayloadName(n[8..]);
      assert n == "payload/" + n[8..];
    }
  }

  lemma FixedSources(c: Checks, recipe: Recipe)
    ensures SourceDigest(c, recipe, "recipe.json") == Some(c.recipeSha(recipe))
    ensures SourceDigest(c, recipe, "launcher.py") == Some(c.launcherSha)
  {
    assert "recipe.json"[0] == 'r' && "launcher.py"[0] == 'l';
  }

  lemma PayloadSource(c: Checks, recipe: Recipe, k: string)
    requires k in recipe.files
    ensures SourceDigest(c, recipe, "payload/" + k) == Some(recipe.files[k])
  {
    PayloadName(k);
  }

  lemma SourcesAreFiles(c: Checks, recipe: Recipe, files: map<string, string>)
    requires forall n :: SourceOf(files, n) == SourceDigest(c, recipe, n)
    ensures FilesMatch(c, recipe, files)
  {
    hide SourceDigest;
    var names := {"recipe.json", "launcher.py"} + set k | k in recipe.files :: "payload/" + k;
    forall n ensures n in files <==> n in names {
      SourceNames(c, recipe, n);
      assert SourceOf(files, n) == SourceDigest(c, recipe, n);
    }
    FixedSources(c, recipe);
    assert SourceOf(files, "recipe.json") == SourceDigest(c, recipe, "recipe.json");
    assert SourceOf(files, "launcher.py") == SourceDigest(c, recipe, "launcher.py");
    forall k | k in recipe.files ensures files["payload/" + k] == recipe.files[k] {
      assert SourceOf(files, "payload/" + k) == SourceDigest(c, recipe, "payload/" + k);
      PayloadSource(c, recipe, k);
    }
  }

  function SourceOf(files: map<string, string>, n: string): Option<string> {
    if n in files then Some(files[n]) else None
  }

  lemma SourcesHeld(c: Checks, recipe: Recipe, ms: seq<TarMember>, files: map<string, string>)
    requires PrivateFrom(c.codec, ms, files)
    ensures FilesMatch(c, recipe, files) <==> HoldsSources(c, recipe, ms)
  {
    hide Named, FilesMatch, SourceDigest;
    if FilesMatch(c, recipe, files) {
      forall n ensures SourceOf(files, n) == SourceDigest(c, recipe, n) { FilesAreSources(c, recipe, files, n); }
    }
    if forall n :: SourceOf(files, n) == SourceDigest(c, recipe, n) {
      forall n | SourceDigest(c, recipe, n).Some? ensures exists i :: LastPrivate(ms, n, i) {
        assert SourceOf(files, n) == SourceDigest(c, recipe, n);
      }
      forall n, i | LastPrivate(ms, n, i) ensures SourceDigest(c, recipe, n) == Some(c.codec.sha256(ms[i].kind.body)) {
        assert SourceOf(files, n) == SourceDigest(c, recipe, n);
      }
    }
    if HoldsSources(c, recipe, ms) {
      forall n ensures SourceOf(files, n) == SourceDigest(c, recipe, n) {
        if i :| LastPrivate(ms, n, i) {
          assert SourceDigest(c, recipe, n) == Some(c.codec.sha256(ms[i].kind.body));
        }
      }
      SourcesAreFiles(c, recipe, files);
    }
  }

  /** An entry is made exactly for an archive that holds, file by file, what its reviewed recipe says. */
  lemma EntryExactly(c: Checks, role: Role, archive: Archive, recipe: Recipe, review: Review, e: LockEntry)
    ensures Entry(c, role, archive, recipe, review) == Some(e)
       <==> exists held :: Reviewed(c, role, archive, recipe, review, held) && Locks(c, archive, recipe, held, e)
  {
    hide FilesMatch, HoldsSources, ClosedUnder, Admissible, ImageOf, PrivateFrom, Flat;
    if Admissible(c.codec, archive.members) {
      var held := BlobClosure(c.codec, archive.members);
      ImageFromMembers(c.codec, archive.members, held);
      SourcesHeld(c, recipe, Flat(held.layers), ImageOf(c.codec, archive.members).privateFiles);
      if Entry(c, role, archive, recipe, review) == Some(e) {
        assert Reviewed(c, role, archive, recipe, review, held) && Locks(c, archive, recipe, held, e);
      }
    }
    forall held | Reviewed(c, role, archive, recipe, review, held) && Locks(c, archive, recipe, held, e)
      ensures Entry(c, role, archive, recipe, review) == Some(e)
    {
      ImageFromMembers(c.codec, archive.members, held);
      SourcesHeld(c, recipe, Flat(held.layers), ImageOf(c.codec, archive.members).privateFiles);
    }
  }

  /** A lock is made exactly for a passed review of two images that hold what their recipes say, are not
      the same image, and are of the same sources. */
  lemma LockExactly(c: Checks, producer: Archive, verifier: Archive, recipes: map<Role, Recipe>, review: Review,
                    lock: Lock)
    requires Producer in recipes && Verifier in recipes
    ensures LockOf(c, producer, verifier, recipes, review) == Some(lock) <==>
      && review.schema == "polis-private-image-review/1" && IsHex64(review.gateReviewSha) && review.controlsPass
      && lock.schema == "polis-private-images/1" && lock.reviewSha == c.reviewSha(review)
      && (exists held :: Reviewed(c, Producer, producer, recipes[Producer], review, held)
            && Locks(c, producer, recipes[Producer], held, lock.producer))
      && (exists held :: Reviewed(c, Verifier, verifier, recipes[Verifier], review, held)
            && Locks(c, verifier, recipes[Verifier], held, lock.verifier))
      && lock.producer.manifestDigest != lock.verifier.manifestDigest
      && recipes[Producer].candidateSha == recipes[Verifier].candidateSha
      && recipes[Producer].oracleSha == recipes[Verifier].oracleSha
      && recipes[Producer].policySha == recipes[Verifier].policySha
  {
    EntryExactly(c, Producer, producer, recipes[Producer], review, lock.producer);
    EntryExactly(c, Verifier, verifier, recipes[Verifier], review, lock.verifier);
    hide Entry, Reviewed, Locks, IsHex64;
  }

  // ----- What a validated lock pins

  /** An image reference pinned by digest: a name of these characters, '@' and the digest. */
  ghost predicate Pins(image: string, digest: string) {
    exists name, hex ::
      IsHex64(hex) && PinnedName(name) && image == name + "@sha256:" + hex && digest == "sha256:" + hex
  }

  ghost predicate PinnedName(name: string) {
    && name != "" && ('a' <= name[0] <= 'z' || '0' <= name[0] <= '9')
    && forall i :: 0 <= i < |name| ==>
         'a' <= name[i] <= 'z' || '0' <= name[i] <= '9' || name[i] in {'.', '/', ':', '_', '-'}
  }

  lemma PinsExactly(image: string, digest: string)
    ensures Pins(image, digest) <==> IsImage(image) && AfterAt(image) == digest
  {
    if IsImage(image) {
      ImageDigest(image);
      var n := |image| - 72;
      var name, hex := image[..n], image[n + 8..];
      assert image == name + image[n..n + 8] + hex;
      assert AfterAt(image) == image[n..n + 8][1..] + hex;
      assert PinnedName(name);
    }
    if Pins(image, digest) {
      var name, hex :|
        IsHex64(hex) && PinnedName(name) && image == name + "@sha256:" + hex && digest == "sha256:" + hex;
      var n := |name|;
      assert image[n..n + 8] == "@sha256:" && image[n + 8..] == hex && n == |image| - 72;
      assert forall i :: 0 <= i < n ==> image[i] == name[i];
      ImageDigest(image);
      assert image[n + 1..] == image[n..n + 8][1..] + hex;
    }
  }

  /** A lock validates only for an admission record that pins, by digest, the two different images it
      locks, each with a recipe of its own role, and all of the same sources. */
  lemma ValidatedPins(c: Checks, lock: Lock, a: Admission)
    requires ValidateLock(c, lock, a)
    ensures Pins(a.runnerImage, lock.producer.manifestDigest) && Pins(a.verifierImage, lock.verifier.manifestDigest)
    ensures lock.producer.manifestDigest != lock.verifier.manifestDigest && a.runnerImage != a.verifierImage
    ensures lock.producer.recipe.role == Producer && lock.verifier.recipe.role == Verifier
    ensures forall e :: e in [lock.producer, lock.verifier] ==>
      && c.recipeOk(e.recipe) && e.recipe.schema == "polis-private-image-recipe/1"
      && e.recipeSha == c.recipeSha(e.recipe)
      && NamesSources(e.recipe, a) && e.architecture == "arm64" && e.os == "linux"
      && IsHex64(e.launcherSha) && IsHex64(e.archiveSha)
      && exists hex :: e.configDigest == "sha256:" + hex && IsHex64(hex)
    ensures lock.schema == "polis-private-images/1" && IsHex64(lock.reviewSha)
  {
    PinsExactly(a.runnerImage, lock.producer.manifestDigest);
    PinsExactly(a.verifierImage, lock.verifier.manifestDigest);
    hide IsImage, AfterAt, IsHex64, Pins;
    forall e | e in [lock.producer, lock.verifier]
      ensures exists hex :: e.configDigest == "sha256:" + hex && IsHex64(hex)
    {
      assert e.configDigest == "sha256:" + e.configDigest[7..];
    }
  }
}
