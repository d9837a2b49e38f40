/** The census behind the release notes: scripts/polis_release.py, `pages` and `notes_data`. */
module Census {
  import opened Wrappers
  import opened Ordering
  import opened ReleaseNotes
  import opened ReleasePlan
  import PlanMarkers
  import Text

  datatype Error = NotAList | Ceiling | NoSinglePromotion

  // ----- Pagination

  /** What one page request returns. */
  datatype Page<T> = Rows(rows: seq<T>) | Other

  const PAGE_SIZE: nat := 100
  const LAST_PAGE: nat := 1000

  function Prepend<T>(front: seq<T>, r: Result<seq<T>, Error>): Result<seq<T>, Error> {
    match r
    case Ok(rest) => Ok(front + rest)
    case Err(_) => r
  }

  /** The pages from `page` on, up to and including the first short one. */
  function PagesFrom<T>(ask: nat -> Page<T>, page: nat): Result<seq<T>, Error>
    requires page <= LAST_PAGE + 1
    decreases LAST_PAGE + 1 - page
  {
    if page > LAST_PAGE then Err(Ceiling)
    else
      match ask(page)
      case Other => Err(NotAList)
      case Rows(rows) => if |rows| < PAGE_SIZE then Ok(rows) else Prepend(rows, PagesFrom(ask, page + 1))
  }

  lemma PrependTwice<T>(a: seq<T>, b: seq<T>, r: Result<seq<T>, Error>)
    ensures Prepend(a, Prepend(b, r)) == Prepend(a + b, r)
    ensures Prepend([], r) == r
  {
    if r.Ok? { assert a + (b + r.value) == a + b + r.value && [] + r.value == r.value; }
  }

  method Pages<T>(ask: nat -> Page<T>) returns (r: Result<seq<T>, Error>)
    ensures r == PagesFrom(ask, 1)
  {
    var result: seq<T> := [];
    PrependTwice([], [], PagesFrom(ask, 1));
    for page := 1 to LAST_PAGE + 1
      invariant PagesFrom(ask, 1) == Prepend(result, PagesFrom(ask, page))
    {
      var answer := ask(page);
      if answer.Other? { return Err(NotAList); }
      PrependTwice(result, answer.rows, PagesFrom(ask, page + 1));
      result := result + answer.rows;
      if |answer.rows| < PAGE_SIZE { return Ok(result); }
    }
    return Err(Ceiling);
  }

  function Cut(n: nat, bound: nat): (r: nat)
    ensures r <= bound
  {
    if n < bound then n else bound
  }

  /** The pages of a list that does not change meanwhile. */
  function Listing<T>(list: seq<T>): nat -> Page<T> {
    (page: nat) =>
      var to := Cut(page * PAGE_SIZE, |list|);
      var from := if page == 0 then 0 else Cut((page - 1) * PAGE_SIZE, |list|);
      Rows(list[from..to])
  }

  const LIMIT: nat := PAGE_SIZE * LAST_PAGE

  /** An unchanging list comes back whole and in order, or is refused. */
  function Whole<T>(list: seq<T>): Result<seq<T>, Error> {
    if |list| < LIMIT then Ok(list) else Err(Ceiling)
  }

  lemma PageRows<T>(list: seq<T>, page: nat)
    requires 1 <= page && (page - 1) * PAGE_SIZE <= |list|
    ensures Listing(list)(page) == Rows(list[(page - 1) * PAGE_SIZE..Cut(page * PAGE_SIZE, |list|)])
  {}

  lemma {:induction false} PagesFromListing<T>(list: seq<T>, page: nat)
    requires 1 <= page <= LAST_PAGE + 1 && (page - 1) * PAGE_SIZE <= |list|
    ensures PagesFrom(Listing(list), page)
         == if |list| < LIMIT then Ok(list[(page - 1) * PAGE_SIZE..]) else Err(Ceiling)
    decreases LAST_PAGE + 1 - page
  {
    hide Listing;
    if page <= LAST_PAGE {
      var from, to := (page - 1) * PAGE_SIZE, page * PAGE_SIZE;
      PageRows(list, page);
      if to <= |list| {
        PagesFromListing(list, page + 1);
        assert list[from..to] + list[to..] == list[from..];
      } else {
        assert list[from..|list|] == list[from..];
      }
    }
  }

  lemma PagesComplete<T>(list: seq<T>)
    ensures PagesFrom(Listing(list), 1) == Whole(list)
  {
    PagesFromListing(list, 1);
    assert list[0..] == list;
  }

  // ----- The census

  datatype Pull = Pull(number: nat, title: string, mergedAt: string, mergeCommit: string, base: string, head: string)

  /** What the hosting service and git answer while the census is taken. */
  datatype Repo = Repo(pulls: string -> seq<Pull>, files: nat -> seq<string>, subject: string -> string)

  const MIRRORS: set<string> := {"VERSION", "polis-cli/Cargo.toml", "polis-cli/Cargo.lock"}
  const PREPARE := "polis-release/prepare-"

  function NoteOf(p: Pull): PrNote {
    PrNote(p.number, p.title, p.mergedAt)
  }

  predicate IsPromotion(p: Pull, stable: string) {
    p.mergedAt != "" && p.mergeCommit == stable && p.base == "stable"
  }

  function Promotions(pulls: seq<Pull>, stable: string): seq<Pull> {
    Filter((p: Pull) => IsPromotion(p, stable), pulls)
  }

  /** The release being described: its commits, in the order of history, and the promotion merge. */
  datatype Range = Range(commits: seq<string>, stable: string, promotion: nat) {
    predicate Contains(commit: string) {
      commit in commits || commit == stable
    }

    /** The pull request may have brought a commit into the range. */
    predicate Brings(p: Pull) {
      p.mergedAt != "" && Contains(p.mergeCommit) && p.number != promotion
    }

    function Matches(pulls: seq<Pull>): seq<Pull> {
      Filter((p: Pull) => Brings(p), pulls)
    }

    /** The one pull request that brought the commit, if there is exactly one. */
    function Owner(repo: Repo, commit: string): Option<Pull> {
      var matches := Matches(repo.pulls(commit));
      if |matches| == 1 then Some(matches[0]) else None
    }
  }

  predicate Prepares(p: Pull) {
    PREPARE <= p.head
  }

  predicate MirrorsOnly(paths: seq<string>) {
    paths != [] && forall f :: f in paths ==> f in MIRRORS
  }

  predicate LeftOut(repo: Repo, p: Pull) {
    Prepares(p) && MirrorsOnly(repo.files(p.number))
  }

  /** `chosen` lists the dictionary's values in the order they were entered. */
  datatype State = State(chosen: seq<PrNote>, direct: seq<CommitNote>, seen: set<nat>)

  function Visit(repo: Repo, range: Range, st: State, commit: string): Result<State, Error> {
    if |repo.pulls(commit)| >= LIMIT then Err(Ceiling)
    else
      match range.Owner(repo, commit)
      case None => Ok(st.(direct := st.direct + [CommitNote(commit, repo.subject(commit))]))
      case Some(p) =>
        if p.number in st.seen then Ok(st)
        else if Prepares(p) && |repo.files(p.number)| >= LIMIT then Err(Ceiling)
        else if LeftOut(repo, p) then Ok(st.(seen := st.seen + {p.number}))
        else Ok(st.(seen := st.seen + {p.number}, chosen := st.chosen + [NoteOf(p)]))
  }

  function Visits(repo: Repo, range: Range, commits: seq<string>): Result<State, Error> {
    if commits == [] then Ok(State([], [], {}))
    else
      match Visits(repo, range, commits[..|commits| - 1])
      case Err(e) => Err(e)
      case Ok(st) => Visit(repo, range, st, commits[|commits| - 1])
  }

  predicate NoteLeq(a: PrNote, b: PrNote) {
    StringLeq(a.mergedAt, b.mergedAt) && (a.mergedAt == b.mergedAt ==> a.number <= b.number)
  }

  function NotesOf(repo: Repo, commits: seq<string>, stable: string): Result<Notes, Error> {
    if |repo.pulls(stable)| >= LIMIT then Err(Ceiling)
    else
      var promotion := Promotions(repo.pulls(stable), stable);
      if |promotion| != 1 then Err(NoSinglePromotion)
      else
        match Visits(repo, Range(commits, stable, promotion[0].number), commits)
        case Err(e) => Err(e)
        case Ok(st) => Ok(Notes(promotion[0].number, Sort(NoteLeq, st.chosen), st.direct))
  }

  lemma {:induction false} ErrorStays(repo: Repo, range: Range, commits: seq<string>, i: nat)
    requires i <= |commits| && Visits(repo, range, commits[..i]).Err?
    ensures Visits(repo, range, commits) == Visits(repo, range, commits[..i])
  {
    if i == |commits| {
      assert commits[..i] == commits;
    } else {
      var front := commits[..|commits| - 1];
      assert front[..i] == commits[..i];
      ErrorStays(repo, range, front, i);
    }
  }

  method NotesData(repo: Repo, commits: seq<string>, stable: string) returns (r: Result<Notes, Error>)
    ensures r == NotesOf(repo, commits, stable)
  {
    PagesComplete(repo.pulls(stable));
    var listed := Pages(Listing(repo.pulls(stable)));
    if listed.Err? { return Err(listed.error); }
    var promotion := Promotions(listed.value, stable);
    if |promotion| != 1 { return Err(NoSinglePromotion); }
    var range := Range(commits, stable, promotion[0].number);
    var chosen: seq<PrNote>, direct: seq<CommitNote>, seen: set<nat> := [], [], {};
    for i := 0 to |commits|
      invariant Visits(repo, range, commits[..i]) == Ok(State(chosen, direct, seen))
    {
      var commit := commits[i];
      assert commits[..i + 1][..i] == commits[..i];
      PagesComplete(repo.pulls(commit));
      var found := Pages(Listing(repo.pulls(commit)));
      if found.Err? {
        ErrorStays(repo, range, commits, i + 1);
        return Err(found.error);
      }
      var matches := range.Matches(found.value);
      if |matches| != 1 {
        direct := direct + [CommitNote(commit, repo.subject(commit))];
        continue;
      }
      var pr := matches[0];
      if pr.number in seen { continue; }
      seen := seen + {pr.number};
      if Prepares(pr) {
        PagesComplete(repo.files(pr.number));
        var paths := Pages(Listing(repo.files(pr.number)));
        if paths.Err? {
          ErrorStays(repo, range, commits, i + 1);
          return Err(paths.error);
        }
        if MirrorsOnly(paths.value) { continue; }
      }
      chosen := chosen + [NoteOf(pr)];
    }
    assert commits[..|commits|] == commits;
    return Ok(Notes(promotion[0].number, Sort(NoteLeq, chosen), direct));
  }

  // ----- Where every commit ends up

  /** The record under which a pull request first owned a commit of the list. */
  ghost function FirstOwner(repo: Repo, range: Range, commits: seq<string>, number: nat): Option<Pull> {
    if commits == [] then None
    else
      var before := FirstOwner(repo, range, commits[..|commits| - 1], number);
      var owner := range.Owner(repo, commits[|commits| - 1]);
      if before.None? && owner.Some? && owner.value.number == number then owner else before
  }

  /** The entry a pull request gets in the notes. */
  ghost function EntryFor(repo: Repo, range: Range, commits: seq<string>, number: nat): Option<PrNote> {
    match FirstOwner(repo, range, commits, number)
    case None => None
    case Some(p) => if LeftOut(repo, p) then None else Some(NoteOf(p))
  }

  /** The commits without exactly one owner, in order. */
  ghost function Directs(repo: Repo, range: Range, commits: seq<string>): seq<CommitNote> {
    if commits == [] then []
    else
      var last := commits[|commits| - 1];
      var before := Directs(repo, range, commits[..|commits| - 1]);
      if range.Owner(repo, last).None? then before + [CommitNote(last, repo.subject(last))] else before
  }

  /** How many entries a pull request has. */
  function Entries(notes: seq<PrNote>, number: nat): nat {
    if notes == [] then 0 else Once(notes[0].number == number) + Entries(notes[1..], number)
  }

  function Once(b: bool): nat {
    if b then 1 else 0
  }

  ghost predicate Entered(repo: Repo, range: Range, commits: seq<string>, notes: seq<PrNote>) {
    && (forall k: nat :: Entries(notes, k) == Once(EntryFor(repo, range, commits, k).Some?))
    && (forall x :: x in notes ==> EntryFor(repo, range, commits, x.number) == Some(x))
  }

  ghost predicate Accounted(repo: Repo, range: Range, commits: seq<string>, st: State) {
    && st.direct == Directs(repo, range, commits)
    && (forall k: nat :: k in st.seen <==> FirstOwner(repo, range, commits, k).Some?)
    && Entered(repo, range, commits, st.chosen)
  }

  lemma {:induction false} EntriesAppend(notes: seq<PrNote>, x: PrNote, number: nat)
    ensures Entries(notes + [x], number) == Entries(notes, number) + Once(x.number == number)
  {
    if notes != [] {
      EntriesAppend(notes[1..], x, number);
      assert (notes + [x])[1..] == notes[1..] + [x];
    }
  }

  lemma {:induction false} EntriesInsert(x: PrNote, s: seq<PrNote>, number: nat)
    ensures Entries(Insert(NoteLeq, x, s), number) == Once(x.number == number) + Entries(s, number)
  {
    if s != [] && !NoteLeq(x, s[0]) {
      EntriesInsert(x, s[1..], number);
      var rest := Insert(NoteLeq, x, s[1..]);
      assert ([s[0]] + rest)[1..] == rest;
    } else {
      assert ([x] + s)[1..] == s;
    }
  }

  lemma {:induction false} EntriesSort(s: seq<PrNote>, number: nat)
    ensures Entries(Sort(NoteLeq, s), number) == Entries(s, number)
  {
    if s != [] {
      EntriesSort(s[1..], number);
      EntriesInsert(s[0], Sort(NoteLeq, s[1..]), number);
    }
  }

  lemma {:induction false} EntryExists(notes: seq<PrNote>, number: nat) returns (x: PrNote)
    requires Entries(notes, number) > 0
    ensures x in notes && x.number == number
  {
    if notes[0].number == number { x := notes[0]; } else { x := EntryExists(notes[1..], number); }
  }

  lemma FirstOwnerStep(repo: Repo, range: Range, front: seq<string>, last: string, k: nat)
    ensures var before, owner := FirstOwner(repo, range, front, k), range.Owner(repo, last);
      FirstOwner(repo, range, front + [last], k)
        == if before.None? && owner.Some? && owner.value.number == k then owner else before
  {}

  lemma DirectsStep(repo: Repo, range: Range, front: seq<string>, last: string)
    ensures Directs(repo, range, front + [last]) == Directs(repo, range, front)
      + if range.Owner(repo, last).None? then [CommitNote(last, repo.subject(last))] else []
  {}

  /** One more commit keeps every list exact. */
  lemma VisitAccounts(repo: Repo, range: Range, front: seq<string>, last: string, st: State)
    requires Accounted(repo, range, front, st) && Visit(repo, range, st, last).Ok?
    ensures Accounted(repo, range, front + [last], Visit(repo, range, st, last).value)
  {
    hide FirstOwner, Directs, Entries, Range.Owner, LeftOut;
    var commits := front + [last];
    var after := Visit(repo, range, st, last).value;
    DirectsStep(repo, range, front, last);
    forall k: nat ensures k in after.seen <==> FirstOwner(repo, range, commits, k).Some? {
      FirstOwnerStep(repo, range, front, last, k);
    }
    EnteredStep(repo, range, front, last, st);
  }

  lemma EnteredStep(repo: Repo, range: Range, front: seq<string>, last: string, st: State)
    requires Accounted(repo, range, front, st) && Visit(repo, range, st, last).Ok?
    ensures Entered(repo, range, front + [last], Visit(repo, range, st, last).value.chosen)
  {
    hide FirstOwner, Directs, Entries, Range.Owner, LeftOut;
    var commits := front + [last];
    var after := Visit(repo, range, st, last).value;
    forall k: nat ensures Entries(after.chosen, k) == Once(EntryFor(repo, range, commits, k).Some?) {
      FirstOwnerStep(repo, range, front, last, k);
      if after.chosen != st.chosen { EntriesAppend(st.chosen, NoteOf(range.Owner(repo, last).value), k); }
    }
    forall x | x in after.chosen ensures EntryFor(repo, range, commits, x.number) == Some(x) {
      FirstOwnerStep(repo, range, front, last, x.number);
    }
  }

  lemma {:induction false} VisitsAccount(repo: Repo, range: Range, commits: seq<string>)
    requires Visits(repo, range, commits).Ok?
    ensures Accounted(repo, range, commits, Visits(repo, range, commits).value)
  {
    hide Visit, Accounted, FirstOwner, Directs;
    if commits == [] {
      VisitsNothing(repo, range);
    } else {
      var front, last := commits[..|commits| - 1], commits[|commits| - 1];
      assert commits == front + [last];
      VisitsAccount(repo, range, front);
      VisitAccounts(repo, range, front, last, Visits(repo, range, front).value);
    }
  }

  lemma VisitsNothing(repo: Repo, range: Range)
    ensures Accounted(repo, range, [], State([], [], {}))
  {}

  lemma NoteOrder()
    ensures TotalPreorder(NoteLeq)
  {
    StringOrder();
  }

  function RangeOf(repo: Repo, commits: seq<string>, stable: string): Range
    requires |Promotions(repo.pulls(stable), stable)| == 1
  {
    Range(commits, stable, Promotions(repo.pulls(stable), stable)[0].number)
  }

  ghost predicate EarlierMerged(a: PrNote, b: PrNote) {
    if a.mergedAt == b.mergedAt then a.number <= b.number else StringLeq(a.mergedAt, b.mergedAt)
  }

  /** The notes are exact: the direct list holds the commits without one owner, in order; every pull
      request that owns a commit has one entry, unless it only prepared the release; no other entry
      exists, and entries are in order of merge. */
  lemma NotesAreExact(repo: Repo, commits: seq<string>, stable: string)
    requires NotesOf(repo, commits, stable).Ok?
    ensures |Promotions(repo.pulls(stable), stable)| == 1
    ensures var n, range := NotesOf(repo, commits, stable).value, RangeOf(repo, commits, stable);
      && n.direct == Directs(repo, range, commits)
      && Entered(repo, range, commits, n.prs)
      && forall i, j :: 0 <= i < j < |n.prs| ==> EarlierMerged(n.prs[i], n.prs[j])
  {
    var n, range := NotesOf(repo, commits, stable).value, RangeOf(repo, commits, stable);
    var st := Visits(repo, range, commits).value;
    VisitsAccount(repo, range, commits);
    forall k: nat ensures Entries(n.prs, k) == Entries(st.chosen, k) { EntriesSort(st.chosen, k); }
    NoteOrder();
    SortSorted(NoteLeq, st.chosen);
    forall x | x in n.prs ensures x in st.chosen { SameMember(n.prs, st.chosen, x); }
  }

  lemma {:induction false} OwnerIsFirstSomewhere(repo: Repo, range: Range, commits: seq<string>, i: nat)
    requires i < |commits| && range.Owner(repo, commits[i]).Some?
    ensures var k := range.Owner(repo, commits[i]).value.number; FirstOwner(repo, range, commits, k).Some?
  {
    if i < |commits| - 1 { OwnerIsFirstSomewhere(repo, range, commits[..|commits| - 1], i); }
  }

  lemma {:induction false} DirectListed(repo: Repo, range: Range, commits: seq<string>, i: nat)
    requires i < |commits| && range.Owner(repo, commits[i]).None?
    ensures CommitNote(commits[i], repo.subject(commits[i])) in Directs(repo, range, commits)
  {
    if i < |commits| - 1 { DirectListed(repo, range, commits[..|commits| - 1], i); }
  }

  /** A pull request is described the same way whichever commit leads to it. */
  ghost predicate Consistent(repo: Repo) {
    forall c, d, p, q :: p in repo.pulls(c) && q in repo.pulls(d) && p.number == q.number ==> p == q
  }

  lemma {:induction false} FirstOwnerListed(repo: Repo, range: Range, commits: seq<string>, k: nat)
    requires FirstOwner(repo, range, commits, k).Some?
    ensures exists c :: FirstOwner(repo, range, commits, k).value in repo.pulls(c)
    ensures FirstOwner(repo, range, commits, k).value.number == k
  {
    var before := FirstOwner(repo, range, commits[..|commits| - 1], k);
    if before.Some? { FirstOwnerListed(repo, range, commits[..|commits| - 1], k); }
    else { OwnerListed(repo, range, commits[|commits| - 1]); }
  }

  lemma OwnerListed(repo: Repo, range: Range, c: string)
    requires range.Owner(repo, c).Some?
    ensures range.Owner(repo, c).value in repo.pulls(c)
  {
    MatchesListed(range, repo.pulls(c));
    assert range.Owner(repo, c).value in range.Matches(repo.pulls(c));
  }

  lemma MatchesListed(range: Range, pulls: seq<Pull>)
    ensures forall p :: p in range.Matches(pulls) ==> p in pulls
  {
    forall p | p in range.Matches(pulls) ensures p in pulls { FilterMembers((q: Pull) => range.Brings(q), pulls, p); }
  }

  // ----- In terms of what the hosting service lists

  /** It was merged into stable as that very commit. */
  ghost predicate Promoted(p: Pull, stable: string) {
    p.mergedAt != "" && p.base == "stable" && p.mergeCommit == stable
  }

  /** Pull request `i` of the listing promoted the merge, and no other did. */
  ghost predicate OnlyPromotion(pulls: seq<Pull>, stable: string, i: nat) {
    && i < |pulls| && Promoted(pulls[i], stable)
    && forall j :: 0 <= j < |pulls| && Promoted(pulls[j], stable) ==> j == i
  }

  /** It was merged as a commit of the release, and is not the promotion itself. */
  ghost predicate Brought(p: Pull, commits: seq<string>, stable: string, promotion: nat) {
    p.mergedAt != "" && (p.mergeCommit in commits || p.mergeCommit == stable) && p.number != promotion
  }

  /** Pull request `i` of a commit's listing brought it, and no other did. */
  ghost predicate OnlyBrought(pulls: seq<Pull>, commits: seq<string>, stable: string, promotion: nat, i: nat) {
    && i < |pulls| && Brought(pulls[i], commits, stable, promotion)
    && forall j :: 0 <= j < |pulls| && Brought(pulls[j], commits, stable, promotion) ==> j == i
  }

  /** It came from a preparation branch, and touches at least one file and only version mirrors. */
  ghost predicate OnlyPrepares(p: Pull, files: seq<string>) {
    && "polis-release/prepare-" <= p.head && files != []
    && forall i :: 0 <= i < |files| ==> files[i] in {"VERSION", "polis-cli/Cargo.toml", "polis-cli/Cargo.lock"}
  }

  lemma SolePromotion(pulls: seq<Pull>, stable: string)
    ensures |Promotions(pulls, stable)| == 1 <==> exists i: nat :: OnlyPromotion(pulls, stable, i)
    ensures forall i: nat :: OnlyPromotion(pulls, stable, i) ==> Promotions(pulls, stable) == [pulls[i]]
  {
    var keep := (p: Pull) => IsPromotion(p, stable);
    forall i: nat ensures OnlyKept(keep, pulls, i) <==> OnlyPromotion(pulls, stable, i) {}
    FilterOnly(keep, pulls);
    forall i: nat | OnlyPromotion(pulls, stable, i) ensures Promotions(pulls, stable) == [pulls[i]] {
      FilterAround(keep, pulls, i);
    }
    if i :| OnlyKept(keep, pulls, i) { assert OnlyPromotion(pulls, stable, i); }
  }

  lemma SoleOwner(repo: Repo, range: Range, commit: string)
    ensures var pulls := repo.pulls(commit);
      && (range.Owner(repo, commit).Some? <==>
            exists i: nat :: OnlyBrought(pulls, range.commits, range.stable, range.promotion, i))
      && forall i: nat :: OnlyBrought(pulls, range.commits, range.stable, range.promotion, i) ==>
           range.Owner(repo, commit) == Some(pulls[i])
  {
    var pulls := repo.pulls(commit);
    var keep := (p: Pull) => range.Brings(p);
    forall i: nat
      ensures OnlyKept(keep, pulls, i) <==> OnlyBrought(pulls, range.commits, range.stable, range.promotion, i) {}
    FilterOnly(keep, pulls);
    forall i: nat | OnlyBrought(pulls, range.commits, range.stable, range.promotion, i)
      ensures range.Owner(repo, commit) == Some(pulls[i])
    {
      FilterAround(keep, pulls, i);
    }
    if i :| OnlyKept(keep, pulls, i) { assert OnlyBrought(pulls, range.commits, range.stable, range.promotion, i); }
  }

  lemma OnlyPreparesExactly(repo: Repo, p: Pull)
    ensures LeftOut(repo, p) <==> OnlyPrepares(p, repo.files(p.number))
  {
    var files := repo.files(p.number);
    if MirrorsOnly(files) {
      forall i | 0 <= i < |files| ensures files[i] in MIRRORS {}
    }
  }

  /** No commit of the range is forgotten: it is listed as direct when its listing does not hold exactly
      one pull request that brought it; otherwise that pull request has exactly one entry, unless it
      prepared the release and touched nothing but version mirrors. */
  lemma EveryCommitAccounted(repo: Repo, commits: seq<string>, stable: string, k: nat)
    requires NotesOf(repo, commits, stable).Ok? && Consistent(repo) && k < |commits|
    ensures var n := NotesOf(repo, commits, stable).value; var pulls := repo.pulls(commits[k]);
      && (exists j: nat :: OnlyPromotion(repo.pulls(stable), stable, j) && repo.pulls(stable)[j].number == n.promotion)
      && ((forall i: nat :: !OnlyBrought(pulls, commits, stable, n.promotion, i)) ==>
            CommitNote(commits[k], repo.subject(commits[k])) in n.direct)
      && forall i: nat :: OnlyBrought(pulls, commits, stable, n.promotion, i) ==>
           var p := pulls[i];
           if OnlyPrepares(p, repo.files(p.number)) then Entries(n.prs, p.number) == 0
           else Entries(n.prs, p.number) == 1 && PrNote(p.number, p.title, p.mergedAt) in n.prs
  {
    CommitAccounted(repo, commits, stable, k);
    var range := RangeOf(repo, commits, stable);
    SolePromotion(repo.pulls(stable), stable);
    SoleOwner(repo, range, commits[k]);
    hide Promotions, Range.Owner, Consistent, LeftOut, OnlyPrepares, OnlyBrought, OnlyPromotion;
    forall p: Pull ensures LeftOut(repo, p) <==> OnlyPrepares(p, repo.files(p.number)) { OnlyPreparesExactly(repo, p); }
  }

  /** And so the rendered notes of a release have, for every commit of its range, a line for the pull request
      that brought it, unless that one only prepared the release, or a line for the commit itself. */
  lemma EveryCommitInTheNotes(repo: Repo, commits: seq<string>, stable: string, k: nat, name: string, plan: Plan)
    requires NotesOf(repo, commits, stable).Ok? && Consistent(repo) && k < |commits|
    ensures var n := NotesOf(repo, commits, stable).value; var pulls, c := repo.pulls(commits[k]), commits[k];
      var text := RenderNotes(name, plan, stable, n);
      && ((forall i: nat :: !OnlyBrought(pulls, commits, stable, n.promotion, i)) ==>
            HasLine(text, CommitLine(PlanMarkers.Markdown(repo.subject(c)), c, if |c| > 12 then c[..12] else c, name)))
      && forall i: nat ::
           (OnlyBrought(pulls, commits, stable, n.promotion, i) && !OnlyPrepares(pulls[i], repo.files(pulls[i].number)))
           ==> HasLine(text, PullLine(PlanMarkers.Markdown(pulls[i].title), Text.Dec(pulls[i].number), name))
  {
    EveryCommitAccounted(repo, commits, stable, k);
    hide NotesOf, Consistent, OnlyPromotion, OnlyBrought, OnlyPrepares, RenderNotes, HasLine, CommitLine, PullLine;
    hide PlanMarkers.Markdown, Text.Dec;
    var n := NotesOf(repo, commits, stable).value;
    var pulls := repo.pulls(commits[k]);
    if forall i: nat :: !OnlyBrought(pulls, commits, stable, n.promotion, i) {
      var j: nat :| j < |n.direct| && n.direct[j] == CommitNote(commits[k], repo.subject(commits[k]));
      NotesListCommits(name, plan, stable, n, j);
    }
    forall i: nat | OnlyBrought(pulls, commits, stable, n.promotion, i)
      && !OnlyPrepares(pulls[i], repo.files(pulls[i].number))
      ensures HasLine(RenderNotes(name, plan, stable, n),
                      PullLine(PlanMarkers.Markdown(pulls[i].title), Text.Dec(pulls[i].number), name))
    {
      var p := pulls[i];
      var j: nat :| j < |n.prs| && n.prs[j] == PrNote(p.number, p.title, p.mergedAt);
      NotesListPulls(name, plan, stable, n, j);
    }
  }

  lemma CommitAccounted(repo: Repo, commits: seq<string>, stable: string, i: nat)
    requires NotesOf(repo, commits, stable).Ok? && Consistent(repo) && i < |commits|
    ensures |Promotions(repo.pulls(stable), stable)| == 1
    ensures NotesOf(repo, commits, stable).value.promotion == RangeOf(repo, commits, stable).promotion
    ensures var n := NotesOf(repo, commits, stable).value;
      match RangeOf(repo, commits, stable).Owner(repo, commits[i])
      case None => CommitNote(commits[i], repo.subject(commits[i])) in n.direct
      case Some(p) =>
        && Entries(n.prs, p.number) == Once(!LeftOut(repo, p))
        && (!LeftOut(repo, p) ==> NoteOf(p) in n.prs)
  {
    NotesAreExact(repo, commits, stable);
    var n, range := NotesOf(repo, commits, stable).value, RangeOf(repo, commits, stable);
    match range.Owner(repo, commits[i])
    case None => DirectListed(repo, range, commits, i);
    case Some(p) =>
      OwnerIsFirstSomewhere(repo, range, commits, i);
      FirstOwnerListed(repo, range, commits, p.number);
      OwnerListed(repo, range, commits[i]);
      assert FirstOwner(repo, range, commits, p.number) == Some(p);
      if !LeftOut(repo, p) {
        var x := EntryExists(n.prs, p.number);
      }
  }

  ghost predicate FilesNeeded(repo: Repo, range: Range, commits: seq<string>, number: nat) {
    FirstOwner(repo, range, commits, number).Some? && Prepares(FirstOwner(repo, range, commits, number).value)
  }

  lemma {:induction false} VisitsSucceed(repo: Repo, range: Range, commits: seq<string>)
    ensures Visits(repo, range, commits).Ok? <==>
      && (forall c :: c in commits ==> |repo.pulls(c)| < LIMIT)
      && (forall k: nat :: FilesNeeded(repo, range, commits, k) ==> |repo.files(k)| < LIMIT)
  {
    if commits != [] {
      var front, last := commits[..|commits| - 1], commits[|commits| - 1];
      VisitsSucceed(repo, range, front);
      assert commits == front + [last];
      if Visits(repo, range, front).Ok? { VisitsAccount(repo, range, front); }
    }
  }

  /** The census succeeds exactly when one pull request promoted the merge and every listing it needs
      can be read whole. */
  lemma CensusSucceeds(repo: Repo, commits: seq<string>, stable: string)
    ensures NotesOf(repo, commits, stable).Ok? <==>
      && |repo.pulls(stable)| < LIMIT && |Promotions(repo.pulls(stable), stable)| == 1
      && (forall c :: c in commits ==> |repo.pulls(c)| < LIMIT)
      && (forall k: nat :: FilesNeeded(repo, RangeOf(repo, commits, stable), commits, k) ==> |repo.files(k)| < LIMIT)
  {
    if |Promotions(repo.pulls(stable), stable)| == 1 {
      VisitsSucceed(repo, RangeOf(repo, commits, stable), commits);
    }
  }
}
