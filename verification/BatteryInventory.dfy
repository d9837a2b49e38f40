/** The canonical inventory of the public battery: ci/p022_battery_digest.py, `inventory`,
    `_schedule_fingerprint`, `_declares_restart`.

    SHA-256, JSON parsing and the reader of schedule files are parameters. */
module BatteryInventory {
  import opened Wrappers
  import opened Ordering
  import opened CanonicalJson

  type Entry = map<string, Json>

  /** `readSchedule` returns a file's content, None when there is none or the path escapes. */
  datatype Reader = Reader(sha256: string -> string, parse: string -> Option<Json>,
                           readSchedule: Json -> Option<string>)

  const VERSION := "p022-battery-inventory/2"

  /** `entry.get(field)`: a missing field is null. */
  function Get(e: Entry, field: string): Json {
    if field in e then e[field] else Null
  }

  /** Python's truth of a value. */
  predicate Truthy(v: Json) {
    match v
    case Null => false
    case Bool(b) => b
    case Num(n) => n != 0
    case Str(s) => s != ""
    case Arr(items) => items != []
    case Obj(fields) => fields != map[]
  }

  function Fingerprint(r: Reader, name: Json): Json {
    if !Truthy(name) then Null
    else
      match r.readSchedule(name)
      case None => Str("missing")
      case Some(raw) =>
        match r.parse(raw)
        case None => Str("unparseable:" + r.sha256(raw))
        case Some(value) => Str(r.sha256(Encode(value)))
  }

  predicate DeclaresRestart(r: Reader, name: Json) {
    Truthy(name) &&
    match r.readSchedule(name)
    case None => false
    case Some(raw) =>
      match r.parse(raw)
      case Some(Obj(fields)) => "restart_after" in fields && fields["restart_after"] != Null
      case _ => false
  }

  function Row(r: Reader, e: Entry): Json {
    Obj(map["dataset" := Get(e, "dataset"), "preset" := Get(e, "preset"), "n_cuts" := Get(e, "n_cuts"),
            "schedule" := Get(e, "schedule"), "schedule_sha256" := Fingerprint(r, Get(e, "schedule"))])
  }

  /** The slugs of the public fixtures; each fixture has one. */
  function Slugs(fixtures: seq<Entry>): set<Json> {
    set f | f in fixtures :: Get(f, "slug")
  }

  function Selected(battery: seq<Entry>, fixtures: seq<Entry>): (s: seq<Entry>)
    ensures forall e :: e in s ==> e in battery && Get(e, "dataset") in Slugs(fixtures)
  {
    if battery == [] then []
    else Selected(battery[..|battery| - 1], fixtures) + Kept(battery[|battery| - 1], fixtures)
  }

  function Kept(e: Entry, fixtures: seq<Entry>): seq<Entry> {
    if Get(e, "dataset") in Slugs(fixtures) then [e] else []
  }

  function Rows(r: Reader, entries: seq<Entry>): (s: seq<Json>)
    ensures |s| == |entries|
  {
    seq(|entries|, i requires 0 <= i < |entries| => Row(r, entries[i]))
  }

  function Objects(entries: seq<Entry>): (s: seq<Json>)
    ensures |s| == |entries|
  {
    seq(|entries|, i requires 0 <= i < |entries| => Obj(entries[i]))
  }

  function Texts(values: seq<Json>): (s: seq<string>)
    ensures |s| == |values|
  {
    seq(|values|, i requires 0 <= i < |values| => Encode(values[i]))
  }

  function Strings(texts: seq<string>): (s: seq<Json>)
    ensures |s| == |texts|
  {
    seq(|texts|, i requires 0 <= i < |texts| => Str(texts[i]))
  }

  /** A sorted list of texts, as a JSON list. */
  function SortedTexts(values: seq<Json>): Json {
    Arr(Strings(Sort(StringLeq, Texts(values))))
  }

  function Body(rows: seq<Json>, fixtures: seq<Json>): Json {
    Obj(map["version" := Str(VERSION), "entries" := SortedTexts(rows), "public_fixtures" := SortedTexts(fixtures)])
  }

  function Canonical(r: Reader, battery: seq<Entry>, fixtures: seq<Entry>): string {
    Encode(Body(Rows(r, Selected(battery, fixtures)), Objects(fixtures)))
  }

  function Restarts(r: Reader, entries: seq<Entry>): nat {
    if entries == [] then 0
    else
      Restarts(r, entries[..|entries| - 1])
      + if DeclaresRestart(r, Get(entries[|entries| - 1], "schedule")) then 1 else 0
  }

  method Inventory(r: Reader, battery: seq<Entry>, fixtures: seq<Entry>)
    returns (canonical: string, selected: seq<Entry>, restarts: nat)
    ensures canonical == Canonical(r, battery, fixtures)
    ensures selected == Selected(battery, fixtures) && restarts == Restarts(r, selected)
  {
    hide Encode, Fingerprint, DeclaresRestart;
    selected := Selected(battery, fixtures);
    var rows: seq<string> := [];
    restarts := 0;
    for i := 0 to |selected|
      invariant rows == Texts(Rows(r, selected[..i]))
      invariant restarts == Restarts(r, selected[..i])
    {
      assert selected[..i + 1][..i] == selected[..i];
      if DeclaresRestart(r, Get(selected[i], "schedule")) { restarts := restarts + 1; }
      rows := rows + [Encode(Row(r, selected[i]))];
    }
    assert selected[..|selected|] == selected;
    canonical := Encode(Obj(map[
      "version" := Str(VERSION),
      "entries" := Arr(Strings(Sort(StringLeq, rows))),
      "public_fixtures" := SortedTexts(Objects(fixtures))]));
  }

  // ----- Equal text, equal inventory

  lemma TextsWithout(a: seq<Json>, j: nat)
    requires j < |a|
    ensures Texts(Ordering.Without(a, j)) == Ordering.Without(Texts(a), j)
  {}

  lemma SameRemainder<T>(a: seq<T>, i: nat, b: seq<T>, j: nat)
    requires i < |a| && j < |b| && a[i] == b[j]
    ensures multiset(Ordering.Without(a, i)) == multiset(Ordering.Without(b, j)) <==> multiset(a) == multiset(b)
  {
    var p, q := multiset(Ordering.Without(a, i)), multiset(Ordering.Without(b, j));
    assert a[i] in multiset(a) && b[j] in multiset(b);
    assert multiset(a) == p + multiset{a[i]} && multiset(b) == q + multiset{b[j]};
    if multiset(a) == multiset(b) {
      forall x ensures p[x] == q[x] { assert multiset(a)[x] == multiset(b)[x]; }
    }
  }

  lemma FindSame<T>(a: seq<T>, b: seq<T>) returns (j: nat)
    requires a != [] && multiset(a) == multiset(b)
    ensures j < |b| && b[j] == a[0]
  {
    SameMember(a, b, a[0]);
    j :| 0 <= j < |b| && b[j] == a[0];
  }

  lemma {:induction false} TextsMultiset(a: seq<Json>, b: seq<Json>)
    ensures multiset(Texts(a)) == multiset(Texts(b)) <==> multiset(a) == multiset(b)
  {
    hide Encode;
    if multiset(Texts(a)) == multiset(Texts(b)) { SameLength(Texts(a), Texts(b)); }
    if multiset(a) == multiset(b) { SameLength(a, b); }
    if a != [] && |a| == |b| && (multiset(Texts(a)) == multiset(Texts(b)) || multiset(a) == multiset(b)) {
      var j: nat;
      if multiset(a) == multiset(b) { j := FindSame(a, b); } else { j := FindSame(Texts(a), Texts(b)); }
      assert Texts(a)[0] == Encode(a[0]) && Texts(b)[j] == Encode(b[j]);
      EncodeInjective(a[0], b[j]);
      TextsMultiset(Ordering.Without(a, 0), Ordering.Without(b, j));
      TextsWithout(a, 0);
      TextsWithout(b, j);
      SameRemainder(a, 0, b, j);
      SameRemainder(Texts(a), 0, Texts(b), j);
    }
  }

  lemma SortedTextsEqual(a: seq<Json>, b: seq<Json>)
    ensures SortedTexts(a) == SortedTexts(b) <==> multiset(a) == multiset(b)
  {
    hide Encode, Sort;
    var s, t := Sort(StringLeq, Texts(a)), Sort(StringLeq, Texts(b));
    StringOrder();
    SortCanonical(StringLeq, Texts(a), Texts(b));
    TextsMultiset(a, b);
    if SortedTexts(a) == SortedTexts(b) {
      assert Strings(s) == Strings(t);
      assert |s| == |Strings(s)| == |t|;
      forall i | 0 <= i < |s| ensures s[i] == t[i] { assert Strings(s)[i] == Strings(t)[i]; }
    }
  }

  /** Two inventories have the same canonical text exactly when their projected rows are the same
      multiset and their fixtures are: the order of the battery does not count, while every field,
      its type and the schedule's fingerprint do. */
  lemma CanonicalTextExact(r: Reader, battery: seq<Entry>, fixtures: seq<Entry>, r': Reader, battery': seq<Entry>,
                           fixtures': seq<Entry>)
    ensures Canonical(r, battery, fixtures) == Canonical(r', battery', fixtures') <==>
      && multiset(Rows(r, Selected(battery, fixtures))) == multiset(Rows(r', Selected(battery', fixtures')))
      && multiset(Objects(fixtures)) == multiset(Objects(fixtures'))
  {
    hide Encode, Rows, Objects, Selected, SortedTexts;
    var a, b := Rows(r, Selected(battery, fixtures)), Rows(r', Selected(battery', fixtures'));
    var f, g := Objects(fixtures), Objects(fixtures');
    EncodeInjective(Body(a, f), Body(b, g));
    BodyInjective(a, f, b, g);
    SortedTextsEqual(a, b);
    SortedTextsEqual(f, g);
  }

  lemma BodyInjective(a: seq<Json>, f: seq<Json>, b: seq<Json>, g: seq<Json>)
    ensures Body(a, f) == Body(b, g) <==> SortedTexts(a) == SortedTexts(b) && SortedTexts(f) == SortedTexts(g)
  {
    hide SortedTexts;
    assert Body(a, f).fields["entries"] == SortedTexts(a) && Body(b, g).fields["entries"] == SortedTexts(b);
    assert Body(a, f).fields["public_fixtures"] == SortedTexts(f)
      && Body(b, g).fields["public_fixtures"] == SortedTexts(g);
  }

  // ----- What the rows keep

  /** A row gives back every projected field and the fingerprint. */
  lemma RowKeeps(r: Reader, e: Entry, r': Reader, e': Entry)
    ensures Row(r, e) == Row(r', e') <==>
      && Get(e, "dataset") == Get(e', "dataset") && Get(e, "preset") == Get(e', "preset")
      && Get(e, "n_cuts") == Get(e', "n_cuts") && Get(e, "schedule") == Get(e', "schedule")
      && Fingerprint(r, Get(e, "schedule")) == Fingerprint(r', Get(e', "schedule"))
  {
    hide Get, Fingerprint;
    var a, b := Row(r, e).fields, Row(r', e').fields;
    assert a["dataset"] == Get(e, "dataset") && b["dataset"] == Get(e', "dataset");
    assert a["preset"] == Get(e, "preset") && b["preset"] == Get(e', "preset");
    assert a["n_cuts"] == Get(e, "n_cuts") && b["n_cuts"] == Get(e', "n_cuts");
    assert a["schedule"] == Get(e, "schedule") && b["schedule"] == Get(e', "schedule");
    assert a["schedule_sha256"] == Fingerprint(r, Get(e, "schedule"))
      && b["schedule_sha256"] == Fingerprint(r', Get(e', "schedule"));
  }

  /** What a row pins of its schedule: its absence, its unparseable text, or its JSON value. */
  datatype Pinned = Unnamed | NoFile | Unparseable(raw: string) | Parsed(value: Json)

  function Pins(r: Reader, name: Json): Pinned {
    if !Truthy(name) then Unnamed
    else
      match r.readSchedule(name)
      case None => NoFile
      case Some(raw) =>
        match r.parse(raw)
        case None => Unparseable(raw)
        case Some(value) => Parsed(value)
  }

  /** Two different texts of the same kind with the same hash. */
  predicate Collide(hash: string -> string, a: Pinned, b: Pinned) {
    match (a, b)
    case (Unparseable(t), Unparseable(u)) => t != u && hash(t) == hash(u)
    case (Parsed(v), Parsed(w)) => Encode(v) != Encode(w) && hash(Encode(v)) == hash(Encode(w))
    case _ => false
  }

  ghost predicate HexLength(hash: string -> string) {
    forall t :: |hash(t)| == 64
  }

  /** Fingerprints are equal exactly when the schedules are, absence and unparseable text included, or
      the very two texts that were hashed collide. So a schedule cannot change under the same name
      without moving the fingerprint or colliding, and only a change of its JSON value moves it. */
  lemma FingerprintPins(r: Reader, name: Json, r': Reader, name': Json)
    requires HexLength(r.sha256) && r'.sha256 == r.sha256
    ensures Fingerprint(r, name) == Fingerprint(r', name')
       <==> (Pins(r, name) == Pins(r', name') || Collide(r.sha256, Pins(r, name), Pins(r', name')))
  {
    var a, b := Pins(r, name), Pins(r', name');
    if a.Parsed? && b.Parsed? { EncodeInjective(a.value, b.value); }
    if a.Unparseable? && b.Unparseable? { SameTail("unparseable:", r.sha256(a.raw), r.sha256(b.raw)); }
    hide Encode;
    assert |"unparseable:"| == 12 && |"missing"| == 7;
  }

  /** There are hashes of this length that keep two given texts apart, and others that do not. */
  lemma HashesOfEitherKind(t: string, u: string) returns (apart: string -> string, same: string -> string)
    requires t != u
    ensures HexLength(apart) && !Collide(apart, Unparseable(t), Unparseable(u))
    ensures HexLength(same) && Collide(same, Unparseable(t), Unparseable(u))
  {
    var zeros, ones := seq(64, _ => '0'), seq(64, _ => '1');
    apart := (text: string) => if text == t then zeros else ones;
    same := (_: string) => zeros;
    assert zeros[0] != ones[0];
  }

  lemma SameTail(prefix: string, a: string, b: string)
    ensures prefix + a == prefix + b ==> a == b
  {
    assert (prefix + a)[|prefix|..] == a && (prefix + b)[|prefix|..] == b;
  }

  // ----- The cases that restart

  /** The entry is of a public fixture. */
  ghost predicate IsPublic(e: Entry, fixtures: seq<Entry>) {
    exists f :: f in fixtures && Get(f, "slug") == Get(e, "dataset")
  }

  /** The entry names a schedule that can be read as a JSON object with a restart in it. */
  ghost predicate HasRestart(r: Reader, e: Entry) {
    exists name, raw, fields :: NamesSchedule(r, e, name, raw, fields) && "restart_after" in fields
      && fields["restart_after"] != Null
  }

  ghost predicate NamesSchedule(r: Reader, e: Entry, name: Json, raw: string, fields: map<string, Json>) {
    && "schedule" in e && e["schedule"] == name
    && name !in {Null, Bool(false), Num(0), Str(""), Arr([]), Obj(map[])}
    && r.readSchedule(name) == Some(raw) && r.parse(raw) == Some(Obj(fields))
  }

  lemma HasRestartExactly(r: Reader, e: Entry)
    ensures DeclaresRestart(r, Get(e, "schedule")) <==> HasRestart(r, e)
  {
    if DeclaresRestart(r, Get(e, "schedule")) {
      var name := Get(e, "schedule");
      var raw := r.readSchedule(name).value;
      assert NamesSchedule(r, e, name, raw, r.parse(raw).value.fields);
    }
  }

  /** How many public entries of the battery have a restart. */
  ghost function RestartCases(r: Reader, battery: seq<Entry>, fixtures: seq<Entry>): nat {
    if battery == [] then 0
    else
      var last := battery[|battery| - 1];
      RestartCases(r, battery[..|battery| - 1], fixtures)
      + if IsPublic(last, fixtures) && HasRestart(r, last) then 1 else 0
  }

  lemma {:induction false} RestartsCounted(r: Reader, battery: seq<Entry>, fixtures: seq<Entry>)
    ensures Restarts(r, Selected(battery, fixtures)) == RestartCases(r, battery, fixtures)
  {
    hide DeclaresRestart, HasRestart;
    if battery != [] {
      var front, last := battery[..|battery| - 1], battery[|battery| - 1];
      RestartsCounted(r, front, fixtures);
      HasRestartExactly(r, last);
      RestartsConcat(r, Selected(front, fixtures), Kept(last, fixtures));
      assert [last][..0] == [];
    }
  }

  // ----- The order of the battery

  lemma {:induction false} SelectedCount(battery: seq<Entry>, fixtures: seq<Entry>, e: Entry)
    ensures multiset(Selected(battery, fixtures))[e]
         == if Get(e, "dataset") in Slugs(fixtures) then multiset(battery)[e] else 0
  {
    if battery != [] {
      var front, last := battery[..|battery| - 1], battery[|battery| - 1];
      SelectedCount(front, fixtures, e);
      assert battery == front + [last];
    }
  }

  lemma SelectedPermutation(a: seq<Entry>, b: seq<Entry>, fixtures: seq<Entry>)
    requires multiset(a) == multiset(b)
    ensures multiset(Selected(a, fixtures)) == multiset(Selected(b, fixtures))
  {
    forall e ensures multiset(Selected(a, fixtures))[e] == multiset(Selected(b, fixtures))[e] {
      SelectedCount(a, fixtures, e);
      SelectedCount(b, fixtures, e);
    }
  }

  lemma {:induction false} RowsPermutation(r: Reader, a: seq<Entry>, b: seq<Entry>)
    requires multiset(a) == multiset(b)
    ensures multiset(Rows(r, a)) == multiset(Rows(r, b)) && Restarts(r, a) == Restarts(r, b)
  {
    hide Row, DeclaresRestart, Get, Restarts;
    SameLength(a, b);
    if a != [] {
      var j := FindSame(a, b);
      SameRemainder(a, 0, b, j);
      RowsPermutation(r, Ordering.Without(a, 0), Ordering.Without(b, j));
      assert Rows(r, Ordering.Without(a, 0)) == Ordering.Without(Rows(r, a), 0);
      assert Rows(r, Ordering.Without(b, j)) == Ordering.Without(Rows(r, b), j);
      SameRemainder(Rows(r, a), 0, Rows(r, b), j);
      RestartsWithout(r, a, 0);
      RestartsWithout(r, b, j);
    }
  }

  lemma {:induction false} RestartsConcat(r: Reader, a: seq<Entry>, b: seq<Entry>)
    ensures Restarts(r, a + b) == Restarts(r, a) + Restarts(r, b)
  {
    hide DeclaresRestart, Get;
    if b == [] {
      assert a + b == a;
    } else {
      assert (a + b)[..|a + b| - 1] == a + b[..|b| - 1];
      RestartsConcat(r, a, b[..|b| - 1]);
    }
  }

  lemma RestartsWithout(r: Reader, a: seq<Entry>, j: nat)
    requires j < |a|
    ensures Restarts(r, a) == Restarts(r, Ordering.Without(a, j)) + Restarts(r, [a[j]])
  {
    hide Restarts;
    assert a == a[..j] + ([a[j]] + a[j + 1..]);
    RestartsConcat(r, a[..j], [a[j]] + a[j + 1..]);
    RestartsConcat(r, [a[j]], a[j + 1..]);
    RestartsConcat(r, a[..j], a[j + 1..]);
  }

  /** Reordering the battery changes neither the canonical text nor the restart count. */
  lemma OrderDoesNotCount(r: Reader, a: seq<Entry>, b: seq<Entry>, fixtures: seq<Entry>)
    requires multiset(a) == multiset(b)
    ensures Canonical(r, a, fixtures) == Canonical(r, b, fixtures)
    ensures Restarts(r, Selected(a, fixtures)) == Restarts(r, Selected(b, fixtures))
  {
    hide Canonical, Rows, Restarts;
    SelectedPermutation(a, b, fixtures);
    RowsPermutation(r, Selected(a, fixtures), Selected(b, fixtures));
    CanonicalTextExact(r, a, fixtures, r, b, fixtures);
  }
}
