/** Terminating the disposable worker and proving it: ci/p022_teardown.py, `describe` and `main`.

    `answers(i)` is what the i-th describe call of the run gets. Terminate calls decide nothing, and
    are left out of the numbering. */
module Teardown {
  import opened Wrappers

  /** A record without an identifier or a state has an empty one. */
  datatype Record = Record(id: string, state: string)

  /** A failed command, or what it printed: nothing, something that is not a JSON list, or records. */
  datatype Answer = Failed | Blank | NotAList | Records(records: seq<Record>)

  type States = map<string, string>

  const TERMINATED := "terminated"
  const KNOWN: set<string> := {"pending", "running", "stopping", "stopped", "shutting-down", TERMINATED}

  predicate WellFormed(records: seq<Record>) {
    forall r :: r in records ==> r.id != "" && r.state != ""
  }

  /** The last record of an instance counts. */
  function StatesOf(records: seq<Record>): States {
    if records == [] then map[]
    else StatesOf(records[..|records| - 1])[records[|records| - 1].id := records[|records| - 1].state]
  }

  /** What an answer says; None is a discovery error, never an empty inventory. */
  function Read(a: Answer): Option<States> {
    if a.Records? && WellFormed(a.records) then Some(StatesOf(a.records)) else None
  }

  method Describe(a: Answer) returns (r: Option<States>)
    ensures r == Read(a)
  {
    if !a.Records? { return None; }
    var out: States := map[];
    for i := 0 to |a.records|
      invariant WellFormed(a.records[..i]) && out == StatesOf(a.records[..i])
    {
      var rec := a.records[i];
      assert a.records[..i + 1][..i] == a.records[..i] && a.records[..i + 1] == a.records[..i] + [rec];
      if rec.id == "" || rec.state == "" {
        assert rec in a.records;
        return None;
      }
      out := out[rec.id := rec.state];
    }
    assert a.records[..|a.records|] == a.records;
    return Some(out);
  }

  /** How often a counted loop runs. */
  function Limit(n: int): nat {
    if n > 0 then n else 0
  }

  // ----- Discovery

  predicate Finds(a: Answer) {
    Read(a).Some? && Read(a).value != map[]
  }

  /** The first of up to `n` answers from `from` on that shows an instance. */
  function FirstFind(answers: nat -> Answer, from: nat, n: nat): Option<nat>
    decreases n
  {
    if n == 0 then None
    else if Finds(answers(from)) then Some(from)
    else FirstFind(answers, from + 1, n - 1)
  }

  method Discover(answers: nat -> Answer, attempts: int) returns (found: States, calls: nat)
    ensures match FirstFind(answers, 0, Limit(attempts))
      case None => found == map[] && calls == Limit(attempts)
      case Some(i) => Finds(answers(i)) && found == Read(answers(i)).value && calls == i + 1
  {
    found, calls := map[], 0;
    var limit := Limit(attempts);
    while calls < limit
      invariant calls <= limit && found == map[]
      invariant FirstFind(answers, 0, limit) == FirstFind(answers, calls, limit - calls)
    {
      var r := Describe(answers(calls));
      calls := calls + 1;
      match r
      case None => found := map[];
      case Some(states) =>
        found := states;
        if found != map[] { return; }
    }
  }

  // ----- Confirmation

  predicate Shows(states: States, expected: set<string>) {
    forall i :: i in expected ==> i in states
  }

  predicate AllTerminated(states: States, expected: set<string>) {
    forall i :: i in expected ==> i in states && states[i] == TERMINATED
  }

  predicate AllKnown(states: States, expected: set<string>) {
    forall i :: i in expected ==> i in states && states[i] in KNOWN
  }

  /** The answer settles the matter, and how: exit 0, exit 1, or not yet. */
  function Verdict(a: Answer, expected: set<string>): Option<nat> {
    match Read(a)
    case None => None
    case Some(states) =>
      if !Shows(states, expected) then Some(1)
      else if AllTerminated(states, expected) then Some(0)
      else if !AllKnown(states, expected) then Some(1)
      else None
  }

  /** Exit code and calls made when confirming from call `from` on, within `n` attempts. */
  function Confirmed(answers: nat -> Answer, from: nat, n: nat, expected: set<string>): (nat, nat)
    decreases n
  {
    if n == 0 then (1, from)
    else
      match Verdict(answers(from), expected)
      case Some(code) => (code, from + 1)
      case None => Confirmed(answers, from + 1, n - 1, expected)
  }

  /** The checks of one confirmation attempt, in their order. */
  method Judge(a: Answer, expected: set<string>) returns (v: Option<nat>)
    ensures v == Verdict(a, expected)
  {
    var r := Describe(a);
    if r.None? { return None; }
    var lastSeen := r.value;
    var missing := set i | i in expected && i !in lastSeen;
    if i :| i in missing {
      assert i in expected && i !in lastSeen;
      return Some(1);
    }
    assert forall i :: i in expected && i !in lastSeen ==> i in missing;
    if forall i :: i in expected ==> lastSeen[i] == TERMINATED { return Some(0); }
    var unexpected := set i | i in expected && lastSeen[i] !in KNOWN;
    if i :| i in unexpected { return Some(1); }
    assert forall i :: i in expected && lastSeen[i] !in KNOWN ==> i in unexpected;
    return None;
  }

  method Confirm(answers: nat -> Answer, from: nat, attempts: int, expected: set<string>)
    returns (code: nat, calls: nat)
    ensures (code, calls) == Confirmed(answers, from, Limit(attempts), expected)
  {
    hide Verdict;
    var limit := Limit(attempts);
    var done := 0;
    while done < limit
      invariant done <= limit
      invariant Confirmed(answers, from, limit, expected) == Confirmed(answers, from + done, limit - done, expected)
    {
      var v := Judge(answers(from + done), expected);
      done := done + 1;
      if v.Some? { return v.value, from + done; }
    }
    return 1, from + limit;
  }

  // ----- The run

  datatype Args = Args(instanceId: string, launchAttempted: bool, attempts: int, discoveryAttempts: int)

  /** The instances the run must see terminated, and the describe calls spent finding them. */
  function Expected(args: Args, answers: nat -> Answer): Option<(set<string>, nat)> {
    if args.instanceId != "" then Some(({args.instanceId}, 0))
    else
      match FirstFind(answers, 0, Limit(args.discoveryAttempts))
      case None => None
      case Some(i) => if Finds(answers(i)) then Some((Read(answers(i)).value.Keys, i + 1)) else None
  }

  function Outcome(args: Args, answers: nat -> Answer): nat {
    if args.instanceId == "" && !args.launchAttempted then 0
    else
      match Expected(args, answers)
      case None => 1
      case Some((expected, from)) => Confirmed(answers, from, Limit(args.attempts), expected).0
  }

  method Teardown(args: Args, answers: nat -> Answer) returns (code: nat, calls: nat)
    ensures code == Outcome(args, answers)
    ensures calls <= Limit(args.discoveryAttempts) + Limit(args.attempts)
  {
    var expected: set<string> := if args.instanceId != "" then {args.instanceId} else {};
    calls := 0;
    if expected == {} {
      if !args.launchAttempted { return 0, 0; }
      var found;
      found, calls := Discover(answers, args.discoveryAttempts);
      FirstFindIsFirst(answers, 0, Limit(args.discoveryAttempts));
      if found == map[] { return 1, calls; }
      expected := found.Keys;
    }
    ConfirmBounds(answers, calls, Limit(args.attempts), expected);
    code, calls := Confirm(answers, calls, args.attempts, expected);
  }

  lemma {:induction false} FirstFindIsFirst(answers: nat -> Answer, from: nat, n: nat)
    ensures match FirstFind(answers, from, n)
      case Some(i) => from <= i < from + n && Finds(answers(i)) && forall j :: from <= j < i ==> !Finds(answers(j))
      case None => forall j :: from <= j < from + n ==> !Finds(answers(j))
    decreases n
  {
    if n > 0 { FirstFindIsFirst(answers, from + 1, n - 1); }
  }

  lemma {:induction false} ConfirmBounds(answers: nat -> Answer, from: nat, n: nat, expected: set<string>)
    ensures from <= Confirmed(answers, from, n, expected).1 <= from + n
    decreases n
  {
    if n > 0 { ConfirmBounds(answers, from + 1, n - 1, expected); }
  }

  // ----- What an exit code means

  /** The answer can be read: it is a list of records with an identifier and a state each. */
  ghost predicate Readable(a: Answer) {
    a.Records? && forall i :: 0 <= i < |a.records| ==> a.records[i].id != "" && a.records[i].state != ""
  }

  /** The last record of the instance in the answer is in this state. */
  ghost predicate Says(a: Answer, id: string, state: string) {
    a.Records? && exists i :: LastAt(a.records, id, i) && a.records[i].state == state
  }

  ghost predicate LastAt(records: seq<Record>, id: string, i: int) {
    0 <= i < |records| && records[i].id == id && forall j :: i < j < |records| ==> records[j].id != id
  }

  ghost predicate Names(a: Answer, id: string) {
    a.Records? && exists i :: 0 <= i < |a.records| && a.records[i].id == id
  }

  /** Every expected instance is terminated. */
  ghost predicate ShowsDone(a: Answer, expected: set<string>) {
    Readable(a) && forall id :: id in expected ==> Says(a, id, TERMINATED)
  }

  ghost predicate InKnownState(a: Answer, id: string) {
    exists state :: state in KNOWN && Says(a, id, state)
  }

  /** Every expected instance is there and in a known state, and not all are terminated. */
  ghost predicate ShowsProgress(a: Answer, expected: set<string>) {
    Readable(a) && !ShowsDone(a, expected) && forall id :: id in expected ==> InKnownState(a, id)
  }

  /** Nothing can be read, or the instances are still on their way. */
  ghost predicate KeepsPolling(a: Answer, expected: set<string>) {
    !Readable(a) || ShowsProgress(a, expected)
  }

  /** An expected instance is missing, or one is in a state nobody knows while not all are terminated. */
  ghost predicate ShowsTrouble(a: Answer, expected: set<string>) {
    Readable(a) && exists id :: id in expected && (!Names(a, id) || (!InKnownState(a, id) && !ShowsDone(a, expected)))
  }

  lemma {:induction false} StatesAreLast(records: seq<Record>, id: string)
    ensures id in StatesOf(records) <==> exists i :: 0 <= i < |records| && records[i].id == id
    ensures id in StatesOf(records) ==> exists i :: LastAt(records, id, i) && records[i].state == StatesOf(records)[id]
  {
    if records != [] {
      var last := |records| - 1;
      var front := records[..last];
      StatesAreLast(front, id);
      if records[last].id == id {
        assert LastAt(records, id, last);
      } else if id in StatesOf(records) {
        var i :| LastAt(front, id, i) && front[i].state == StatesOf(front)[id];
        assert records[i] == front[i] && LastAt(records, id, i);
      } else {
        assert forall i :: 0 <= i < last ==> records[i] == front[i];
      }
    }
  }

  /** The dictionary read from an answer against its records. */
  lemma ReadSays(a: Answer, id: string, state: string)
    requires Readable(a)
    ensures Read(a).Some? && (id in Read(a).value <==> Names(a, id))
    ensures Says(a, id, state) <==> id in Read(a).value && Read(a).value[id] == state
  {
    StatesAreLast(a.records, id);
    if Says(a, id, state) {
      var i :| LastAt(a.records, id, i) && a.records[i].state == state;
      var j :| LastAt(a.records, id, j) && a.records[j].state == StatesOf(a.records)[id];
      assert i == j;
    }
  }

  lemma UnreadableIsNone(a: Answer)
    ensures Read(a).Some? <==> Readable(a)
  {
    if a.Records? && Readable(a) {
      forall r | r in a.records ensures r.id != "" && r.state != "" {}
    }
    if a.Records? && WellFormed(a.records) {
      forall i | 0 <= i < |a.records| ensures a.records[i].id != "" && a.records[i].state != "" {
        assert a.records[i] in a.records;
      }
    }
  }

  lemma KnownRead(a: Answer, id: string)
    requires Readable(a)
    ensures Read(a).Some?
    ensures InKnownState(a, id) <==> id in Read(a).value && Read(a).value[id] in KNOWN
  {
    UnreadableIsNone(a);
    hide Read, Says, Names, Readable;
    if InKnownState(a, id) {
      var state :| state in KNOWN && Says(a, id, state);
      ReadSays(a, id, state);
    }
    if id in Read(a).value { ReadSays(a, id, Read(a).value[id]); }
  }

  /** What the checks of one answer decide, in terms of its records. */
  lemma VerdictFromRecords(a: Answer, expected: set<string>)
    ensures Verdict(a, expected) == Some(0) <==> ShowsDone(a, expected)
    ensures Verdict(a, expected) == Some(1) <==> ShowsTrouble(a, expected)
    ensures Verdict(a, expected).None? <==> KeepsPolling(a, expected)
  {
    hide Read, Says, Names, Readable, InKnownState;
    UnreadableIsNone(a);
    if Readable(a) {
      forall id
        ensures id in Read(a).value <==> Names(a, id)
        ensures Says(a, id, TERMINATED) <==> id in Read(a).value && Read(a).value[id] == TERMINATED
        ensures InKnownState(a, id) <==> id in Read(a).value && Read(a).value[id] in KNOWN
      {
        ReadSays(a, id, TERMINATED);
        KnownRead(a, id);
      }
    }
  }

  /** Answer `k` shows every expected instance terminated, and none before it settled the matter. */
  ghost predicate SettledAt(answers: nat -> Answer, from: nat, n: int, expected: set<string>, k: nat) {
    && from <= k < from + n && ShowsDone(answers(k), expected)
    && forall j :: from <= j < k ==> KeepsPolling(answers(j), expected)
  }

  /** Confirmation exits 0 exactly when one single answer shows every expected instance terminated and
      each earlier one could not be read or showed all of them in known states; in particular none
      missed an instance. */
  lemma {:induction false} ConfirmedExactly(answers: nat -> Answer, from: nat, n: nat, expected: set<string>)
    ensures Confirmed(answers, from, n, expected).0 == 0 <==> exists k: nat :: SettledAt(answers, from, n, expected, k)
    decreases n
  {
    hide ShowsDone, KeepsPolling, ShowsTrouble, Verdict;
    if n > 0 {
      var v := Verdict(answers(from), expected);
      var next, rest := from + 1, n - 1;
      ConfirmedExactly(answers, next, rest, expected);
      VerdictFromRecords(answers(from), expected);
      if v == Some(0) { assert SettledAt(answers, from, n, expected, from); }
      if v.None? && exists k: nat :: SettledAt(answers, next, rest, expected, k) {
        var k: nat :| SettledAt(answers, next, rest, expected, k);
        assert SettledAt(answers, from, n, expected, k);
      }
      if exists k: nat :: SettledAt(answers, from, n, expected, k) {
        var k: nat :| SettledAt(answers, from, n, expected, k);
        if k > from { assert SettledAt(answers, next, rest, expected, k); }
      }
    }
  }

  /** An answer that misses an expected instance, or shows one in an unknown state, is a failure when
      it is reached, whatever later answers would have been. */
  lemma {:induction false} TroubleFails(answers: nat -> Answer, from: nat, n: nat, expected: set<string>, k: nat)
    requires from <= k < from + n && ShowsTrouble(answers(k), expected)
    requires forall j :: from <= j < k ==> KeepsPolling(answers(j), expected)
    ensures Confirmed(answers, from, n, expected) == (1, k + 1)
    decreases n
  {
    VerdictFromRecords(answers(from), expected);
    hide ShowsDone, KeepsPolling, ShowsTrouble, Verdict;
    if from < k { TroubleFails(answers, from + 1, n - 1, expected, k); }
  }

  /** The answer names the instances of the set, and no others. */
  ghost predicate NamesExactly(a: Answer, ids: set<string>) {
    Readable(a) && forall id :: id in ids <==> Names(a, id)
  }

  lemma FindsFromRecords(a: Answer)
    ensures Finds(a) <==> Readable(a) && a.records != []
    ensures Finds(a) ==> NamesExactly(a, Read(a).value.Keys)
  {
    UnreadableIsNone(a);
    if Readable(a) {
      forall id ensures id in Read(a).value <==> Names(a, id) { ReadSays(a, id, TERMINATED); }
      if a.records != [] { assert Names(a, a.records[0].id); }
    }
  }

  /** The first answer with an instance names the instances that are discovered. */
  ghost predicate Discovered(answers: nat -> Answer, limit: int, expected: set<string>, from: nat) {
    && 0 < from <= limit && NamesExactly(answers(from - 1), expected) && expected != {}
    && forall j :: 0 <= j < from - 1 ==> !Readable(answers(j)) || answers(j).records == []
  }

  lemma FirstDiscovers(answers: nat -> Answer, limit: nat, i: nat)
    requires FirstFind(answers, 0, limit) == Some(i)
    ensures Finds(answers(i)) && Discovered(answers, limit, Read(answers(i)).value.Keys, i + 1)
  {
    FirstFindIsFirst(answers, 0, limit);
    hide Finds, Readable, NamesExactly, Read;
    FindsFromRecords(answers(i));
    forall j | 0 <= j < i ensures !Readable(answers(j)) || answers(j).records == [] { FindsFromRecords(answers(j)); }
    FoundSome(answers(i));
  }

  lemma DiscoveredIsFirst(answers: nat -> Answer, limit: nat, expected: set<string>, from: nat)
    requires Discovered(answers, limit, expected, from)
    ensures FirstFind(answers, 0, limit) == Some(from - 1) && Finds(answers(from - 1))
    ensures Read(answers(from - 1)).value.Keys == expected
  {
    FirstFindIsFirst(answers, 0, limit);
    var id :| id in expected;
    assert Names(answers(from - 1), id);
    FindsFromRecords(answers(from - 1));
    hide Finds, Readable, Read, Names;
    forall j | 0 <= j < from - 1 ensures !Finds(answers(j)) { FindsFromRecords(answers(j)); }
  }

  /** From call `from` on the run seeks to see these instances terminated: the one it was given, or those
      that discovery showed after a launch. */
  ghost predicate Seeks(args: Args, answers: nat -> Answer, expected: set<string>, from: nat) {
    if args.instanceId != "" then expected == {args.instanceId} && from == 0
    else Discovered(answers, args.discoveryAttempts, expected, from)
  }

  lemma ExpectedExactly(args: Args, answers: nat -> Answer, expected: set<string>, from: nat)
    ensures Expected(args, answers) == Some((expected, from)) <==> Seeks(args, answers, expected, from)
  {
    var limit := Limit(args.discoveryAttempts);
    hide NamesExactly, Readable, Finds, Read;
    if args.instanceId == "" {
      var first := FirstFind(answers, 0, limit);
      if first.Some? { FirstDiscovers(answers, limit, first.value); }
      if Discovered(answers, limit, expected, from) { DiscoveredIsFirst(answers, limit, expected, from); }
    }
  }

  lemma FoundSome(a: Answer)
    requires Finds(a)
    ensures Read(a).value.Keys != {}
  {
    var m := Read(a).value;
    assert m.Keys == {} ==> m == map[];
  }

  /** The run saw all it was after terminated, in one answer. */
  ghost predicate SawTermination(args: Args, answers: nat -> Answer, expected: set<string>, from: nat) {
    Seeks(args, answers, expected, from) && exists k: nat :: SettledAt(answers, from, args.attempts, expected, k)
  }

  /** The exit code is 0 or 1, and 0 exactly when no launch was attempted and no id was given, or after
      one answer that shows every expected instance terminated, where what is expected was given or is
      what the first answer with an instance named. Failures and empty answers never lead to it. */
  lemma ExitZeroHasEvidence(args: Args, answers: nat -> Answer)
    ensures Outcome(args, answers) == 0 <==>
      || (args.instanceId == "" && !args.launchAttempted)
      || exists expected, from :: SawTermination(args, answers, expected, from)
    ensures Outcome(args, answers) == 0 || Outcome(args, answers) == 1
  {
    hide Confirmed, Expected, Discovered, ShowsDone, KeepsPolling;
    forall from, expected, k: nat
      ensures SettledAt(answers, from, Limit(args.attempts), expected, k)
         <==> SettledAt(answers, from, args.attempts, expected, k) {}
    if args.instanceId != "" || args.launchAttempted {
      if Expected(args, answers).Some? {
        var (expected, from) := Expected(args, answers).value;
        ConfirmedExactly(answers, from, Limit(args.attempts), expected);
        ConfirmedCode(answers, from, Limit(args.attempts), expected);
        ExpectedExactly(args, answers, expected, from);
        assert Outcome(args, answers) == 0 ==> SawTermination(args, answers, expected, from);
      }
      forall expected, from | SawTermination(args, answers, expected, from) ensures Outcome(args, answers) == 0 {
        ExpectedExactly(args, answers, expected, from);
        ConfirmedExactly(answers, from, Limit(args.attempts), expected);
      }
    }
  }

  lemma {:induction false} ConfirmedCode(answers: nat -> Answer, from: nat, n: nat, expected: set<string>)
    ensures Confirmed(answers, from, n, expected).0 == 0 || Confirmed(answers, from, n, expected).0 == 1
    decreases n
  {
    if n > 0 { ConfirmedCode(answers, from + 1, n - 1, expected); }
  }

  /** A launch that was attempted and never became visible is a failure, whatever the answers were. */
  lemma InvisibleLaunchFails(args: Args, answers: nat -> Answer)
    requires args.instanceId == "" && args.launchAttempted
    requires forall i :: 0 <= i < args.discoveryAttempts ==> !Readable(answers(i)) || answers(i).records == []
    ensures Outcome(args, answers) == 1
  {
    FirstFindIsFirst(answers, 0, Limit(args.discoveryAttempts));
    var found := FirstFind(answers, 0, Limit(args.discoveryAttempts));
    if found.Some? { FindsFromRecords(answers(found.value)); }
  }

  /** So a run whose instance is missing from an answer that is reached fails. */
  lemma MissingInstanceFails(args: Args, answers: nat -> Answer, expected: set<string>, from: nat, k: nat, id: string)
    requires (args.instanceId != "" || args.launchAttempted) && Seeks(args, answers, expected, from)
    requires from <= k < from + args.attempts && id in expected
    requires Readable(answers(k)) && !Names(answers(k), id)
    requires forall j :: from <= j < k ==> KeepsPolling(answers(j), expected)
    ensures Outcome(args, answers) == 1
  {
    ExpectedExactly(args, answers, expected, from);
    hide Readable, Names, KeepsPolling;
    assert ShowsTrouble(answers(k), expected);
    TroubleFails(answers, from, Limit(args.attempts), expected, k);
  }

  // ----- Against the real instances

  /** Answers, where given, are true of the instances' states at that call; terminated is final. */
  ghost predicate Truthful(answers: nat -> Answer, truth: (nat, string) -> string) {
    && (forall i, id, state :: Readable(answers(i)) && Says(answers(i), id, state) ==> state == truth(i, id))
    && (forall i, j, id :: i <= j && truth(i, id) == TERMINATED ==> truth(j, id) == TERMINATED)
  }

  ghost predicate TerminatedFrom(truth: (nat, string) -> string, expected: set<string>, k: nat) {
    forall id, j :: id in expected && j >= k ==> truth(j, id) == TERMINATED
  }

  /** On exit 0 no expected instance is active, then or ever after. */
  lemma ExitZeroMeansTerminated(args: Args, answers: nat -> Answer, truth: (nat, string) -> string)
    requires Truthful(answers, truth) && Outcome(args, answers) == 0
    requires args.instanceId != "" || args.launchAttempted
    ensures exists expected, from: nat, k: nat ::
      && Seeks(args, answers, expected, from)
      && from <= k < from + args.attempts && TerminatedFrom(truth, expected, k)
  {
    ExitZeroHasEvidence(args, answers);
    var expected, from :| SawTermination(args, answers, expected, from);
    var k: nat :| SettledAt(answers, from, args.attempts, expected, k);
    hide Readable, Says;
    forall id, j | id in expected && j >= k ensures truth(j, id) == TERMINATED {
      assert Says(answers(k), id, TERMINATED);
      assert truth(k, id) == TERMINATED;
    }
    assert TerminatedFrom(truth, expected, k);
  }

  /** Answers that reach all-terminated within the attempts force exit 0, however many calls fail on the
      way, as long as those that can be read show every expected instance in a known state. */
  lemma TerminationIsRecognised(args: Args, answers: nat -> Answer, expected: set<string>, from: nat, k: nat)
    requires (args.instanceId != "" || args.launchAttempted) && Seeks(args, answers, expected, from)
    requires from <= k < from + args.attempts && ShowsDone(answers(k), expected)
    requires forall j :: from <= j < k && Readable(answers(j)) ==>
      forall id :: id in expected ==> InKnownState(answers(j), id)
    ensures Outcome(args, answers) == 0
  {
    ExpectedExactly(args, answers, expected, from);
    hide Readable, InKnownState, Says;
    var first := FirstTerminated(answers, from, k, expected);
    ConfirmedExactly(answers, from, Limit(args.attempts), expected);
    assert SettledAt(answers, from, Limit(args.attempts), expected, first);
  }

  lemma {:induction false} FirstTerminated(answers: nat -> Answer, from: nat, k: nat, expected: set<string>)
    returns (first: nat)
    requires from <= k && ShowsDone(answers(k), expected)
    ensures from <= first <= k && ShowsDone(answers(first), expected)
    ensures forall j :: from <= j < first ==> !ShowsDone(answers(j), expected)
    decreases k - from
  {
    if ShowsDone(answers(from), expected) {
      first := from;
    } else {
      first := FirstTerminated(answers, from + 1, k, expected);
    }
  }

  // ----- Describe calls that fail

  lemma {:induction false} AllFailed(answers: nat -> Answer, from: nat, n: nat, expected: set<string>)
    requires forall i :: from <= i < from + n ==> !Readable(answers(i))
    ensures Confirmed(answers, from, n, expected) == (1, from + n)
    decreases n
  {
    if n > 0 {
      UnreadableIsNone(answers(from));
      AllFailed(answers, from + 1, n - 1, expected);
    }
  }

  /** An id that the API never resolves is a failure, but only after all attempts: no answer that is
      failed, blank or malformed settles anything by itself. */
  lemma NeverResolvedFails(args: Args, answers: nat -> Answer, expected: set<string>, from: nat)
    requires (args.instanceId != "" || args.launchAttempted) && Seeks(args, answers, expected, from)
    requires forall i :: from <= i < from + args.attempts ==> !Readable(answers(i))
    ensures Outcome(args, answers) == 1
  {
    ExpectedExactly(args, answers, expected, from);
    AllFailed(answers, from, Limit(args.attempts), expected);
  }

  /** A call that fails, be it because the id is said to be invalid, can be followed by exit 0. */
  lemma FailureThenSuccess() returns (args: Args, answers: nat -> Answer)
    ensures args.instanceId != "" && answers(0).Failed? && Outcome(args, answers) == 0
  {
    var id := "i-0123456789abcdef0";
    args := Args(id, true, 2, 0);
    answers := (i: nat) => if i == 0 then Failed else Records([Record(id, TERMINATED)]);
    var r := Record(id, TERMINATED);
    assert [r][..0] == [] && StatesOf([r]) == map[id := TERMINATED];
    assert Verdict(answers(1), {id}) == Some(0);
  }
}
