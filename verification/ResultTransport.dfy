/** Command results over a create-only store: ci/p022_results.py, `worker`, `put`, `get`,
    `validate`, `collect`, as a state machine over their steps.

    Under one token any number of executions of the worker may run, each crashing at any point;
    a conditional put may fail, be refused, or take effect with its acknowledgement lost; a read may
    fail. SHA-256 and the size of a receipt's JSON text are parameters. */
module ResultTransport {
  import opened Wrappers

  const MAX_OUTPUT: nat := 32 * 1024 * 1024
  const MAX_RECEIPT: nat := 4096
  const SCHEMA := "polis-public-command/1"

  datatype Campaign = Campaign(arn: string, token: string, name: string, sha256: Bytes -> string, size: Receipt -> nat)

  datatype Receipt = Receipt(schema: string, instance: string, token: string, name: string,
                             exitCode: int, bytes: int, sha256: string)

  datatype TransportError = ResultLimit | ResultLength | ResultMissing | ResultReceipt | ResultDeadline

  /** The two objects under the token's prefix. `worker` is the execution that stored the object;
      nothing reads it. */
  datatype Stored<T> = Stored(worker: nat, content: T)
  datatype Store = Store(stdout: Option<Stored<Bytes>>, receipt: Option<Stored<Receipt>>)

  datatype Output = Output(raw: Bytes, code: int)

  /** How a command ended: what it printed and its return code. */
  datatype Ending = Ending(raw: Bytes, rc: int)

  datatype Worker =
    | Started
    | Ran(output: Output)
    | StdoutStored(output: Output)
    | Done(output: Output)
    | Dead

  datatype Collector =
    | Polling
    | ReceiptHead(length: nat)
    | HaveReceipt(receipt: Receipt)
    | StdoutHead(receipt: Receipt, length: nat)
    | Returned(output: Output)
    | Raised(error: TransportError)

  /** `endings` records how each execution's command ended, `outputs` what the execution makes of it, and
      `readFailed` whether a read of a visible object has failed; no step depends on them. */
  datatype State = State(store: Store, workers: map<nat, Worker>, collector: Collector,
                         endings: map<nat, Ending>, outputs: map<nat, Output>, readFailed: bool)

  // ----- The worker

  function ExitCode(rc: int): int {
    if 0 <= rc <= 255 then rc else 1
  }

  function MakeReceipt(c: Campaign, o: Output): Receipt {
    Receipt(SCHEMA, c.arn, c.token, c.name, o.code, |o.raw|, c.sha256(o.raw))
  }

  /** An execution starts. */
  ghost predicate Launch(s: State, t: State, w: nat) {
    w !in s.workers && t == s.(workers := s.workers[w := Started])
  }

  /** The command ends with any output and return code; too much output is a failure. */
  ghost predicate Run(s: State, t: State, w: nat, raw: Bytes, rc: int) {
    var o := Output(raw, ExitCode(rc));
    && w in s.workers && s.workers[w].Started?
    && var ended := s.(endings := s.endings[w := Ending(raw, rc)]);
       t == if |raw| > MAX_OUTPUT then ended.(workers := s.workers[w := Dead])
            else ended.(workers := s.workers[w := Ran(o)], outputs := s.outputs[w := o])
  }

  ghost predicate Crash(s: State, t: State, w: nat) {
    w in s.workers && t == s.(workers := s.workers[w := Dead])
  }

  /** `put` with if-none-match: only an absent object is stored. When the call fails, whether or not
      it took effect, the worker ends. */
  ghost predicate PutStdout(s: State, t: State, w: nat, acked: bool) {
    && w in s.workers && s.workers[w].Ran? && s.store.stdout.None?
    && var o := s.workers[w].output;
       t == s.(store := s.store.(stdout := Some(Stored(w, o.raw))),
               workers := s.workers[w := if acked then StdoutStored(o) else Dead])
  }

  ghost predicate PutReceipt(c: Campaign, s: State, t: State, w: nat, acked: bool) {
    && w in s.workers && s.workers[w].StdoutStored? && s.store.receipt.None?
    && var o := s.workers[w].output;
       t == s.(store := s.store.(receipt := Some(Stored(w, MakeReceipt(c, o)))),
               workers := s.workers[w := if acked then Done(o) else Dead])
  }

  // ----- The collector

  function Validate(c: Campaign, r: Receipt, raw: Bytes): Result<int, TransportError> {
    if r.schema != SCHEMA || r.instance != c.arn || r.token != c.token || r.name != c.name
      || !(0 <= r.exitCode <= 255) || r.bytes != |raw| || |raw| > MAX_OUTPUT || r.sha256 != c.sha256(raw)
    then Err(ResultReceipt)
    else Ok(r.exitCode)
  }

  /** `head-object`, then `get-object` of the receipt; a failure of either polls again. */
  ghost predicate HeadReceipt(c: Campaign, s: State, t: State) {
    && s.collector.Polling? && s.store.receipt.Some?
    && var n := c.size(s.store.receipt.value.content);
       t == s.(collector := if n > MAX_RECEIPT then Raised(ResultLimit) else ReceiptHead(n))
  }

  ghost predicate GetReceipt(c: Campaign, s: State, t: State) {
    && s.collector.ReceiptHead? && s.store.receipt.Some?
    && var r := s.store.receipt.value.content;
       t == s.(collector := if c.size(r) != s.collector.length then Raised(ResultLength) else HaveReceipt(r))
  }

  ghost predicate PollAgain(s: State, t: State) {
    && (s.collector.Polling? || s.collector.ReceiptHead?)
    && t == s.(collector := Polling, readFailed := s.readFailed || s.store.receipt.Some?)
  }

  ghost predicate HeadStdout(s: State, t: State) {
    && s.collector.HaveReceipt? && s.store.stdout.Some?
    && var n := |s.store.stdout.value.content|;
       t == s.(collector := if n > MAX_OUTPUT then Raised(ResultLimit) else StdoutHead(s.collector.receipt, n))
  }

  ghost predicate GetStdout(c: Campaign, s: State, t: State) {
    && s.collector.StdoutHead? && s.store.stdout.Some?
    && var raw := s.store.stdout.value.content;
       t == s.(collector :=
         if |raw| != s.collector.length then Raised(ResultLength)
         else match Validate(c, s.collector.receipt, raw)
           case Ok(code) => Returned(Output(raw, code))
           case Err(e) => Raised(e))
  }

  /** A missing or unreadable stdout after a receipt is an error. */
  ghost predicate MissStdout(s: State, t: State) {
    && (s.collector.HaveReceipt? || s.collector.StdoutHead?)
    && t == s.(collector := Raised(ResultMissing), readFailed := s.readFailed || s.store.stdout.Some?)
  }

  ghost predicate Deadline(s: State, t: State) {
    s.collector.Polling? && t == s.(collector := Raised(ResultDeadline))
  }

  // ----- Receipts

  /** The collector accepts exactly the receipts that a worker of its own campaign makes for these bytes,
      and takes the exit code they carry. */
  lemma ValidatesWhatIsMade(c: Campaign, r: Receipt, raw: Bytes, code: int)
    ensures Validate(c, r, raw) == Ok(code)
       <==> 0 <= code <= 255 && |raw| <= MAX_OUTPUT && r == MakeReceipt(c, Output(raw, code))
  {}

  /** A receipt binds the instance, the token and the label of its command, and its bytes up to a
      collision: no other campaign's receipt is accepted, nor one for other bytes. */
  lemma ReceiptBinds(c: Campaign, d: Campaign, o: Output, raw: Bytes)
    requires Validate(c, MakeReceipt(d, o), raw).Ok?
    ensures c.arn == d.arn && c.token == d.token && c.name == d.name
    ensures |raw| == |o.raw| && c.sha256(raw) == d.sha256(o.raw)
  {}

  // ----- Runs

  ghost predicate Init(s: State) {
    s == State(Store(None, None), map[], Polling, map[], map[], false)
  }

  ghost predicate WorkerStep(c: Campaign, s: State, t: State) {
    || (exists w :: Launch(s, t, w))
    || (exists w, raw, rc :: Run(s, t, w, raw, rc))
    || (exists w :: Crash(s, t, w))
    || (exists w, acked :: PutStdout(s, t, w, acked))
    || (exists w, acked :: PutReceipt(c, s, t, w, acked))
  }

  ghost predicate CollectorStep(c: Campaign, s: State, t: State) {
    || HeadReceipt(c, s, t) || GetReceipt(c, s, t) || PollAgain(s, t)
    || HeadStdout(s, t) || GetStdout(c, s, t) || MissStdout(s, t) || Deadline(s, t)
  }

  ghost predicate Next(c: Campaign, s: State, t: State) {
    WorkerStep(c, s, t) || CollectorStep(c, s, t)
  }

  ghost predicate IsRun(c: Campaign, run: seq<State>) {
    && run != [] && Init(run[0])
    && forall i :: 0 < i < |run| ==> Next(c, run[i - 1], run[i])
  }

  // ----- What every step keeps

  ghost predicate HasOutput(s: State, w: nat, o: Output) {
    w in s.outputs && s.outputs[w] == o && |o.raw| <= MAX_OUTPUT && 0 <= o.code <= 255
  }

  /** The output tells how the command ended: all it printed, its return code where that fits in a
      byte, and otherwise a failure. */
  ghost predicate Tells(o: Output, e: Ending) {
    && o.raw == e.raw
    && o.code == if 0 <= e.rc <= 255 then e.rc else 1
  }

  ghost predicate OutputsTell(s: State) {
    && (forall w :: w in s.outputs ==> w in s.endings && Tells(s.outputs[w], s.endings[w]))
    && s.endings.Keys <= s.workers.Keys
    && (forall w :: w in s.workers && s.workers[w].Started? ==> w !in s.endings)
  }

  ghost predicate WorkerConsistent(s: State, w: nat)
    requires w in s.workers
  {
    match s.workers[w]
    case Started => w !in s.outputs
    case Ran(o) => HasOutput(s, w, o)
    case StdoutStored(o) => HasOutput(s, w, o) && s.store.stdout == Some(Stored(w, o.raw))
    case Done(o) => HasOutput(s, w, o) && s.store.stdout == Some(Stored(w, o.raw)) && s.store.receipt.Some?
    case Dead => true
  }

  ghost predicate WorkersConsistent(s: State) {
    && (forall w :: w in s.workers ==> WorkerConsistent(s, w))
    && s.outputs.Keys <= s.workers.Keys
  }

  /** The receipt and the output it describes are one execution's. */
  ghost predicate StoreConsistent(c: Campaign, s: State) {
    && (s.store.stdout.Some? ==>
          var w := s.store.stdout.value.worker;
          w in s.outputs && HasOutput(s, w, s.outputs[w]) && s.store.stdout.value.content == s.outputs[w].raw)
    && (s.store.receipt.Some? ==>
          s.store.stdout.Some? && s.store.receipt.value == Stored(s.store.stdout.value.worker,
            MakeReceipt(c, s.outputs[s.store.stdout.value.worker])))
  }

  /** A receipt of admissible size is visible. */
  ghost predicate Small(c: Campaign, s: State) {
    s.store.receipt.Some? && c.size(s.store.receipt.value.content) <= MAX_RECEIPT
  }

  ghost predicate CollectorConsistent(c: Campaign, s: State)
    requires StoreConsistent(c, s)
  {
    match s.collector
    case Polling => true
    case ReceiptHead(n) => Small(c, s) && n == c.size(s.store.receipt.value.content)
    case HaveReceipt(r) => Small(c, s) && r == s.store.receipt.value.content
    case StdoutHead(r, n) =>
      Small(c, s) && r == s.store.receipt.value.content && n == |s.store.stdout.value.content|
    case Returned(o) => Small(c, s) && o == s.outputs[s.store.receipt.value.worker]
    case Raised(ResultMissing) => s.readFailed
    case Raised(ResultLimit) => s.store.receipt.Some? && c.size(s.store.receipt.value.content) > MAX_RECEIPT
    case Raised(ResultDeadline) => true
    case Raised(_) => false
  }

  ghost predicate Inv(c: Campaign, s: State) {
    WorkersConsistent(s) && StoreConsistent(c, s) && CollectorConsistent(c, s)
  }

  lemma RunTells(s: State, t: State, w: nat, raw: Bytes, rc: int)
    requires OutputsTell(s) && Run(s, t, w, raw, rc)
    ensures OutputsTell(t) && EndingsKept(s, t)
  {}

  /** No worker starts and no record changes. */
  lemma QuietTells(s: State, t: State)
    requires OutputsTell(s) && t.endings == s.endings && t.outputs == s.outputs && s.workers.Keys <= t.workers.Keys
    requires forall w :: w in t.workers && t.workers[w].Started? ==> w !in s.workers || s.workers[w].Started?
    ensures OutputsTell(t) && EndingsKept(s, t)
  {}

  ghost predicate EndingsKept(s: State, t: State) {
    forall w :: w in s.endings ==> w in t.endings && t.endings[w] == s.endings[w]
  }

  lemma StepTells(c: Campaign, s: State, t: State)
    requires OutputsTell(s) && Next(c, s, t)
    ensures OutputsTell(t) && EndingsKept(s, t)
  {
    hide OutputsTell, EndingsKept;
    if CollectorStep(c, s, t) {
      assert t == s.(collector := t.collector, readFailed := t.readFailed);
      hide *;
      QuietTells(s, t);
    } else if w, raw, rc :| Run(s, t, w, raw, rc) {
      RunTells(s, t, w, raw, rc);
    } else {
      assert t.endings == s.endings && t.outputs == s.outputs && s.workers.Keys <= t.workers.Keys;
      QuietTells(s, t);
    }
  }

  lemma {:induction false} EveryOutputTells(c: Campaign, run: seq<State>, i: nat)
    requires IsRun(c, run) && i < |run|
    ensures OutputsTell(run[i])
  {
    hide OutputsTell, Next;
    if i == 0 {
      NothingTold(run[0]);
    } else {
      EveryOutputTells(c, run, i - 1);
      StepTells(c, run[i - 1], run[i]);
    }
  }

  lemma NothingTold(s: State)
    requires Init(s)
    ensures OutputsTell(s)
  {}

  lemma PutStdoutKeepsInv(c: Campaign, s: State, t: State, w: nat, acked: bool)
    requires Inv(c, s) && PutStdout(s, t, w, acked)
    ensures Inv(c, t)
  {}

  lemma PutReceiptKeepsInv(c: Campaign, s: State, t: State, w: nat, acked: bool)
    requires Inv(c, s) && PutReceipt(c, s, t, w, acked)
    ensures Inv(c, t)
  {}

  lemma RunKeepsInv(c: Campaign, s: State, t: State, w: nat, raw: Bytes, rc: int)
    requires Inv(c, s) && Run(s, t, w, raw, rc)
    ensures Inv(c, t)
  {
    forall v | v in t.workers ensures WorkerConsistent(t, v) { assert WorkerConsistent(s, v); }
    assert w !in s.outputs by { assert WorkerConsistent(s, w); }
  }

  lemma WorkerStepKeepsInv(c: Campaign, s: State, t: State)
    requires Inv(c, s) && WorkerStep(c, s, t)
    ensures Inv(c, t)
  {
    if w :| Launch(s, t, w) {
      forall v | v in t.workers ensures WorkerConsistent(t, v) { assert v != w ==> WorkerConsistent(s, v); }
    } else if w, raw, rc :| Run(s, t, w, raw, rc) {
      RunKeepsInv(c, s, t, w, raw, rc);
    } else if w :| Crash(s, t, w) {
      forall v | v in t.workers ensures WorkerConsistent(t, v) { assert WorkerConsistent(s, v); }
    } else if w, acked :| PutStdout(s, t, w, acked) {
      PutStdoutKeepsInv(c, s, t, w, acked);
    } else {
      var w, acked :| PutReceipt(c, s, t, w, acked);
      PutReceiptKeepsInv(c, s, t, w, acked);
    }
  }

  lemma CollectorStepKeepsInv(c: Campaign, s: State, t: State)
    requires Inv(c, s) && CollectorStep(c, s, t)
    ensures Inv(c, t)
  {
    assert WorkersConsistent(t) by {
      forall v | v in t.workers ensures WorkerConsistent(t, v) { assert WorkerConsistent(s, v); }
    }
  }

  lemma {:induction false} EveryStateConsistent(c: Campaign, run: seq<State>, i: nat)
    requires IsRun(c, run) && i < |run|
    ensures Inv(c, run[i])
  {
    if i > 0 {
      EveryStateConsistent(c, run, i - 1);
      if WorkerStep(c, run[i - 1], run[i]) {
        WorkerStepKeepsInv(c, run[i - 1], run[i]);
      } else {
        CollectorStepKeepsInv(c, run[i - 1], run[i]);
      }
    }
  }

  // ----- The protocol's promises, over every run

  /** A visible receipt means stdout is visible and both are one execution's, whatever else ran. */
  lemma ReceiptHasItsStdout(c: Campaign, run: seq<State>, i: nat)
    requires IsRun(c, run) && i < |run| && run[i].store.receipt.Some?
    ensures var s := run[i]; var w := s.store.receipt.value.worker;
      && w in s.outputs
      && s.store.stdout == Some(Stored(w, s.outputs[w].raw))
      && s.store.receipt.value.content == MakeReceipt(c, s.outputs[w])
  {
    EveryStateConsistent(c, run, i);
  }

  /** The collector returns what the command of the execution whose receipt is visible printed, and its
      return code, or 1 where that is no exit code: so 0 means that the command returned 0. It never
      rejects a receipt or a length; a result goes missing only when a read failed, and is over the
      limit only when the receipt's text is. */
  lemma CollectorReturnsTheWinner(c: Campaign, run: seq<State>, i: nat)
    requires IsRun(c, run) && i < |run|
    ensures var s := run[i]; s.collector.Returned? ==>
      Small(c, s) && var w, o := s.store.receipt.value.worker, s.collector.output;
      && w in s.outputs && o == s.outputs[w] && w in s.endings
      && var Ending(raw, rc) := s.endings[w];
         o.raw == raw && o.code == (if 0 <= rc <= 255 then rc else 1) && (o.code == 0 <==> rc == 0)
    ensures run[i].collector.Raised? ==> run[i].collector.error !in {ResultReceipt, ResultLength}
    ensures run[i].collector == Raised(ResultMissing) ==> run[i].readFailed
    ensures run[i].collector == Raised(ResultLimit) ==>
      run[i].store.receipt.Some? && c.size(run[i].store.receipt.value.content) > MAX_RECEIPT
  {
    EveryStateConsistent(c, run, i);
    EveryOutputTells(c, run, i);
  }

  lemma StepKeepsStored(c: Campaign, s: State, t: State)
    requires Inv(c, s) && Next(c, s, t)
    ensures s.store.stdout.Some? ==> t.store.stdout == s.store.stdout
    ensures s.store.receipt.Some? ==> t.store.receipt == s.store.receipt
    ensures forall w :: w in s.outputs ==> w in t.outputs && t.outputs[w] == s.outputs[w]
  {
    if w, raw, rc :| Run(s, t, w, raw, rc) {
      assert w !in s.outputs by { assert WorkerConsistent(s, w); }
    }
  }

  /** What is visible never changes again, so what the collector may return never does either. */
  lemma {:induction false} StoredNeverChanges(c: Campaign, run: seq<State>, i: nat, j: nat)
    requires IsRun(c, run) && i <= j < |run|
    ensures run[i].store.stdout.Some? ==> run[j].store.stdout == run[i].store.stdout
    ensures run[i].store.receipt.Some? ==> run[j].store.receipt == run[i].store.receipt
    ensures forall w :: w in run[i].outputs ==> w in run[j].outputs && run[j].outputs[w] == run[i].outputs[w]
  {
    hide Next, Inv;
    if i < j {
      StoredNeverChanges(c, run, i, j - 1);
      EveryStateConsistent(c, run, j - 1);
      StepKeepsStored(c, run[j - 1], run[j]);
    }
  }

  /** A command ends at most once: how it ended stays on record. */
  lemma {:induction false} EndingsStay(c: Campaign, run: seq<State>, i: nat, j: nat)
    requires IsRun(c, run) && i <= j < |run|
    ensures EndingsKept(run[i], run[j])
  {
    hide OutputsTell, Next;
    if i < j {
      EndingsStay(c, run, i, j - 1);
      EveryOutputTells(c, run, j - 1);
      StepTells(c, run[j - 1], run[j]);
    }
  }

  ghost predicate ToldStored(s: State, w: nat) {
    w in s.workers && (s.workers[w].StdoutStored? || s.workers[w].Done?)
  }

  /** Over a whole run at most one execution is ever told that it stored its output, even when it has
      crashed by the time another one runs. */
  lemma SingleWinner(c: Campaign, run: seq<State>, i: nat, j: nat, v: nat, w: nat)
    requires IsRun(c, run) && i < |run| && j < |run| && ToldStored(run[i], v) && ToldStored(run[j], w)
    ensures v == w
  {
    EveryStateConsistent(c, run, i);
    EveryStateConsistent(c, run, j);
    assert WorkerConsistent(run[i], v) && WorkerConsistent(run[j], w);
    if i <= j { StoredNeverChanges(c, run, i, j); } else { StoredNeverChanges(c, run, j, i); }
  }

  ghost predicate Finished(s: State) {
    s.collector.Returned? || s.collector.Raised?
  }

  /** The collector's answer is final. */
  lemma {:induction false} FinishedStays(c: Campaign, run: seq<State>, i: nat, j: nat)
    requires IsRun(c, run) && i <= j < |run| && Finished(run[i])
    ensures run[j].collector == run[i].collector
  {
    if i < j {
      FinishedStays(c, run, i, j - 1);
      assert Next(c, run[j - 1], run[j]);
    }
  }

  // ----- Whether a result can still be delivered

  /** The steps of `more` follow the state. */
  ghost predicate Continues(c: Campaign, s: State, more: seq<State>) {
    more != [] ==> Next(c, s, more[0]) && forall i :: 0 < i < |more| ==> Next(c, more[i - 1], more[i])
  }

  function LastOf(s: State, more: seq<State>): State {
    if more == [] then s else more[|more| - 1]
  }

  lemma Extend(c: Campaign, run: seq<State>, more: seq<State>)
    requires IsRun(c, run) && Continues(c, run[|run| - 1], more)
    ensures IsRun(c, run + more)
  {
    var all := run + more;
    forall i | 0 < i < |all| ensures Next(c, all[i - 1], all[i]) {
      if i < |run| { assert Next(c, run[i - 1], run[i]); }
    }
  }

  /** A polling collector whose reads do not fail returns the winner's output in four reads. */
  lemma CollectorReads(c: Campaign, s: State) returns (more: seq<State>)
    requires Inv(c, s) && s.collector.Polling? && Small(c, s)
    ensures |more| == 4 && Continues(c, s, more)
    ensures more[3] == s.(collector := Returned(s.outputs[s.store.receipt.value.worker]))
  {
    var r, raw := s.store.receipt.value.content, s.store.stdout.value.content;
    var s1 := s.(collector := ReceiptHead(c.size(r)));
    var s2 := s.(collector := HaveReceipt(r));
    var s3 := s.(collector := StdoutHead(r, |raw|));
    var s4 := s.(collector := Returned(s.outputs[s.store.receipt.value.worker]));
    assert HeadReceipt(c, s, s1) && GetReceipt(c, s1, s2) && HeadStdout(s2, s3) && GetStdout(c, s3, s4);
    more := [s1, s2, s3, s4];
  }

  /** From any reachable state with a visible receipt of admissible size. */
  lemma CollectorCompletes(c: Campaign, run: seq<State>) returns (more: seq<State>)
    requires IsRun(c, run) && run[|run| - 1].collector.Polling? && Small(c, run[|run| - 1])
    ensures |more| == 4 && IsRun(c, run + more)
    ensures var s := run[|run| - 1]; var w := s.store.receipt.value.worker;
      w in s.outputs && more[3] == s.(collector := Returned(s.outputs[w]))
  {
    EveryStateConsistent(c, run, |run| - 1);
    more := CollectorReads(c, run[|run| - 1]);
    Extend(c, run, more);
  }

  function CodeOf(rc: int): int {
    if 0 <= rc <= 255 then rc else 1
  }

  /** The steps of an execution that is not disturbed. */
  lemma ExecutionWorks(c: Campaign, s: State, w: nat, raw: Bytes, rc: int) returns (worked: seq<State>)
    requires |raw| <= MAX_OUTPUT && s.store.stdout.None? && s.store.receipt.None? && w !in s.workers
    ensures |worked| == 4 && Continues(c, s, worked)
    ensures worked[3].collector == s.collector
    ensures worked[3].store == Store(Some(Stored(w, raw)), Some(Stored(w, MakeReceipt(c, Output(raw, CodeOf(rc))))))
    ensures w in worked[3].outputs && worked[3].outputs[w] == Output(raw, CodeOf(rc))
  {
    var o := Output(raw, CodeOf(rc));
    var s1 := s.(workers := s.workers[w := Started]);
    var s2 := s1.(workers := s1.workers[w := Ran(o)], endings := s.endings[w := Ending(raw, rc)],
                  outputs := s.outputs[w := o]);
    var s3 := s2.(workers := s2.workers[w := StdoutStored(o)], store := s.store.(stdout := Some(Stored(w, raw))));
    var s4 := s3.(workers := s3.workers[w := Done(o)],
                  store := s3.store.(receipt := Some(Stored(w, MakeReceipt(c, o)))));
    assert Launch(s, s1, w);
    assert Run(s1, s2, w, raw, rc);
    assert PutStdout(s2, s3, w, true);
    assert PutReceipt(c, s3, s4, w, true);
    worked := [s1, s2, s3, s4];
  }

  /** From any reachable state in which no output is stored yet, however many executions have crashed, a
      new execution whose puts are acknowledged delivers its output, up to the limit, and its exit code. */
  lemma NewExecutionDelivers(c: Campaign, run: seq<State>, w: nat, raw: Bytes, rc: int) returns (more: seq<State>)
    requires IsRun(c, run) && |raw| <= MAX_OUTPUT
    requires var s := run[|run| - 1]; s.collector.Polling? && s.store.stdout.None? && w !in s.workers
    requires c.size(MakeReceipt(c, Output(raw, if 0 <= rc <= 255 then rc else 1))) <= MAX_RECEIPT
    ensures more != [] && IsRun(c, run + more)
    ensures more[|more| - 1].collector == Returned(Output(raw, if 0 <= rc <= 255 then rc else 1))
  {
    hide Continues, WorkersConsistent, CollectorConsistent, Next;
    EveryStateConsistent(c, run, |run| - 1);
    var worked := ExecutionWorks(c, run[|run| - 1], w, raw, rc);
    Extend(c, run, worked);
    var so := run + worked;
    var rest := CollectorCompletes(c, so);
    more := worked + rest;
    assert so + rest == run + more;
  }

  /** And an execution that was told its output is stored still can. */
  lemma WinnerDelivers(c: Campaign, run: seq<State>, w: nat) returns (more: seq<State>)
    requires IsRun(c, run)
    requires var s := run[|run| - 1];
      && s.collector.Polling? && w in s.workers && s.workers[w].StdoutStored?
      && s.store.receipt.None? && c.size(MakeReceipt(c, s.workers[w].output)) <= MAX_RECEIPT
    ensures more != [] && IsRun(c, run + more)
    ensures more[|more| - 1].collector == Returned(run[|run| - 1].workers[w].output)
  {
    hide WorkersConsistent, CollectorConsistent, Next;
    EveryStateConsistent(c, run, |run| - 1);
    var s := run[|run| - 1];
    var o := s.workers[w].output;
    assert WorkerConsistent(s, w) by { WorkerIsConsistent(s, w); }
    var t := s.(workers := s.workers[w := Done(o)],
                store := s.store.(receipt := Some(Stored(w, MakeReceipt(c, o)))));
    assert PutReceipt(c, s, t, w, true);
    NextByReceipt(c, s, t, w);
    Extend(c, run, [t]);
    var rest := CollectorCompletes(c, run + [t]);
    more := [t] + rest;
    assert (run + [t]) + rest == run + more;
  }

  lemma WorkerIsConsistent(s: State, w: nat)
    requires WorkersConsistent(s) && w in s.workers
    ensures WorkerConsistent(s, w)
  {}

  lemma NextByReceipt(c: Campaign, s: State, t: State, w: nat)
    requires PutReceipt(c, s, t, w, true)
    ensures Next(c, s, t)
  {}

  /** Output is stored, and the execution that stored it will put no receipt. */
  ghost predicate Stranded(s: State) {
    && s.store.receipt.None? && s.store.stdout.Some?
    && var w := s.store.stdout.value.worker; w in s.workers && s.workers[w].Dead?
  }

  lemma StrandedPut(c: Campaign, s: State, t: State, w: nat, acked: bool)
    requires WorkersConsistent(s) && Stranded(s)
    ensures !PutReceipt(c, s, t, w, acked)
  {
    if w in s.workers { assert WorkerConsistent(s, w); }
  }

  lemma StrandedStep(c: Campaign, s: State, t: State)
    requires WorkersConsistent(s) && Stranded(s) && Next(c, s, t)
    ensures Stranded(t)
  {
    hide WorkersConsistent, PutReceipt;
    forall w, acked ensures !PutReceipt(c, s, t, w, acked) { StrandedPut(c, s, t, w, acked); }
  }

  /** When the execution that stored the output dies before its receipt, as it does when the put of the
      output is not acknowledged, no execution ever delivers a result under this token. */
  lemma {:induction false} StrandedNeverReturns(c: Campaign, run: seq<State>, i: nat, j: nat)
    requires IsRun(c, run) && i <= j < |run| && Stranded(run[i])
    ensures Stranded(run[j]) && !run[j].collector.Returned?
  {
    EveryStateConsistent(c, run, j);
    if i < j {
      StrandedNeverReturns(c, run, i, j - 1);
      EveryStateConsistent(c, run, j - 1);
      StrandedStep(c, run[j - 1], run[j]);
    }
  }

  /** An unacknowledged put of the output strands it. */
  lemma LostAcknowledgementStrands(c: Campaign, s: State, t: State, w: nat)
    requires Inv(c, s) && PutStdout(s, t, w, false)
    ensures Stranded(t)
  {}
}
