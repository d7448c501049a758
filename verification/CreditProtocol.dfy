/**
 * Concurrent calls of the credit service, one database statement at a time.
 *
 * Each worker runs one call as a transaction: it locks the account row, looks its key up among committed
 * entries, inserts an entry under a unique index, writes the row, and commits. A row lock and an
 * uncommitted index entry block other workers; a committed duplicate key raises an integrity error,
 * which rolls the transaction back and re-reads the winner. Any worker may also crash before its
 * decision. A blocked worker's step changes nothing.
 */
module CreditProtocol {
  import opened Wrappers
  import opened Ledger

  datatype Phase =
    | Start
    | Locked(row: Row)                  // the row lock is held
    | Cleared(row: Row, entry: Entry)   // no committed entry had the key, and the funds suffice
    | Inserted(row: Row, entry: Entry)  // the entry is in the unique index, uncommitted
    | Written(row: Row, entry: Entry)   // the row update is issued, uncommitted
    | Summed(row: Row, total: int)      // a rebuild that found drift
    | Releasing(outcome: Outcome)       // decided without a write, transaction still open
    | Raced                             // rolled back by an integrity error
    | Done(outcome: Outcome)
    | Crashed

  datatype Worker = Worker(request: Request, phase: Phase)

  /** `log` lists the calls in the order in which they took effect or were decided. */
  datatype Event = Event(worker: nat, request: Request, outcome: Outcome)

  datatype System = System(db: Db, workers: seq<Worker>, log: seq<Event>)

  datatype Action = Spawn(request: Request) | Advance(worker: nat) | Crash(worker: nat)

  predicate HoldsRow(w: Worker, a: AccountId) {
    && w.request.account == a
    && (w.phase.Locked? || w.phase.Cleared? || w.phase.Inserted? || w.phase.Written?
        || w.phase.Summed? || w.phase.Releasing?)
  }

  predicate HoldsKey(w: Worker, k: Key) {
    (w.phase.Inserted? || w.phase.Written?) && w.phase.entry.key == k
  }

  predicate RowIsFree(s: System, i: nat, a: AccountId) {
    forall j :: 0 <= j < |s.workers| && j != i ==> !HoldsRow(s.workers[j], a)
  }

  predicate KeyIsFree(s: System, i: nat, k: Key) {
    forall j :: 0 <= j < |s.workers| && j != i ==> !HoldsKey(s.workers[j], k)
  }

  function Goto(s: System, i: nat, phase: Phase): System
    requires i < |s.workers|
  {
    s.(workers := s.workers[i := s.workers[i].(phase := phase)])
  }

  /** The call takes effect here: it enters the log with its outcome. */
  function Decide(s: System, i: nat, db: Db, phase: Phase): System
    requires i < |s.workers| && (phase.Releasing? || phase.Done?)
  {
    Goto(s, i, phase).(db := db, log := s.log + [Event(i, s.workers[i].request, phase.outcome)])
  }

  function Step(s: System, i: nat): System
    requires i < |s.workers|
  {
    var r := s.workers[i].request;
    match s.workers[i].phase
    case Start =>
      (match Validate(r)
       case Err(reason) => Decide(s, i, s.db, Done(Refused(reason)))
       case Ok(_) =>
         if r.account !in s.db.accounts then Decide(s, i, s.db, Done(Refused(AccountMissing)))
         else if !RowIsFree(s, i, r.account) then s
         else Goto(s, i, Locked(s.db.accounts[r.account])))
    case Locked(row) =>
      (match r
       case Rebuild(account) =>
         var total := LedgerSum(s.db.entries, account);
         if total == row.balance then Decide(s, i, s.db, Releasing(Rebuilt(total)))
         else if total < 0 || total >= COLUMN_LIMIT then Decide(s, i, s.db, Releasing(Refused(OutOfRange)))
         else Goto(s, i, Summed(row, total))
       case Post(_, _, _, _, key, _) =>
         match (FindKey(s.db.entries, key), Validate(r))
         case (Some(e), _) => Decide(s, i, s.db, Releasing(Replayed(e)))
         case (None, Err(reason)) => Decide(s, i, s.db, Releasing(Refused(reason)))
         case (None, Ok(delta)) =>
           match Funds(row, delta)
           case Some(reason) => Decide(s, i, s.db, Releasing(Refused(reason)))
           case None => Goto(s, i, Cleared(row, Draft(r, row, delta))))
    case Cleared(row, entry) =>
      if FindKey(s.db.entries, entry.key).Some? then Goto(s, i, Raced)
      else if !KeyIsFree(s, i, entry.key) then s
      else Goto(s, i, Inserted(row, entry))
    case Inserted(row, entry) => Goto(s, i, Written(row, entry))
    case Written(row, entry) => Decide(s, i, Posted(s.db, row, entry), Done(Created(entry)))
    case Summed(row, total) => Decide(s, i, Repaired(s.db, r.account, row, total), Done(Rebuilt(total)))
    case Releasing(outcome) => Goto(s, i, Done(outcome))
    case Raced =>
      (match FindKey(s.db.entries, if r.Post? then r.key else "")
       case Some(e) => Decide(s, i, s.db, Done(Replayed(e)))
       case None => Goto(s, i, Done(Refused(KeyRaceUnresolved))))
    case Done(_) => s
    case Crashed => s
  }

  /** A process may die while its transaction is open and undecided; the database rolls it back. */
  function Die(s: System, i: nat): System
    requires i < |s.workers|
  {
    var p := s.workers[i].phase;
    if p.Releasing? || p.Done? then s else Goto(s, i, Crashed)
  }

  function Do(s: System, a: Action): System {
    match a
    case Spawn(r) => s.(workers := s.workers + [Worker(r, Start)])
    case Advance(i) => if i < |s.workers| then Step(s, i) else s
    case Crash(i) => if i < |s.workers| then Die(s, i) else s
  }

  function Run(db: Db, schedule: seq<Action>): System {
    if schedule == [] then System(db, [], [])
    else Do(Run(db, schedule[..|schedule| - 1]), schedule[|schedule| - 1])
  }

  function Requests(log: seq<Event>): seq<Request> {
    seq(|log|, i requires 0 <= i < |log| => log[i].request)
  }

  function Outcomes(log: seq<Event>): seq<Outcome> {
    seq(|log|, i requires 0 <= i < |log| => log[i].outcome)
  }

  // ---------------------------------------------------------------- the invariant

  /** What a worker's local knowledge says about the committed database. */
  ghost predicate LocalFacts(db: Db, w: Worker) {
    var r := w.request;
    match w.phase
    case Locked(row) => Validate(r).Ok? && r.account in db.accounts && db.accounts[r.account] == row
    case Cleared(row, entry) => Ready(db, r, row, entry)
    case Inserted(row, entry) => Ready(db, r, row, entry) && FindKey(db.entries, entry.key).None?
    case Written(row, entry) => Ready(db, r, row, entry) && FindKey(db.entries, entry.key).None?
    case Summed(row, total) =>
      && r.Rebuild?
      && r.account in db.accounts && db.accounts[r.account] == row
      && total == LedgerSum(db.entries, r.account) && total != row.balance && 0 <= total < COLUMN_LIMIT
    case Raced => r.Post? && Validate(r).Ok? && r.account in db.accounts && FindKey(db.entries, r.key).Some?
    case _ => true
  }

  ghost predicate Ready(db: Db, r: Request, row: Row, entry: Entry) {
    && r.Post? && Validate(r).Ok?
    && r.account in db.accounts && db.accounts[r.account] == row
    && Funds(row, Validate(r).value).None?
    && entry == Draft(r, row, Validate(r).value)
  }

  ghost predicate LocksAreExclusive(ws: seq<Worker>) {
    && (forall i, j :: 0 <= i < |ws| && 0 <= j < |ws| && i != j && HoldsRow(ws[i], ws[i].request.account) ==>
          !HoldsRow(ws[j], ws[i].request.account))
    && (forall i, j :: 0 <= i < |ws| && 0 <= j < |ws| && i != j && (ws[i].phase.Inserted? || ws[i].phase.Written?) ==>
          !HoldsKey(ws[j], ws[i].phase.entry.key))
  }

  predicate Decided(p: Phase) { p.Done? || p.Releasing? }

  /** The log holds exactly the decided calls, each once, each with the outcome its worker returns. */
  ghost predicate LogMatchesWorkers(s: System) {
    && (forall k :: 0 <= k < |s.log| ==>
          && s.log[k].worker < |s.workers|
          && var w := s.workers[s.log[k].worker];
             Decided(w.phase) && w.phase.outcome == s.log[k].outcome && w.request == s.log[k].request)
    && (forall k, m :: 0 <= k < m < |s.log| ==> s.log[k].worker != s.log[m].worker)
    && (forall i :: 0 <= i < |s.workers| && Decided(s.workers[i].phase) ==>
          exists k :: 0 <= k < |s.log| && s.log[k].worker == i)
  }

  ghost predicate Invariant(init: Db, s: System) {
    && ServeAll(init, Requests(s.log)) == (s.db, Outcomes(s.log))
    && (forall i :: 0 <= i < |s.workers| ==> LocalFacts(s.db, s.workers[i]))
    && LocksAreExclusive(s.workers)
    && LogMatchesWorkers(s)
  }

  /** An outcome that the sequential service would give now may be logged now. */
  lemma DecideExtendsTheSequentialRun(init: Db, s: System, i: nat, db: Db, phase: Phase)
    requires ServeAll(init, Requests(s.log)) == (s.db, Outcomes(s.log))
    requires i < |s.workers| && (phase.Releasing? || phase.Done?)
    requires Serve(s.db, s.workers[i].request) == (db, phase.outcome)
    ensures var t := Decide(s, i, db, phase);
            ServeAll(init, Requests(t.log)) == (t.db, Outcomes(t.log))
  {
    var t := Decide(s, i, db, phase);
    var r := s.workers[i].request;
    assert Requests(t.log) == Requests(s.log) + [r];
    assert Outcomes(t.log) == Outcomes(s.log) + [phase.outcome];
    ServeAllSnoc(init, Requests(s.log), r);
  }

  lemma DecideKeepsTheLogMatched(s: System, i: nat, db: Db, phase: Phase)
    requires LogMatchesWorkers(s) && i < |s.workers| && !Decided(s.workers[i].phase)
    requires phase.Releasing? || phase.Done?
    ensures LogMatchesWorkers(Decide(s, i, db, phase))
  {
    var t := Decide(s, i, db, phase);
    assert t.log[|s.log|].worker == i;
    forall j | 0 <= j < |t.workers| && Decided(t.workers[j].phase)
      ensures exists k :: 0 <= k < |t.log| && t.log[k].worker == j
    {
      if j != i {
        var k :| 0 <= k < |s.log| && s.log[k].worker == j;
        assert t.log[k] == s.log[k];
      }
    }
  }

  lemma GotoKeepsTheLogMatched(s: System, i: nat, phase: Phase)
    requires LogMatchesWorkers(s) && i < |s.workers|
    requires (!Decided(s.workers[i].phase) && !Decided(phase)) || (s.workers[i].phase.Releasing? && phase == Done(s.workers[i].phase.outcome))
    ensures LogMatchesWorkers(Goto(s, i, phase))
  {
    var t := Goto(s, i, phase);
    forall j | 0 <= j < |t.workers| && Decided(t.workers[j].phase)
      ensures exists k :: 0 <= k < |t.log| && t.log[k].worker == j
    {
      assert Decided(s.workers[j].phase);
    }
  }

  /** A committed posting disturbs no other worker: their rows are other rows, their keys other keys. */
  lemma PostingLeavesOthersAlone(db: Db, row: Row, e: Entry, w: Worker)
    requires LocalFacts(db, w) && e.account in db.accounts
    requires !HoldsRow(w, e.account) && !HoldsKey(w, e.key)
    ensures LocalFacts(Posted(db, row, e), w)
  {
    if w.phase.Summed? {
      LedgerSumSnoc(db.entries, e, w.request.account);
    }
    if w.phase.Inserted? || w.phase.Written? {
      FindKeySnoc(db.entries, e, w.phase.entry.key);
    }
    if w.phase.Raced? {
      FindKeySnoc(db.entries, e, w.request.key);
    }
  }

  /** A step waits, moves on undecided, or decides with the outcome of the sequential service. */
  lemma StepIsSequential(s: System, i: nat)
    requires i < |s.workers| && LocalFacts(s.db, s.workers[i])
    ensures var w := s.workers[i];
            var t := Step(s, i);
            var p := t.workers[i].phase;
            || t == s
            || (t == Goto(s, i, p) && !Decided(w.phase) && !Decided(p))
            || (t == Goto(s, i, p) && w.phase.Releasing? && p == Done(w.phase.outcome))
            || (Decided(p) && !Decided(w.phase) && t == Decide(s, i, t.db, p) && Serve(s.db, w.request) == (t.db, p.outcome))
  {}

  lemma StepKeepsOwnFacts(s: System, i: nat)
    requires i < |s.workers| && LocalFacts(s.db, s.workers[i])
    ensures LocalFacts(Step(s, i).db, Step(s, i).workers[i])
  {}

  lemma StepKeepsLocksExclusive(s: System, i: nat)
    requires i < |s.workers| && LocksAreExclusive(s.workers)
    ensures LocksAreExclusive(Step(s, i).workers)
  {
    var w := s.workers[i];
    var v := Step(s, i).workers[i];
    assert HoldsRow(v, v.request.account) ==> HoldsRow(w, v.request.account) || RowIsFree(s, i, v.request.account);
    assert v.phase.Inserted? || v.phase.Written? ==>
        HoldsKey(w, v.phase.entry.key) || KeyIsFree(s, i, v.phase.entry.key);
    PhaseChangeKeepsLocksExclusive(s.workers, i, v);
  }

  lemma PhaseChangeKeepsLocksExclusive(ws: seq<Worker>, i: nat, v: Worker)
    requires i < |ws| && LocksAreExclusive(ws) && v.request == ws[i].request
    requires HoldsRow(v, v.request.account) ==>
               forall j :: 0 <= j < |ws| && j != i ==> !HoldsRow(ws[j], v.request.account)
    requires v.phase.Inserted? || v.phase.Written? ==>
               forall j :: 0 <= j < |ws| && j != i ==> !HoldsKey(ws[j], v.phase.entry.key)
    ensures LocksAreExclusive(ws[i := v])
  {
    var vs := ws[i := v];
    forall j, k | 0 <= j < |vs| && 0 <= k < |vs| && j != k && HoldsRow(vs[j], vs[j].request.account)
      ensures !HoldsRow(vs[k], vs[j].request.account)
    {}
    forall j, k | 0 <= j < |vs| && 0 <= k < |vs| && j != k && (vs[j].phase.Inserted? || vs[j].phase.Written?)
      ensures !HoldsKey(vs[k], vs[j].phase.entry.key)
    {}
  }

  lemma StepKeepsLog(init: Db, s: System, i: nat)
    requires i < |s.workers| && LocalFacts(s.db, s.workers[i]) && LogMatchesWorkers(s)
    requires ServeAll(init, Requests(s.log)) == (s.db, Outcomes(s.log))
    ensures var t := Step(s, i);
            LogMatchesWorkers(t) && ServeAll(init, Requests(t.log)) == (t.db, Outcomes(t.log))
  {
    StepIsSequential(s, i);
    var t := Step(s, i);
    var p := t.workers[i].phase;
    if t != s {
      if Decided(p) && !Decided(s.workers[i].phase) {
        DecideExtendsTheSequentialRun(init, s, i, t.db, p);
        DecideKeepsTheLogMatched(s, i, t.db, p);
      } else {
        GotoKeepsTheLogMatched(s, i, p);
      }
    }
  }

  lemma StepKeepsOthersFacts(s: System, i: nat)
    requires i < |s.workers| && LocksAreExclusive(s.workers)
    requires forall j :: 0 <= j < |s.workers| ==> LocalFacts(s.db, s.workers[j])
    ensures forall j :: 0 <= j < |s.workers| && j != i ==> LocalFacts(Step(s, i).db, s.workers[j])
  {
    var w := s.workers[i];
    var t := Step(s, i);
    forall j | 0 <= j < |s.workers| && j != i
      ensures LocalFacts(t.db, s.workers[j])
    {
      assert LocalFacts(s.db, s.workers[j]) && LocalFacts(s.db, w);
      if w.phase.Written? {
        assert HoldsRow(w, w.request.account) && HoldsKey(w, w.phase.entry.key);
        PostingLeavesOthersAlone(s.db, w.phase.row, w.phase.entry, s.workers[j]);
      } else if w.phase.Summed? {
        assert HoldsRow(w, w.request.account);
      }
    }
  }

  lemma StepKeepsInvariant(init: Db, s: System, i: nat)
    requires Invariant(init, s) && i < |s.workers|
    ensures Invariant(init, Step(s, i))
  {
    StepKeepsLog(init, s, i);
    StepKeepsLocksExclusive(s, i);
    StepKeepsAllFacts(s, i);
  }

  lemma StepKeepsAllFacts(s: System, i: nat)
    requires i < |s.workers| && LocksAreExclusive(s.workers)
    requires forall j :: 0 <= j < |s.workers| ==> LocalFacts(s.db, s.workers[j])
    ensures forall j :: 0 <= j < |Step(s, i).workers| ==> LocalFacts(Step(s, i).db, Step(s, i).workers[j])
  {
    StepKeepsOwnFacts(s, i);
    StepKeepsOthersFacts(s, i);
    StepTouchesOneWorker(s, i);
  }

  lemma SpawnKeepsLog(s: System, r: Request)
    requires LogMatchesWorkers(s)
    ensures LogMatchesWorkers(Do(s, Spawn(r)))
  {
    var t := Do(s, Spawn(r));
    forall j | 0 <= j < |t.workers| && Decided(t.workers[j].phase)
      ensures exists k :: 0 <= k < |t.log| && t.log[k].worker == j
    {
      assert Decided(s.workers[j].phase);
    }
  }

  lemma SpawnKeepsInvariant(init: Db, s: System, r: Request)
    requires Invariant(init, s)
    ensures Invariant(init, Do(s, Spawn(r)))
  {
    SpawnKeepsLog(s, r);
    StarterKeepsLocksExclusive(s.workers, r);
  }

  lemma StarterKeepsLocksExclusive(ws: seq<Worker>, r: Request)
    requires LocksAreExclusive(ws)
    ensures LocksAreExclusive(ws + [Worker(r, Start)])
  {
    var vs := ws + [Worker(r, Start)];
    forall j, k | 0 <= j < |vs| && 0 <= k < |vs| && j != k && HoldsRow(vs[j], vs[j].request.account)
      ensures !HoldsRow(vs[k], vs[j].request.account)
    {}
  }

  lemma CrashKeepsInvariant(init: Db, s: System, i: nat)
    requires Invariant(init, s) && i < |s.workers|
    ensures Invariant(init, Die(s, i))
  {
    if !Decided(s.workers[i].phase) {
      GotoKeepsTheLogMatched(s, i, Crashed);
      PhaseChangeKeepsLocksExclusive(s.workers, i, s.workers[i].(phase := Crashed));
    }
  }

  lemma DoKeepsInvariant(init: Db, s: System, a: Action)
    requires Invariant(init, s)
    ensures Invariant(init, Do(s, a))
  {
    match a
    case Advance(i) =>
      if i < |s.workers| { StepKeepsInvariant(init, s, i); }
    case Crash(i) =>
      if i < |s.workers| { CrashKeepsInvariant(init, s, i); }
    case Spawn(r) =>
      SpawnKeepsInvariant(init, s, r);
  }

  lemma StepTouchesOneWorker(s: System, i: nat)
    requires i < |s.workers|
    ensures |Step(s, i).workers| == |s.workers|
    ensures forall j :: 0 <= j < |s.workers| && j != i ==> Step(s, i).workers[j] == s.workers[j]
  {}

  lemma {:induction false} RunKeepsInvariant(init: Db, schedule: seq<Action>)
    ensures Invariant(init, Run(init, schedule))
  {
    if schedule == [] {
      assert Requests([]) == [] && Outcomes([]) == [];
    } else {
      var n := |schedule| - 1;
      RunKeepsInvariant(init, schedule[..n]);
      DoKeepsInvariant(init, Run(init, schedule[..n]), schedule[n]);
    }
  }

  // ---------------------------------------------------------------- main results

  /**
   * Serializability. After any schedule the committed database is the one reached by running the logged
   * calls one after another, every finished call appears exactly once in that order, and what it
   * returned, refusals and replays included, is what the sequential service returns there. Crashed and
   * unfinished calls do not appear at all.
   */
  lemma EveryScheduleIsSerial(init: Db, schedule: seq<Action>)
    ensures var s := Run(init, schedule);
            && ServeAll(init, Requests(s.log)) == (s.db, Outcomes(s.log))
            && (forall i :: 0 <= i < |s.workers| && s.workers[i].phase.Done? ==>
                  exists k :: 0 <= k < |s.log| && s.log[k] == Event(i, s.workers[i].request, s.workers[i].phase.outcome))
            && (forall k, m :: 0 <= k < m < |s.log| ==> s.log[k].worker != s.log[m].worker)
            && (forall k :: 0 <= k < |s.log| ==>
                  s.log[k].worker < |s.workers| && Decided(s.workers[s.log[k].worker].phase))
  {
    RunKeepsInvariant(init, schedule);
    var s := Run(init, schedule);
    forall i | 0 <= i < |s.workers| && s.workers[i].phase.Done?
      ensures exists k :: 0 <= k < |s.log| && s.log[k] == Event(i, s.workers[i].request, s.workers[i].phase.outcome)
    {
      var k :| 0 <= k < |s.log| && s.log[k].worker == i;
      assert s.log[k] == Event(i, s.workers[i].request, s.workers[i].phase.outcome);
    }
  }

  /** The order is fixed once made: more steps only extend the log, and the ledger with it. */
  lemma LogOnlyGrows(s: System, a: Action)
    ensures s.log <= Do(s, a).log
    ensures s.db.entries <= Do(s, a).db.entries
    ensures |s.workers| <= |Do(s, a).workers|
  {}

  lemma PrefixIsTransitive(a: seq<Event>, b: seq<Event>, c: seq<Event>)
    requires a <= b <= c
    ensures a <= c
  {}

  lemma {:induction false} RunOnlyGrows(init: Db, schedule: seq<Action>, n: nat)
    requires n <= |schedule|
    ensures Run(init, schedule[..n]).log <= Run(init, schedule).log
    ensures |Run(init, schedule[..n]).workers| <= |Run(init, schedule).workers|
  {
    if n == |schedule| {
      assert schedule[..n] == schedule;
    } else {
      var m := |schedule| - 1;
      assert schedule[..m][..n] == schedule[..n];
      RunOnlyGrows(init, schedule[..m], n);
      LogOnlyGrows(Run(init, schedule[..m]), schedule[m]);
      PrefixIsTransitive(Run(init, schedule[..n]).log, Run(init, schedule[..m]).log, Run(init, schedule).log);
    }
  }

  /** The serial order respects real time: a call that had returned before another began comes first. */
  lemma SerialOrderRespectsRealTime(init: Db, schedule: seq<Action>, n: nat, k: nat, m: nat)
    requires n <= |schedule|
    requires var log := Run(init, schedule).log; k < |log| && m < |log|
    requires var (log, ws) := (Run(init, schedule).log, Run(init, schedule[..n]).workers);
             log[k].worker < |ws| && ws[log[k].worker].phase.Done? && |ws| <= log[m].worker
    ensures k < m
  {
    RunOnlyGrows(init, schedule, n);
    EveryScheduleIsSerial(init, schedule[..n]);
    EveryScheduleIsSerial(init, schedule);
    var s, t := Run(init, schedule[..n]), Run(init, schedule);
    var i := t.log[k].worker;
    var h :| 0 <= h < |s.log| && s.log[h] == Event(i, s.workers[i].request, s.workers[i].phase.outcome);
    assert t.log[h] == s.log[h];
    assert m >= |s.log|;
  }

  /** In every reachable state keys are unique, balances are non-negative and equal their ledger sums. */
  lemma EveryScheduleConservesCredits(init: Db, schedule: seq<Action>)
    requires Consistent(init) && DriftFree(init) && RunningTotals(init.entries)
    ensures var db := Run(init, schedule).db;
            && Consistent(db) && DriftFree(db) && RunningTotals(db.entries)
            && forall a :: a in db.accounts ==> 0 <= db.accounts[a].balance == LedgerSum(db.entries, a)
  {
    RunKeepsInvariant(init, schedule);
    RunKeepsConstraints(init, Requests(Run(init, schedule).log));
    RunConservesCredits(init, Requests(Run(init, schedule).log));
  }

  /**
   * The loser of a key race changes nothing and returns the committed winner's entry; the re-read after
   * an integrity error never comes back empty, so the error is never raised to the caller.
   */
  lemma RaceLoserReturnsWinner(init: Db, schedule: seq<Action>, i: nat)
    requires var s := Run(init, schedule); i < |s.workers| && s.workers[i].phase.Raced?
    ensures var s := Run(init, schedule);
            var t := Do(s, Advance(i));
            && t.db == s.db
            && t.workers[i].phase.Done? && t.workers[i].phase.outcome.Replayed?
            && t.workers[i].phase.outcome.entry in s.db.entries
            && s.workers[i].request.Post?
            && t.workers[i].phase.outcome.entry.key == s.workers[i].request.key
  {
    RunKeepsInvariant(init, schedule);
    var s := Run(init, schedule);
    assert LocalFacts(s.db, s.workers[i]);
    FindKeyIsMembership(s.db.entries, s.workers[i].request.key);
  }

  lemma NoCallEndsInAnUnresolvedRace(init: Db, schedule: seq<Action>, i: nat)
    requires i < |Run(init, schedule).workers|
    ensures Run(init, schedule).workers[i].phase != Done(Refused(KeyRaceUnresolved))
  {
    EveryScheduleIsSerial(init, schedule);
    var s := Run(init, schedule);
    if s.workers[i].phase == Done(Refused(KeyRaceUnresolved)) {
      var k :| 0 <= k < |s.log| && s.log[k] == Event(i, s.workers[i].request, s.workers[i].phase.outcome);
      assert Outcomes(s.log)[k] == s.log[k].outcome;
      SequentialOutcomesAreDirect(init, Requests(s.log), k);
    }
  }

  lemma {:induction false} SequentialOutcomesAreDirect(db: Db, rs: seq<Request>, k: nat)
    requires k < |rs|
    ensures ServeAll(db, rs).1[k] != Refused(KeyRaceUnresolved)
  {
    if k < |rs| - 1 {
      SequentialOutcomesAreDirect(db, rs[..|rs| - 1], k);
    }
  }

  /**
   * No deadlock: while some call is neither finished nor crashed, some worker's next statement is not
   * blocked. A row holder waits for at most a key, and a key holder waits for nothing.
   */
  lemma SomeWorkerCanAlwaysMove(s: System, i: nat)
    requires i < |s.workers| && !s.workers[i].phase.Done? && !s.workers[i].phase.Crashed?
    ensures exists j :: 0 <= j < |s.workers| && Step(s, j) != s
  {
    if Step(s, i) == s {
      if s.workers[i].phase.Start? {
        var a := s.workers[i].request.account;
        var j :| 0 <= j < |s.workers| && j != i && HoldsRow(s.workers[j], a);
        if Step(s, j) == s {
          KeyHolderBlocks(s, j);
        }
      } else {
        KeyHolderBlocks(s, i);
      }
    }
  }

  lemma KeyHolderBlocks(s: System, i: nat)
    requires i < |s.workers| && Step(s, i) == s
    requires HoldsRow(s.workers[i], s.workers[i].request.account) || s.workers[i].phase.Raced?
    ensures exists j :: 0 <= j < |s.workers| && Step(s, j) != s
  {
    assert Step(s, i).workers[i] == s.workers[i];
    var j :| 0 <= j < |s.workers| && j != i && HoldsKey(s.workers[j], s.workers[i].phase.entry.key);
    assert Step(s, j).workers[j].phase != s.workers[j].phase;
  }

  // ---------------------------------------------------------------- calls do run

  function StepsLeft(p: Phase): nat {
    match p
    case Start => 6
    case Locked(_) => 5
    case Cleared(_, _) => 4
    case Inserted(_, _) => 3
    case Written(_, _) => 2
    case Summed(_, _) => 2
    case Releasing(_) => 1
    case Raced => 1
    case Done(_) => 0
    case Crashed => 0
  }

  /** Worker `i` alone takes steps until it is blocked or finished. */
  function Finish(s: System, i: nat): System
    requires i < |s.workers|
    decreases StepsLeft(s.workers[i].phase)
  {
    var t := Step(s, i);
    if t.workers[i] == s.workers[i] then s else Finish(t, i)
  }

  ghost predicate NobodyElseHolds(s: System, i: nat)
    requires i < |s.workers|
  {
    forall j :: 0 <= j < |s.workers| && j != i ==>
      !HoldsRow(s.workers[j], s.workers[i].request.account) && !s.workers[j].phase.Inserted? && !s.workers[j].phase.Written?
  }

  /** The state after worker `i`'s call has run as the sequential service runs it. */
  function Served(s: System, i: nat): System
    requires i < |s.workers|
  {
    var (db, out) := Serve(s.db, s.workers[i].request);
    System(db, s.workers[i := Worker(s.workers[i].request, Done(out))], s.log + [Event(i, s.workers[i].request, out)])
  }

  lemma CreatingWorkerServes(s: System, i: nat)
    requires i < |s.workers| && s.workers[i].phase.Cleared? && NobodyElseHolds(s, i)
    requires LocalFacts(s.db, s.workers[i]) && FindKey(s.db.entries, s.workers[i].request.key).None?
    ensures Finish(s, i) == Served(s, i)
  {
    var inserted := Step(s, i);
    var written := Step(inserted, i);
    var done := Step(written, i);
    assert inserted.workers[i].phase == Inserted(s.workers[i].phase.row, s.workers[i].phase.entry);
    assert Finish(s, i) == Finish(inserted, i) == Finish(written, i) == Finish(done, i) == done;
    assert done.workers == Served(s, i).workers;
  }

  /** Whoever holds nothing else in its way, a call finishes with the effect and outcome of the sequential service. */
  lemma WorkerAloneServes(s: System, i: nat)
    requires i < |s.workers| && s.workers[i].phase.Start? && NobodyElseHolds(s, i)
    ensures Finish(s, i) == Served(s, i)
  {
    var r := s.workers[i].request;
    var first := Step(s, i);
    if first.workers[i].phase.Locked? {
      LockedWorkerServes(first, i);
      assert Served(first, i) == Served(s, i) by {
        assert first.workers[i := Worker(r, Done(Serve(s.db, r).1))] == s.workers[i := Worker(r, Done(Serve(s.db, r).1))];
      }
    } else {
      assert first.workers == Served(s, i).workers;
    }
  }

  lemma LockedWorkerServes(s: System, i: nat)
    requires i < |s.workers| && s.workers[i].phase.Locked? && NobodyElseHolds(s, i)
    requires LocalFacts(s.db, s.workers[i])
    ensures Finish(s, i) == Served(s, i)
  {
    var r := s.workers[i].request;
    var next := Step(s, i);
    StepIsSequential(s, i);
    if next.workers[i].phase.Cleared? {
      CreatingWorkerServes(next, i);
      assert Served(next, i).workers == Served(s, i).workers;
    } else {
      var last := Step(next, i);
      assert Finish(s, i) == Finish(next, i) == Finish(last, i) == last;
      assert last.workers == Served(s, i).workers;
    }
  }

  ghost predicate Reaches(init: Db, s: System) {
    exists schedule: seq<Action> :: Run(init, schedule) == s
  }

  lemma ReachesDo(init: Db, s: System, a: Action)
    requires Reaches(init, s)
    ensures Reaches(init, Do(s, a))
  {
    var schedule: seq<Action> :| Run(init, schedule) == s;
    assert (schedule + [a])[..|schedule|] == schedule;
    assert Run(init, schedule + [a]) == Do(s, a);
  }

  lemma {:induction false} ReachesFinish(init: Db, s: System, i: nat)
    requires Reaches(init, s) && i < |s.workers|
    ensures Reaches(init, Finish(s, i))
    decreases StepsLeft(s.workers[i].phase)
  {
    if Step(s, i).workers[i] != s.workers[i] {
      ReachesDo(init, s, Advance(i));
      ReachesFinish(init, Step(s, i), i);
    }
  }

  /** Every sequential run is one of the protocol's: calls that arrive one by one are all served. */
  lemma {:induction false} EverySerialRunIsASchedule(init: Db, rs: seq<Request>) returns (s: System)
    ensures Reaches(init, s)
    ensures s.db == ServeAll(init, rs).0 && Requests(s.log) == rs && Outcomes(s.log) == ServeAll(init, rs).1
    ensures forall i :: 0 <= i < |s.workers| ==> s.workers[i].phase.Done?
  {
    if rs == [] {
      s := System(init, [], []);
      assert Run(init, []) == s;
    } else {
      var n := |rs| - 1;
      var before := EverySerialRunIsASchedule(init, rs[..n]);
      var arrived := Do(before, Spawn(rs[n]));
      var i := |before.workers|;
      ReachesDo(init, before, Spawn(rs[n]));
      ReachesFinish(init, arrived, i);
      WorkerAloneServes(arrived, i);
      s := Served(arrived, i);
      assert Requests(s.log) == Requests(before.log) + [rs[n]];
      assert Outcomes(s.log) == Outcomes(before.log) + [Serve(before.db, rs[n]).1];
    }
  }

  /** A crash leaves the database, the log and every other worker alone, and lets go of row and key. */
  lemma CrashRollsBack(s: System, i: nat, a: AccountId, k: Key)
    requires i < |s.workers|
    ensures var t := Do(s, Crash(i));
            && t.db == s.db && t.log == s.log
            && |t.workers| == |s.workers| && (forall j :: 0 <= j < |s.workers| && j != i ==> t.workers[j] == s.workers[j])
            && (!Decided(s.workers[i].phase) ==>
                  t.workers[i].phase.Crashed? && !HoldsRow(t.workers[i], a) && !HoldsKey(t.workers[i], k))
  {}
}
