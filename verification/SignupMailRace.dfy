/**
 * The mail limiter under concurrency: any number of workers claim for one address, interleaved at single
 * `cache.add` and `cache.delete` calls, while the clock moves on.
 */
module SignupMailRace {
  import opened Wrappers
  import opened SignupMail

  datatype Worker =
    | Scanning(index: nat)                     // about to add this slot key
    | HasSlot(slot: nat, at: int)              // took a slot at this instant, about to add the gap key
    | GivingBack(slot: nat, at: int)           // lost the gap, about to delete the slot key
    | Sent(slot: nat, at: int, gapAt: int)     // won
    | Refused

  datatype State = State(address: string, clock: int, cache: Entries, workers: seq<Worker>)

  datatype Action = Tick(seconds: nat) | Arrive | Advance(worker: nat)

  function Step(s: State, i: nat): State
    requires i < |s.workers|
  {
    match s.workers[i]
    case Scanning(index) =>
      if index >= MAIL_DAY_MAX then Become(s, i, Refused)
      else if Live(s.cache, Day(s.address, index), s.clock) then Become(s, i, Scanning(index + 1))
      else Become(s, i, HasSlot(index, s.clock)).(
        cache := s.cache[Day(s.address, index) := s.clock + MAIL_DAY_SECONDS])
    case HasSlot(slot, at) =>
      if Live(s.cache, Gap(s.address), s.clock) then Become(s, i, GivingBack(slot, at))
      else Become(s, i, Sent(slot, at, s.clock)).(cache := s.cache[Gap(s.address) := s.clock + MAIL_GAP_SECONDS])
    case GivingBack(slot, _) => Become(s, i, Refused).(cache := s.cache - {Day(s.address, slot)})
    case Sent(_, _, _) => s
    case Refused => s
  }

  function Become(s: State, i: nat, w: Worker): State
    requires i < |s.workers|
  {
    s.(workers := s.workers[i := w])
  }

  function Do(s: State, a: Action): State {
    match a
    case Tick(seconds) => s.(clock := s.clock + seconds)
    case Arrive => s.(workers := s.workers + [Scanning(0)])
    case Advance(i) => if i < |s.workers| then Step(s, i) else s
  }

  function Run(address: string, start: int, schedule: seq<Action>): State {
    if schedule == [] then State(address, start, map[], [])
    else Do(Run(address, start, schedule[..|schedule| - 1]), schedule[|schedule| - 1])
  }

  /** The step is not a delete that would take away an unexpired key stored by another worker. */
  predicate DeletesOwnKey(s: State, a: Action) {
    a.Advance? && a.worker < |s.workers| && s.workers[a.worker].GivingBack? ==>
      var w := s.workers[a.worker];
      Live(s.cache, Day(s.address, w.slot), s.clock) ==> s.cache[Day(s.address, w.slot)] == w.at + MAIL_DAY_SECONDS
  }

  /** The step is not a delete that comes a day or more after its worker took the slot. */
  predicate DeletesInTime(s: State, a: Action) {
    a.Advance? && a.worker < |s.workers| && s.workers[a.worker].GivingBack? ==>
      s.clock < s.workers[a.worker].at + MAIL_DAY_SECONDS
  }

  ghost predicate Throughout(address: string, start: int, schedule: seq<Action>, ok: (State, Action) -> bool) {
    forall n :: 0 <= n < |schedule| ==> ok(Run(address, start, schedule[..n]), schedule[n])
  }

  lemma ThroughoutPrefix(address: string, start: int, schedule: seq<Action>, ok: (State, Action) -> bool)
    requires schedule != [] && Throughout(address, start, schedule, ok)
    ensures Throughout(address, start, schedule[..|schedule| - 1], ok)
    ensures ok(Run(address, start, schedule[..|schedule| - 1]), schedule[|schedule| - 1])
  {
    var shorter := schedule[..|schedule| - 1];
    forall m | 0 <= m < |shorter| ensures ok(Run(address, start, shorter[..m]), shorter[m]) {
      assert shorter[..m] == schedule[..m];
    }
  }

  lemma ThroughoutLonger(address: string, start: int, schedule: seq<Action>, ok: (State, Action) -> bool)
    requires schedule != [] && Throughout(address, start, schedule[..|schedule| - 1], ok)
    requires ok(Run(address, start, schedule[..|schedule| - 1]), schedule[|schedule| - 1])
    ensures Throughout(address, start, schedule, ok)
  {
    var shorter := schedule[..|schedule| - 1];
    forall m | 0 <= m < |schedule| ensures ok(Run(address, start, schedule[..m]), schedule[m]) {
      if m < |shorter| {
        assert shorter[..m] == schedule[..m] && shorter[m] == schedule[m];
      }
    }
  }

  // ---------------------------------------------------------------- the invariant

  predicate Holds(w: Worker) { w.HasSlot? || w.GivingBack? || w.Sent? }

  /** A worker's slot key stays its own for a day. */
  ghost predicate OwnsSlot(s: State, w: Worker) {
    Holds(w) ==>
      && w.slot < MAIL_DAY_MAX
      && w.at <= s.clock
      && (s.clock < w.at + MAIL_DAY_SECONDS ==>
            Day(s.address, w.slot) in s.cache && s.cache[Day(s.address, w.slot)] == w.at + MAIL_DAY_SECONDS)
  }

  ghost predicate OwnsGap(s: State, w: Worker) {
    w.Sent? ==>
      && w.gapAt <= s.clock
      && Gap(s.address) in s.cache && w.gapAt + MAIL_GAP_SECONDS <= s.cache[Gap(s.address)]
  }

  predicate Apart(a: int, b: int, gap: int) { a + gap <= b || b + gap <= a }

  ghost predicate SlotsApart(v: Worker, w: Worker) {
    Holds(v) && Holds(w) && v.slot == w.slot ==> Apart(v.at, w.at, MAIL_DAY_SECONDS)
  }

  ghost predicate GapsApart(v: Worker, w: Worker) {
    v.Sent? && w.Sent? ==> Apart(v.gapAt, w.gapAt, MAIL_GAP_SECONDS)
  }

  ghost predicate GapInvariant(s: State) {
    && (forall i :: 0 <= i < |s.workers| ==> OwnsGap(s, s.workers[i]))
    && (forall i, j :: 0 <= i < j < |s.workers| ==> GapsApart(s.workers[i], s.workers[j]))
  }

  ghost predicate SlotInvariant(s: State) {
    && (forall i :: 0 <= i < |s.workers| ==> OwnsSlot(s, s.workers[i]))
    && (forall i, j :: 0 <= i < j < |s.workers| ==> SlotsApart(s.workers[i], s.workers[j]))
  }

  /** The worker stored this slot key. */
  predicate Stored(s: State, w: Worker, slot: nat) {
    Holds(w) && w.slot == slot && Day(s.address, slot) in s.cache
    && s.cache[Day(s.address, slot)] == w.at + MAIL_DAY_SECONDS
  }

  ghost predicate HasStorer(s: State, slot: nat) {
    exists j :: 0 <= j < |s.workers| && Stored(s, s.workers[j], slot)
  }

  ghost predicate KeysAreHeld(s: State) {
    forall slot: nat :: Day(s.address, slot) in s.cache ==> HasStorer(s, slot)
  }

  lemma StepKeepsGaps(s: State, i: nat)
    requires GapInvariant(s) && i < |s.workers|
    ensures GapInvariant(Step(s, i))
  {
    var t := Step(s, i);
    assert OwnsGap(s, s.workers[i]);
    forall j | 0 <= j < |s.workers| && j != i
      ensures OwnsGap(t, t.workers[j]) && GapsApart(t.workers[j], t.workers[i])
    {
      assert OwnsGap(s, s.workers[j]) && (GapsApart(s.workers[j], s.workers[i]) || GapsApart(s.workers[i], s.workers[j]));
    }
    forall j, k | 0 <= j < k < |t.workers|
      ensures GapsApart(t.workers[j], t.workers[k])
    {
      if j != i && k != i {
        assert GapsApart(s.workers[j], s.workers[k]);
      }
    }
  }

  lemma StepKeepsOtherSlot(s: State, i: nat, v: Worker)
    requires i < |s.workers| && OwnsSlot(s, v) && OwnsSlot(s, s.workers[i]) && SlotsApart(v, s.workers[i])
    requires DeletesOwnKey(s, Advance(i))
    ensures OwnsSlot(Step(s, i), v) && SlotsApart(v, Step(s, i).workers[i])
  {}

  lemma StepKeepsSlots(s: State, i: nat)
    requires SlotInvariant(s) && i < |s.workers| && DeletesOwnKey(s, Advance(i))
    ensures SlotInvariant(Step(s, i))
  {
    var t := Step(s, i);
    assert OwnsSlot(s, s.workers[i]);
    forall j | 0 <= j < |s.workers| && j != i
      ensures OwnsSlot(t, t.workers[j]) && SlotsApart(t.workers[j], t.workers[i])
    {
      assert SlotsApart(s.workers[j], s.workers[i]) || SlotsApart(s.workers[i], s.workers[j]);
      StepKeepsOtherSlot(s, i, s.workers[j]);
    }
    forall j, k | 0 <= j < k < |t.workers|
      ensures SlotsApart(t.workers[j], t.workers[k])
    {
      if j != i && k != i {
        assert SlotsApart(s.workers[j], s.workers[k]);
      }
    }
  }

  lemma StepKeepsKeysHeld(s: State, i: nat)
    requires KeysAreHeld(s) && i < |s.workers|
    ensures KeysAreHeld(Step(s, i))
  {
    var t := Step(s, i);
    forall slot: nat | Day(t.address, slot) in t.cache ensures HasStorer(t, slot) {
      if Stored(t, t.workers[i], slot) {
      } else {
        assert HasStorer(s, slot);
        var j :| 0 <= j < |s.workers| && Stored(s, s.workers[j], slot);
        assert Stored(t, t.workers[j], slot);
      }
    }
  }

  lemma OtherActionKeepsKeysHeld(s: State, a: Action)
    requires KeysAreHeld(s) && !a.Advance?
    ensures KeysAreHeld(Do(s, a))
  {
    var t := Do(s, a);
    forall slot: nat | Day(t.address, slot) in t.cache ensures HasStorer(t, slot) {
      assert HasStorer(s, slot);
      var j :| 0 <= j < |s.workers| && Stored(s, s.workers[j], slot);
      assert Stored(t, t.workers[j], slot);
    }
  }

  /** What holds on every schedule. */
  lemma {:induction false} RunKeepsGaps(address: string, start: int, schedule: seq<Action>)
    ensures var s := Run(address, start, schedule); GapInvariant(s) && KeysAreHeld(s)
  {
    if schedule != [] {
      var n := |schedule| - 1;
      RunKeepsGaps(address, start, schedule[..n]);
      var s := Run(address, start, schedule[..n]);
      if !schedule[n].Advance? {
        OtherActionKeepsKeysHeld(s, schedule[n]);
      } else if schedule[n].worker < |s.workers| {
        StepKeepsGaps(s, schedule[n].worker);
        StepKeepsKeysHeld(s, schedule[n].worker);
      }
    }
  }

  lemma {:induction false} RunKeepsSlots(address: string, start: int, schedule: seq<Action>)
    requires Throughout(address, start, schedule, DeletesOwnKey)
    ensures SlotInvariant(Run(address, start, schedule))
  {
    if schedule != [] {
      var n := |schedule| - 1;
      ThroughoutPrefix(address, start, schedule, DeletesOwnKey);
      RunKeepsSlots(address, start, schedule[..n]);
      var s := Run(address, start, schedule[..n]);
      if schedule[n].Advance? && schedule[n].worker < |s.workers| {
        StepKeepsSlots(s, schedule[n].worker);
      }
    }
  }

  // ---------------------------------------------------------------- main results

  /** The worker won, and took its slot in the 24 hours from `from`. */
  predicate WonIn(w: Worker, from: int) {
    w.Sent? && from <= w.at < from + MAIL_DAY_SECONDS
  }

  /**
   * However the workers interleave, as long as no delete takes another worker's key away, at most ten
   * winning claims took their slots within any 24 hours: any list of distinct winners from one such
   * window has at most ten members.
   */
  lemma AtMostTenWinnersInADay(address: string, start: int, schedule: seq<Action>, from: int, winners: seq<nat>)
    requires Throughout(address, start, schedule, DeletesOwnKey)
    requires var ws := Run(address, start, schedule).workers;
             forall k :: 0 <= k < |winners| ==> winners[k] < |ws| && WonIn(ws[winners[k]], from)
    requires forall j, k :: 0 <= j < k < |winners| ==> winners[j] != winners[k]
    ensures |winners| <= MAIL_DAY_MAX
  {
    RunKeepsSlots(address, start, schedule);
    SlotsOfWinnersDiffer(Run(address, start, schedule), {}, from, winners);
  }

  /** On every schedule, two winners added the gap key at least ten minutes apart. */
  lemma WinnersAreTenMinutesApart(address: string, start: int, schedule: seq<Action>, i: nat, j: nat)
    requires var ws := Run(address, start, schedule).workers; i < j < |ws| && ws[i].Sent? && ws[j].Sent?
    ensures var ws := Run(address, start, schedule).workers;
            Apart(ws[i].gapAt, ws[j].gapAt, MAIL_GAP_SECONDS)
  {
    RunKeepsGaps(address, start, schedule);
    var ws := Run(address, start, schedule).workers;
    assert GapsApart(ws[i], ws[j]);
  }

  // ---------------------------------------------------------------- one worker alone

  function StepsLeft(w: Worker): nat {
    match w
    case Scanning(index) => if index < MAIL_DAY_MAX then 3 + MAIL_DAY_MAX - index else 1
    case HasSlot(_, _) => 2
    case GivingBack(_, _) => 1
    case _ => 0
  }

  /** Worker `i` runs to its end with nobody in between. */
  function Finish(s: State, i: nat): (t: State)
    requires i < |s.workers|
    ensures |t.workers| == |s.workers|
    ensures t.workers[i].Sent? || t.workers[i].Refused?
    decreases StepsLeft(s.workers[i])
  {
    if s.workers[i].Sent? || s.workers[i].Refused? then s else Finish(Step(s, i), i)
  }

  lemma {:induction false} ScanFindsFirstFree(s: State, i: nat, index: nat)
    requires i < |s.workers| && s.workers[i] == Scanning(index) && index <= MAIL_DAY_MAX
    ensures match FirstFree(s.cache, s.address, s.clock, index)
      case None => Finish(s, i) == Become(s, i, Refused)
      case Some(slot) =>
        Finish(s, i) == Finish(Become(s, i, HasSlot(slot, s.clock)).(
          cache := s.cache[Day(s.address, slot) := s.clock + MAIL_DAY_SECONDS]), i)
    decreases MAIL_DAY_MAX - index
  {
    if index < MAIL_DAY_MAX && Live(s.cache, Day(s.address, index), s.clock) {
      var t := Become(s, i, Scanning(index + 1));
      ScanFindsFirstFree(t, i, index + 1);
      assert forall w :: Become(t, i, w) == Become(s, i, w);
    }
  }

  /** Run alone, a worker does to the cache, and answers, what the sequential claim does. */
  lemma WorkerAloneIsClaim(s: State, i: nat)
    requires i < |s.workers| && s.workers[i] == Scanning(0)
    ensures var (won, cache) := Claim(s.cache, s.address, s.clock);
            var slot := SlotFor(s.cache, s.address, s.clock);
            Finish(s, i) == Become(s, i, if won then Sent(slot, s.clock, s.clock) else Refused).(cache := cache)
  {
    ScanFindsFirstFree(s, i, 0);
    match FirstFree(s.cache, s.address, s.clock, 0) {
      case None =>
      case Some(slot) =>
        var taken := Become(s, i, HasSlot(slot, s.clock)).(
          cache := s.cache[Day(s.address, slot) := s.clock + MAIL_DAY_SECONDS]);
        var next := Step(taken, i);
        assert Live(taken.cache, Gap(s.address), s.clock) <==> Live(s.cache, Gap(s.address), s.clock);
        if Live(s.cache, Gap(s.address), s.clock) {
          var ended := Step(next, i);
          assert Finish(taken, i) == Finish(next, i) == Finish(ended, i) == ended;
          assert ended.cache == s.cache - {Day(s.address, slot)};
          assert ended.workers == s.workers[i := Refused];
        } else {
          assert Finish(taken, i) == Finish(next, i) == next;
          assert next.workers == s.workers[i := Sent(slot, s.clock, s.clock)];
        }
    }
  }

  // ---------------------------------------------------------------- deletes that come too late

  /**
   * A worker's delete takes another worker's unexpired slot key away exactly when it does not own the key
   * it finds, and then it is a day late.
   */
  lemma LateDeleteFreesAnothersSlot(s: State, i: nat)
    requires SlotInvariant(s) && KeysAreHeld(s) && i < |s.workers|
    ensures (exists j :: 0 <= j < |s.workers| && j != i && !OwnsSlot(Step(s, i), s.workers[j]))
            <==> !DeletesOwnKey(s, Advance(i))
    ensures !DeletesOwnKey(s, Advance(i)) ==> !DeletesInTime(s, Advance(i))
  {
    assert OwnsSlot(s, s.workers[i]);
    if DeletesOwnKey(s, Advance(i)) {
      forall j | 0 <= j < |s.workers| && j != i ensures OwnsSlot(Step(s, i), s.workers[j]) {
        assert SlotsApart(s.workers[j], s.workers[i]) || SlotsApart(s.workers[i], s.workers[j]);
        StepKeepsOtherSlot(s, i, s.workers[j]);
      }
    } else {
      var slot := s.workers[i].slot;
      assert HasStorer(s, slot);
      var j :| 0 <= j < |s.workers| && Stored(s, s.workers[j], slot);
      assert !OwnsSlot(Step(s, i), s.workers[j]);
    }
  }

  /** If every delete comes within a day of its worker's claim, none takes another worker's key. */
  lemma {:induction false} DeletesInTimeAreOwn(address: string, start: int, schedule: seq<Action>)
    requires Throughout(address, start, schedule, DeletesInTime)
    ensures Throughout(address, start, schedule, DeletesOwnKey)
  {
    if schedule != [] {
      var n := |schedule| - 1;
      ThroughoutPrefix(address, start, schedule, DeletesInTime);
      DeletesInTimeAreOwn(address, start, schedule[..n]);
      RunKeepsSlots(address, start, schedule[..n]);
      RunKeepsGaps(address, start, schedule[..n]);
      var s := Run(address, start, schedule[..n]);
      if schedule[n].Advance? && schedule[n].worker < |s.workers| {
        LateDeleteFreesAnothersSlot(s, schedule[n].worker);
      }
      ThroughoutLonger(address, start, schedule, DeletesOwnKey);
    }
  }

  // ---------------------------------------------------------------- one more winner for each key taken

  /** The step deletes an unexpired slot key that another worker stored. */
  predicate TakesAnothersKey(s: State, a: Action) {
    a.Advance? && a.worker < |s.workers| && s.workers[a.worker].GivingBack? &&
    Live(s.cache, Day(s.address, s.workers[a.worker].slot), s.clock) &&
    exists j :: 0 <= j < |s.workers| && j != a.worker && Stored(s, s.workers[j], s.workers[a.worker].slot)
  }

  function KeysTaken(address: string, start: int, schedule: seq<Action>): nat {
    if schedule == [] then 0
    else
      var n := |schedule| - 1;
      KeysTaken(address, start, schedule[..n]) +
      (if TakesAnothersKey(Run(address, start, schedule[..n]), schedule[n]) then 1 else 0)
  }

  /** The slot invariant, but for the workers in `lost`. */
  ghost predicate SlotInvariantBut(s: State, lost: set<nat>) {
    && (forall i :: 0 <= i < |s.workers| && i !in lost ==> OwnsSlot(s, s.workers[i]))
    && (forall i, j :: 0 <= i < j < |s.workers| && i !in lost && j !in lost ==> SlotsApart(s.workers[i], s.workers[j]))
  }

  lemma AddKeepsOtherSlot(s: State, i: nat, v: Worker)
    requires i < |s.workers| && !s.workers[i].GivingBack? && OwnsSlot(s, v)
    requires s.workers[i].Scanning? || SlotsApart(v, s.workers[i])
    ensures OwnsSlot(Step(s, i), v) && SlotsApart(v, Step(s, i).workers[i])
  {}

  lemma AddKeepsSlotsBut(s: State, i: nat, lost: set<nat>)
    requires SlotInvariantBut(s, lost) && i < |s.workers| && !s.workers[i].GivingBack?
    ensures SlotInvariantBut(Step(s, i), lost)
  {
    var t := Step(s, i);
    forall j | 0 <= j < |s.workers| && j != i && j !in lost
      ensures OwnsSlot(t, t.workers[j]) && (i !in lost ==> SlotsApart(t.workers[j], t.workers[i]))
    {
      if i in lost {
        AddKeepsOwner(s, i, s.workers[j]);
      } else {
        assert SlotsApart(s.workers[j], s.workers[i]) || SlotsApart(s.workers[i], s.workers[j]);
        AddKeepsOtherSlot(s, i, s.workers[j]);
      }
    }
    forall j, k | 0 <= j < k < |t.workers| && j !in lost && k !in lost
      ensures SlotsApart(t.workers[j], t.workers[k])
    {
      if j != i && k != i {
        assert SlotsApart(s.workers[j], s.workers[k]);
      }
    }
  }

  lemma AddKeepsOwner(s: State, i: nat, v: Worker)
    requires i < |s.workers| && !s.workers[i].GivingBack? && OwnsSlot(s, v)
    ensures OwnsSlot(Step(s, i), v)
  {}

  /** At most one worker outside `lost` has its key deleted. */
  lemma DeleteKeepsSlotsBut(s: State, i: nat, lost: set<nat>) returns (more: set<nat>)
    requires SlotInvariantBut(s, lost) && i < |s.workers| && s.workers[i].GivingBack?
    ensures SlotInvariantBut(Step(s, i), more)
    ensures |more| <= |lost| + (if TakesAnothersKey(s, Advance(i)) then 1 else 0)
  {
    var slot := s.workers[i].slot;
    if j :| 0 <= j < |s.workers| && j != i && j !in lost && Keeps(s, s.workers[j], slot) {
      assert OwnsSlot(s, s.workers[j]) && Stored(s, s.workers[j], slot);
      more := lost + {j};
      forall k | 0 <= k < |s.workers| && k != i && k !in more ensures !Keeps(s, s.workers[k], slot) {
        assert OwnsSlot(s, s.workers[k]);
        assert SlotsApart(s.workers[j], s.workers[k]) || SlotsApart(s.workers[k], s.workers[j]);
      }
    } else {
      more := lost;
    }
    DeleteKeepsOthers(s, i, more);
  }

  /** The worker took this slot less than a day ago. */
  predicate Keeps(s: State, w: Worker, slot: nat) {
    Holds(w) && w.slot == slot && s.clock < w.at + MAIL_DAY_SECONDS
  }

  lemma DeleteKeepsOthers(s: State, i: nat, lost: set<nat>)
    requires SlotInvariantBut(s, lost) && i < |s.workers| && s.workers[i].GivingBack?
    requires forall k :: 0 <= k < |s.workers| && k != i && k !in lost ==> !Keeps(s, s.workers[k], s.workers[i].slot)
    ensures SlotInvariantBut(Step(s, i), lost)
  {
    var t := Step(s, i);
    forall k | 0 <= k < |t.workers| && k !in lost ensures OwnsSlot(t, t.workers[k]) {
      if k != i {
        assert OwnsSlot(s, s.workers[k]);
      }
    }
    forall j, k | 0 <= j < k < |t.workers| && j !in lost && k !in lost
      ensures SlotsApart(t.workers[j], t.workers[k])
    {
      if j != i && k != i {
        assert SlotsApart(s.workers[j], s.workers[k]);
      }
    }
  }

  lemma {:induction false} RunKeepsSlotsBut(address: string, start: int, schedule: seq<Action>) returns (lost: set<nat>)
    ensures SlotInvariantBut(Run(address, start, schedule), lost)
    ensures |lost| <= KeysTaken(address, start, schedule)
  {
    lost := {};
    if schedule != [] {
      var n := |schedule| - 1;
      lost := RunKeepsSlotsBut(address, start, schedule[..n]);
      var s := Run(address, start, schedule[..n]);
      if schedule[n].Advance? && schedule[n].worker < |s.workers| {
        if s.workers[schedule[n].worker].GivingBack? {
          lost := DeleteKeepsSlotsBut(s, schedule[n].worker, lost);
        } else {
          AddKeepsSlotsBut(s, schedule[n].worker, lost);
        }
      } else {
        OtherActionKeepsSlotsBut(s, schedule[n], lost);
      }
    }
  }

  lemma OtherActionKeepsSlotsBut(s: State, a: Action, lost: set<nat>)
    requires SlotInvariantBut(s, lost) && !(a.Advance? && a.worker < |s.workers|)
    ensures SlotInvariantBut(Do(s, a), lost)
  {}

  lemma {:induction false} Without(ids: seq<nat>, lost: set<nat>) returns (rest: seq<nat>)
    requires forall j, k :: 0 <= j < k < |ids| ==> ids[j] != ids[k]
    ensures forall k :: 0 <= k < |rest| ==> rest[k] in ids && rest[k] !in lost
    ensures forall j, k :: 0 <= j < k < |rest| ==> rest[j] != rest[k]
    ensures |ids| <= |rest| + |lost|
  {
    if ids == [] {
      rest := [];
    } else {
      var n := |ids| - 1;
      assert forall k :: 0 <= k < n ==> ids[..n][k] == ids[k];
      if ids[n] in lost {
        rest := Without(ids[..n], lost - {ids[n]});
        assert forall k :: 0 <= k < |rest| ==> rest[k] != ids[n];
      } else {
        rest := Without(ids[..n], lost);
        rest := rest + [ids[n]];
      }
    }
  }

  lemma SlotsOfWinnersDiffer(s: State, lost: set<nat>, from: int, winners: seq<nat>)
    requires SlotInvariantBut(s, lost)
    requires forall k :: 0 <= k < |winners| ==>
               winners[k] < |s.workers| && winners[k] !in lost && WonIn(s.workers[winners[k]], from)
    requires forall j, k :: 0 <= j < k < |winners| ==> winners[j] != winners[k]
    ensures |winners| <= MAIL_DAY_MAX
  {
    var slots := seq(|winners|, k requires 0 <= k < |winners| => s.workers[winners[k]].slot);
    forall k | 0 <= k < |slots| ensures slots[k] < MAIL_DAY_MAX {
      assert OwnsSlot(s, s.workers[winners[k]]);
    }
    forall j, k | 0 <= j < k < |slots| ensures slots[j] != slots[k] {
      var v, w := s.workers[winners[j]], s.workers[winners[k]];
      assert SlotsApart(v, w) || SlotsApart(w, v);
    }
    DistinctBelow(slots, MAIL_DAY_MAX);
  }

  /** On every schedule: each delete of another worker's key makes room for at most one winner beyond ten in a day. */
  lemma WinnersInADayAreTenAndKeysTaken(address: string, start: int, schedule: seq<Action>, from: int, winners: seq<nat>)
    requires var ws := Run(address, start, schedule).workers;
             forall k :: 0 <= k < |winners| ==> winners[k] < |ws| && WonIn(ws[winners[k]], from)
    requires forall j, k :: 0 <= j < k < |winners| ==> winners[j] != winners[k]
    ensures |winners| <= MAIL_DAY_MAX + KeysTaken(address, start, schedule)
  {
    var lost := RunKeepsSlotsBut(address, start, schedule);
    var rest := Without(winners, lost);
    SlotsOfWinnersDiffer(Run(address, start, schedule), lost, from, rest);
  }

  // ---------------------------------------------------------------- eleven winners in a day

  function RunFrom(s: State, more: seq<Action>): State {
    if more == [] then s else Do(RunFrom(s, more[..|more| - 1]), more[|more| - 1])
  }

  lemma {:induction false} RunGoesOn(address: string, start: int, schedule: seq<Action>, more: seq<Action>)
    ensures Run(address, start, schedule + more) == RunFrom(Run(address, start, schedule), more)
  {
    if more == [] {
      assert schedule + more == schedule;
    } else {
      assert (schedule + more)[..|schedule + more| - 1] == schedule + more[..|more| - 1];
      RunGoesOn(address, start, schedule, more[..|more| - 1]);
    }
  }

  ghost predicate LeadsTo(s: State, t: State) {
    exists more: seq<Action> :: RunFrom(s, more) == t
  }

  lemma LeadsToDo(s: State, t: State, a: Action)
    requires LeadsTo(s, t)
    ensures LeadsTo(s, Do(t, a))
  {
    var more: seq<Action> :| RunFrom(s, more) == t;
    assert (more + [a])[..|more|] == more;
    assert RunFrom(s, more + [a]) == Do(t, a);
  }

  lemma {:induction false} LeadsToFinish(s: State, t: State, i: nat)
    requires LeadsTo(s, t) && i < |t.workers|
    ensures LeadsTo(s, Finish(t, i))
    decreases StepsLeft(t.workers[i])
  {
    if !(t.workers[i].Sent? || t.workers[i].Refused?) {
      LeadsToDo(s, t, Advance(i));
      LeadsToFinish(s, Step(t, i), i);
    }
  }

  /** A worker arrives and runs alone to its end. */
  function Visit(s: State): State {
    Finish(Do(s, Arrive), |s.workers|)
  }

  lemma LeadsToVisit(s: State, t: State)
    requires LeadsTo(s, t)
    ensures LeadsTo(s, Visit(t))
  {
    LeadsToDo(s, t, Arrive);
    LeadsToFinish(s, Do(t, Arrive), |t.workers|);
  }

  lemma VisitWins(s: State, slot: nat)
    requires slot < MAIL_DAY_MAX && !Live(s.cache, Day(s.address, slot), s.clock)
    requires forall i: nat :: i < slot ==> Live(s.cache, Day(s.address, i), s.clock)
    requires !Live(s.cache, Gap(s.address), s.clock)
    ensures Visit(s) == s.(workers := s.workers + [Sent(slot, s.clock, s.clock)], cache := AfterWin(s, slot))
  {
    WorkerAloneIsClaim(Do(s, Arrive), |s.workers|);
    assert FirstFree(s.cache, s.address, s.clock, 0) == Some(slot);
  }

  function AfterWin(s: State, slot: nat): Entries {
    s.cache[Day(s.address, slot) := s.clock + MAIL_DAY_SECONDS][Gap(s.address) := s.clock + MAIL_GAP_SECONDS]
  }

  /** No key outlives a day. */
  ghost predicate KeysRunOut(s: State) {
    forall k :: k in s.cache ==> s.cache[k] <= s.clock + MAIL_DAY_SECONDS
  }

  lemma {:induction false} RunKeysRunOut(address: string, start: int, schedule: seq<Action>)
    ensures KeysRunOut(Run(address, start, schedule))
  {
    if schedule != [] {
      RunKeysRunOut(address, start, schedule[..|schedule| - 1]);
    }
  }

  /** One worker has won slot 0 and a second has taken slot 1 and lost the gap. */
  function SecondLoses(s: State): State {
    s.(workers := s.workers + [Sent(0, s.clock, s.clock), GivingBack(1, s.clock)],
       cache := AfterWin(s, 0)[Day(s.address, 1) := s.clock + MAIL_DAY_SECONDS])
  }

  ghost predicate Idle(s: State) {
    forall k :: k in s.cache ==> s.cache[k] <= s.clock
  }

  /** The state after the first has won, with the second at some point of its claim. */
  function FirstWon(s: State, second: seq<Worker>): State {
    s.(workers := s.workers + [Sent(0, s.clock, s.clock)] + second, cache := AfterWin(s, 0))
  }

  lemma SecondScans(s: State)
    requires Idle(s)
    ensures Do(FirstWon(s, []), Arrive) == FirstWon(s, [Scanning(0)])
    ensures Step(FirstWon(s, [Scanning(0)]), |s.workers| + 1) == FirstWon(s, [Scanning(1)])
  {
    var n := |s.workers| + 1;
    assert FirstWon(s, [Scanning(0)]).workers[n] == Scanning(0);
    assert FirstWon(s, [Scanning(0)]).workers[n := Scanning(1)] == FirstWon(s, [Scanning(1)]).workers;
  }

  lemma SecondTakes(s: State)
    requires Idle(s)
    ensures var taken := SecondLoses(s).(workers := FirstWon(s, [HasSlot(1, s.clock)]).workers);
            && Step(FirstWon(s, [Scanning(1)]), |s.workers| + 1) == taken
            && Step(taken, |s.workers| + 1) == SecondLoses(s)
  {
    var n := |s.workers| + 1;
    assert FirstWon(s, [Scanning(1)]).workers[n] == Scanning(1);
    assert FirstWon(s, [Scanning(1)]).workers[n := HasSlot(1, s.clock)] == FirstWon(s, [HasSlot(1, s.clock)]).workers;
    assert FirstWon(s, [HasSlot(1, s.clock)]).workers[n := GivingBack(1, s.clock)] == SecondLoses(s).workers;
  }

  lemma LeadsToSecondLoses(origin: State, s: State)
    requires LeadsTo(origin, s) && Idle(s)
    ensures LeadsTo(origin, SecondLoses(s))
  {
    VisitWins(s, 0);
    LeadsToVisit(origin, s);
    assert Visit(s) == FirstWon(s, []);
    SecondScans(s);
    SecondTakes(s);
    LeadsToDo(origin, FirstWon(s, []), Arrive);
    LeadsToDo(origin, FirstWon(s, [Scanning(0)]), Advance(|s.workers| + 1));
    LeadsToDo(origin, FirstWon(s, [Scanning(1)]), Advance(|s.workers| + 1));
    LeadsToDo(origin, Step(FirstWon(s, [Scanning(1)]), |s.workers| + 1), Advance(|s.workers| + 1));
  }

  /**
   * Worker n - 1 took slot 1 a day or more ago and still has its delete to make; the `k` workers after it have
   * won since `from`, ten minutes apart, on slots 0 to k - 1.
   */
  ghost predicate Filled(s: State, k: nat, n: nat, from: int) {
    && s.clock == from + MAIL_GAP_SECONDS * k
    && n > 0 && |s.workers| == n + k && s.workers[n - 1].GivingBack? && s.workers[n - 1].slot == 1
    && (forall j :: n <= j < |s.workers| ==> WonIn(s.workers[j], from))
    && (forall j: nat :: j < k ==> Live(s.cache, Day(s.address, j), from + MAIL_DAY_SECONDS - 1))
    && (forall j: nat :: k <= j < MAIL_DAY_MAX ==> !Live(s.cache, Day(s.address, j), from))
    && !Live(s.cache, Gap(s.address), s.clock)
  }

  /** The state after one more worker won slot `k` and ten minutes went by. */
  function Won(s: State, k: nat): State {
    s.(clock := s.clock + MAIL_GAP_SECONDS, workers := s.workers + [Sent(k, s.clock, s.clock)], cache := AfterWin(s, k))
  }

  lemma WonIsFilled(s: State, k: nat, n: nat, from: int)
    requires Filled(s, k, n, from) && k < MAIL_DAY_MAX
    ensures Filled(Won(s, k), k + 1, n, from)
  {
    var t := Won(s, k);
    forall j | n <= j < |t.workers| ensures WonIn(t.workers[j], from) {
      assert t.workers[j] == if j < |s.workers| then s.workers[j] else Sent(k, s.clock, s.clock);
    }
    forall j: nat | j < k + 1 ensures Live(t.cache, Day(s.address, j), from + MAIL_DAY_SECONDS - 1) {
      assert j < k ==> Live(s.cache, Day(s.address, j), from + MAIL_DAY_SECONDS - 1);
    }
  }

  lemma OneMoreWinner(origin: State, s: State, k: nat, n: nat, from: int)
    requires LeadsTo(origin, s) && Filled(s, k, n, from) && k < MAIL_DAY_MAX
    ensures LeadsTo(origin, Won(s, k)) && Filled(Won(s, k), k + 1, n, from)
  {
    VisitWins(s, k);
    LeadsToVisit(origin, s);
    LeadsToDo(origin, Visit(s), Tick(MAIL_GAP_SECONDS));
    WonIsFilled(s, k, n, from);
  }

  lemma {:induction false} TenWinners(origin: State, s: State, k: nat, n: nat, from: int) returns (t: State)
    requires LeadsTo(origin, s) && Filled(s, 0, n, from) && k <= MAIL_DAY_MAX
    ensures LeadsTo(origin, t) && Filled(t, k, n, from)
  {
    t := s;
    if k > 0 {
      t := TenWinners(origin, s, k - 1, n, from);
      OneMoreWinner(origin, t, k - 1, n, from);
      t := Won(t, k - 1);
    }
  }

  /** Workers n to n + 10 all won within the day from `from`. */
  ghost predicate ElevenWon(s: State, n: nat, from: int) {
    |s.workers| == n + 11 && forall j :: n <= j < n + 11 ==> WonIn(s.workers[j], from)
  }

  /** The late delete frees a slot, and an eleventh worker takes it. */
  lemma EleventhWins(origin: State, s: State, n: nat, from: int)
    requires LeadsTo(origin, s) && Filled(s, MAIL_DAY_MAX, n, from)
    ensures exists t :: LeadsTo(origin, t) && ElevenWon(t, n, from)
  {
    var freed := Step(s, n - 1);
    LeadsToDo(origin, s, Advance(n - 1));
    VisitWins(freed, 1);
    LeadsToVisit(origin, freed);
    assert ElevenWon(Visit(freed), n, from);
  }

  lemma IdleLeadsToFilled(origin: State, s: State)
    requires LeadsTo(origin, s) && Idle(s)
    ensures LeadsTo(origin, Do(SecondLoses(s), Tick(MAIL_DAY_SECONDS)))
    ensures Filled(Do(SecondLoses(s), Tick(MAIL_DAY_SECONDS)), 0, |s.workers| + 2, s.clock + MAIL_DAY_SECONDS)
  {
    LeadsToSecondLoses(origin, s);
    LeadsToDo(origin, SecondLoses(s), Tick(MAIL_DAY_SECONDS));
  }

  /**
   * Nothing in a state rules the failure out: every run, whatever its schedule so far, can go on to eleven
   * winners in one day.
   */
  lemma EveryRunCanReachEleven(address: string, start: int, schedule: seq<Action>)
    ensures exists more, n, from :: ElevenWon(Run(address, start, schedule + more), n, from)
  {
    var origin := Run(address, start, schedule);
    assert RunFrom(origin, []) == origin;
    RunKeysRunOut(address, start, schedule);
    LeadsToDo(origin, origin, Tick(MAIL_DAY_SECONDS));
    var idle := Do(origin, Tick(MAIL_DAY_SECONDS));
    IdleLeadsToFilled(origin, idle);
    var n, from := |idle.workers| + 2, idle.clock + MAIL_DAY_SECONDS;
    var s := TenWinners(origin, Do(SecondLoses(idle), Tick(MAIL_DAY_SECONDS)), MAIL_DAY_MAX, n, from);
    EleventhWins(origin, s, n, from);
    var t :| LeadsTo(origin, t) && ElevenWon(t, n, from);
    var more: seq<Action> :| RunFrom(origin, more) == t;
    RunGoesOn(address, start, schedule, more);
    assert ElevenWon(Run(address, start, schedule + more), n, from);
  }
}
