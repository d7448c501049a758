/** Mobile signup for one address: a mailed code, counted guesses, one activation. */
module SignupCode {
  import opened Wrappers
  import opened Timeline
  import opened SignupMail

  const CODE_TTL := 10 * 60
  const MAX_ATTEMPTS := 5

  /** The text passwords and codes stand for their hashes. */
  datatype User = User(name: string, password: string, active: bool)
  datatype Code = Code(digits: string, expiresAt: int, attempts: nat)

  /** Everything the service stores for the address, and the limiter's cache. */
  datatype Box = Box(cache: Entries, user: Option<User>, code: Option<Code>)

  predicate Pending(b: Box) { b.user.Some? && !b.user.value.active }

  predicate ActiveIn(b: Box) { b.user.Some? && b.user.value.active }

  function SavedCode(drawn: string, now: int): Option<Code> {
    Some(Code(drawn, now + CODE_TTL, 0))
  }

  /** What a start stores, once its claim is granted; `now` is when it saves, not when it claimed. */
  function StartBlock(b: Box, name: string, password: string, drawn: string, now: int): Box {
    if ActiveIn(b) then b else b.(user := Some(User(name, password, false)), code := SavedCode(drawn, now))
  }

  /** A resend claims a mail only for a known user that is active or has a code. */
  predicate ResendAsks(b: Box) { b.user.Some? && (b.user.value.active || b.code.Some?) }

  /** The confirm call gets as far as comparing the guess with the stored code. */
  predicate ChecksCode(b: Box, now: int) {
    Pending(b) && b.code.Some? && b.code.value.attempts < MAX_ATTEMPTS && now < b.code.value.expiresAt
  }

  /** How an atomic block ends: by an error, by returning a user, or by running to its last line. */
  datatype BlockEnd = Raised | Returned | RanThrough

  /** An error that leaves the block takes its writes back; every other end commits them. */
  function Transaction(before: Box, block: (BlockEnd, Box)): Box {
    if block.0.Raised? then before else block.1
  }

  /** The confirm call's atomic block, with the box its writes have reached. */
  function ConfirmBlock(b: Box, guess: string, now: int): (BlockEnd, Box) {
    if !Pending(b) || b.code.None? then (Raised, b)
    else
      var code := b.code.value;
      if code.attempts >= MAX_ATTEMPTS || code.expiresAt <= now then (Raised, b)
      else if guess != code.digits then (RanThrough, b.(code := Some(code.(attempts := code.attempts + 1))))
      else (Returned, b.(user := Some(b.user.value.(active := true)), code := None))
  }

  // ---------------------------------------------------------------- calls that nobody interrupts

  function StartAlone(b: Box, address: string, name: string, password: string, drawn: string,
                      claimedAt: int, savedAt: int): Box {
    var (claimed, cache) := Claim(b.cache, address, claimedAt);
    if claimed then StartBlock(b.(cache := cache), name, password, drawn, savedAt) else b.(cache := cache)
  }

  function ResendAlone(b: Box, address: string, drawn: string, claimedAt: int, savedAt: int): Box {
    if !ResendAsks(b) then b
    else
      var (claimed, cache) := Claim(b.cache, address, claimedAt);
      if claimed && !ActiveIn(b) then b.(cache := cache, code := SavedCode(drawn, savedAt)) else b.(cache := cache)
  }

  class SignupService {
    const address: string
    const mail: MailCache
    var user: Option<User>
    var code: Option<Code>

    ghost function Stored(): Box
      reads this, mail
    {
      Box(mail.entries, user, code)
    }

    constructor (address: string, mail: MailCache, user: Option<User>)
      ensures this.address == address && this.mail == mail
      ensures Stored() == Box(mail.entries, user, None)
    {
      this.address, this.mail := address, mail;
      this.user, code := user, None;
    }

    method SaveCode(drawn: string, now: int)
      modifies this`code
      ensures code == SavedCode(drawn, now)
    {
      code := Some(Code(drawn, now + CODE_TTL, 0));
    }

    /** The claim comes before the row lock and the hashing, the code's expiry after them. */
    method StartSignup(name: string, password: string, drawn: string, claimedAt: int, savedAt: int)
      modifies this, mail
      ensures Stored() == StartAlone(old(Stored()), address, name, password, drawn, claimedAt, savedAt)
    {
      var claimed := mail.ClaimSignupMail(address, claimedAt);
      if !claimed {
        return;
      }
      if user.None? {
        user := Some(User(name, password, false));
        SaveCode(drawn, savedAt);
        return;
      }
      if user.value.active {
        return;
      }
      user := Some(user.value.(name := name, password := password));
      SaveCode(drawn, savedAt);
    }

    method ResendSignupCode(drawn: string, claimedAt: int, savedAt: int)
      modifies this, mail
      ensures Stored() == ResendAlone(old(Stored()), address, drawn, claimedAt, savedAt)
    {
      if user.None? {
        return;
      }
      if user.value.active {
        var claimed := mail.ClaimSignupMail(address, claimedAt);
        return;
      }
      if code.None? {
        return;
      }
      var claimed := mail.ClaimSignupMail(address, claimedAt);
      if !claimed {
        return;
      }
      SaveCode(drawn, savedAt);
    }

    method ConfirmAtomically(guess: string, now: int) returns (end: BlockEnd)
      modifies this
      ensures (end, Stored()) == ConfirmBlock(old(Stored()), guess, now)
    {
      if user.None? || user.value.active {
        return Raised;
      }
      if code.None? {
        return Raised;
      }
      if code.value.attempts >= MAX_ATTEMPTS {
        return Raised;
      }
      if code.value.expiresAt <= now {
        return Raised;
      }
      if guess != code.value.digits {
        code := Some(code.value.(attempts := code.value.attempts + 1));
        return RanThrough;
      }
      user := Some(user.value.(active := true));
      code := None;
      return Returned;
    }

    /** False stands for the error, raised inside the block or, for a wrong guess, after it. */
    method ConfirmSignup(guess: string, now: int) returns (confirmed: bool)
      modifies this
      ensures Stored() == Transaction(old(Stored()), ConfirmBlock(old(Stored()), guess, now))
      ensures confirmed <==> ChecksCode(old(Stored()), now) && guess == old(code).value.digits
      ensures confirmed ==> user.Some? && user.value.active && code.None?
      ensures !confirmed && ChecksCode(old(Stored()), now) ==>
                code == Some(old(code).value.(attempts := old(code).value.attempts + 1)) && user == old(user)
    {
      var userBefore, codeBefore := user, code;
      var end := ConfirmAtomically(guess, now);
      if end.Raised? {
        user, code := userBefore, codeBefore;
      }
      return end.Returned?;
    }
  }

  // ---------------------------------------------------------------- why the error comes after the block

  /** The same block with the error for a wrong guess raised inside it. */
  function RaisingBlock(b: Box, guess: string, now: int): (BlockEnd, Box) {
    var (end, box) := ConfirmBlock(b, guess, now);
    (if end.RanThrough? then Raised else end, box)
  }

  datatype Guess = Guess(text: string, at: int)

  function BoxAfterGuesses(b: Box, guesses: seq<Guess>, raisesInside: bool): Box {
    if guesses == [] then b
    else
      var before := BoxAfterGuesses(b, guesses[..|guesses| - 1], raisesInside);
      var last := guesses[|guesses| - 1];
      Transaction(before,
        if raisesInside then RaisingBlock(before, last.text, last.at) else ConfirmBlock(before, last.text, last.at))
  }

  /**
   * Wrong guesses made in time add up to five, and the code is then closed even to a right one; were the
   * error raised inside the block none would be stored, and the right guess would succeed after any number.
   */
  lemma {:induction false} GuessesCountBecauseErrorFollowsCommit(b: Box, guesses: seq<Guess>)
    requires Pending(b) && b.code.Some? && b.code.value.attempts <= MAX_ATTEMPTS
    requires forall i :: 0 <= i < |guesses| ==>
               guesses[i].text != b.code.value.digits && guesses[i].at < b.code.value.expiresAt
    ensures var n := b.code.value.attempts + |guesses|;
            BoxAfterGuesses(b, guesses, false)
            == b.(code := Some(b.code.value.(attempts := if n < MAX_ATTEMPTS then n else MAX_ATTEMPTS)))
    ensures BoxAfterGuesses(b, guesses, true) == b
  {
    if guesses != [] {
      GuessesCountBecauseErrorFollowsCommit(b, guesses[..|guesses| - 1]);
    }
  }

  // ---------------------------------------------------------------- what happened in a run

  /** A call whose claim was granted: about to save, or done. A resend holds the user's row lock until it saves. */
  datatype Call =
    | Starting(name: string, password: string, drawn: string)
    | Resending(drawn: string)
    | Saved
    | Ended

  /**
   * A start claims and, some time later, saves; so does a resend; a confirm is one instant. `Saves` is the
   * second half of the call with that number.
   */
  datatype Event =
    | StartClaims(at: int, name: string, password: string, drawn: string)
    | ResendClaims(at: int, drawn: string)
    | Saves(at: int, call: nat)
    | Confirm(at: int, guess: string)

  function HappenedAt(e: Event): int { e.at }

  /** A code saved by the call with that number. */
  datatype Save = Save(call: nat, at: int)

  /** A guess compared with the `generation`-th saved code. */
  datatype Check = Check(at: int, generation: nat, matched: bool)

  /** `sends` and `slots` are those of the granted claims, `calls` what became of them. */
  datatype History = History(
    box: Box, sends: seq<int>, slots: seq<nat>, calls: seq<Call>, saves: seq<Save>, checks: seq<Check>)

  predicate Locked(h: History) {
    exists i :: 0 <= i < |h.calls| && h.calls[i].Resending?
  }

  function Mailed(h: History, address: string, at: int, call: Call): History {
    var (claimed, cache) := Claim(h.box.cache, address, at);
    if !claimed then h.(box := h.box.(cache := cache))
    else h.(
      box := h.box.(cache := cache), sends := h.sends + [at],
      slots := h.slots + [SlotFor(h.box.cache, address, at)], calls := h.calls + [call])
  }

  function SavedBy(h: History, call: nat, at: int, box: Box): History
    requires call < |h.calls|
  {
    h.(box := box, calls := h.calls[call := Saved], saves := h.saves + [Save(call, at)])
  }

  function Guessed(h: History, at: int, guess: string): History {
    h.(
      box := Transaction(h.box, ConfirmBlock(h.box, guess, at)),
      checks := if ChecksCode(h.box, at) && |h.saves| > 0
                then h.checks + [Check(at, |h.saves| - 1, guess == h.box.code.value.digits)] else h.checks)
  }

  /** A call that needs the row while a resend holds it waits, and happens at a later instant. */
  function Record(h: History, address: string, e: Event): History {
    match e
    case StartClaims(at, name, password, drawn) => Mailed(h, address, at, Starting(name, password, drawn))
    case ResendClaims(at, drawn) =>
      if Locked(h) || !ResendAsks(h.box) then h
      else Mailed(h, address, at, if ActiveIn(h.box) then Ended else Resending(drawn))
    case Saves(at, i) =>
      if i >= |h.calls| then h
      else (match h.calls[i]
            case Starting(name, password, drawn) =>
              if Locked(h) then h
              else if ActiveIn(h.box) then h.(calls := h.calls[i := Ended])
              else SavedBy(h, i, at, StartBlock(h.box, name, password, drawn, at))
            case Resending(drawn) => SavedBy(h, i, at, h.box.(code := SavedCode(drawn, at)))
            case _ => h)
    case Confirm(at, guess) => if Locked(h) then h else Guessed(h, at, guess)
  }

  function Tell(address: string, user: Option<User>, events: seq<Event>): History {
    if events == [] then History(Box(map[], user, None), [], [], [], [], [])
    else Record(Tell(address, user, events[..|events| - 1]), address, events[|events| - 1])
  }

  /** A call whose two halves meet nobody in between does to the box what the uninterrupted call does. */
  lemma HalvesMakeTheCall(h: History, address: string, name: string, password: string, drawn: string,
                          claimedAt: int, savedAt: int)
    requires !Locked(h)
    ensures var started := Record(h, address, StartClaims(claimedAt, name, password, drawn));
            Record(started, address, Saves(savedAt, |h.calls|)).box
              == StartAlone(h.box, address, name, password, drawn, claimedAt, savedAt)
    ensures var resent := Record(h, address, ResendClaims(claimedAt, drawn));
            Record(resent, address, Saves(savedAt, |h.calls|)).box
              == ResendAlone(h.box, address, drawn, claimedAt, savedAt)
  {
    var started := Record(h, address, StartClaims(claimedAt, name, password, drawn));
    assert !Locked(started);
  }

  function ChecksOf(checks: seq<Check>, generation: nat): nat {
    if checks == [] then 0
    else ChecksOf(checks[..|checks| - 1], generation) + (if checks[|checks| - 1].generation == generation then 1 else 0)
  }

  /** Checks run in the 24 hours that begin at `from`. */
  function ChecksInDay(checks: seq<Check>, from: int): nat {
    if checks == [] then 0
    else ChecksInDay(checks[..|checks| - 1], from) +
         (if from <= checks[|checks| - 1].at < from + MAIL_DAY_SECONDS then 1 else 0)
  }

  // ---------------------------------------------------------------- the invariant

  ghost predicate MailIsRepresented(h: History, address: string, now: int) {
    && Represents(h.box.cache, address, h.sends, h.slots, now)
    && RateLimited(h.sends)
    && (forall i :: 0 <= i < |h.sends| ==> h.sends[i] <= now)
  }

  /** Each save is of another call, after that call's claim; saves are in order of time. */
  ghost predicate SavesAreCalls(h: History) {
    && |h.calls| == |h.sends|
    && (forall g :: 0 <= g < |h.saves| ==>
          h.saves[g].call < |h.calls| && h.calls[h.saves[g].call].Saved? && h.sends[h.saves[g].call] <= h.saves[g].at)
    && (forall g, k :: 0 <= g < k < |h.saves| ==> h.saves[g].call != h.saves[k].call && h.saves[g].at <= h.saves[k].at)
  }

  /** Each check ran while its code was unexpired. */
  ghost predicate ChecksAreTimely(h: History) {
    forall i :: 0 <= i < |h.checks| ==>
      && h.checks[i].generation < |h.saves|
      && h.saves[h.checks[i].generation].at <= h.checks[i].at < h.saves[h.checks[i].generation].at + CODE_TTL
  }

  /** The stored attempt count is the number of checks of the latest code; no code is checked a sixth time. */
  ghost predicate AttemptsAreCounted(h: History) {
    && (forall g: nat :: ChecksOf(h.checks, g) <= MAX_ATTEMPTS)
    && (h.box.code.Some? ==>
          && |h.saves| > 0
          && h.box.code.value.expiresAt == h.saves[|h.saves| - 1].at + CODE_TTL
          && h.box.code.value.attempts == ChecksOf(h.checks, |h.saves| - 1))
  }

  ghost predicate SavesAreBy(h: History, now: int) {
    forall g :: 0 <= g < |h.saves| ==> h.saves[g].at <= now
  }

  ghost predicate Invariant(h: History, address: string, now: int) {
    && MailIsRepresented(h, address, now)
    && SavesAreCalls(h) && SavesAreBy(h, now)
    && ChecksAreTimely(h)
    && AttemptsAreCounted(h)
    && (Locked(h) ==> Pending(h.box) && h.box.code.Some?)
  }

  lemma ChecksSnoc(checks: seq<Check>, c: Check, g: nat)
    ensures ChecksOf(checks + [c], g) == ChecksOf(checks, g) + (if c.generation == g then 1 else 0)
  {
    assert (checks + [c])[..|checks|] == checks;
  }

  lemma {:induction false} NoChecksYet(checks: seq<Check>, g: nat)
    requires forall i :: 0 <= i < |checks| ==> checks[i].generation < g
    ensures ChecksOf(checks, g) == 0
  {
    if checks != [] {
      NoChecksYet(checks[..|checks| - 1], g);
    }
  }

  lemma MailKeepsRepresentation(h: History, address: string, at: int, call: Call)
    requires MailIsRepresented(h, address, at)
    ensures MailIsRepresented(Mailed(h, address, at, call), address, at)
  {
    ClaimAnswersRule(h.box.cache, address, h.sends, h.slots, at);
    if Claim(h.box.cache, address, at).0 {
      GrantedClaimIsLogged(h.box.cache, address, h.sends, h.slots, at);
      AllowedKeepsRate(h.sends, at);
    } else {
      OtherClaimKeepsRelation(h.box.cache, address, address, h.sends, h.slots, at);
    }
  }

  /** A claim touches neither the user nor the code, the saves nor the checks. */
  lemma MailAddsACall(h: History, address: string, at: int, call: Call)
    ensures var t := Mailed(h, address, at, call);
            && t.saves == h.saves && t.checks == h.checks && t.box == h.box.(cache := t.box.cache)
            && ((t.sends == h.sends && t.calls == h.calls) || (t.sends == h.sends + [at] && t.calls == h.calls + [call]))
  {}

  lemma CallAddedKeepsSaves(h: History, t: History, at: int, call: Call)
    requires SavesAreCalls(h) && t.saves == h.saves
    requires (t.sends == h.sends && t.calls == h.calls) || (t.sends == h.sends + [at] && t.calls == h.calls + [call])
    ensures SavesAreCalls(t)
  {}

  lemma CallAddedLocks(h: History, t: History, call: Call)
    requires t.calls == h.calls || t.calls == h.calls + [call]
    ensures Locked(t) ==> Locked(h) || call.Resending?
  {
    if Locked(t) {
      var i :| 0 <= i < |t.calls| && t.calls[i].Resending?;
      assert i < |h.calls| ==> h.calls[i].Resending?;
    }
  }

  lemma SameCodeAndChecks(h: History, t: History)
    requires ChecksAreTimely(h) && AttemptsAreCounted(h)
    requires t.saves == h.saves && t.checks == h.checks && t.box.code == h.box.code
    ensures ChecksAreTimely(t) && AttemptsAreCounted(t)
  {}

  lemma MailKeepsInvariant(h: History, address: string, at: int, call: Call)
    requires Invariant(h, address, at)
    requires call.Resending? ==> Pending(h.box) && h.box.code.Some?
    ensures Invariant(Mailed(h, address, at, call), address, at)
  {
    var t := Mailed(h, address, at, call);
    MailKeepsRepresentation(h, address, at, call);
    MailAddsACall(h, address, at, call);
    CallAddedKeepsSaves(h, t, at, call);
    CallAddedLocks(h, t, call);
    SameCodeAndChecks(h, t);
  }

  /** Only one call's entry changes, and not to one that holds the lock. */
  lemma StillLocked(h: History, t: History, i: nat, call: Call)
    requires i < |h.calls| && t.calls == h.calls[i := call] && !call.Resending?
    ensures Locked(t) ==> Locked(h)
  {
    if Locked(t) {
      var j :| 0 <= j < |t.calls| && t.calls[j].Resending?;
      assert h.calls[j].Resending?;
    }
  }

  lemma SaveKeepsSaves(h: History, i: nat, at: int, box: Box)
    requires SavesAreCalls(h) && SavesAreBy(h, at) && i < |h.calls| && !h.calls[i].Saved? && h.sends[i] <= at
    ensures SavesAreCalls(SavedBy(h, i, at, box)) && SavesAreBy(SavedBy(h, i, at, box), at)
  {}

  lemma SaveKeepsChecks(h: History, i: nat, at: int, box: Box, drawn: string)
    requires ChecksAreTimely(h) && AttemptsAreCounted(h) && i < |h.calls| && box.code == SavedCode(drawn, at)
    ensures ChecksAreTimely(SavedBy(h, i, at, box)) && AttemptsAreCounted(SavedBy(h, i, at, box))
  {
    var t := SavedBy(h, i, at, box);
    assert forall g :: 0 <= g < |h.saves| ==> t.saves[g] == h.saves[g];
    NoChecksYet(h.checks, |h.saves|);
  }

  lemma SaveKeepsInvariant(h: History, address: string, i: nat, at: int, box: Box, drawn: string)
    requires Invariant(h, address, at) && i < |h.calls| && !h.calls[i].Saved?
    requires box.cache == h.box.cache && box.code == SavedCode(drawn, at) && Pending(box)
    ensures Invariant(SavedBy(h, i, at, box), address, at)
  {
    SaveKeepsSaves(h, i, at, box);
    SaveKeepsChecks(h, i, at, box, drawn);
  }

  /** One more check of the latest code, which had fewer than five. */
  lemma CheckKeepsFive(checks: seq<Check>, c: Check)
    requires forall g: nat :: ChecksOf(checks, g) <= MAX_ATTEMPTS
    requires ChecksOf(checks, c.generation) < MAX_ATTEMPTS
    ensures forall g: nat :: ChecksOf(checks + [c], g) <= MAX_ATTEMPTS
    ensures ChecksOf(checks + [c], c.generation) == ChecksOf(checks, c.generation) + 1
  {
    forall g: nat ensures ChecksOf(checks + [c], g) <= MAX_ATTEMPTS {
      ChecksSnoc(checks, c, g);
    }
    ChecksSnoc(checks, c, c.generation);
  }

  lemma GuessIsRecorded(h: History, at: int, guess: string)
    requires ChecksCode(h.box, at) && |h.saves| > 0
    ensures var t, matched := Guessed(h, at, guess), guess == h.box.code.value.digits;
            && t.checks == h.checks + [Check(at, |h.saves| - 1, matched)]
            && t == h.(box := t.box, checks := t.checks)
            && t.box == if matched then h.box.(user := Some(h.box.user.value.(active := true)), code := None)
                        else h.box.(code := Some(h.box.code.value.(attempts := h.box.code.value.attempts + 1)))
  {}

  lemma GuessKeepsChecks(h: History, at: int, guess: string)
    requires ChecksAreTimely(h) && AttemptsAreCounted(h) && SavesAreBy(h, at) && ChecksCode(h.box, at)
    ensures var t := Guessed(h, at, guess);
            ChecksAreTimely(t) && AttemptsAreCounted(t)
  {
    GuessIsRecorded(h, at, guess);
    CheckKeepsFive(h.checks, Check(at, |h.saves| - 1, guess == h.box.code.value.digits));
  }

  lemma GuessKeepsInvariant(h: History, address: string, at: int, guess: string)
    requires Invariant(h, address, at) && !Locked(h)
    ensures Invariant(Guessed(h, at, guess), address, at)
  {
    if ChecksCode(h.box, at) {
      GuessIsRecorded(h, at, guess);
      GuessKeepsChecks(h, at, guess);
      assert !Locked(Guessed(h, at, guess));
    } else {
      assert Guessed(h, at, guess) == h;
    }
  }

  lemma EndedKeepsInvariant(h: History, address: string, i: nat, at: int)
    requires Invariant(h, address, at) && i < |h.calls| && !h.calls[i].Saved?
    ensures Invariant(h.(calls := h.calls[i := Ended]), address, at)
  {
    StillLocked(h, h.(calls := h.calls[i := Ended]), i, Ended);
  }

  lemma RecordKeepsInvariant(h: History, address: string, e: Event)
    requires Invariant(h, address, e.at)
    ensures Invariant(Record(h, address, e), address, e.at)
  {
    match e
    case StartClaims(at, name, password, drawn) => MailKeepsInvariant(h, address, at, Starting(name, password, drawn));
    case ResendClaims(at, drawn) =>
      if !Locked(h) && ResendAsks(h.box) {
        MailKeepsInvariant(h, address, at, if ActiveIn(h.box) then Ended else Resending(drawn));
      }
    case Saves(at, i) =>
      if i < |h.calls| {
        match h.calls[i]
        case Starting(name, password, drawn) =>
          if !Locked(h) {
            if ActiveIn(h.box) {
              EndedKeepsInvariant(h, address, i, at);
            } else {
              SaveKeepsInvariant(h, address, i, at, StartBlock(h.box, name, password, drawn, at), drawn);
            }
          }
        case Resending(drawn) =>
          assert Locked(h);
          SaveKeepsInvariant(h, address, i, at, h.box.(code := SavedCode(drawn, at)), drawn);
        case _ =>
      }
    case Confirm(at, guess) =>
      if !Locked(h) {
        GuessKeepsInvariant(h, address, at, guess);
      }
  }

  lemma NextKeepsInvariant(h: History, address: string, e: Event, now: int)
    requires Invariant(h, address, e.at) && e.at <= now
    ensures Invariant(Record(h, address, e), address, now)
  {
    RecordKeepsInvariant(h, address, e);
    var t := Record(h, address, e);
    TimePasses(t.box.cache, address, t.sends, t.slots, e.at, now);
  }

  /** All happened by then. */
  ghost predicate By(events: seq<Event>, now: int) {
    forall i :: 0 <= i < |events| ==> HappenedAt(events[i]) <= now
  }

  lemma PrefixIsBy(events: seq<Event>)
    requires events != [] && Chronological(events, HappenedAt)
    ensures By(events[..|events| - 1], events[|events| - 1].at)
  {
    PrefixIsChronological(events, HappenedAt);
  }

  lemma NoMailYet(h: History, address: string, now: int)
    requires h.box.cache == map[] && h.sends == [] && h.slots == []
    ensures MailIsRepresented(h, address, now)
  {}

  lemma NoCodeYet(h: History)
    requires h.box.code == None && h.saves == [] && h.checks == []
    ensures ChecksAreTimely(h) && AttemptsAreCounted(h)
  {
    forall g: nat ensures ChecksOf(h.checks, g) == 0 {}
  }

  lemma NoCallYet(h: History)
    requires h.calls == [] && h.sends == [] && h.saves == []
    ensures SavesAreCalls(h) && !Locked(h)
  {}

  lemma NothingYet(address: string, user: Option<User>, now: int)
    ensures Invariant(Tell(address, user, []), address, now)
  {
    var h := Tell(address, user, []);
    NoMailYet(h, address, now);
    NoCodeYet(h);
    NoCallYet(h);
  }

  lemma {:induction false} TellKeepsInvariant(address: string, user: Option<User>, events: seq<Event>, now: int)
    requires Chronological(events, HappenedAt) && By(events, now)
    ensures Invariant(Tell(address, user, events), address, now)
  {
    if events == [] {
      NothingYet(address, user, now);
    } else {
      var n := |events| - 1;
      PrefixIsChronological(events, HappenedAt);
      PrefixIsBy(events);
      TellKeepsInvariant(address, user, events[..n], events[n].at);
      assert HappenedAt(events[n]) <= now;
      NextKeepsInvariant(Tell(address, user, events[..n]), address, events[n], now);
    }
  }

  function LastAt(events: seq<Event>): int {
    if events == [] then 0 else events[|events| - 1].at
  }

  // ---------------------------------------------------------------- codes and checks in a day

  predicate LiveInDay(h: History, g: nat, from: int)
    requires g < |h.saves|
  {
    h.saves[g].at < from + MAIL_DAY_SECONDS && from < h.saves[g].at + CODE_TTL
  }

  /** `live` lists, in order, saved codes that are live at some moment of the 24 hours from `from`. */
  ghost predicate AllLive(h: History, live: seq<nat>, from: int) {
    && (forall j, k :: 0 <= j < k < |live| ==> live[j] < live[k])
    && forall k :: 0 <= k < |live| ==> live[k] < |h.saves| && LiveInDay(h, live[k], from)
  }

  /** No code was saved more than `delay` after its call's claim. */
  ghost predicate SavesWithin(h: History, delay: nat) {
    forall g :: 0 <= g < |h.saves| ==>
      h.saves[g].call < |h.sends| && h.saves[g].at <= h.sends[h.saves[g].call] + delay
  }

  /** Eleven, and one more for each ten minutes of delay begun. */
  function MaxLive(delay: nat): nat {
    MAIL_DAY_MAX + 1 + (delay + MAIL_GAP_SECONDS - 1) / MAIL_GAP_SECONDS
  }

  lemma {:induction false} SpacedFar(times: seq<int>, i: nat, j: nat)
    requires Spaced(times) && i <= j < |times|
    ensures times[i] + MAIL_GAP_SECONDS * (j - i) <= times[j]
    decreases j
  {
    if i < j {
      SpacedFar(times, i, j - 1);
    }
  }

  lemma SendsInSpanAreFew(times: seq<int>, i: nat, j: nat, delay: nat)
    requires RateLimited(times) && i < |times| && j < |times|
    requires times[j] < times[i] + MAIL_DAY_SECONDS + CODE_TTL + delay
    ensures j < i + MaxLive(delay)
  {
    if j >= i + MAIL_DAY_MAX {
      assert times[i] + MAIL_DAY_SECONDS <= times[i + MAIL_DAY_MAX];
      SpacedFar(times, i + MAIL_DAY_MAX, j);
    }
  }

  lemma {:induction false} EarliestOf(ids: seq<nat>) returns (first: nat)
    requires ids != []
    ensures first in ids && forall k :: 0 <= k < |ids| ==> first <= ids[k]
  {
    if |ids| == 1 {
      first := ids[0];
    } else {
      first := EarliestOf(ids[..|ids| - 1]);
      if ids[|ids| - 1] < first {
        first := ids[|ids| - 1];
      }
      assert forall k :: 0 <= k < |ids| - 1 ==> ids[k] == ids[..|ids| - 1][k];
    }
  }

  /** A call that saved a live code claimed its mail in a span of a day, ten minutes and the delay. */
  lemma LiveCallsAreClose(h: History, g: nat, k: nat, from: int, delay: nat)
    requires SavesAreCalls(h) && RateLimited(h.sends) && SavesWithin(h, delay)
    requires g < |h.saves| && k < |h.saves| && LiveInDay(h, g, from) && LiveInDay(h, k, from)
    ensures h.saves[k].call < h.saves[g].call + MaxLive(delay)
  {
    SendsInSpanAreFew(h.sends, h.saves[g].call, h.saves[k].call, delay);
  }

  lemma DistinctInSpan(ids: seq<nat>, first: nat, n: nat)
    requires forall k :: 0 <= k < |ids| ==> first <= ids[k] < first + n
    requires forall j, k :: 0 <= j < k < |ids| ==> ids[j] != ids[k]
    ensures |ids| <= n
  {
    var shifted: seq<nat> := seq(|ids|, k requires 0 <= k < |ids| => ids[k] - first);
    DistinctBelow(shifted, n);
  }

  lemma LiveCodesOfHistory(h: History, live: seq<nat>, from: int, delay: nat)
    requires SavesAreCalls(h) && RateLimited(h.sends) && SavesWithin(h, delay) && AllLive(h, live, from)
    ensures |live| <= MaxLive(delay)
  {
    if live != [] {
      var ids := seq(|live|, k requires 0 <= k < |live| => h.saves[live[k]].call);
      var first := EarliestOf(ids);
      var f :| 0 <= f < |ids| && ids[f] == first;
      forall k | 0 <= k < |ids| ensures first <= ids[k] < first + MaxLive(delay) {
        LiveCallsAreClose(h, live[f], live[k], from, delay);
      }
      DistinctInSpan(ids, first, MaxLive(delay));
    }
  }

  /**
   * Over any run whose codes are saved at most `delay` after their claims, the codes live at some moment of
   * a 24-hour window: eleven without delay, twelve within ten minutes.
   */
  lemma LiveCodesInADay(address: string, user: Option<User>, events: seq<Event>, delay: nat, live: seq<nat>, from: int)
    requires Chronological(events, HappenedAt)
    requires SavesWithin(Tell(address, user, events), delay)
    requires AllLive(Tell(address, user, events), live, from)
    ensures |live| <= MaxLive(delay)
    ensures delay == 0 ==> |live| <= 11
    ensures delay <= 600 ==> |live| <= 12
  {
    TellKeepsInvariant(address, user, events, LastAt(events));
    LiveCodesOfHistory(Tell(address, user, events), live, from, delay);
    ShortDelays(delay);
  }

  function ChecksInRange(checks: seq<Check>, lo: nat, hi: nat): nat {
    if checks == [] then 0
    else ChecksInRange(checks[..|checks| - 1], lo, hi) +
         (if lo <= checks[|checks| - 1].generation < hi then 1 else 0)
  }

  lemma {:induction false} RangeIsSumOfCodes(checks: seq<Check>, lo: nat, hi: nat)
    requires lo < hi
    ensures ChecksInRange(checks, lo, hi) == ChecksInRange(checks, lo, hi - 1) + ChecksOf(checks, hi - 1)
    ensures ChecksInRange(checks, lo, lo) == 0
  {
    if checks != [] {
      RangeIsSumOfCodes(checks[..|checks| - 1], lo, hi);
    }
  }

  lemma {:induction false} FivePerCode(checks: seq<Check>, lo: nat, hi: nat)
    requires lo <= hi && forall g: nat :: ChecksOf(checks, g) <= MAX_ATTEMPTS
    ensures ChecksInRange(checks, lo, hi) <= MAX_ATTEMPTS * (hi - lo)
    decreases hi
  {
    if lo < hi {
      RangeIsSumOfCodes(checks, lo, hi);
      FivePerCode(checks, lo, hi - 1);
    } else {
      RangeIsSumOfCodes(checks, lo, lo + 1);
    }
  }

  lemma {:induction false} DayWithinRange(checks: seq<Check>, from: int, lo: nat, hi: nat)
    requires forall i :: 0 <= i < |checks| && from <= checks[i].at < from + MAIL_DAY_SECONDS ==>
               lo <= checks[i].generation < hi
    ensures ChecksInDay(checks, from) <= ChecksInRange(checks, lo, hi)
  {
    if checks != [] {
      DayWithinRange(checks[..|checks| - 1], from, lo, hi);
    }
  }

  lemma {:induction false} FirstLiveCode(h: History, from: int, g: nat) returns (lo: nat)
    requires g <= |h.saves|
    requires forall k: nat :: k < g ==> !LiveInDay(h, k, from)
    ensures lo <= |h.saves| && forall k: nat :: k < lo ==> !LiveInDay(h, k, from)
    ensures lo < |h.saves| ==> LiveInDay(h, lo, from)
    decreases |h.saves| - g
  {
    if g < |h.saves| && !LiveInDay(h, g, from) {
      lo := FirstLiveCode(h, from, g + 1);
    } else {
      lo := g;
    }
  }

  /** Codes between two live ones are live, as saves are in order. */
  lemma LiveRange(h: History, lo: nat, g: nat, from: int, delay: nat)
    requires SavesAreCalls(h) && RateLimited(h.sends) && SavesWithin(h, delay)
    requires lo <= g < |h.saves| && LiveInDay(h, lo, from) && LiveInDay(h, g, from)
    ensures g < lo + MaxLive(delay)
  {
    var live: seq<nat> := seq(g + 1 - lo, k requires 0 <= k < g + 1 - lo => lo + k);
    forall k | 0 <= k < |live| ensures LiveInDay(h, live[k], from) {
      assert h.saves[lo].at <= h.saves[live[k]].at <= h.saves[g].at;
    }
    LiveCodesOfHistory(h, live, from, delay);
  }

  lemma ChecksOfHistory(h: History, from: int, delay: nat)
    requires SavesAreCalls(h) && RateLimited(h.sends) && SavesWithin(h, delay)
    requires ChecksAreTimely(h) && AttemptsAreCounted(h)
    ensures ChecksInDay(h.checks, from) <= MAX_ATTEMPTS * MaxLive(delay)
  {
    var lo := FirstLiveCode(h, from, 0);
    var hi := lo + MaxLive(delay);
    forall i | 0 <= i < |h.checks| && from <= h.checks[i].at < from + MAIL_DAY_SECONDS
      ensures lo <= h.checks[i].generation < hi
    {
      var g := h.checks[i].generation;
      assert LiveInDay(h, g, from);
      assert lo <= g;
      LiveRange(h, lo, g, from, delay);
    }
    DayWithinRange(h.checks, from, lo, hi);
    FivePerCode(h.checks, lo, hi);
  }

  /**
   * Over any run whose codes are saved at most `delay` after their claims, the guesses compared with a code
   * in any 24 hours: 55 without delay, 60 within ten minutes.
   */
  lemma ChecksInADay(address: string, user: Option<User>, events: seq<Event>, delay: nat, from: int)
    requires Chronological(events, HappenedAt)
    requires SavesWithin(Tell(address, user, events), delay)
    ensures var checks := ChecksInDay(Tell(address, user, events).checks, from);
            checks <= MAX_ATTEMPTS * MaxLive(delay) && (delay == 0 ==> checks <= 55) && (delay <= 600 ==> checks <= 60)
  {
    var h := Tell(address, user, events);
    TellKeepsInvariant(address, user, events, LastAt(events));
    ChecksOfHistory(h, from, delay);
    ShortDelays(delay);
  }

  lemma ShortDelays(delay: nat)
    ensures delay == 0 ==> MaxLive(delay) == 11
    ensures delay <= 600 ==> MaxLive(delay) <= 12
  {}

  // ---------------------------------------------------------------- sixty checks in a day

  /** The history can be reached by events up to that instant. */
  ghost predicate Reaches(address: string, h: History, now: int) {
    exists events :: ReachedBy(address, h, now, events)
  }

  ghost predicate ReachedBy(address: string, h: History, now: int, events: seq<Event>) {
    Chronological(events, HappenedAt) && By(events, now) && Tell(address, None, events) == h
  }

  lemma ReachesRecord(address: string, h: History, now: int, e: Event)
    requires Reaches(address, h, now) && now <= e.at
    ensures Reaches(address, Record(h, address, e), e.at)
  {
    var events :| ReachedBy(address, h, now, events);
    var longer := events + [e];
    assert longer[..|events|] == events;
    assert Tell(address, None, longer) == Record(h, address, e);
    assert Chronological(longer, HappenedAt) by {
      forall i, j | 0 <= i <= j < |longer| ensures HappenedAt(longer[i]) <= HappenedAt(longer[j]) {
        assert i < |events| ==> HappenedAt(events[i]) <= now;
      }
    }
    assert By(longer, e.at) by {
      forall i | 0 <= i < |longer| ensures HappenedAt(longer[i]) <= e.at {
        assert i < |events| ==> HappenedAt(events[i]) <= now;
      }
    }
    assert ReachedBy(address, Record(h, address, e), e.at, longer);
  }

  /** Ten minutes after the last send and a day after the tenth last, another is allowed. */
  lemma AllowedIfSpaced(times: seq<int>, now: int)
    requires Spaced(times)
    requires times != [] ==> times[|times| - 1] + MAIL_GAP_SECONDS <= now
    requires |times| >= MAIL_DAY_MAX ==> times[|times| - MAIL_DAY_MAX] + MAIL_DAY_SECONDS <= now
    ensures Allowed(times, now)
  {
    RecentIsSuffix(times, now - MAIL_DAY_SECONDS);
    RecentIsSuffix(times, now - MAIL_GAP_SECONDS);
  }

  lemma ReachesClaim(address: string, h: History, now: int, at: int, drawn: string)
    requires Reaches(address, h, now) && now <= at && Allowed(h.sends, at)
    ensures var t := Record(h, address, StartClaims(at, "n", "p", drawn));
            && Reaches(address, t, at)
            && t == h.(box := t.box, sends := h.sends + [at], slots := t.slots, calls := h.calls + [Starting("n", "p", drawn)])
            && t.box == h.box.(cache := t.box.cache)
  {
    var events :| ReachedBy(address, h, now, events);
    TellKeepsInvariant(address, None, events, now);
    TimePasses(h.box.cache, address, h.sends, h.slots, now, at);
    ClaimAnswersRule(h.box.cache, address, h.sends, h.slots, at);
    ReachesRecord(address, h, now, StartClaims(at, "n", "p", drawn));
  }

  /** `n` wrong guesses at one instant, from a code that nobody has guessed at yet. */
  lemma {:induction false} ReachesGuesses(address: string, h: History, now: int, at: int, n: nat) returns (t: History)
    requires Reaches(address, h, now) && now <= at && n <= MAX_ATTEMPTS && !Locked(h)
    requires Pending(h.box) && h.box.code.Some? && |h.saves| > 0
    requires h.box.code.value.digits == "1" && h.box.code.value.attempts == 0 && at < h.box.code.value.expiresAt
    ensures Reaches(address, t, at) && t == h.(box := t.box, checks := t.checks)
    ensures t.box == h.box.(code := Some(h.box.code.value.(attempts := n)))
    ensures 601 <= at < 601 + MAIL_DAY_SECONDS ==> ChecksInDay(t.checks, 601) == ChecksInDay(h.checks, 601) + n
  {
    if n == 0 {
      var events :| ReachedBy(address, h, now, events);
      assert ReachedBy(address, h, at, events);
      t := h;
    } else {
      var s := ReachesGuesses(address, h, now, at, n - 1);
      assert !Locked(s);
      GuessIsRecorded(s, at, "0");
      ReachesRecord(address, s, at, Confirm(at, "0"));
      t := Record(s, address, Confirm(at, "0"));
      assert t.checks[..|s.checks|] == s.checks;
    }
  }

  /** When the twelve mails are claimed: ten minutes apart, and two more from a day later on. */
  function ClaimTime(r: nat): int {
    if r < MAIL_DAY_MAX then MAIL_GAP_SECONDS * r
    else MAIL_DAY_SECONDS + MAIL_GAP_SECONDS * (r - MAIL_DAY_MAX)
  }

  /** `r` mails were claimed and their codes saved within two seconds; the checks made fall into the day from 601. */
  ghost predicate Round(h: History, r: nat, checked: nat) {
    && |h.sends| == |h.calls| == |h.saves| == r
    && (forall i :: 0 <= i < r ==> h.sends[i] == ClaimTime(i) && h.calls[i].Saved? && h.saves[i].call == i)
    && (forall i :: 0 <= i < r ==> h.saves[i].at <= ClaimTime(i) + 2)
    && ChecksInDay(h.checks, 601) == checked
    && (h.box.user.Some? ==> !h.box.user.value.active)
  }

  lemma NextClaimIsAllowed(h: History, r: nat, checked: nat)
    requires Round(h, r, checked) && r < 12
    ensures Allowed(h.sends, ClaimTime(r))
  {
    AllowedIfSpaced(h.sends, ClaimTime(r));
  }

  lemma ReachesSave(address: string, h: History, now: int, at: int) returns (t: History)
    requires Reaches(address, h, now) && now <= at && !Locked(h) && !ActiveIn(h.box)
    requires h.calls != [] && h.calls[|h.calls| - 1] == Starting("n", "p", "1")
    ensures Reaches(address, t, at)
    ensures t == SavedBy(h, |h.calls| - 1, at, h.box.(user := Some(User("n", "p", false)), code := SavedCode("1", at)))
  {
    ReachesRecord(address, h, now, Saves(at, |h.calls| - 1));
    t := Record(h, address, Saves(at, |h.calls| - 1));
  }

  /** `s` is `h` after one more claim, and `t` is `s` after its save; `checked` counts the guesses up to then. */
  lemma SaveEndsRound(h: History, s: History, t: History, r: nat, checked: nat, more: nat, savedAt: int)
    requires Round(h, r, checked) && savedAt <= ClaimTime(r) + 2
    requires s.sends == h.sends + [ClaimTime(r)] && s.calls == h.calls + [Starting("n", "p", "1")] && s.saves == h.saves
    requires t.sends == s.sends && t.calls == s.calls[r := Saved] && t.saves == s.saves + [Save(r, savedAt)]
    requires ChecksInDay(t.checks, 601) == checked + more && Pending(t.box)
    ensures Round(t, r + 1, checked + more) && !Locked(t)
  {
    forall i | 0 <= i < r + 1
      ensures t.sends[i] == ClaimTime(i) && t.calls[i].Saved? && t.saves[i].call == i && t.saves[i].at <= ClaimTime(i) + 2
    {
      assert i < r ==> t.sends[i] == h.sends[i] && t.calls[i] == h.calls[i] && t.saves[i] == h.saves[i];
    }
  }

  lemma RoundClaims(address: string, h: History, r: nat, checked: nat, now: int) returns (s: History)
    requires Reaches(address, h, now) && Round(h, r, checked) && r < 12 && now <= ClaimTime(r)
    ensures Reaches(address, s, ClaimTime(r)) && !Locked(s)
    ensures s.sends == h.sends + [ClaimTime(r)] && s.calls == h.calls + [Starting("n", "p", "1")]
    ensures s.saves == h.saves && s.checks == h.checks && s.box.user == h.box.user && s.box.code == h.box.code
  {
    NextClaimIsAllowed(h, r, checked);
    ReachesClaim(address, h, now, ClaimTime(r), "1");
    s := Record(h, address, StartClaims(ClaimTime(r), "n", "p", "1"));
  }

  lemma ClaimAndSave(address: string, h: History, r: nat, checked: nat, now: int, savedAt: int) returns (t: History)
    requires Reaches(address, h, now) && Round(h, r, checked) && r < 12
    requires now <= ClaimTime(r) <= savedAt <= ClaimTime(r) + 2
    ensures Reaches(address, t, savedAt) && Round(t, r + 1, checked) && !Locked(t)
    ensures Pending(t.box) && t.box.code == SavedCode("1", savedAt)
  {
    var s := RoundClaims(address, h, r, checked, now);
    t := ReachesSave(address, s, ClaimTime(r), savedAt);
    SaveEndsRound(h, s, t, r, checked, 0, savedAt);
  }

  function RoundEnd(r: nat): int {
    if r <= 2 then 602 else ClaimTime(r - 1)
  }

  lemma FiveGuesses(address: string, h: History, r: nat, checked: nat, now: int, at: int) returns (t: History)
    requires Reaches(address, h, now) && now <= at && Round(h, r, checked) && r > 0 && !Locked(h)
    requires Pending(h.box) && h.box.code == SavedCode("1", now) && at < now + CODE_TTL
    requires 601 <= at < 601 + MAIL_DAY_SECONDS
    ensures Reaches(address, t, at) && Round(t, r, checked + 5)
  {
    t := ReachesGuesses(address, h, now, at, 5);
  }

  lemma RoundTimes(r: nat) returns (at: int)
    requires 2 <= r < 12
    ensures at == ClaimTime(r) == RoundEnd(r + 1) && RoundEnd(r) <= at && 601 <= at < 601 + MAIL_DAY_SECONDS
  {
    at := ClaimTime(r);
  }

  /** From the third mail on, each is claimed, saved and guessed at five times at one instant. */
  lemma NextRound(address: string, s: History, r: nat) returns (h: History)
    requires 2 <= r < 12 && Reaches(address, s, RoundEnd(r)) && Round(s, r, 5 * r)
    ensures Reaches(address, h, RoundEnd(r + 1)) && Round(h, r + 1, 5 * r + 5)
  {
    var at := RoundTimes(r);
    var saved := ClaimAndSave(address, s, r, 5 * r, RoundEnd(r), at);
    h := FiveGuesses(address, saved, r + 1, 5 * r, at, at);
  }

  lemma {:induction false} Rounds(address: string, r: nat) returns (h: History)
    requires 2 <= r <= 12
    ensures Reaches(address, h, RoundEnd(r)) && Round(h, r, 5 * r)
  {
    if r == 2 {
      h := FirstTwoRounds(address);
    } else {
      var s := Rounds(address, r - 1);
      h := NextRound(address, s, r - 1);
    }
  }

  /**
   * The first code is saved at 2 and checked at 601; the second mail is claimed at 600 already, but its
   * code is saved at 602.
   */
  lemma FirstTwoRounds(address: string) returns (h: History)
    ensures Reaches(address, h, 602) && Round(h, 2, 10)
  {
    var one := FirstSave(address);
    var claimed := RoundClaims(address, one, 1, 0, 2);
    var guessed := ReachesGuesses(address, claimed, 600, 601, 5);
    var two := ReachesSave(address, guessed, 601, 602);
    SaveEndsRound(one, claimed, two, 1, 0, 5, 602);
    h := FiveGuesses(address, two, 2, 5, 602, 602);
  }

  lemma FirstSave(address: string) returns (h: History)
    ensures Reaches(address, h, 2) && Round(h, 1, 0) && Pending(h.box) && h.box.code == SavedCode("1", 2)
  {
    var empty := Tell(address, None, []);
    assert ReachedBy(address, empty, 0, []);
    h := ClaimAndSave(address, empty, 0, 0, 0, 2);
  }

  /** The bound of 55 fails as soon as a code may be saved two seconds after its claim. */
  lemma SixtyChecksInADay(address: string)
    ensures exists events :: var h := Tell(address, None, events);
                             Chronological(events, HappenedAt) && SavesWithin(h, 2) && ChecksInDay(h.checks, 601) == 60
  {
    var h := Rounds(address, 12);
    var events :| ReachedBy(address, h, ClaimTime(11), events);
    assert SavesWithin(h, 2);
  }

  // ---------------------------------------------------------------- activation

  function Matches(checks: seq<Check>): nat {
    if checks == [] then 0
    else Matches(checks[..|checks| - 1]) + (if checks[|checks| - 1].matched then 1 else 0)
  }

  /** The last check matched the latest saved code before it expired. */
  ghost predicate ActivatedByLatestCode(h: History) {
    && |h.checks| > 0
    && var last := h.checks[|h.checks| - 1];
       && last.matched
       && last.generation < |h.saves| && last.generation == |h.saves| - 1
       && last.at < h.saves[last.generation].at + CODE_TTL
  }

  ghost predicate ActivationIsEarned(h: History) {
    && Matches(h.checks) == (if ActiveIn(h.box) then 1 else 0)
    && (ActiveIn(h.box) ==> ActivatedByLatestCode(h))
  }

  lemma GuessActivates(h: History, at: int, guess: string)
    requires AttemptsAreCounted(h) && ActivationIsEarned(h) && ChecksCode(h.box, at)
    ensures ActivationIsEarned(Guessed(h, at, guess))
  {
    GuessIsRecorded(h, at, guess);
    var t := Guessed(h, at, guess);
    assert t.checks[..|h.checks|] == h.checks;
  }

  /** An event that is no compared guess changes neither who is active nor, once active, the latest code. */
  lemma OtherEventKeepsActivation(h: History, address: string, e: Event)
    requires Locked(h) ==> Pending(h.box)
    requires !(e.Confirm? && !Locked(h) && ChecksCode(h.box, e.at))
    ensures var t := Record(h, address, e);
            && t.checks == h.checks && (ActiveIn(t.box) <==> ActiveIn(h.box))
            && (ActiveIn(h.box) ==> t.saves == h.saves)
  {
    if e.Saves? && e.call < |h.calls| && h.calls[e.call].Resending? {
      assert Locked(h);
    }
  }

  lemma RecordActivates(h: History, address: string, e: Event)
    requires AttemptsAreCounted(h) && ActivationIsEarned(h) && (Locked(h) ==> Pending(h.box))
    ensures ActivationIsEarned(Record(h, address, e))
  {
    if e.Confirm? && !Locked(h) && ChecksCode(h.box, e.at) {
      GuessActivates(h, e.at, e.guess);
    } else {
      OtherEventKeepsActivation(h, address, e);
    }
  }

  /**
   * Over any run of an address that is not active to begin with, the user ends active exactly when one
   * check matched; no second one ever does, and the one that did was against the latest saved code,
   * before it expired.
   */
  lemma {:induction false} ActivatesAtMostOnce(address: string, user: Option<User>, events: seq<Event>)
    requires Chronological(events, HappenedAt) && (user.Some? ==> !user.value.active)
    ensures var h := Tell(address, user, events);
            && Matches(h.checks) == (if ActiveIn(h.box) then 1 else 0)
            && (ActiveIn(h.box) ==> ActivatedByLatestCode(h))
  {
    if events != [] {
      var n := |events| - 1;
      PrefixIsChronological(events, HappenedAt);
      PrefixIsBy(events);
      TellKeepsInvariant(address, user, events[..n], events[n].at);
      ActivatesAtMostOnce(address, user, events[..n]);
      RecordActivates(Tell(address, user, events[..n]), address, events[n]);
    }
  }

  lemma ActiveUserStays(h: History, address: string, e: Event)
    requires ActiveIn(h.box)
    ensures Record(h, address, e).box.user == h.box.user
  {
    match e
    case StartClaims(at, name, password, drawn) => MailAddsACall(h, address, at, Starting(name, password, drawn));
    case ResendClaims(at, drawn) => MailAddsACall(h, address, at, Ended);
    case _ =>
  }

  /** Once active, an address's user is never overwritten, whoever starts a signup for it again. */
  lemma {:induction false} ActiveUserIsNeverOverwritten(address: string, user: Option<User>, events: seq<Event>, i: nat)
    requires i <= |events| && ActiveIn(Tell(address, user, events[..i]).box)
    ensures Tell(address, user, events).box.user == Tell(address, user, events[..i]).box.user
  {
    if i == |events| {
      assert events[..i] == events;
    } else {
      assert events[..|events| - 1][..i] == events[..i];
      ActiveUserIsNeverOverwritten(address, user, events[..|events| - 1], i);
      ActiveUserStays(Tell(address, user, events[..|events| - 1]), address, events[|events| - 1]);
    }
  }

  // ---------------------------------------------------------------- the mailed code is the one that counts

  /** The history when the first `k` events have happened. */
  function Told(address: string, user: Option<User>, events: seq<Event>, k: nat): History
    requires k <= |events|
  {
    Tell(address, user, events[..k])
  }

  lemma ToldNext(address: string, user: Option<User>, events: seq<Event>, k: nat)
    requires k < |events|
    ensures Told(address, user, events, k + 1) == Record(Told(address, user, events, k), address, events[k])
  {
    assert events[..k + 1][..k] == events[..k];
  }

  /** Event `m` opened call `c`: its mail was granted. */
  ghost predicate Opens(address: string, user: Option<User>, events: seq<Event>, m: nat, c: nat)
    requires m < |events|
  {
    |Told(address, user, events, m).calls| == c && |Told(address, user, events, m + 1).calls| == c + 1
  }

  /** Event `n` saved the code of call `c`. */
  ghost predicate SavesCode(address: string, user: Option<User>, events: seq<Event>, n: nat, c: nat)
    requires n < |events|
  {
    && events[n].Saves? && events[n].call == c
    && |Told(address, user, events, n + 1).saves| == |Told(address, user, events, n).saves| + 1
  }

  lemma OpenedCall(h: History, address: string, e: Event)
    requires |Record(h, address, e).calls| == |h.calls| + 1
    ensures e.StartClaims? || e.ResendClaims?
    ensures var call := Record(h, address, e).calls[|h.calls|];
            call == (match e
                     case StartClaims(_, name, password, drawn) => Starting(name, password, drawn)
                     case _ => if ActiveIn(h.box) then Ended else Resending(e.drawn))
  {
    match e
    case StartClaims(at, name, password, drawn) => MailAddsACall(h, address, at, Starting(name, password, drawn));
    case ResendClaims(at, drawn) => MailAddsACall(h, address, at, if ActiveIn(h.box) then Ended else Resending(drawn));
    case _ =>
  }

  lemma CallStaysOrEnds(h: History, address: string, e: Event, c: nat)
    requires c < |h.calls|
    ensures var t := Record(h, address, e);
            c < |t.calls| && (t.calls[c] == h.calls[c] || t.calls[c].Saved? || t.calls[c].Ended?)
  {
    match e
    case StartClaims(at, name, password, drawn) => MailAddsACall(h, address, at, Starting(name, password, drawn));
    case ResendClaims(at, drawn) => MailAddsACall(h, address, at, if ActiveIn(h.box) then Ended else Resending(drawn));
    case _ =>
  }

  /** The call is done, or still what the event asked for. */
  ghost predicate DoneOrAskedBy(call: Call, e: Event) {
    || call.Saved? || call.Ended?
    || (e.StartClaims? && call == Starting(e.name, e.password, e.drawn))
    || (e.ResendClaims? && call == Resending(e.drawn))
  }

  lemma OpenedAsAsked(h: History, address: string, e: Event)
    requires |Record(h, address, e).calls| == |h.calls| + 1
    ensures DoneOrAskedBy(Record(h, address, e).calls[|h.calls|], e)
  {
    OpenedCall(h, address, e);
  }

  lemma StaysAsAsked(h: History, address: string, e: Event, c: nat, asked: Event)
    requires c < |h.calls| && DoneOrAskedBy(h.calls[c], asked)
    ensures c < |Record(h, address, e).calls| && DoneOrAskedBy(Record(h, address, e).calls[c], asked)
  {
    CallStaysOrEnds(h, address, e, c);
  }

  /** Until it is saved or given up, call `c` is the one that event `m` asked for. */
  lemma {:induction false} CallKeepsItsRequest(address: string, user: Option<User>, events: seq<Event>, m: nat, k: nat, c: nat)
    requires m < k <= |events| && Opens(address, user, events, m, c)
    ensures c < |Told(address, user, events, k).calls|
    ensures DoneOrAskedBy(Told(address, user, events, k).calls[c], events[m])
    decreases k
  {
    if k == m + 1 {
      CallIsOpened(address, user, events, m, c);
    } else {
      CallKeepsItsRequest(address, user, events, m, k - 1, c);
      CallGoesOn(address, user, events, k - 1, c, events[m]);
    }
  }

  lemma CallIsOpened(address: string, user: Option<User>, events: seq<Event>, m: nat, c: nat)
    requires m < |events| && Opens(address, user, events, m, c)
    ensures DoneOrAskedBy(Told(address, user, events, m + 1).calls[c], events[m])
  {
    ToldNext(address, user, events, m);
    OpenedAsAsked(Told(address, user, events, m), address, events[m]);
  }

  lemma CallGoesOn(address: string, user: Option<User>, events: seq<Event>, k: nat, c: nat, asked: Event)
    requires k < |events| && c < |Told(address, user, events, k).calls|
    requires DoneOrAskedBy(Told(address, user, events, k).calls[c], asked)
    ensures c < |Told(address, user, events, k + 1).calls|
    ensures DoneOrAskedBy(Told(address, user, events, k + 1).calls[c], asked)
  {
    ToldNext(address, user, events, k);
    StaysAsAsked(Told(address, user, events, k), address, events[k], c, asked);
  }

  /** What a save stores, and when it happens at all. */
  lemma SaveStoresTheRequest(h: History, address: string, at: int, c: nat)
    ensures var t := Record(h, address, Saves(at, c));
            && (|t.saves| == |h.saves| + 1 <==>
                  c < |h.calls| && (h.calls[c].Resending? || (h.calls[c].Starting? && !Locked(h) && !ActiveIn(h.box))))
            && t.checks == h.checks
            && (|t.saves| == |h.saves| + 1 ==>
                  && t.saves == h.saves + [Save(c, at)]
                  && t.box.code == Some(Code(h.calls[c].drawn, at + 600, 0))
                  && t.box.user == if h.calls[c].Starting? then Some(User(h.calls[c].name, h.calls[c].password, false)) else h.box.user)
            && (|t.saves| != |h.saves| + 1 ==> t.box == h.box && t.saves == h.saves)
  {}

  lemma Stores(address: string, user: Option<User>, events: seq<Event>, m: nat, n: nat, c: nat)
    requires m < n < |events| && Opens(address, user, events, m, c) && SavesCode(address, user, events, n, c)
    requires Locked(Told(address, user, events, n)) ==> Pending(Told(address, user, events, n).box)
    ensures var t := Told(address, user, events, n + 1);
            && (events[m].StartClaims? || events[m].ResendClaims?)
            && t.box.code == Some(Code(events[m].drawn, events[n].at + 600, 0))
            && |t.saves| > 0 && Pending(t.box)
            && (events[m].StartClaims? ==> t.box.user == Some(User(events[m].name, events[m].password, false)))
  {
    var h := Told(address, user, events, n);
    ToldNext(address, user, events, m);
    OpenedCall(Told(address, user, events, m), address, events[m]);
    CallKeepsItsRequest(address, user, events, m, n, c);
    ToldNext(address, user, events, n);
    SaveStoresTheRequest(h, address, events[n].at, c);
    assert h.calls[c].Resending? ==> Locked(h);
  }

  /** One event that saves no code: it leaves the pending user's code, or counts one guess, or activates. */
  lemma CodeStaysOrCounts(h: History, address: string, e: Event)
    requires Pending(h.box) && h.box.code.Some? && |h.saves| > 0
    requires |Record(h, address, e).saves| == |h.saves|
    ensures var t := Record(h, address, e);
            ActiveIn(t.box) || (
              && Pending(t.box) && |t.checks| >= |h.checks|
              && t.box.code == Some(h.box.code.value.(attempts := h.box.code.value.attempts + (|t.checks| - |h.checks|))))
  {
    match e
    case StartClaims(at, name, password, drawn) => MailAddsACall(h, address, at, Starting(name, password, drawn));
    case ResendClaims(at, drawn) => MailAddsACall(h, address, at, Resending(drawn));
    case _ =>
  }

  lemma SavesOnlyGrow(h: History, address: string, e: Event)
    ensures |h.saves| <= |Record(h, address, e).saves|
    ensures |h.checks| <= |Record(h, address, e).checks|
  {}

  /** `t` comes later than `s`, where `code` was stored; until a save or an activation it is, with the guesses since counted. */
  ghost predicate CodeSince(s: History, t: History, code: Code) {
    && |s.saves| <= |t.saves| && |s.checks| <= |t.checks|
    && (|t.saves| == |s.saves| && !ActiveIn(t.box) ==>
          Pending(t.box) && t.box.code == Some(code.(attempts := code.attempts + (|t.checks| - |s.checks|))))
  }

  lemma CodeSinceGoesOn(s: History, t: History, code: Code, address: string, e: Event)
    requires CodeSince(s, t, code) && |s.saves| > 0
    ensures CodeSince(s, Record(t, address, e), code)
  {
    SavesOnlyGrow(t, address, e);
    if ActiveIn(t.box) {
      ActiveUserStays(t, address, e);
    } else if |Record(t, address, e).saves| == |s.saves| {
      CodeStaysOrCounts(t, address, e);
    }
  }

  /** From its save to the next one, the code is the drawn one, with the guesses since then counted. */
  lemma {:induction false} CodeUntilNextSave(address: string, user: Option<User>, events: seq<Event>, n: nat, k: nat, code: Code)
    requires n < k <= |events|
    requires var s := Told(address, user, events, n + 1); Pending(s.box) && s.box.code == Some(code) && |s.saves| > 0
    ensures CodeSince(Told(address, user, events, n + 1), Told(address, user, events, k), code)
    decreases k
  {
    if k > n + 1 {
      CodeUntilNextSave(address, user, events, n, k - 1, code);
      CodeSinceGoesOn(Told(address, user, events, n + 1), Told(address, user, events, k - 1), code, address, events[k - 1]);
      ToldNext(address, user, events, k - 1);
    }
  }

  /**
   * The mailed code is the one that counts. Event m asked for a code with `drawn`, event n saved it, and no
   * code was saved since: then a confirm activates the user exactly when its guess is that `drawn`, fewer
   * than five guesses were compared since the save, and it comes within 600 seconds of it.
   */
  lemma MailedCodeActivates(address: string, user: Option<User>, events: seq<Event>, m: nat, n: nat, c: nat, now: int, guess: string)
    requires Chronological(events, HappenedAt)
    requires m < n < |events| && Opens(address, user, events, m, c) && SavesCode(address, user, events, n, c)
    requires var h := Tell(address, user, events);
             !ActiveIn(h.box) && !Locked(h) && |h.saves| == |Told(address, user, events, n + 1).saves|
    ensures var h := Tell(address, user, events);
            var compared := |h.checks| - |Told(address, user, events, n + 1).checks|;
            && (events[m].StartClaims? || events[m].ResendClaims?)
            && (ActiveIn(Record(h, address, Confirm(now, guess)).box) <==>
                  guess == events[m].drawn && compared < 5 && now < events[n].at + 600)
  {
    LockedIsPendingAt(address, user, events, n);
    Stores(address, user, events, m, n, c);
    CodeUntilNextSave(address, user, events, n, |events|, Code(events[m].drawn, events[n].at + 600, 0));
    assert events[..|events|] == events;
    ConfirmActivatesIff(Tell(address, user, events), address, now, guess);
  }

  lemma ConfirmActivatesIff(h: History, address: string, now: int, guess: string)
    requires !Locked(h) && Pending(h.box) && h.box.code.Some?
    ensures var code := h.box.code.value;
            ActiveIn(Record(h, address, Confirm(now, guess)).box) <==>
              guess == code.digits && code.attempts < 5 && now < code.expiresAt
  {}

  lemma LockedIsPendingAt(address: string, user: Option<User>, events: seq<Event>, n: nat)
    requires Chronological(events, HappenedAt) && n < |events|
    ensures Locked(Told(address, user, events, n)) ==> Pending(Told(address, user, events, n).box)
  {
    assert Chronological(events[..n], HappenedAt) && By(events[..n], events[n].at) by {
      forall i | 0 <= i < n ensures events[..n][i] == events[i] && HappenedAt(events[i]) <= HappenedAt(events[n]) {}
    }
    TellKeepsInvariant(address, user, events[..n], events[n].at);
  }

  lemma UserStaysUnlessAStartSaves(h: History, address: string, e: Event)
    requires h.box.user.Some?
    requires !(e.Saves? && e.call < |h.calls| && h.calls[e.call].Starting? && |Record(h, address, e).saves| > |h.saves|)
    ensures var t := Record(h, address, e);
            && t.box.user.Some?
            && t.box.user.value.name == h.box.user.value.name && t.box.user.value.password == h.box.user.value.password
  {
    match e
    case StartClaims(at, name, password, drawn) => MailAddsACall(h, address, at, Starting(name, password, drawn));
    case ResendClaims(at, drawn) => MailAddsACall(h, address, at, if ActiveIn(h.box) then Ended else Resending(drawn));
    case _ =>
  }

  /** The stored name and password are those of the start that saved last. */
  lemma {:induction false} LastStartNamesTheUser(address: string, user: Option<User>, events: seq<Event>, m: nat, n: nat, c: nat, k: nat)
    requires Chronological(events, HappenedAt)
    requires m < n < k <= |events| && Opens(address, user, events, m, c) && SavesCode(address, user, events, n, c)
    requires events[m].StartClaims?
    requires forall i: nat, d: nat :: n < i < k && SavesCode(address, user, events, i, d) && d < |Told(address, user, events, i).calls| ==>
               !Told(address, user, events, i).calls[d].Starting?
    ensures var stored := Told(address, user, events, k).box.user;
            stored.Some? && stored.value.name == events[m].name && stored.value.password == events[m].password
    decreases k
  {
    if k == n + 1 {
      LockedIsPendingAt(address, user, events, n);
      Stores(address, user, events, m, n, c);
    } else {
      LastStartNamesTheUser(address, user, events, m, n, c, k - 1);
      ToldNext(address, user, events, k - 1);
      var h, e := Told(address, user, events, k - 1), events[k - 1];
      if e.Saves? {
        SaveStoresTheRequest(h, address, e.at, e.call);
        assert |Record(h, address, e).saves| > |h.saves| ==> SavesCode(address, user, events, k - 1, e.call);
      }
      UserStaysUnlessAStartSaves(h, address, e);
    }
  }

  /**
   * A start opens a call exactly when the limiter allows a mail; a resend when moreover the row is free and
   * the user is known and active or has a code. No other event opens one.
   */
  lemma CallsAreOpenedIff(address: string, user: Option<User>, events: seq<Event>, e: Event)
    requires Chronological(events, HappenedAt) && By(events, e.at)
    ensures var h := Tell(address, user, events);
            var t := Record(h, address, e);
            && |t.calls| in {|h.calls|, |h.calls| + 1}
            && (|t.calls| == |h.calls| + 1 <==>
                  && (e.StartClaims? || (e.ResendClaims? && !Locked(h) && h.box.user.Some? && (h.box.user.value.active || h.box.code.Some?)))
                  && Allowed(h.sends, e.at))
            && t.sends == if |t.calls| == |h.calls| + 1 then h.sends + [e.at] else h.sends
  {
    TellKeepsInvariant(address, user, events, e.at);
    RecordOpensIff(Tell(address, user, events), address, e);
  }

  lemma MailOpensIff(h: History, address: string, at: int, call: Call)
    requires MailIsRepresented(h, address, at)
    ensures var t := Mailed(h, address, at, call);
            if Allowed(h.sends, at) then t.calls == h.calls + [call] && t.sends == h.sends + [at]
            else t.calls == h.calls && t.sends == h.sends
  {
    ClaimAnswersRule(h.box.cache, address, h.sends, h.slots, at);
  }

  lemma RecordOpensIff(h: History, address: string, e: Event)
    requires MailIsRepresented(h, address, e.at)
    ensures var t := Record(h, address, e);
            && |t.calls| in {|h.calls|, |h.calls| + 1}
            && (|t.calls| == |h.calls| + 1 <==>
                  && (e.StartClaims? || (e.ResendClaims? && !Locked(h) && h.box.user.Some? && (h.box.user.value.active || h.box.code.Some?)))
                  && Allowed(h.sends, e.at))
            && t.sends == if |t.calls| == |h.calls| + 1 then h.sends + [e.at] else h.sends
  {
    match e
    case StartClaims(at, name, password, drawn) => MailOpensIff(h, address, at, Starting(name, password, drawn));
    case ResendClaims(at, drawn) => MailOpensIff(h, address, at, if ActiveIn(h.box) then Ended else Resending(drawn));
    case _ =>
  }

  /** A guess is compared, and recorded, exactly when the row is free and the pending user's code is open. */
  ghost predicate ComparesOpenCode(h: History, address: string, at: int, guess: string) {
    var t := Record(h, address, Confirm(at, guess));
    && t.saves == h.saves && t.sends == h.sends
    && if !Locked(h) && h.box.user.Some? && !h.box.user.value.active && h.box.code.Some?
          && h.box.code.value.attempts < 5 && at < h.box.code.value.expiresAt
       then |h.saves| > 0 && t.checks == h.checks + [Check(at, |h.saves| - 1, guess == h.box.code.value.digits)]
       else t.checks == h.checks
  }

  lemma GuessIsComparedIff(h: History, address: string, at: int, guess: string)
    requires h.box.code.Some? ==> |h.saves| > 0
    ensures ComparesOpenCode(h, address, at, guess)
  {}

  lemma StoredCodeWasSaved(address: string, user: Option<User>, events: seq<Event>)
    requires Chronological(events, HappenedAt)
    ensures Tell(address, user, events).box.code.Some? ==> |Tell(address, user, events).saves| > 0
  {
    TellKeepsInvariant(address, user, events, LastAt(events));
  }

  /** In every run, each confirm compares its guess exactly with an open code. */
  lemma GuessesAreComparedIff(address: string, user: Option<User>, events: seq<Event>, at: int, guess: string)
    requires Chronological(events, HappenedAt)
    ensures ComparesOpenCode(Tell(address, user, events), address, at, guess)
  {
    StoredCodeWasSaved(address, user, events);
    GuessIsComparedIff(Tell(address, user, events), address, at, guess);
  }
}
