/**
 * Writes to subscription renewal cycles. The model's own methods make prices and identity write-once and
 * a renewed cycle terminal; an upsert and a write through Django's base manager pass by the guards.
 */
module RenewalCycles {
  import opened Wrappers

  type Id = string

  datatype Status = Pending | Renewed | Paused | Failed

  datatype Cycle = Cycle(
    subscription: string, billingDate: int, listPrice: int, netPrice: Option<int>, status: Status, createdAt: int)

  datatype Field = SubscriptionField | DateField | ListField | NetField | StatusField | CreatedField

  const IMMUTABLE: set<Field> := {SubscriptionField, DateField, ListField, NetField, CreatedField}

  type Rows = map<Id, Cycle>

  datatype Outcome = Written | Immutable | ConstraintViolated

  function Overlay(row: Cycle, source: Cycle, fields: set<Field>): Cycle {
    Cycle(
      if SubscriptionField in fields then source.subscription else row.subscription,
      if DateField in fields then source.billingDate else row.billingDate,
      if ListField in fields then source.listPrice else row.listPrice,
      if NetField in fields then source.netPrice else row.netPrice,
      if StatusField in fields then source.status else row.status,
      if CreatedField in fields then source.createdAt else row.createdAt)
  }

  predicate SameIdentity(a: Cycle, b: Cycle) {
    a.subscription == b.subscription && a.billingDate == b.billingDate && a.listPrice == b.listPrice && a.netPrice == b.netPrice
  }

  /** The two unique constraints: one cycle per subscription and date, one unfinished cycle per subscription. */
  predicate ConstraintsHold(rows: Rows) {
    forall a, b :: a in rows && b in rows && a != b && rows[a].subscription == rows[b].subscription ==>
      && rows[a].billingDate != rows[b].billingDate
      && (rows[a].status.Renewed? || rows[b].status.Renewed?)
  }

  /** The database refuses a statement that would break a constraint. */
  function Commit(rows: Rows, after: Rows): (Rows, Outcome) {
    if ConstraintsHold(after) then (after, Written) else (rows, ConstraintViolated)
  }

  datatype Write =
    | Insert(id: Id, cycle: Cycle)
    | Save(id: Id, cycle: Cycle, fields: set<Field>)
    | Update(values: map<Id, Cycle>, fields: set<Field>)
    | BulkCreate(objs: map<Id, Cycle>, upsert: Option<set<Field>>)
    | Unguarded(objs: map<Id, Cycle>, fields: set<Field>)
    | Delete(ids: set<Id>)

  /** `subscription.renewal_cycles.add` of some cycles. */
  function RelatedAdd(ids: set<Id>, subscription: string): Write {
    Unguarded(map id | id in ids :: Cycle(subscription, 0, 0, None, Pending, 0), {SubscriptionField})
  }

  predicate TouchesRenewed(rows: Rows, ids: set<Id>) {
    exists id :: id in ids && id in rows && rows[id].status.Renewed?
  }

  function Updated(rows: Rows, values: map<Id, Cycle>, fields: set<Field>): Rows {
    map id | id in rows :: if id in values then Overlay(rows[id], values[id], fields) else rows[id]
  }

  function Upserted(rows: Rows, objs: map<Id, Cycle>, fields: set<Field>): Rows {
    Updated(rows, objs, fields) + map id | id in objs && id !in rows :: objs[id]
  }

  /**
   * An update gives one new value per row: `update` one for all rows or one computed by the database,
   * `bulk_update` one per object. A bulk create lists each object under the row it hits.
   * `Unguarded` stands for every update of stored rows that reaches the table without the methods of the
   * cycle model, such as a related manager's `add`, a base manager's `update` or a fixture load.
   */
  function Apply(rows: Rows, w: Write): (Rows, Outcome) {
    match w
    case Insert(id, cycle) =>
      if id in rows then (rows, ConstraintViolated) else Commit(rows, rows[id := cycle])
    case Save(id, cycle, fields) =>
      if id !in rows || rows[id].status.Renewed? || !SameIdentity(rows[id], cycle) then (rows, Immutable)
      else Commit(rows, rows[id := Overlay(rows[id], cycle, fields)])
    case Update(values, fields) =>
      if fields * IMMUTABLE != {} then (rows, Immutable)
      else if StatusField in fields && TouchesRenewed(rows, values.Keys) then (rows, Immutable)
      else Commit(rows, Updated(rows, values, fields))
    case BulkCreate(objs, upsert) =>
      if upsert.None? && exists id :: id in objs && id in rows then (rows, ConstraintViolated)
      else Commit(rows, Upserted(rows, objs, if upsert.Some? then upsert.value else {}))
    case Unguarded(objs, fields) => Commit(rows, Updated(rows, objs, fields))
    case Delete(_) => (rows, Immutable)
  }

  class RenewalCycleTable {
    var rows: Rows

    constructor ()
      ensures rows == map[]
    {
      rows := map[];
    }

    /** `adding` is true for an object that was never stored. */
    method SaveCycle(id: Id, cycle: Cycle, adding: bool, fields: set<Field>) returns (out: Outcome)
      modifies this
      ensures (rows, out) == Apply(old(rows), if adding then Insert(id, cycle) else Save(id, cycle, fields))
    {
      if adding {
        if id in rows || !ConstraintsHold(rows[id := cycle]) {
          return ConstraintViolated;
        }
        rows := rows[id := cycle];
        return Written;
      }
      if id !in rows {
        return Immutable;
      }
      var previous := rows[id];
      if previous.status == Renewed {
        return Immutable;
      }
      var identityChanged := previous.subscription != cycle.subscription || previous.billingDate != cycle.billingDate
        || previous.listPrice != cycle.listPrice || previous.netPrice != cycle.netPrice;
      if identityChanged {
        return Immutable;
      }
      var after := rows[id := Overlay(previous, cycle, fields)];
      if !ConstraintsHold(after) {
        return ConstraintViolated;
      }
      rows := after;
      return Written;
    }

    method UpdateRows(values: map<Id, Cycle>, fields: set<Field>) returns (out: Outcome)
      modifies this
      ensures (rows, out) == Apply(old(rows), Update(values, fields))
    {
      if fields * IMMUTABLE != {} {
        return Immutable;
      }
      if StatusField in fields && TouchesRenewed(rows, values.Keys) {
        return Immutable;
      }
      var after := Updated(rows, values, fields);
      if !ConstraintsHold(after) {
        return ConstraintViolated;
      }
      rows := after;
      return Written;
    }

    /** No guard is on this path. */
    method BulkCreateRows(objs: map<Id, Cycle>, upsert: Option<set<Field>>) returns (out: Outcome)
      modifies this
      ensures (rows, out) == Apply(old(rows), BulkCreate(objs, upsert))
    {
      if upsert.None? && exists id :: id in objs && id in rows {
        return ConstraintViolated;
      }
      var after := Upserted(rows, objs, if upsert.Some? then upsert.value else {});
      if !ConstraintsHold(after) {
        return ConstraintViolated;
      }
      rows := after;
      return Written;
    }

    method DeleteRows(ids: set<Id>) returns (out: Outcome)
      ensures (rows, out) == Apply(rows, Delete(ids))
    {
      out := Immutable;
    }
  }

  function RowsAfter(writes: seq<Write>): Rows {
    if writes == [] then map[] else Apply(RowsAfter(writes[..|writes| - 1]), writes[|writes| - 1]).0
  }

  /** Later rows keep every earlier row's identity, and a renewed row whole. */
  ghost predicate Keeps(before: Rows, after: Rows) {
    forall id :: id in before ==>
      && id in after
      && SameIdentity(before[id], after[id])
      && (before[id].status.Renewed? ==> after[id] == before[id])
  }

  /** The row as an upsert leaves it has another identity, or was renewed and is no longer the same. */
  predicate Rewrites(row: Cycle, source: Cycle, fields: set<Field>) {
    var after := Overlay(row, source, fields);
    !SameIdentity(row, after) || (row.status.Renewed? && after != row)
  }

  predicate RewritesSome(rows: Rows, objs: map<Id, Cycle>, fields: set<Field>) {
    exists id :: id in objs && id in rows && Rewrites(rows[id], objs[id], fields)
  }

  /** The write is an upsert or an unguarded update that rewrites some existing row. */
  predicate Overwrites(rows: Rows, w: Write) {
    match w
    case BulkCreate(objs, upsert) => upsert.Some? && RewritesSome(rows, objs, upsert.value)
    case Unguarded(objs, fields) => RewritesSome(rows, objs, fields)
    case _ => false
  }

  lemma GuardedUpdateKeeps(rows: Rows, values: map<Id, Cycle>, fields: set<Field>)
    requires fields * IMMUTABLE == {}
    requires StatusField in fields ==> !TouchesRenewed(rows, values.Keys)
    ensures Keeps(rows, Updated(rows, values, fields))
  {
    assert forall f :: f in fields && f in IMMUTABLE ==> f in fields * IMMUTABLE;
  }

  lemma WriteKeepsIff(rows: Rows, objs: map<Id, Cycle>, fields: set<Field>, after: Rows)
    requires forall id :: id in rows ==> id in after && after[id] == if id in objs then Overlay(rows[id], objs[id], fields) else rows[id]
    ensures Keeps(rows, after) <==> !RewritesSome(rows, objs, fields)
  {}

  /**
   * A write that goes through changes a renewed row, or the identity or prices of any row, exactly when it
   * is an upsert or an unguarded update that does so; one that is refused changes nothing.
   */
  lemma OnlyUnguardedWritesOverwrite(rows: Rows, w: Write)
    ensures Apply(rows, w).1.Written? ==> (Keeps(rows, Apply(rows, w).0) <==> !Overwrites(rows, w))
    ensures !Apply(rows, w).1.Written? ==> Apply(rows, w).0 == rows
  {
    if Apply(rows, w).1.Written? {
      match w
      case Update(values, fields) => GuardedUpdateKeeps(rows, values, fields);
      case BulkCreate(objs, upsert) => WriteKeepsIff(rows, objs, if upsert.Some? then upsert.value else {}, Apply(rows, w).0);
      case Unguarded(objs, fields) => WriteKeepsIff(rows, objs, fields, Apply(rows, w).0);
      case _ =>
    }
  }

  /** The first exception is real: an upsert reopens a renewed cycle and gives it another price. */
  lemma UpsertReopensRenewedCycle()
    ensures var renewed := Cycle("s", 1, 500, None, Renewed, 0);
            var reopened := renewed.(listPrice := 900, status := Pending);
            Apply(map["c" := renewed], BulkCreate(map["c" := reopened], Some({ListField, StatusField}))) ==
              (map["c" := reopened], Written)
  {
    var renewed := Cycle("s", 1, 500, None, Renewed, 0);
    var reopened := renewed.(listPrice := 900, status := Pending);
    assert Upserted(map["c" := renewed], map["c" := reopened], {ListField, StatusField}) == map["c" := reopened];
  }

  /** The second too: another subscription's related manager takes a renewed cycle over. */
  lemma RelatedAddMovesRenewedCycle()
    ensures var renewed := Cycle("s", 1, 500, None, Renewed, 0);
            Apply(map["c" := renewed], RelatedAdd({"c"}, "t")) == (map["c" := renewed.(subscription := "t")], Written)
  {
    var renewed := Cycle("s", 1, 500, None, Renewed, 0);
    var w := RelatedAdd({"c"}, "t");
    assert Updated(map["c" := renewed], w.objs, w.fields) == map["c" := renewed.(subscription := "t")];
  }

  /** On the guarded paths only an insert can meet a unique constraint: after it, no save or update ever does. */
  lemma OnlyInsertsCanViolate(rows: Rows, w: Write)
    requires ConstraintsHold(rows)
    ensures Apply(rows, w).1.ConstraintViolated? ==> w.Insert? || w.BulkCreate? || w.Unguarded?
  {
    match w
    case Save(id, cycle, fields) =>
      if id in rows && !rows[id].status.Renewed? && SameIdentity(rows[id], cycle) {
        StatusChangesAreHarmless(rows, rows[id := Overlay(rows[id], cycle, fields)]);
      }
    case Update(values, fields) =>
      if fields * IMMUTABLE == {} && !(StatusField in fields && TouchesRenewed(rows, values.Keys)) {
        GuardedUpdateKeeps(rows, values, fields);
        StatusChangesAreHarmless(rows, Updated(rows, values, fields));
      }
    case _ =>
  }

  lemma StatusChangesAreHarmless(rows: Rows, after: Rows)
    requires ConstraintsHold(rows) && after.Keys == rows.Keys
    requires forall id :: id in rows ==> SameIdentity(rows[id], after[id]) && (rows[id].status.Renewed? ==> after[id].status.Renewed?)
    ensures ConstraintsHold(after)
  {}

  /**
   * In every run without an overwriting write, by any mix of the other writes, a renewed cycle never
   * changes, and the subscription, date and prices of a cycle stay as inserted.
   */
  lemma {:induction false} CyclesAreWriteOnce(writes: seq<Write>, i: nat, j: nat)
    requires i <= j <= |writes|
    requires forall k :: i <= k < j ==> !Overwrites(RowsAfter(writes[..k]), writes[k])
    ensures Keeps(RowsAfter(writes[..i]), RowsAfter(writes[..j]))
    decreases j
  {
    if i < j {
      CyclesAreWriteOnce(writes, i, j - 1);
      assert writes[..j][..j - 1] == writes[..j - 1];
      OnlyUnguardedWritesOverwrite(RowsAfter(writes[..j - 1]), writes[j - 1]);
    }
  }

  lemma {:induction false} ConstraintsAlwaysHold(writes: seq<Write>)
    ensures ConstraintsHold(RowsAfter(writes))
  {
    if writes != [] {
      ConstraintsAlwaysHold(writes[..|writes| - 1]);
    }
  }

  /**
   * After any run, a new cycle is stored exactly when its id is new, its subscription has no cycle on that
   * date, and, unless the new one is renewed, no unfinished cycle.
   */
  lemma InsertGoesThroughIff(writes: seq<Write>, id: Id, cycle: Cycle)
    ensures var rows := RowsAfter(writes);
            Apply(rows, Insert(id, cycle)).1.Written? <==>
              && id !in rows
              && forall a :: a in rows && rows[a].subscription == cycle.subscription ==>
                   rows[a].billingDate != cycle.billingDate && (rows[a].status.Renewed? || cycle.status.Renewed?)
  {
    ConstraintsAlwaysHold(writes);
    var rows := RowsAfter(writes);
    var after := rows[id := cycle];
    if ConstraintsHold(after) && id !in rows {
      forall a | a in rows && rows[a].subscription == cycle.subscription
        ensures rows[a].billingDate != cycle.billingDate && (rows[a].status.Renewed? || cycle.status.Renewed?)
      {
        assert after[a] == rows[a] && after[id] == cycle;
      }
    }
  }

  /** The guards refuse no more than that: the status of cycles that are not renewed can always be updated. */
  lemma StatusStaysWritable(writes: seq<Write>, values: map<Id, Cycle>)
    requires !TouchesRenewed(RowsAfter(writes), values.Keys)
    ensures var rows := RowsAfter(writes);
            var (after, out) := Apply(rows, Update(values, {StatusField}));
            && out.Written?
            && (forall id :: id in rows && id in values ==> after[id] == rows[id].(status := values[id].status))
            && (forall id :: id in rows && id !in values ==> id in after && after[id] == rows[id])
  {
    ConstraintsAlwaysHold(writes);
    OnlyInsertsCanViolate(RowsAfter(writes), Update(values, {StatusField}));
    assert {StatusField} * IMMUTABLE == {};
  }

  // ---------------------------------------------------------------- what each call does

  /** `after` is `row` with the chosen columns of `source`. */
  ghost predicate TakesColumns(row: Cycle, source: Cycle, fields: set<Field>, after: Cycle) {
    && after.subscription == (if SubscriptionField in fields then source.subscription else row.subscription)
    && after.billingDate == (if DateField in fields then source.billingDate else row.billingDate)
    && after.listPrice == (if ListField in fields then source.listPrice else row.listPrice)
    && after.netPrice == (if NetField in fields then source.netPrice else row.netPrice)
    && after.status == (if StatusField in fields then source.status else row.status)
    && after.createdAt == (if CreatedField in fields then source.createdAt else row.createdAt)
  }

  /**
   * After any run, a save goes through exactly when the cycle is stored and not renewed, and subscription,
   * date and both prices are the stored ones; then its row takes the chosen columns and every other row is
   * as before. Any other save is refused as an immutable change.
   */
  lemma SaveGoesThroughIff(writes: seq<Write>, id: Id, cycle: Cycle, fields: set<Field>)
    ensures var rows := RowsAfter(writes);
            var (after, out) := Apply(rows, Save(id, cycle, fields));
            && out in {Written, Immutable}
            && (out.Written? <==>
                  && id in rows && rows[id].status != Renewed
                  && rows[id].subscription == cycle.subscription && rows[id].billingDate == cycle.billingDate
                  && rows[id].listPrice == cycle.listPrice && rows[id].netPrice == cycle.netPrice)
            && (out.Written? ==>
                  && after.Keys == rows.Keys && TakesColumns(rows[id], cycle, fields, after[id])
                  && forall other :: other in rows && other != id ==> after[other] == rows[other])
            && (out.Immutable? ==> after == rows)
  {
    ConstraintsAlwaysHold(writes);
    OnlyInsertsCanViolate(RowsAfter(writes), Save(id, cycle, fields));
  }

  /**
   * An update goes through exactly when it names no field but the status, and no renewed cycle if it names
   * that; then the chosen cycles take it and the others stay.
   */
  lemma UpdateGoesThroughIff(writes: seq<Write>, values: map<Id, Cycle>, fields: set<Field>)
    ensures var rows := RowsAfter(writes);
            var (after, out) := Apply(rows, Update(values, fields));
            && out in {Written, Immutable}
            && (out.Written? <==>
                  && fields <= {StatusField}
                  && (StatusField in fields ==> forall id :: id in values && id in rows ==> rows[id].status != Renewed))
            && (out.Written? ==>
                  && after.Keys == rows.Keys
                  && (forall id :: id in rows && id in values ==> TakesColumns(rows[id], values[id], fields, after[id]))
                  && (forall id :: id in rows && id !in values ==> after[id] == rows[id]))
            && (out.Immutable? ==> after == rows)
  {
    var rows := RowsAfter(writes);
    ConstraintsAlwaysHold(writes);
    OnlyInsertsCanViolate(rows, Update(values, fields));
    OnlyStatusIsMutable(fields);
  }

  lemma OnlyStatusIsMutable(fields: set<Field>)
    ensures fields * IMMUTABLE == {} <==> fields <= {StatusField}
  {
    if fields * IMMUTABLE == {} {
      forall f | f in fields ensures f == StatusField {
        assert f !in fields * IMMUTABLE;
      }
    }
  }

  /** Rows that are hit take the chosen columns, the others are inserted. */
  ghost predicate StoresAll(rows: Rows, objs: map<Id, Cycle>, fields: set<Field>, after: Rows) {
    && after.Keys == rows.Keys + objs.Keys
    && (forall id :: id in rows && id !in objs ==> after[id] == rows[id])
    && (forall id :: id in objs && id !in rows ==> after[id] == objs[id])
    && (forall id :: id in rows && id in objs ==> TakesColumns(rows[id], objs[id], fields, after[id]))
  }

  lemma UpsertedStoresAll(rows: Rows, objs: map<Id, Cycle>, fields: set<Field>)
    ensures StoresAll(rows, objs, fields, Upserted(rows, objs, fields))
  {
    var after := Upserted(rows, objs, fields);
    assert after.Keys == rows.Keys + objs.Keys;
    forall id | id in rows && id in objs ensures TakesColumns(rows[id], objs[id], fields, after[id]) {
      assert after[id] == Overlay(rows[id], objs[id], fields);
    }
  }

  /**
   * A bulk create stores every object or none: rows it hits take the upsert's columns, the others are
   * inserted. Nothing but a unique constraint, or a hit without an upsert, refuses it.
   */
  lemma BulkCreateStores(rows: Rows, objs: map<Id, Cycle>, upsert: Option<set<Field>>)
    ensures var fields := if upsert.Some? then upsert.value else {};
            var (after, out) := Apply(rows, BulkCreate(objs, upsert));
            && (out.Written? ==> StoresAll(rows, objs, fields, after))
            && (!out.Written? ==> out == ConstraintViolated && after == rows)
            && (out.Written? <==>
                  && (upsert.None? ==> forall id :: id in objs ==> id !in rows)
                  && ConstraintsHold(Upserted(rows, objs, fields)))
  {
    UpsertedStoresAll(rows, objs, if upsert.Some? then upsert.value else {});
  }

  /** A write past the model's methods updates the rows it hits, unless that breaks a unique constraint. */
  lemma UnguardedWriteStores(rows: Rows, objs: map<Id, Cycle>, fields: set<Field>)
    ensures var (after, out) := Apply(rows, Unguarded(objs, fields));
            && (out.Written? ==>
                  && after.Keys == rows.Keys
                  && (forall id :: id in rows && id !in objs ==> after[id] == rows[id])
                  && (forall id :: id in rows && id in objs ==> TakesColumns(rows[id], objs[id], fields, after[id])))
            && (!out.Written? ==> out == ConstraintViolated && after == rows)
            && (out.Written? <==> ConstraintsHold(Updated(rows, objs, fields)))
  {}

  lemma NothingIsDeleted(rows: Rows, ids: set<Id>)
    ensures Apply(rows, Delete(ids)) == (rows, Immutable)
  {}
}
