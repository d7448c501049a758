/** Stored pricing profiles, the objects loaded from them, and how versions follow the charge policy. */
module PricingProfiles {
  import opened Wrappers
  import opened Pricing

  datatype Field =
    | NameField | SlugField | DiscountField | FloorField | VersionField
    | ActiveField | FromField | UntilField | ArchivedField

  const MATERIAL: set<Field> := {DiscountField, FloorField}

  /** `row` with the chosen fields taken from `source`. */
  function Overlay(row: Profile, source: Profile, fields: set<Field>): Profile {
    row.(
      name := if NameField in fields then source.name else row.name,
      slug := if SlugField in fields then source.slug else row.slug,
      discountPercent := if DiscountField in fields then source.discountPercent else row.discountPercent,
      floorPolicy := if FloorField in fields then source.floorPolicy else row.floorPolicy,
      version := if VersionField in fields then source.version else row.version,
      isActive := if ActiveField in fields then source.isActive else row.isActive,
      effectiveFrom := if FromField in fields then source.effectiveFrom else row.effectiveFrom,
      effectiveUntil := if UntilField in fields then source.effectiveUntil else row.effectiveUntil,
      archivedAt := if ArchivedField in fields then source.archivedAt else row.archivedAt)
  }

  /** The part of a profile that decides a charge. */
  function Policy(p: Profile): (real, FloorPolicy) { (p.discountPercent, p.floorPolicy) }

  function WithSlug(mem: Profile, slugify: string -> string): Profile {
    if mem.slug == "" && mem.name != ""
    then mem.(slug := if |slugify(mem.name)| > 128 then slugify(mem.name)[..128] else slugify(mem.name))
    else mem
  }

  /** What a full save stores over an existing row; the object takes the same values. */
  function FullSave(row: Profile, mem: Profile): Profile {
    if Policy(row) != Policy(mem) then mem.(version := row.version + 1) else mem
  }

  /** What `save_optimistic` stores when the version still matches. */
  function OptimisticSave(row: Profile, mem: Profile, expected: nat, fields: set<Field>): Profile {
    var updated := Overlay(row, mem, fields);
    if fields * MATERIAL != {} then updated.(version := expected + 1) else updated
  }

  class ProfileTable {
    var rows: map<string, Profile>

    constructor (rows: map<string, Profile>)
      ensures this.rows == rows
    {
      this.rows := rows;
    }
  }

  /** An object in memory; it may be stale. */
  class ProfileObject {
    const table: ProfileTable
    const slugify: string -> string
    var mem: Profile

    constructor (table: ProfileTable, slugify: string -> string, mem: Profile)
      ensures this.table == table && this.slugify == slugify && this.mem == mem
    {
      this.table, this.slugify, this.mem := table, slugify, mem;
    }

    /** A save of every field that nobody interrupts; a missing row is inserted. */
    method Save()
      modifies this, table
      ensures var source := WithSlug(old(mem), slugify);
              && mem == (if old(mem).id in old(table.rows) then FullSave(old(table.rows)[old(mem).id], source) else source)
              && table.rows == old(table.rows)[old(mem).id := mem]
    {
      mem := WithSlug(mem, slugify);
      var previous := ReadPrevious();
      Store(previous);
    }

    /** The save's first database step. */
    method ReadPrevious() returns (previous: Option<Profile>)
      ensures previous == if mem.id in table.rows then Some(table.rows[mem.id]) else None
    {
      previous := if mem.id in table.rows then Some(table.rows[mem.id]) else None;
    }

    /** The save's second step; the row it overwrites need no longer be the one it read. */
    method Store(previous: Option<Profile>)
      modifies this, table
      ensures mem == if previous.Some? then FullSave(previous.value, old(mem)) else old(mem)
      ensures table.rows == old(table.rows)[mem.id := mem]
    {
      if previous.Some? {
        var materialChanged :=
          previous.value.discountPercent != mem.discountPercent || previous.value.floorPolicy != mem.floorPolicy;
        if materialChanged {
          mem := mem.(version := previous.value.version + 1);
        }
      }
      table.rows := table.rows[mem.id := mem];
    }

    /** A save of some fields; false stands for the error raised when there is no row to update. */
    method SaveFields(fields: set<Field>) returns (found: bool)
      modifies this, table
      ensures mem == WithSlug(old(mem), slugify)
      ensures found <==> mem.id in old(table.rows)
      ensures table.rows == if found then old(table.rows)[mem.id := Overlay(old(table.rows)[mem.id], mem, fields)] else old(table.rows)
    {
      mem := WithSlug(mem, slugify);
      found := mem.id in table.rows;
      if found {
        table.rows := table.rows[mem.id := Overlay(table.rows[mem.id], mem, fields)];
      }
    }

    method Archive(now: int) returns (found: bool)
      modifies this, table
      ensures old(mem).archivedAt.Some? ==> mem == old(mem) && table.rows == old(table.rows)
      ensures old(mem).archivedAt.None? ==>
                && mem == WithSlug(old(mem).(archivedAt := Some(now), isActive := false), slugify)
                && table.rows == if mem.id in old(table.rows)
                   then old(table.rows)[mem.id := old(table.rows)[mem.id].(archivedAt := Some(now), isActive := false)]
                   else old(table.rows)
    {
      if mem.archivedAt.Some? {
        return true;
      }
      mem := mem.(archivedAt := Some(now), isActive := false);
      found := SaveFields({ArchivedField, ActiveField});
    }

    /** A failed call leaves the row alone but has already moved the version in memory. */
    method SaveOptimistic(expected: nat, fields: set<Field>) returns (updated: bool)
      modifies this, table
      ensures updated <==> mem.id in old(table.rows) && old(table.rows)[mem.id].version == expected
      ensures mem.id == old(mem).id
      ensures updated ==>
                && table.rows == old(table.rows)[mem.id := OptimisticSave(old(table.rows)[mem.id], old(mem), expected, fields)]
      ensures !updated ==> table.rows == old(table.rows)
      ensures mem == if fields * MATERIAL != {} then old(mem).(version := expected + 1) else old(mem)
    {
      var source := mem;
      var material := fields * MATERIAL != {};
      if material {
        mem := mem.(version := expected + 1);
      }
      updated := mem.id in table.rows && table.rows[mem.id].version == expected;
      if updated {
        var row := Overlay(table.rows[mem.id], source, fields);
        table.rows := table.rows[mem.id := if material then row.(version := expected + 1) else row];
      }
    }
  }

  // ---------------------------------------------------------------- runs over one row

  /** `readAt` is the number of writes the row had seen when this full save read it. */
  datatype Write =
    | Full(readAt: nat, mem: Profile)
    | Partial(mem: Profile, fields: set<Field>)  // a save with `update_fields`, or an update of a query set
    | Archived(at: int)
    | Optimistic(mem: Profile, expected: nat, fields: set<Field>)

  predicate Succeeds(row: Profile, w: Write) {
    w.Optimistic? ==> row.version == w.expected
  }

  /** The row after a write; `read` is the row as a full save read it. */
  function Apply(row: Profile, read: Profile, w: Write): Profile {
    match w
    case Full(_, mem) => FullSave(read, mem)
    case Partial(mem, fields) => Overlay(row, mem, fields)
    case Archived(at) => row.(archivedAt := Some(at), isActive := false)
    case Optimistic(mem, expected, fields) =>
      if row.version == expected then OptimisticSave(row, mem, expected, fields) else row
  }

  function RowAfter(row: Profile, writes: seq<Write>): Profile
    decreases |writes|, 1
  {
    if writes == [] then row
    else Apply(RowAfter(row, writes[..|writes| - 1]), ReadBy(row, writes), writes[|writes| - 1])
  }

  /** What the last write had read. */
  function ReadBy(row: Profile, writes: seq<Write>): Profile
    requires writes != []
    decreases |writes|, 0
  {
    var n := |writes| - 1;
    RowAfter(row, if writes[n].Full? && writes[n].readAt < n then writes[..writes[n].readAt] else writes[..n])
  }

  /**
   * What a caller would have to compare. A full save that changes the policy it read: nobody has raised
   * the version since, or one save has and stored the same policy. Any other full save: its object's version is
   * ahead of the row's, or is the row's and names the same policy. A save of some fields: it writes a
   * newer version, or no older one and no other policy. An optimistic save: it does not write an older
   * version.
   */
  predicate Safe(row: Profile, read: Profile, w: Write) {
    match w
    case Full(_, mem) =>
      if Policy(mem) != Policy(read)
      then row.version <= read.version || (row.version == read.version + 1 && Policy(mem) == Policy(row))
      else row.version < mem.version || (row.version == mem.version && Policy(mem) == Policy(row))
    case Partial(mem, fields) =>
      || (VersionField in fields && row.version < mem.version)
      || (SavesSamePolicy(row, mem, fields) && (VersionField in fields ==> row.version == mem.version))
    case Archived(_) => true
    case Optimistic(mem, expected, fields) =>
      row.version != expected || VersionField !in fields || fields * MATERIAL != {} || mem.version >= row.version
  }

  /** No material field among those saved has another value in the object than in the row. */
  predicate SavesSamePolicy(row: Profile, mem: Profile, fields: set<Field>) {
    && (DiscountField in fields ==> mem.discountPercent == row.discountPercent)
    && (FloorField in fields ==> mem.floorPolicy == row.floorPolicy)
  }

  ghost predicate SafeAt(row: Profile, writes: seq<Write>, i: nat)
    requires i < |writes|
  {
    Safe(RowAfter(row, writes[..i]), ReadBy(row, writes[..i + 1]), writes[i])
  }

  ghost predicate SafeRun(row: Profile, writes: seq<Write>) {
    forall i :: 0 <= i < |writes| ==> SafeAt(row, writes, i)
  }

  /** The version has not fallen, and a kept version keeps its policy. */
  predicate Follows(later: Profile, row: Profile) {
    row.version <= later.version && (later.version == row.version ==> Policy(later) == Policy(row))
  }

  /** One write lowers the stored version, or keeps it for another policy, exactly when it is not safe. */
  lemma VersionSlipsExactlyWhenUnsafe(row: Profile, read: Profile, w: Write)
    ensures Follows(Apply(row, read, w), row) <==> Safe(row, read, w)
  {
    if w.Optimistic? {
      assert forall f :: f in w.fields && f in MATERIAL ==> f in w.fields * MATERIAL;
    }
  }

  /** A full save that nobody interrupts goes wrong only when it stores a stale object under an unchanged policy. */
  lemma UninterruptedSaveIsSafeIff(row: Profile, readAt: nat, mem: Profile)
    ensures Follows(Apply(row, row, Full(readAt, mem)), row) <==> Policy(mem) != Policy(row) || mem.version >= row.version
  {}

  lemma AfterStep(row: Profile, writes: seq<Write>, i: nat)
    requires i < |writes|
    ensures RowAfter(row, writes[..i + 1]) == Apply(RowAfter(row, writes[..i]), ReadBy(row, writes[..i + 1]), writes[i])
  {
    assert writes[..i + 1][..i] == writes[..i];
  }

  lemma {:induction false} SafeRunFollows(row: Profile, writes: seq<Write>, i: nat, j: nat)
    requires SafeRun(row, writes) && i <= j <= |writes|
    ensures Follows(RowAfter(row, writes[..j]), RowAfter(row, writes[..i]))
    decreases j
  {
    if i < j {
      SafeRunFollows(row, writes, i, j - 1);
      AfterStep(row, writes, j - 1);
      assert SafeAt(row, writes, j - 1);
      VersionSlipsExactlyWhenUnsafe(RowAfter(row, writes[..j - 1]), ReadBy(row, writes[..j]), writes[j - 1]);
    }
  }

  /**
   * Whatever is interleaved between the two steps of the saves: throughout a run versions never fall and
   * a version number names one policy exactly when every write is safe.
   */
  lemma VersionNamesOnePolicy(row: Profile, writes: seq<Write>)
    ensures (forall i, j :: 0 <= i <= j <= |writes| ==> Follows(RowAfter(row, writes[..j]), RowAfter(row, writes[..i])))
            <==> SafeRun(row, writes)
  {
    if SafeRun(row, writes) {
      forall i, j | 0 <= i <= j <= |writes| ensures Follows(RowAfter(row, writes[..j]), RowAfter(row, writes[..i])) {
        SafeRunFollows(row, writes, i, j);
      }
    } else {
      var i :| 0 <= i < |writes| && !SafeAt(row, writes, i);
      AfterStep(row, writes, i);
      VersionSlipsExactlyWhenUnsafe(RowAfter(row, writes[..i]), ReadBy(row, writes[..i + 1]), writes[i]);
      assert !Follows(RowAfter(row, writes[..i + 1]), RowAfter(row, writes[..i]));
    }
  }

  /**
   * A caller's rule: a full save is of an object loaded from the row as it is and nobody interrupts it, a
   * save of some fields names neither the version nor a material field, an optimistic save not the version.
   */
  ghost predicate CarefulAt(row: Profile, writes: seq<Write>, i: nat)
    requires i < |writes|
  {
    match writes[i]
    case Full(readAt, mem) => readAt == i && mem.version == RowAfter(row, writes[..i]).version
    case Partial(_, fields) => VersionField !in fields && DiscountField !in fields && FloorField !in fields
    case Archived(_) => true
    case Optimistic(_, _, fields) => VersionField !in fields
  }

  lemma CarefulWriteIsSafe(row: Profile, writes: seq<Write>, i: nat)
    requires i < |writes| && CarefulAt(row, writes, i)
    ensures SafeAt(row, writes, i)
  {
    assert writes[..i + 1][..i] == writes[..i];
  }

  /** Under that rule versions never fall and a version number names one policy, in every run. */
  lemma CarefulCallersKeepVersions(row: Profile, writes: seq<Write>, i: nat, j: nat)
    requires i <= j <= |writes| && forall k :: 0 <= k < |writes| ==> CarefulAt(row, writes, k)
    ensures Follows(RowAfter(row, writes[..j]), RowAfter(row, writes[..i]))
  {
    forall k | 0 <= k < |writes| ensures SafeAt(row, writes, k) {
      CarefulWriteIsSafe(row, writes, k);
    }
    SafeRunFollows(row, writes, i, j);
  }

  /** Of two material optimistic saves that expect the same version, at most one succeeds. */
  lemma OneOptimisticWinnerPerVersion(row: Profile, writes: seq<Write>, i: nat, j: nat)
    requires SafeRun(row, writes) && i < j < |writes|
    requires writes[i].Optimistic? && writes[j].Optimistic? && writes[i].expected == writes[j].expected
    requires writes[i].fields * MATERIAL != {}
    requires Succeeds(RowAfter(row, writes[..i]), writes[i])
    ensures !Succeeds(RowAfter(row, writes[..j]), writes[j])
  {
    AfterStep(row, writes, i);
    SafeRunFollows(row, writes, i + 1, j);
  }

  function Raised(p: Profile, discount: real): Profile { p.(discountPercent := discount) }

  const FIRST := Profile("p", "s", "n", 1, 10.0, Wholesale, true, None, None, None)

  /**
   * An object loaded at version 1 and saved again after the policy moved on, with the new policy typed
   * in, brings version 1 back for a policy it never named.
   */
  lemma StaleSaveReusesVersion()
    ensures var second := RowAfter(FIRST, [Full(0, Raised(FIRST, 20.0))]);
            var third := RowAfter(FIRST, [Full(0, Raised(FIRST, 20.0)), Full(1, Raised(FIRST, 20.0))]);
            second.version == 2 && third.version == FIRST.version && Policy(third) != Policy(FIRST)
  {
    var w, v := Full(0, Raised(FIRST, 20.0)), Full(1, Raised(FIRST, 20.0));
    assert [w, v][..1] == [w];
    assert RowAfter(FIRST, [w]) == FullSave(FIRST, w.mem);
  }

  /** A fresh object saved with `update_fields` keeps version 1 for another discount. */
  lemma PartialSaveReusesVersion()
    ensures var after := RowAfter(FIRST, [Partial(Raised(FIRST, 20.0), {DiscountField})]);
            after.version == FIRST.version && Policy(after) != Policy(FIRST)
  {
    var w := Partial(Raised(FIRST, 20.0), {DiscountField});
    assert [w][..0] == [];
    assert RowAfter(FIRST, [w]) == Overlay(FIRST, w.mem, w.fields);
  }

  /** Two objects freshly loaded at version 1, saved at once, give version 2 to two policies. */
  lemma ConcurrentFreshSavesShareAVersion()
    ensures var one := RowAfter(FIRST, [Full(0, Raised(FIRST, 20.0))]);
            var two := RowAfter(FIRST, [Full(0, Raised(FIRST, 20.0)), Full(0, Raised(FIRST, 30.0))]);
            one.version == two.version == 2 && Policy(one) != Policy(two)
  {
    var w, v := Full(0, Raised(FIRST, 20.0)), Full(0, Raised(FIRST, 30.0));
    assert [w, v][..1] == [w] && [w, v][..0] == [];
    assert RowAfter(FIRST, [w]) == FullSave(FIRST, w.mem);
    assert RowAfter(FIRST, [w, v]) == FullSave(FIRST, v.mem);
  }

  // ---------------------------------------------------------------- what each write stores

  /** `after` is `row` with the chosen columns of `source`. */
  ghost predicate TakesColumns(row: Profile, source: Profile, fields: set<Field>, after: Profile) {
    && after.id == row.id
    && after.name == (if NameField in fields then source.name else row.name)
    && after.slug == (if SlugField in fields then source.slug else row.slug)
    && after.discountPercent == (if DiscountField in fields then source.discountPercent else row.discountPercent)
    && after.floorPolicy == (if FloorField in fields then source.floorPolicy else row.floorPolicy)
    && after.version == (if VersionField in fields then source.version else row.version)
    && after.isActive == (if ActiveField in fields then source.isActive else row.isActive)
    && after.effectiveFrom == (if FromField in fields then source.effectiveFrom else row.effectiveFrom)
    && after.effectiveUntil == (if UntilField in fields then source.effectiveUntil else row.effectiveUntil)
    && after.archivedAt == (if ArchivedField in fields then source.archivedAt else row.archivedAt)
  }

  /**
   * A full save stores every column of its object, but for the version, which is one above the version read
   * exactly when discount or floor differ from what was read. A save of some fields stores those and never
   * touches the version on its own. An archive stores its stamp and the inactive flag.
   */
  lemma SavesStoreColumns(row: Profile, read: Profile, readAt: nat, mem: Profile, fields: set<Field>, at: int)
    ensures var after := Apply(row, read, Full(readAt, mem));
            && after == mem.(version := after.version)
            && after.version == if mem.discountPercent != read.discountPercent || mem.floorPolicy != read.floorPolicy
                                then read.version + 1 else mem.version
    ensures TakesColumns(row, mem, fields, Apply(row, read, Partial(mem, fields)))
    ensures TakesColumns(row, row.(archivedAt := Some(at), isActive := false), {ArchivedField, ActiveField},
                         Apply(row, read, Archived(at)))
  {}

  /**
   * An optimistic save whose expected version is the stored one stores its fields, and with a discount or
   * floor among them the next version; any other changes nothing.
   */
  lemma OptimisticSaveStoresColumns(row: Profile, read: Profile, mem: Profile, expected: nat, fields: set<Field>)
    ensures var after := Apply(row, read, Optimistic(mem, expected, fields));
            if row.version != expected then after == row
            else if DiscountField in fields || FloorField in fields
            then TakesColumns(row, mem.(version := expected + 1), fields + {VersionField}, after)
            else TakesColumns(row, mem, fields, after)
  {
    assert DiscountField in fields * MATERIAL <==> DiscountField in fields;
    assert FloorField in fields * MATERIAL <==> FloorField in fields;
    assert forall f :: f in fields * MATERIAL ==> f in {DiscountField, FloorField};
  }

  /** A slug is filled in only if it is empty and there is a name: the first 128 characters of the name's slug. */
  lemma SlugIsFilledOnce(mem: Profile, slugify: string -> string)
    ensures var after := WithSlug(mem, slugify);
            && after == mem.(slug := after.slug)
            && (mem.slug != "" || mem.name == "" ==> after == mem)
            && (mem.slug == "" && mem.name != "" ==>
                  && after.slug <= slugify(mem.name)
                  && |after.slug| == if |slugify(mem.name)| < 128 then |slugify(mem.name)| else 128)
  {}
}
