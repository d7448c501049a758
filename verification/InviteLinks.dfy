/**
 * Writes to partner invite links and their visits. The model's own methods freeze the classification of a
 * link that has a visit and refuse a blank token; a bulk create and a write through Django's base manager
 * pass by both guards, a token given as a database expression by the second. A visit can be moved to
 * another link.
 */
module InviteLinks {
  import opened Wrappers
  import opened Texts

  type Id = string

  datatype Link = Link(
    channel: string, source: string, campaign: string, content: string,
    token: string, name: string, bonus: int, active: bool)

  datatype Field =
    | ChannelField | SourceField | CampaignField | ContentField
    | TokenField | LabelField | BonusField | ActiveField

  const FROZEN: set<Field> := {ChannelField, SourceField, CampaignField, ContentField}

  /** Stored links, and for each stored visit the link it is of. */
  datatype Db = Db(links: map<Id, Link>, visits: map<Id, Id>)

  predicate Visited(visits: map<Id, Id>, id: Id) {
    exists v :: v in visits && visits[v] == id
  }

  datatype Outcome = Written | Frozen | TokenRequired | RowMissing | ConstraintViolated

  predicate UsableToken(token: string) { !IsBlank(token) }

  function Overlay(row: Link, source: Link, fields: set<Field>): Link {
    Link(
      if ChannelField in fields then source.channel else row.channel,
      if SourceField in fields then source.source else row.source,
      if CampaignField in fields then source.campaign else row.campaign,
      if ContentField in fields then source.content else row.content,
      if TokenField in fields then source.token else row.token,
      if LabelField in fields then source.name else row.name,
      if BonusField in fields then source.bonus else row.bonus,
      if ActiveField in fields then source.active else row.active)
  }

  /** Tokens are unique and bonuses are not negative. */
  predicate ConstraintsHold(links: map<Id, Link>) {
    && (forall a, b :: a in links && b in links && a != b ==> links[a].token != links[b].token)
    && (forall a :: a in links ==> links[a].bonus >= 0)
  }

  function Commit(db: Db, links: map<Id, Link>): (Db, Outcome) {
    if ConstraintsHold(links) then (db.(links := links), Written) else (db, ConstraintViolated)
  }

  /** Some frozen field among those to be written has another value in the object than in the row. */
  predicate FrozenChanged(row: Link, source: Link, fields: set<Field>) {
    || (ChannelField in fields && row.channel != source.channel)
    || (SourceField in fields && row.source != source.source)
    || (CampaignField in fields && row.campaign != source.campaign)
    || (ContentField in fields && row.content != source.content)
  }

  /**
   * Every way to write. `UpdateWith` is an update with database expressions: `computed` holds what they
   * give for each row; a token may also be given as a plain value, and only then is it checked. `BulkCreate`
   * lists each object under the row it hits: a new one, or on a conflict of an upsert the existing one.
   * `Unguarded` stands for every update of stored rows that reaches the table without the methods of the
   * link model, such as a related manager's `add`, a base manager's `update` or a fixture load.
   */
  datatype Write =
    | Insert(id: Id, link: Link)
    | Save(id: Id, link: Link, only: Option<set<Field>>)  // no field list: every field
    | Update(ids: set<Id>, values: Link, fields: set<Field>)
    | UpdateWith(computed: map<Id, Link>, fields: set<Field>, plainToken: Option<string>)
    | BulkUpdate(objs: map<Id, Link>, fields: set<Field>)
    | BulkCreate(rows: map<Id, Link>, upsert: Option<set<Field>>)
    | Unguarded(rows: map<Id, Link>, fields: set<Field>)
    | Visit(visit: Id, id: Id)
    | MoveVisits(to: map<Id, Id>)
    | Delete(ids: set<Id>)

  /** `channel.invite_links.add` of some links. */
  function RelatedAdd(ids: set<Id>, channel: string): Write {
    Unguarded(map id | id in ids :: Link(channel, "", "", "", "", "", 0, true), {ChannelField})
  }

  const ALL_FIELDS := FROZEN + {TokenField, LabelField, BonusField, ActiveField}

  function Updated(links: map<Id, Link>, values: map<Id, Link>, fields: set<Field>): map<Id, Link> {
    map id | id in links :: if id in values then Overlay(links[id], values[id], fields) else links[id]
  }

  function Upserted(links: map<Id, Link>, rows: map<Id, Link>, fields: set<Field>): map<Id, Link> {
    Updated(links, rows, fields) + map id | id in rows && id !in links :: rows[id]
  }

  /** What an update with expressions writes. */
  function Values(computed: map<Id, Link>, plainToken: Option<string>): map<Id, Link> {
    map id | id in computed :: if plainToken.Some? then computed[id].(token := plainToken.value) else computed[id]
  }

  predicate SomeStored(links: map<Id, Link>, rows: map<Id, Link>) {
    exists id :: id in rows && id in links
  }

  predicate HasVisit(db: Db, ids: set<Id>) {
    exists id :: id in ids && id in db.links && Visited(db.visits, id)
  }

  function Moved(visits: map<Id, Id>, to: map<Id, Id>): map<Id, Id> {
    map v | v in visits :: if v in to then to[v] else visits[v]
  }

  function Apply(db: Db, w: Write): (Db, Outcome) {
    match w
    case Insert(id, link) =>
      if !UsableToken(link.token) then (db, TokenRequired)
      else if id in db.links then (db, ConstraintViolated)
      else Commit(db, db.links[id := link])
    case Save(id, link, fields) =>
      var written := if fields.Some? then fields.value else ALL_FIELDS;
      if !UsableToken(link.token) then (db, TokenRequired)
      else if id !in db.links then (if fields.Some? then (db, RowMissing) else Commit(db, db.links[id := link]))
      else if Visited(db.visits, id) && FrozenChanged(db.links[id], link, written) then (db, Frozen)
      else Commit(db, db.links[id := Overlay(db.links[id], link, written)])
    case Update(ids, values, fields) =>
      if TokenField in fields && !UsableToken(values.token) then (db, TokenRequired)
      else if fields * FROZEN != {} && HasVisit(db, ids) then (db, Frozen)
      else Commit(db, Updated(db.links, map id | id in ids :: values, fields))
    case BulkUpdate(objs, fields) =>
      if TokenField in fields && exists id :: id in objs && !UsableToken(objs[id].token) then (db, TokenRequired)
      else if fields * FROZEN != {} && HasVisit(db, objs.Keys) then (db, Frozen)
      else Commit(db, Updated(db.links, objs, fields))
    case UpdateWith(computed, fields, plainToken) =>
      if TokenField in fields && plainToken.Some? && !UsableToken(plainToken.value) then (db, TokenRequired)
      else if fields * FROZEN != {} && HasVisit(db, computed.Keys) then (db, Frozen)
      else Commit(db, Updated(db.links, Values(computed, plainToken), fields))
    case BulkCreate(rows, upsert) =>
      if upsert.None? && SomeStored(db.links, rows) then (db, ConstraintViolated)
      else Commit(db, Upserted(db.links, rows, if upsert.Some? then upsert.value else {}))
    case Unguarded(rows, fields) => Commit(db, Updated(db.links, rows, fields))
    case Visit(visit, id) =>
      if id !in db.links then (db, RowMissing)
      else if visit in db.visits then (db, ConstraintViolated)
      else (db.(visits := db.visits[visit := id]), Written)
    case MoveVisits(to) =>
      if forall v :: v in to && v in db.visits ==> to[v] in db.links then (db.(visits := Moved(db.visits, to)), Written)
      else (db, ConstraintViolated)
    case Delete(_) => (db, Frozen)
  }

  class InviteLinkTable {
    var links: map<Id, Link>
    var visits: map<Id, Id>

    ghost function Store(): Db
      reads this
    {
      Db(links, visits)
    }

    constructor ()
      ensures Store() == Db(map[], map[])
    {
      links, visits := map[], map[];
    }

    method SaveLink(id: Id, link: Link, adding: bool, fields: Option<set<Field>>) returns (out: Outcome)
      modifies this
      ensures (Store(), out) == Apply(old(Store()), if adding then Insert(id, link) else Save(id, link, fields))
    {
      if !UsableToken(link.token) {
        return TokenRequired;
      }
      var after := links[id := link];
      if adding {
        if id in links {
          return ConstraintViolated;
        }
      } else {
        if fields.Some? && id !in links {
          return RowMissing;
        }
        var written := if fields.Some? then fields.value else ALL_FIELDS;
        if id in links {
          if written * FROZEN != {} && Visited(visits, id) {
            if FrozenChanged(links[id], link, written) {
              return Frozen;
            }
          }
          NoFrozenFieldNoChange(links[id], link, written);
          after := links[id := Overlay(links[id], link, written)];
        }
      }
      if !ConstraintsHold(after) {
        return ConstraintViolated;
      }
      links := after;
      return Written;
    }

    method UpdateLinks(ids: set<Id>, values: Link, fields: set<Field>) returns (out: Outcome)
      modifies this
      ensures (Store(), out) == Apply(old(Store()), Update(ids, values, fields))
    {
      if TokenField in fields && !UsableToken(values.token) {
        return TokenRequired;
      }
      out := WriteRows(map id | id in ids :: values, fields);
    }

    method BulkUpdateLinks(objs: map<Id, Link>, fields: set<Field>) returns (out: Outcome)
      modifies this
      ensures (Store(), out) == Apply(old(Store()), BulkUpdate(objs, fields))
    {
      if TokenField in fields && exists id :: id in objs && !UsableToken(objs[id].token) {
        return TokenRequired;
      }
      out := WriteRows(objs, fields);
    }

    method UpdateLinksWith(computed: map<Id, Link>, fields: set<Field>, plainToken: Option<string>) returns (out: Outcome)
      modifies this
      ensures (Store(), out) == Apply(old(Store()), UpdateWith(computed, fields, plainToken))
    {
      if TokenField in fields && plainToken.Some? {
        if !UsableToken(plainToken.value) {
          return TokenRequired;
        }
      }
      out := WriteRows(Values(computed, plainToken), fields);
    }

    /** Neither guard is on this path. */
    method BulkCreateLinks(rows: map<Id, Link>, upsert: Option<set<Field>>) returns (out: Outcome)
      modifies this
      ensures (Store(), out) == Apply(old(Store()), BulkCreate(rows, upsert))
    {
      if upsert.None? && SomeStored(links, rows) {
        return ConstraintViolated;
      }
      var after := Upserted(links, rows, if upsert.Some? then upsert.value else {});
      if !ConstraintsHold(after) {
        return ConstraintViolated;
      }
      links := after;
      return Written;
    }

    /** The guard every kind of update shares. */
    method WriteRows(values: map<Id, Link>, fields: set<Field>) returns (out: Outcome)
      modifies this
      ensures (Store(), out) ==
        if fields * FROZEN != {} && HasVisit(old(Store()), values.Keys) then (old(Store()), Frozen)
        else Commit(old(Store()), Updated(old(links), values, fields))
    {
      var frozen := fields * FROZEN;
      var hasVisit := exists id :: id in values.Keys && id in links && Visited(visits, id);
      if frozen != {} && hasVisit {
        return Frozen;
      }
      var after := Updated(links, values, fields);
      if !ConstraintsHold(after) {
        return ConstraintViolated;
      }
      links := after;
      return Written;
    }

    method RecordVisit(visit: Id, id: Id) returns (out: Outcome)
      modifies this
      ensures (Store(), out) == Apply(old(Store()), Visit(visit, id))
    {
      if id !in links {
        return RowMissing;
      }
      if visit in visits {
        return ConstraintViolated;
      }
      visits := visits[visit := id];
      return Written;
    }

    /** Visits refuse a second save and every delete, but not an update of a query set. */
    method UpdateVisits(to: map<Id, Id>) returns (out: Outcome)
      modifies this
      ensures (Store(), out) == Apply(old(Store()), MoveVisits(to))
    {
      if !(forall v :: v in to && v in visits ==> to[v] in links) {
        return ConstraintViolated;
      }
      visits := Moved(visits, to);
      return Written;
    }
  }

  lemma NoFrozenFieldNoChange(row: Link, source: Link, fields: set<Field>)
    ensures fields * FROZEN == {} ==> !FrozenChanged(row, source, fields)
  {
    assert forall f :: f in fields && f in FROZEN ==> f in fields * FROZEN;
  }

  function DbAfter(writes: seq<Write>): Db {
    if writes == [] then Db(map[], map[]) else Apply(DbAfter(writes[..|writes| - 1]), writes[|writes| - 1]).0
  }

  predicate SameClassification(a: Link, b: Link) {
    a.channel == b.channel && a.source == b.source && a.campaign == b.campaign && a.content == b.content
  }

  /** Every visited link of `before` has the same classification in `after`. */
  ghost predicate ClassificationKept(before: Db, after: Db) {
    forall id :: id in before.links && Visited(before.visits, id) ==>
      id in after.links && SameClassification(before.links[id], after.links[id])
  }

  ghost predicate TokensUsable(db: Db) {
    forall id :: id in db.links ==> UsableToken(db.links[id].token)
  }

  /** Some visited link would get another value in a frozen field. */
  predicate ChangesVisited(db: Db, values: map<Id, Link>, fields: set<Field>) {
    exists id :: id in values && id in db.links && Visited(db.visits, id) && FrozenChanged(db.links[id], values[id], fields)
  }

  /** The write is an upsert or an unguarded update whose fields include a frozen one that differs for a visited link. */
  predicate Reclassifies(db: Db, w: Write) {
    match w
    case BulkCreate(rows, upsert) => upsert.Some? && ChangesVisited(db, rows, upsert.value)
    case Unguarded(rows, fields) => ChangesVisited(db, rows, fields)
    case _ => false
  }

  /** The write moves every visit of the link to other links, and none to it. */
  predicate StripsVisits(db: Db, w: Write, id: Id) {
    && w.MoveVisits?
    && (forall v :: v in db.visits && db.visits[v] == id ==> v in w.to)
    && (forall v :: v in db.visits && v in w.to ==> w.to[v] != id)
  }

  /** The write is a bulk create, an update with a computed token or an unguarded one, and gives some row a blank token. */
  predicate WritesBlankToken(db: Db, w: Write) {
    match w
    case BulkCreate(rows, upsert) =>
      exists id :: id in rows && !UsableToken(rows[id].token)
        && (id !in db.links || (upsert.Some? && TokenField in upsert.value))
    case UpdateWith(computed, fields, plainToken) =>
      plainToken.None? && TokenField in fields && exists id :: id in computed && id in db.links && !UsableToken(computed[id].token)
    case Unguarded(rows, fields) =>
      TokenField in fields && exists id :: id in rows && id in db.links && !UsableToken(rows[id].token)
    case _ => false
  }

  // ---------------------------------------------------------------- frozen fields

  lemma GuardedUpdateKeepsClassification(db: Db, values: map<Id, Link>, fields: set<Field>)
    requires fields * FROZEN == {} || !HasVisit(db, values.Keys)
    ensures ClassificationKept(db, Commit(db, Updated(db.links, values, fields)).0)
  {
    assert forall f :: f in fields && f in FROZEN ==> f in fields * FROZEN;
  }

  lemma SaveKeepsClassification(db: Db, id: Id, link: Link, only: Option<set<Field>>)
    ensures ClassificationKept(db, Apply(db, Save(id, link, only)).0)
  {}

  lemma WriteKeepsClassificationIff(db: Db, values: map<Id, Link>, fields: set<Field>, after: map<Id, Link>)
    requires forall id :: id in db.links ==>
               id in after && after[id] == if id in values then Overlay(db.links[id], values[id], fields) else db.links[id]
    ensures ClassificationKept(db, db.(links := after)) <==> !ChangesVisited(db, values, fields)
  {
    forall id | id in db.links
      ensures SameClassification(db.links[id], after[id]) <==> !(id in values && FrozenChanged(db.links[id], values[id], fields))
    {}
  }

  /**
   * A write that goes through changes the classification of some visited link exactly when it is an
   * upsert or an unguarded update with a differing frozen field; one that is refused changes nothing.
   */
  lemma OnlyUnguardedWritesReclassify(db: Db, w: Write)
    ensures Apply(db, w).1.Written? ==> (ClassificationKept(db, Apply(db, w).0) <==> !Reclassifies(db, w))
    ensures !Apply(db, w).1.Written? ==> Apply(db, w).0 == db
  {
    if Apply(db, w).1.Written? {
      match w
      case Save(id, link, only) => SaveKeepsClassification(db, id, link, only);
      case Update(ids, values, fields) => GuardedUpdateKeepsClassification(db, map id | id in ids :: values, fields);
      case UpdateWith(computed, fields, token) => GuardedUpdateKeepsClassification(db, Values(computed, token), fields);
      case BulkUpdate(objs, fields) => GuardedUpdateKeepsClassification(db, objs, fields);
      case BulkCreate(rows, upsert) =>
        WriteKeepsClassificationIff(db, rows, if upsert.Some? then upsert.value else {}, Apply(db, w).0.links);
      case Unguarded(rows, fields) => WriteKeepsClassificationIff(db, rows, fields, Apply(db, w).0.links);
      case _ =>
    }
  }

  /** A write leaves a visited link without a visit exactly when it moves all its visits away. */
  lemma OnlyMovesUnvisit(db: Db, w: Write, id: Id)
    requires Visited(db.visits, id)
    ensures Apply(db, w).1.Written? ==> (Visited(Apply(db, w).0.visits, id) <==> !StripsVisits(db, w, id))
  {
    var v :| v in db.visits && db.visits[v] == id;
    var after := Apply(db, w).0.visits;
    if w.MoveVisits? && Apply(db, w).1.Written? {
      assert after == Moved(db.visits, w.to);
      if !StripsVisits(db, w, id) {
        var u :| u in db.visits && if db.visits[u] == id then u !in w.to || w.to[u] == id else u in w.to && w.to[u] == id;
        assert after[u] == id;
      }
    } else {
      assert after[v] == id;
    }
  }

  /** The link is stored at both ends of the run's part, with the same classification. */
  ghost predicate SameLink(writes: seq<Write>, i: nat, j: nat, id: Id)
    requires i <= j <= |writes|
  {
    var before, after := DbAfter(writes[..i]).links, DbAfter(writes[..j]).links;
    id in before && id in after && SameClassification(before[id], after[id])
  }

  ghost predicate VisitedAt(writes: seq<Write>, k: nat, id: Id)
    requires k <= |writes|
  {
    Visited(DbAfter(writes[..k]).visits, id)
  }

  ghost predicate ReclassifiesAt(writes: seq<Write>, k: nat)
    requires k < |writes|
  {
    Reclassifies(DbAfter(writes[..k]), writes[k])
  }

  ghost predicate StripsVisitsAt(writes: seq<Write>, k: nat, id: Id)
    requires k < |writes|
  {
    StripsVisits(DbAfter(writes[..k]), writes[k], id)
  }

  lemma NextWriteKeepsLink(writes: seq<Write>, j: nat, id: Id)
    requires j < |writes| && id in DbAfter(writes[..j]).links && VisitedAt(writes, j, id) && !ReclassifiesAt(writes, j)
    ensures SameLink(writes, j, j + 1, id)
    ensures VisitedAt(writes, j + 1, id) || StripsVisitsAt(writes, j, id)
  {
    var db := DbAfter(writes[..j]);
    assert writes[..j + 1][..j] == writes[..j];
    OnlyUnguardedWritesReclassify(db, writes[j]);
    OnlyMovesUnvisit(db, writes[j], id);
    assert Apply(db, writes[j]).1.Written? ==> ClassificationKept(db, Apply(db, writes[j]).0);
  }

  /**
   * In every run without a reclassifying write, by any mix of the others, a link keeps its channel, source,
   * campaign and content for as long as it has a visit.
   */
  lemma {:induction false} ClassificationFrozenWhileVisited(writes: seq<Write>, i: nat, j: nat, id: Id)
    requires i <= j <= |writes| && id in DbAfter(writes[..i]).links
    requires forall k :: i <= k < j ==> VisitedAt(writes, k, id) && !ReclassifiesAt(writes, k)
    ensures SameLink(writes, i, j, id)
    decreases j
  {
    if i < j {
      ClassificationFrozenWhileVisited(writes, i, j - 1, id);
      NextWriteKeepsLink(writes, j - 1, id);
    }
  }

  lemma {:induction false} VisitedUntilStripped(writes: seq<Write>, i: nat, j: nat, id: Id)
    requires i <= j <= |writes| && id in DbAfter(writes[..i]).links && VisitedAt(writes, i, id)
    requires forall k :: i <= k < j ==> !ReclassifiesAt(writes, k) && !StripsVisitsAt(writes, k, id)
    ensures SameLink(writes, i, j, id) && VisitedAt(writes, j, id)
    decreases j
  {
    if i < j {
      VisitedUntilStripped(writes, i, j - 1, id);
      NextWriteKeepsLink(writes, j - 1, id);
    }
  }

  /** So from its first visit on, unless all its visits are moved away. */
  lemma ClassificationFrozenByFirstVisit(writes: seq<Write>, i: nat, j: nat, id: Id)
    requires i <= j <= |writes| && id in DbAfter(writes[..i]).links && VisitedAt(writes, i, id)
    requires forall k :: i <= k < j ==> !ReclassifiesAt(writes, k) && !StripsVisitsAt(writes, k, id)
    ensures SameLink(writes, i, j, id)
  {
    VisitedUntilStripped(writes, i, j, id);
  }

  const SAMPLE := Link("c", "ads", "", "", "t", "", 0, true)

  lemma TokenOfSample()
    ensures UsableToken("t") && UsableToken("u")
  {
    assert "t"[0] == 't' && "u"[0] == 'u';
    assert !IsSpace('t') && !IsSpace('u');
  }

  /** The first exception is real: an upsert moves a visited link to another source. */
  lemma UpsertMovesVisitedLink()
    ensures var db := Db(map["l" := SAMPLE], map["v" := "l"]);
            var w := BulkCreate(map["l" := SAMPLE.(source := "mail")], Some({SourceField}));
            && DbAfter([Insert("l", SAMPLE), Visit("v", "l")]) == db
            && Apply(db, w) == (db.(links := map["l" := SAMPLE.(source := "mail")]), Written)
  {
    VisitedSample();
    assert Upserted(map["l" := SAMPLE], map["l" := SAMPLE.(source := "mail")], {SourceField}) == map["l" := SAMPLE.(source := "mail")];
  }

  lemma VisitedSample()
    ensures DbAfter([Insert("l", SAMPLE), Visit("v", "l")]) == Db(map["l" := SAMPLE], map["v" := "l"])
  {
    var one, two := [Insert("l", SAMPLE)], [Insert("l", SAMPLE), Visit("v", "l")];
    TokenOfSample();
    assert one[..0] == [] && two[..1] == one;
    assert DbAfter(one) == Db(map["l" := SAMPLE], map[]);
  }

  /** The second too: another channel's related manager takes a visited link over. */
  lemma RelatedAddMovesVisitedLink()
    ensures var db := Db(map["l" := SAMPLE], map["v" := "l"]);
            && DbAfter([Insert("l", SAMPLE), Visit("v", "l")]) == db
            && Apply(db, RelatedAdd({"l"}, "d")) == (db.(links := map["l" := SAMPLE.(channel := "d")]), Written)
  {
    VisitedSample();
    var w := RelatedAdd({"l"}, "d");
    assert Updated(map["l" := SAMPLE], w.rows, {ChannelField}) == map["l" := SAMPLE.(channel := "d")];
  }

  /** `l` is visited once, `m` is another link. */
  const TWO_LINKS := map["l" := SAMPLE, "m" := SAMPLE.(token := "u")]

  /** And once its visits are moved, a link's frozen fields are open to a guarded update again. */
  lemma MovedVisitsUnfreezeLink()
    ensures var db := Db(TWO_LINKS, map["v" := "l"]);
            var moved := Db(TWO_LINKS, map["v" := "m"]);
            var w := Update({"l"}, SAMPLE.(source := "mail"), {SourceField});
            && Apply(db, w) == (db, Frozen)
            && Apply(db, MoveVisits(map["v" := "m"])) == (moved, Written)
            && Apply(moved, w) == (moved.(links := TWO_LINKS["l" := SAMPLE.(source := "mail")]), Written)
  {
    var db, moved := Db(TWO_LINKS, map["v" := "l"]), Db(TWO_LINKS, map["v" := "m"]);
    assert SourceField in {SourceField} * FROZEN;
    assert db.visits["v"] == "l";
    assert Moved(db.visits, map["v" := "m"]) == moved.visits;
    SourceOfFirstOfTwo(moved.visits);
  }

  lemma SourceOfFirstOfTwo(visits: map<Id, Id>)
    requires !Visited(visits, "l")
    ensures Apply(Db(TWO_LINKS, visits), Update({"l"}, SAMPLE.(source := "mail"), {SourceField}))
            == (Db(TWO_LINKS["l" := SAMPLE.(source := "mail")], visits), Written)
  {
    var mail, ids := SAMPLE.(source := "mail"), {"l"};
    assert !HasVisit(Db(TWO_LINKS, visits), ids);
    var after := Updated(TWO_LINKS, map id | id in ids :: mail, {SourceField});
    assert after == TWO_LINKS["l" := mail];
  }

  // ---------------------------------------------------------------- tokens

  lemma UpdateKeepsTokensIff(db: Db, values: map<Id, Link>, fields: set<Field>)
    requires TokensUsable(db)
    ensures TokensUsable(db.(links := Updated(db.links, values, fields))) <==>
              !(TokenField in fields && exists id :: id in values && id in db.links && !UsableToken(values[id].token))
  {
    var after := Updated(db.links, values, fields);
    forall id | id in db.links
      ensures id in after && (UsableToken(after[id].token) <==> !(TokenField in fields && id in values && !UsableToken(values[id].token)))
    {}
  }

  lemma BulkCreateKeepsTokensIff(db: Db, rows: map<Id, Link>, upsert: Option<set<Field>>)
    requires TokensUsable(db)
    ensures TokensUsable(db.(links := Upserted(db.links, rows, if upsert.Some? then upsert.value else {}))) <==>
              !WritesBlankToken(db, BulkCreate(rows, upsert))
  {
    var after := Upserted(db.links, rows, if upsert.Some? then upsert.value else {});
    forall id | id in after
      ensures UsableToken(after[id].token) <==>
        !(id in rows && !UsableToken(rows[id].token) && (id !in db.links || (upsert.Some? && TokenField in upsert.value)))
    {}
    forall id | id in rows ensures id in after {}
  }

  /**
   * With only usable tokens stored, a write that goes through stores a blank one exactly when it is a
   * bulk create, an update with a computed token or an unguarded one, and gives some row a blank token.
   */
  lemma OnlyUnguardedWritesStoreBlank(db: Db, w: Write)
    requires TokensUsable(db) && Apply(db, w).1.Written?
    ensures TokensUsable(Apply(db, w).0) <==> !WritesBlankToken(db, w)
  {
    match w
    case Update(ids, values, fields) => UpdateKeepsTokensIff(db, map id | id in ids :: values, fields);
    case UpdateWith(computed, fields, token) => UpdateKeepsTokensIff(db, Values(computed, token), fields);
    case BulkUpdate(objs, fields) => UpdateKeepsTokensIff(db, objs, fields);
    case BulkCreate(rows, upsert) => BulkCreateKeepsTokensIff(db, rows, upsert);
    case Unguarded(rows, fields) => UpdateKeepsTokensIff(db, rows, fields);
    case _ =>
  }

  lemma RefusedWriteKeepsTokens(db: Db, w: Write)
    requires TokensUsable(db) && !Apply(db, w).1.Written?
    ensures TokensUsable(Apply(db, w).0)
  {
    OnlyUnguardedWritesReclassify(db, w);
  }

  /** No run stores a blank token unless it has such a write. */
  lemma {:induction false} NoBlankTokenIsStored(writes: seq<Write>)
    requires forall k :: 0 <= k < |writes| ==> !WritesBlankToken(DbAfter(writes[..k]), writes[k])
    ensures TokensUsable(DbAfter(writes))
  {
    if writes != [] {
      var n := |writes| - 1;
      forall k | 0 <= k < n ensures !WritesBlankToken(DbAfter(writes[..n][..k]), writes[..n][k]) {
        assert writes[..n][..k] == writes[..k];
      }
      NoBlankTokenIsStored(writes[..n]);
      if Apply(DbAfter(writes[..n]), writes[n]).1.Written? {
        OnlyUnguardedWritesStoreBlank(DbAfter(writes[..n]), writes[n]);
      } else {
        RefusedWriteKeepsTokens(DbAfter(writes[..n]), writes[n]);
      }
    }
  }

  /** Both exceptions are real: a bulk create stores a blank token, and so does an update with an expression. */
  lemma BlankTokensCanBeStored()
    ensures var blank := Link("c", "", "", "", "", "", 0, true);
            Apply(Db(map[], map[]), BulkCreate(map["l" := blank], None)) == (Db(map["l" := blank], map[]), Written)
    ensures var link := Link("c", "", "", "", "t", "", 0, true);
            var blank := link.(token := "");
            Apply(Db(map["l" := link], map[]), UpdateWith(map["l" := blank], {TokenField}, None)) == (Db(map["l" := blank], map[]), Written)
    ensures IsBlank("")
  {
    var blank := Link("c", "", "", "", "", "", 0, true);
    assert Upserted(map[], map["l" := blank], {}) == map["l" := blank];
    var link := Link("c", "", "", "", "t", "", 0, true);
    assert Values(map["l" := link.(token := "")], None) == map["l" := link.(token := "")];
    assert Updated(map["l" := link], map["l" := link.(token := "")], {TokenField}) == map["l" := link.(token := "")];
  }

  // ---------------------------------------------------------------- what stays possible

  lemma {:induction false} ConstraintsAlwaysHold(writes: seq<Write>)
    ensures ConstraintsHold(DbAfter(writes).links)
  {
    if writes != [] {
      ConstraintsAlwaysHold(writes[..|writes| - 1]);
    }
  }

  /** After any run, a new link is stored exactly when its token is usable and unused, its id new, its bonus not negative. */
  lemma InsertGoesThroughIff(writes: seq<Write>, id: Id, link: Link)
    ensures var links := DbAfter(writes).links;
            Apply(DbAfter(writes), Insert(id, link)).1.Written? <==>
              && HasInk(link.token) && id !in links && link.bonus >= 0
              && forall a :: a in links ==> links[a].token != link.token
  {
    ConstraintsAlwaysHold(writes);
    var links := DbAfter(writes).links;
    var after := links[id := link];
    if ConstraintsHold(after) && id !in links {
      forall a | a in links ensures links[a].token != link.token {
        assert after[a].token != after[id].token;
      }
      assert after[id].bonus >= 0;
    }
  }

  /** The guards refuse no more than that: name, bonus and activity stay writable, visited or not. */
  lemma OtherFieldsStayWritable(writes: seq<Write>, ids: set<Id>, values: Link, fields: set<Field>)
    requires fields <= {LabelField, BonusField, ActiveField} && values.bonus >= 0
    ensures var db := DbAfter(writes);
            var (after, out) := Apply(db, Update(ids, values, fields));
            && out.Written? && after.visits == db.visits
            && (forall id :: id in db.links && id in ids ==>
                  id in after.links && after.links[id] == Overlay(db.links[id], values, fields))
            && (forall id :: id in db.links && id !in ids ==> id in after.links && after.links[id] == db.links[id])
  {
    ConstraintsAlwaysHold(writes);
    assert fields * FROZEN == {};
    assert TokenField !in fields;
  }

  // ---------------------------------------------------------------- what each call does

  /** `after` is `row` with the chosen columns of `source`. */
  ghost predicate TakesColumns(row: Link, source: Link, fields: set<Field>, after: Link) {
    && after.channel == (if ChannelField in fields then source.channel else row.channel)
    && after.source == (if SourceField in fields then source.source else row.source)
    && after.campaign == (if CampaignField in fields then source.campaign else row.campaign)
    && after.content == (if ContentField in fields then source.content else row.content)
    && after.token == (if TokenField in fields then source.token else row.token)
    && after.name == (if LabelField in fields then source.name else row.name)
    && after.bonus == (if BonusField in fields then source.bonus else row.bonus)
    && after.active == (if ActiveField in fields then source.active else row.active)
  }

  /** Some character of the text is not white space. */
  ghost predicate HasInk(text: string) {
    exists i :: 0 <= i < |text| && !IsSpace(text[i])
  }

  /** A save without a list of fields writes them all. */
  ghost function Chosen(only: Option<set<Field>>): set<Field> {
    if only.Some? then only.value
    else {ChannelField, SourceField, CampaignField, ContentField, TokenField, LabelField, BonusField, ActiveField}
  }

  lemma InkIsUsable(text: string)
    ensures UsableToken(text) <==> HasInk(text)
  {}

  /** Links that differ from lawful ones in one place are lawful if that place is. */
  lemma OneLinkChanged(links: map<Id, Link>, id: Id, link: Link)
    requires ConstraintsHold(links)
    ensures ConstraintsHold(links[id := link]) <==>
              link.bonus >= 0 && forall a :: a in links && a != id ==> links[a].token != link.token
  {
    var after := links[id := link];
    assert after[id] == link;
    if ConstraintsHold(after) {
      forall a | a in links && a != id ensures links[a].token != link.token {
        assert after[a] == links[a];
      }
    }
  }

  /**
   * After any run, what a save of a stored link answers: a token without ink is refused; a change of a chosen
   * frozen field of a visited link is refused; a token of another link or a negative bonus breaks a
   * constraint; every other save goes through, and then its row takes the chosen columns, every other link
   * and all visits as before.
   */
  lemma SaveGoesThroughIff(writes: seq<Write>, id: Id, link: Link, only: Option<set<Field>>)
    requires id in DbAfter(writes).links
    ensures var db, fields := DbAfter(writes), Chosen(only);
            var (after, out) := Apply(db, Save(id, link, only));
            var frozen := Visited(db.visits, id) && (
              || (ChannelField in fields && link.channel != db.links[id].channel)
              || (SourceField in fields && link.source != db.links[id].source)
              || (CampaignField in fields && link.campaign != db.links[id].campaign)
              || (ContentField in fields && link.content != db.links[id].content));
            && (out == TokenRequired <==> !HasInk(link.token))
            && (out == Frozen <==> HasInk(link.token) && frozen)
            && (out == Written <==>
                  && HasInk(link.token) && !frozen
                  && (TokenField in fields ==> forall a :: a in db.links && a != id ==> db.links[a].token != link.token)
                  && (BonusField in fields ==> link.bonus >= 0))
            && out != RowMissing
            && (out.Written? ==>
                  && after.visits == db.visits && after.links.Keys == db.links.Keys
                  && TakesColumns(db.links[id], link, fields, after.links[id])
                  && forall a :: a in db.links && a != id ==> after.links[a] == db.links[a])
            && (!out.Written? ==> after == db)
  {
    var db, fields := DbAfter(writes), Chosen(only);
    ConstraintsAlwaysHold(writes);
    InkIsUsable(link.token);
    AllFieldsAreChosen(only);
    OneLinkChanged(db.links, id, Overlay(db.links[id], link, fields));
    OwnTokenIsFree(db.links, id);
  }

  lemma AllFieldsAreChosen(only: Option<set<Field>>)
    ensures Chosen(only) == if only.Some? then only.value else ALL_FIELDS
  {}

  lemma OwnTokenIsFree(links: map<Id, Link>, id: Id)
    requires ConstraintsHold(links) && id in links
    ensures links[id].bonus >= 0 && forall a :: a in links && a != id ==> links[a].token != links[id].token
  {}

  /** A save of an object whose row is gone inserts it, unless it chooses fields. */
  lemma SaveOfMissingRow(db: Db, id: Id, link: Link, only: Option<set<Field>>)
    requires id !in db.links
    ensures Apply(db, Save(id, link, only)) ==
              if HasInk(link.token) && only.Some? then (db, RowMissing) else Apply(db, Insert(id, link))
  {}

  /** The rows that an update hits take the chosen columns; all else stays. */
  ghost predicate UpdatesRows(db: Db, values: map<Id, Link>, fields: set<Field>, after: Db) {
    && after.visits == db.visits && after.links.Keys == db.links.Keys
    && (forall id :: id in db.links && id in values ==> TakesColumns(db.links[id], values[id], fields, after.links[id]))
    && (forall id :: id in db.links && id !in values ==> after.links[id] == db.links[id])
  }

  ghost predicate NamesFrozen(fields: set<Field>) {
    ChannelField in fields || SourceField in fields || CampaignField in fields || ContentField in fields
  }

  lemma FrozenIsNamed(fields: set<Field>)
    ensures NamesFrozen(fields) <==> fields * FROZEN != {}
  {
    var named := fields * FROZEN;
    assert ChannelField in named <==> ChannelField in fields;
    assert SourceField in named <==> SourceField in fields;
    assert CampaignField in named <==> CampaignField in fields;
    assert ContentField in named <==> ContentField in fields;
    assert forall f :: f in named ==> f in {ChannelField, SourceField, CampaignField, ContentField};
  }

  /** A guarded update is refused for frozen fields of a set that holds a visited link, and for nothing else of the guard. */
  lemma GuardedUpdateAnswers(db: Db, values: map<Id, Link>, fields: set<Field>, out: (Db, Outcome))
    requires out == if fields * FROZEN != {} && HasVisit(db, values.Keys) then (db, Frozen) else Commit(db, Updated(db.links, values, fields))
    ensures out.1 in {Frozen, Written, ConstraintViolated}
    ensures out.1 == Frozen <==> NamesFrozen(fields) && exists id :: id in values && id in db.links && Visited(db.visits, id)
    ensures out.1 == Written ==> UpdatesRows(db, values, fields, out.0)
    ensures out.1 == ConstraintViolated ==> !ConstraintsHold(Updated(db.links, values, fields))
    ensures out.1 != Written ==> out.0 == db
  {
    FrozenIsNamed(fields);
  }

  /**
   * The three kinds of update: a plain token without ink is refused first, then frozen fields of a set that
   * holds a visited link; what passes is written to the rows it hits unless that breaks a constraint.
   */
  lemma UpdatesGoThroughIff(db: Db, w: Write)
    requires w.Update? || w.UpdateWith? || w.BulkUpdate?
    ensures var values := match w
              case Update(ids, values, _) => map id | id in ids :: values
              case UpdateWith(computed, _, plain) => Values(computed, plain)
              case BulkUpdate(objs, _) => objs
              case _ => map[];
            var noInk := match w
              case Update(_, values, _) => !HasInk(values.token)
              case UpdateWith(_, _, plain) => plain.Some? && !HasInk(plain.value)
              case BulkUpdate(objs, _) => exists id :: id in objs && !HasInk(objs[id].token)
              case _ => false;
            var (after, out) := Apply(db, w);
            && (out == TokenRequired <==> TokenField in w.fields && noInk)
            && (out == Frozen <==>
                  && !(TokenField in w.fields && noInk)
                  && NamesFrozen(w.fields) && exists id :: id in values && id in db.links && Visited(db.visits, id))
            && (out == Written ==> UpdatesRows(db, values, w.fields, after))
            && (out == ConstraintViolated ==> !ConstraintsHold(Updated(db.links, values, w.fields)))
            && out != RowMissing && (out != Written ==> after == db)
  {
    match w
    case Update(ids, values, fields) =>
      InkIsUsable(values.token);
      var same := map id | id in ids :: values;
      assert same.Keys == ids;
      if Apply(db, w).1 != TokenRequired {
        GuardedUpdateAnswers(db, same, fields, Apply(db, w));
      }
    case UpdateWith(computed, fields, plain) =>
      if plain.Some? {
        InkIsUsable(plain.value);
      }
      assert Values(computed, plain).Keys == computed.Keys;
      if Apply(db, w).1 != TokenRequired {
        GuardedUpdateAnswers(db, Values(computed, plain), fields, Apply(db, w));
      }
    case BulkUpdate(objs, fields) =>
      forall id | id in objs ensures UsableToken(objs[id].token) <==> HasInk(objs[id].token) {
        InkIsUsable(objs[id].token);
      }
      if Apply(db, w).1 != TokenRequired {
        GuardedUpdateAnswers(db, objs, fields, Apply(db, w));
      }
    case _ =>
  }

  /** A plain token is what every row gets; without one each row gets what its expression gives. */
  lemma PlainTokenGoesEverywhere(computed: map<Id, Link>, plain: Option<string>, id: Id)
    requires id in computed
    ensures var link := Values(computed, plain)[id];
            && link == computed[id].(token := link.token)
            && link.token == if plain.Some? then plain.value else computed[id].token
  {}

  /** Rows that are hit take the chosen columns, the others are inserted. */
  ghost predicate StoresAll(links: map<Id, Link>, rows: map<Id, Link>, fields: set<Field>, after: map<Id, Link>) {
    && after.Keys == links.Keys + rows.Keys
    && (forall id :: id in links && id !in rows ==> after[id] == links[id])
    && (forall id :: id in rows && id !in links ==> after[id] == rows[id])
    && (forall id :: id in links && id in rows ==> TakesColumns(links[id], rows[id], fields, after[id]))
  }

  lemma UpsertedStoresAll(links: map<Id, Link>, rows: map<Id, Link>, fields: set<Field>)
    ensures StoresAll(links, rows, fields, Upserted(links, rows, fields))
  {
    var after := Upserted(links, rows, fields);
    assert after.Keys == links.Keys + rows.Keys;
    forall id | id in links && id in rows ensures TakesColumns(links[id], rows[id], fields, after[id]) {
      assert after[id] == Overlay(links[id], rows[id], fields);
    }
  }

  /**
   * A bulk create stores every object or none: rows it hits take the upsert's columns, the others are
   * inserted. Nothing but a constraint, or a hit without an upsert, refuses it.
   */
  lemma BulkCreateStores(db: Db, rows: map<Id, Link>, upsert: Option<set<Field>>)
    ensures var fields := if upsert.Some? then upsert.value else {};
            var (after, out) := Apply(db, BulkCreate(rows, upsert));
            && (out.Written? ==> after.visits == db.visits && StoresAll(db.links, rows, fields, after.links))
            && (!out.Written? ==> out == ConstraintViolated && after == db)
            && (out.Written? <==>
                  && (upsert.None? ==> forall id :: id in rows ==> id !in db.links)
                  && ConstraintsHold(Upserted(db.links, rows, fields)))
  {
    UpsertedStoresAll(db.links, rows, if upsert.Some? then upsert.value else {});
  }

  /** A write past the model's methods updates the rows it hits, unless that breaks a constraint. */
  lemma UnguardedWriteStores(db: Db, rows: map<Id, Link>, fields: set<Field>)
    ensures var (after, out) := Apply(db, Unguarded(rows, fields));
            && (out.Written? ==> UpdatesRows(db, rows, fields, after))
            && (!out.Written? ==> out == ConstraintViolated && after == db)
            && (out.Written? <==> ConstraintsHold(Updated(db.links, rows, fields)))
  {}

  /** A visit is stored for an existing link under a new id, and moved only to existing links; nothing is deleted. */
  lemma VisitsAndDeletes(db: Db, visit: Id, id: Id, to: map<Id, Id>, ids: set<Id>)
    ensures var (after, out) := Apply(db, Visit(visit, id));
            && (out == Written <==> id in db.links && visit !in db.visits)
            && (out == RowMissing <==> id !in db.links)
            && after == if out.Written? then db.(visits := db.visits[visit := id]) else db
    ensures var (after, out) := Apply(db, MoveVisits(to));
            && (out == Written <==> forall v :: v in to && v in db.visits ==> to[v] in db.links)
            && after.links == db.links && after.visits.Keys == db.visits.Keys
            && (out == Written ==> forall v :: v in db.visits ==> after.visits[v] == if v in to then to[v] else db.visits[v])
            && (out != Written ==> after == db && out == ConstraintViolated)
    ensures Apply(db, Delete(ids)) == (db, Frozen)
  {}
}
