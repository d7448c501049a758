/** Purchase-time coverage snapshots: provider coverages merged per country in one pass. */
module Coverage {
  import opened Wrappers
  import opened Ordering

  /** A decoded provider value. `text` is what `str()` gives for a value that is not a string. */
  datatype Value =
    | Null
    | Text(s: string)
    | Items(elems: seq<Value>, text: string)
    | Record(fields: map<string, Value>, text: string)
    | Other(text: string, truthy: bool)

  /** The string primitives, left abstract: `fold` gives the code points of the case-folded text. */
  datatype TextRules = TextRules(strip: string -> string, upper: string -> string, fold: string -> SortKey)

  datatype Country = Country(code: string, name: Option<string>, operators: seq<string>)

  function Get(fields: map<string, Value>, field: string): Value {
    if field in fields then fields[field] else Null
  }

  function Str(v: Value): string {
    match v
    case Null => "None"
    case Text(s) => s
    case Items(_, text) => text
    case Record(_, text) => text
    case Other(text, _) => text
  }

  predicate Truthy(v: Value) {
    match v
    case Null => false
    case Text(s) => s != ""
    case Items(elems, _) => elems != []
    case Record(fields, _) => fields != map[]
    case Other(_, truthy) => truthy
  }

  function StrOrEmpty(v: Value): string { if Truthy(v) then Str(v) else "" }

  predicate IsCountryCode(s: string) {
    |s| == 2 && 'A' <= s[0] <= 'Z' && 'A' <= s[1] <= 'Z'
  }

  /** The first of two fields that is present and not null. */
  function Either(fields: map<string, Value>, first: string, second: string): Value {
    if Get(fields, first).Null? then Get(fields, second) else Get(fields, first)
  }

  function CodeOf(rules: TextRules, fields: map<string, Value>): string {
    rules.upper(rules.strip(StrOrEmpty(Either(fields, "code", "country_code"))))
  }

  function NameOf(rules: TextRules, fields: map<string, Value>): Option<string> {
    var raw := Either(fields, "name", "country_name");
    if raw.Null? || rules.strip(Str(raw)) == "" then None else Some(rules.strip(Str(raw)))
  }

  /** The trimmed name of one network, empty for a value that is neither a record nor a string. */
  function TrimmedName(rules: TextRules, net: Value): string {
    match net
    case Record(fields, _) => rules.strip(StrOrEmpty(Get(fields, "name")))
    case Text(s) => rules.strip(s)
    case _ => ""
  }

  function NetworkName(rules: TextRules, net: Value): Option<string> {
    if TrimmedName(rules, net) == "" then None else Some(TrimmedName(rules, net))
  }

  function NamesIn(rules: TextRules, nets: seq<Value>): seq<string> {
    if nets == [] then []
    else
      var before := NamesIn(rules, nets[..|nets| - 1]);
      match NetworkName(rules, nets[|nets| - 1])
      case None => before
      case Some(name) => before + [name]
  }

  function NetworkNames(rules: TextRules, networks: Value): seq<string> {
    if networks.Items? then NamesIn(rules, networks.elems) else []
  }

  // ---------------------------------------------------------------- operators

  predicate HasFold(rules: TextRules, names: seq<string>, fold: SortKey) {
    exists i :: 0 <= i < |names| && rules.fold(names[i]) == fold
  }

  /** Keeps the first spelling of each name. */
  function Dedupe(rules: TextRules, names: seq<string>): seq<string> {
    if names == [] then []
    else
      var before := Dedupe(rules, names[..|names| - 1]);
      var last := names[|names| - 1];
      if HasFold(rules, before, rules.fold(last)) then before else before + [last]
  }

  /** One normalisation of a list of names. */
  function Operators(rules: TextRules, names: seq<string>): seq<string> {
    Sort(Dedupe(rules, names), rules.fold)
  }

  function Folds(rules: TextRules, names: seq<string>): set<SortKey> {
    set i | 0 <= i < |names| :: rules.fold(names[i])
  }

  /** One turn of either deduplicating loop. */
  lemma DedupeSnoc(rules: TextRules, names: seq<string>, name: string)
    ensures var kept := Dedupe(rules, names);
            var fold := rules.fold(name);
            && (HasFold(rules, kept, fold) <==> fold in Folds(rules, kept))
            && Dedupe(rules, names + [name]) == (if fold in Folds(rules, kept) then kept else kept + [name])
            && Folds(rules, kept + [name]) == Folds(rules, kept) + {fold}
  {
    var kept := Dedupe(rules, names);
    assert (names + [name])[..|names|] == names;
    forall fold | fold in Folds(rules, kept) + {rules.fold(name)}
      ensures fold in Folds(rules, kept + [name])
    {
      if fold in Folds(rules, kept) {
        var i :| 0 <= i < |kept| && rules.fold(kept[i]) == fold;
        assert rules.fold((kept + [name])[i]) == fold;
      } else {
        assert (kept + [name])[|kept|] == name;
      }
    }
  }

  /** One network more: it has no name, its name is known, or its name is appended. */
  lemma NetworkJoins(rules: TextRules, nets: seq<Value>, net: Value)
    ensures var kept := Dedupe(rules, NamesIn(rules, nets));
            var after := Dedupe(rules, NamesIn(rules, nets + [net]));
            match NetworkName(rules, net)
            case None => after == kept
            case Some(name) =>
              && after == (if rules.fold(name) in Folds(rules, kept) then kept else kept + [name])
              && Folds(rules, kept + [name]) == Folds(rules, kept) + {rules.fold(name)}
  {
    assert (nets + [net])[..|nets|] == nets;
    if NetworkName(rules, net).Some? {
      DedupeSnoc(rules, NamesIn(rules, nets), NetworkName(rules, net).value);
    }
  }

  method NormalizeOperators(rules: TextRules, networks: Value) returns (out: seq<string>)
    ensures out == Operators(rules, NetworkNames(rules, networks))
  {
    if !networks.Items? {
      return [];
    }
    var nets := networks.elems;
    var seen: set<SortKey> := {};
    out := [];
    for i := 0 to |nets|
      invariant out == Dedupe(rules, NamesIn(rules, nets[..i]))
      invariant seen == Folds(rules, out)
    {
      assert nets[..i + 1] == nets[..i] + [nets[i]];
      NetworkJoins(rules, nets[..i], nets[i]);
      var name := TrimmedName(rules, nets[i]);
      if name == "" {
        continue;
      }
      var fold := rules.fold(name);
      if fold in seen {
        continue;
      }
      seen := seen + {fold};
      out := out + [name];
    }
    assert nets[..|nets|] == nets;
    out := Sort(out, rules.fold);
  }

  method MergeOperators(rules: TextRules, left: seq<string>, right: seq<string>) returns (merged: seq<string>)
    ensures merged == Operators(rules, left + right)
  {
    var all := left + right;
    var seen: set<SortKey> := {};
    merged := [];
    for i := 0 to |all|
      invariant merged == Dedupe(rules, all[..i])
      invariant seen == Folds(rules, merged)
    {
      assert all[..i + 1] == all[..i] + [all[i]];
      DedupeSnoc(rules, all[..i], all[i]);
      var fold := rules.fold(all[i]);
      if fold in seen {
        continue;
      }
      seen := seen + {fold};
      merged := merged + [all[i]];
    }
    assert all[..|all|] == all;
    merged := Sort(merged, rules.fold);
  }

  /** The earliest spelling with this fold. */
  function First(rules: TextRules, names: seq<string>, fold: SortKey): Option<string> {
    if names == [] then None
    else
      var before := First(rules, names[..|names| - 1], fold);
      if before.Some? then before
      else if rules.fold(names[|names| - 1]) == fold then Some(names[|names| - 1]) else None
  }

  lemma {:induction false} FirstIsMember(rules: TextRules, names: seq<string>, fold: SortKey)
    ensures First(rules, names, fold).Some? ==>
              First(rules, names, fold).value in names && rules.fold(First(rules, names, fold).value) == fold
    ensures First(rules, names, fold).Some? <==> HasFold(rules, names, fold)
  {
    if names != [] {
      var n := |names| - 1;
      FirstIsMember(rules, names[..n], fold);
      assert names == names[..n] + [names[n]];
      HasFoldSnoc(rules, names[..n], names[n], fold);
    }
  }

  lemma HasFoldSnoc(rules: TextRules, names: seq<string>, name: string, fold: SortKey)
    ensures HasFold(rules, names + [name], fold) <==> HasFold(rules, names, fold) || rules.fold(name) == fold
  {
    if HasFold(rules, names, fold) {
      var i :| 0 <= i < |names| && rules.fold(names[i]) == fold;
      assert rules.fold((names + [name])[i]) == fold;
    }
    if rules.fold(name) == fold {
      assert rules.fold((names + [name])[|names|]) == fold;
    }
  }

  lemma {:induction false} FirstOfConcat(rules: TextRules, a: seq<string>, b: seq<string>, fold: SortKey)
    ensures First(rules, a + b, fold) == if First(rules, a, fold).Some? then First(rules, a, fold) else First(rules, b, fold)
  {
    if b == [] {
      assert a + b == a;
    } else {
      var n := |b| - 1;
      assert (a + b)[..|a + b| - 1] == a + b[..n];
      FirstOfConcat(rules, a, b[..n], fold);
    }
  }

  lemma {:induction false} FirstOfDistinct(rules: TextRules, names: seq<string>, name: string)
    requires DistinctKeys(names, rules.fold) && name in names
    ensures First(rules, names, rules.fold(name)) == Some(name)
  {
    var n := |names| - 1;
    FirstIsMember(rules, names, rules.fold(name));
    var i :| 0 <= i < |names| && names[i] == name;
    var other := First(rules, names, rules.fold(name)).value;
    var j :| 0 <= j < |names| && names[j] == other;
    assert i == j;
  }

  /** Deduplication keeps exactly the earliest spelling of each fold. */
  lemma {:induction false} DedupeKeepsFirsts(rules: TextRules, names: seq<string>)
    ensures DistinctKeys(Dedupe(rules, names), rules.fold)
    ensures forall name :: name in Dedupe(rules, names) <==> First(rules, names, rules.fold(name)) == Some(name)
  {
    if names != [] {
      var n := |names| - 1;
      var before := Dedupe(rules, names[..n]);
      var last := names[n];
      DedupeKeepsFirsts(rules, names[..n]);
      assert HasFold(rules, before, rules.fold(last)) <==> First(rules, names[..n], rules.fold(last)).Some? by {
        FirstIsMember(rules, before, rules.fold(last));
        FirstIsMember(rules, names[..n], rules.fold(last));
        if First(rules, names[..n], rules.fold(last)).Some? {
          assert First(rules, names[..n], rules.fold(last)).value in before;
        }
      }
      forall name ensures name in Dedupe(rules, names) <==> First(rules, names, rules.fold(name)) == Some(name) {}
    }
  }

  /** Normalising does not change which spelling comes first. */
  lemma OperatorsKeepFirsts(rules: TextRules, names: seq<string>, fold: SortKey)
    ensures First(rules, Operators(rules, names), fold) == First(rules, names, fold)
  {
    var kept := Dedupe(rules, names);
    var out := Operators(rules, names);
    DedupeKeepsFirsts(rules, names);
    SortAscends(kept, rules.fold);
    AscendingIsDistinct(out, rules.fold);
    FirstIsMember(rules, names, fold);
    FirstIsMember(rules, out, fold);
    if First(rules, names, fold).Some? {
      var name := First(rules, names, fold).value;
      MultisetMembers(out, kept, name);
      FirstOfDistinct(rules, out, name);
    } else if First(rules, out, fold).Some? {
      MultisetMembers(out, kept, First(rules, out, fold).value);
    }
  }

  lemma AscendingIsDistinct<T>(s: seq<T>, key: T -> SortKey)
    requires Ascending(s, key)
    ensures DistinctKeys(s, key)
  {
    forall i, j | 0 <= i < j < |s| ensures key(s[i]) != key(s[j]) {
      LessIsIrreflexive(key(s[i]));
    }
  }

  /** The result depends only on which spelling of each fold comes first. */
  lemma SameFirstsSameOperators(rules: TextRules, a: seq<string>, b: seq<string>)
    requires forall fold :: First(rules, a, fold) == First(rules, b, fold)
    ensures Operators(rules, a) == Operators(rules, b)
  {
    DedupeKeepsFirsts(rules, a);
    DedupeKeepsFirsts(rules, b);
    SortAscends(Dedupe(rules, a), rules.fold);
    SortAscends(Dedupe(rules, b), rules.fold);
    forall name ensures name in Operators(rules, a) <==> name in Operators(rules, b) {
      MultisetMembers(Operators(rules, a), Dedupe(rules, a), name);
      MultisetMembers(Operators(rules, b), Dedupe(rules, b), name);
    }
    AscendingIsUnique(Operators(rules, a), Operators(rules, b), rules.fold);
  }

  /** Merging two normalised lists is normalising both at once. */
  lemma MergeIsOneNormalisation(rules: TextRules, x: seq<string>, y: seq<string>)
    ensures Operators(rules, Operators(rules, x) + Operators(rules, y)) == Operators(rules, x + y)
  {
    forall fold ensures First(rules, Operators(rules, x) + Operators(rules, y), fold) == First(rules, x + y, fold) {
      FirstOfConcat(rules, Operators(rules, x), Operators(rules, y), fold);
      FirstOfConcat(rules, x, y, fold);
      OperatorsKeepFirsts(rules, x, fold);
      OperatorsKeepFirsts(rules, y, fold);
    }
    SameFirstsSameOperators(rules, Operators(rules, x) + Operators(rules, y), x + y);
  }

  // ---------------------------------------------------------------- countries, grouped first

  /** An entry counts for a country when it is a record whose cleaned code is that code. */
  predicate IsFor(rules: TextRules, entry: Value, code: string) {
    entry.Record? && IsCountryCode(code) && CodeOf(rules, entry.fields) == code
  }

  predicate IsValid(rules: TextRules, entry: Value) {
    entry.Record? && IsCountryCode(CodeOf(rules, entry.fields))
  }

  /** Valid codes in order of first appearance. */
  function Codes(rules: TextRules, entries: seq<Value>): seq<string> {
    if entries == [] then []
    else
      var before := Codes(rules, entries[..|entries| - 1]);
      var last := entries[|entries| - 1];
      if IsValid(rules, last) && CodeOf(rules, last.fields) !in before
      then before + [CodeOf(rules, last.fields)] else before
  }

  /** The first non-empty name given for the country. */
  function CountryName(rules: TextRules, entries: seq<Value>, code: string): Option<string> {
    if entries == [] then None
    else
      var before := CountryName(rules, entries[..|entries| - 1], code);
      var last := entries[|entries| - 1];
      if before.Some? then before
      else if IsFor(rules, last, code) then NameOf(rules, last.fields) else None
  }

  /** Every network name of the country's entries, one after another. */
  function AllNetworks(rules: TextRules, entries: seq<Value>, code: string): seq<string> {
    if entries == [] then []
    else
      var before := AllNetworks(rules, entries[..|entries| - 1], code);
      var last := entries[|entries| - 1];
      if IsFor(rules, last, code) then before + NetworkNames(rules, Get(last.fields, "networks")) else before
  }

  /** The simple form of one country: gather its entries, then normalise once. */
  function Grouped(rules: TextRules, entries: seq<Value>, code: string): Country {
    Country(code, CountryName(rules, entries, code), Operators(rules, AllNetworks(rules, entries, code)))
  }

  function SortedCodes(rules: TextRules, entries: seq<Value>): seq<string> {
    Sort(Codes(rules, entries), Points)
  }

  /** The simple form of the whole snapshot: group by country, normalise each once, sort by code. */
  function Snapshot(rules: TextRules, raw: Value): seq<Country> {
    if raw.Items?
    then seq(|SortedCodes(rules, raw.elems)|, i requires 0 <= i < |SortedCodes(rules, raw.elems)| =>
               Grouped(rules, raw.elems, SortedCodes(rules, raw.elems)[i]))
    else []
  }

  /** The dictionary keeps insertion order, so it is a map and the list of its keys. */
  ghost predicate HoldsGroups(rules: TextRules, byCode: map<string, Country>, keys: seq<string>, entries: seq<Value>) {
    keys == Codes(rules, entries) && HoldsGroup(byCode, keys, code => Grouped(rules, entries, code))
  }

  ghost predicate HoldsGroup(byCode: map<string, Country>, keys: seq<string>, group: string -> Country) {
    && (forall code :: code in byCode <==> code in keys)
    && (forall code :: code in byCode ==> byCode[code] == group(code))
  }

  lemma SkippedEntryChangesNothing(rules: TextRules, byCode: map<string, Country>, keys: seq<string>,
                                   entries: seq<Value>, entry: Value)
    requires HoldsGroups(rules, byCode, keys, entries) && !IsValid(rules, entry)
    ensures HoldsGroups(rules, byCode, keys, entries + [entry])
  {
    assert (entries + [entry])[..|entries|] == entries;
    forall code | code in byCode ensures byCode[code] == Grouped(rules, entries + [entry], code) {
      assert !IsFor(rules, entry, code);
    }
  }

  lemma {:induction false} UnseenCountryIsEmpty(rules: TextRules, entries: seq<Value>, code: string)
    requires code !in Codes(rules, entries)
    ensures CountryName(rules, entries, code) == None && AllNetworks(rules, entries, code) == []
  {
    if entries != [] {
      var n := |entries| - 1;
      UnseenCountryIsEmpty(rules, entries[..n], code);
      if IsFor(rules, entries[n], code) {
        assert IsValid(rules, entries[n]);
      }
    }
  }

  /** The country the dictionary holds after one more valid entry for it. */
  lemma EntryJoinsItsGroup(rules: TextRules, entries: seq<Value>, entry: Value)
    requires IsValid(rules, entry)
    ensures var code := CodeOf(rules, entry.fields);
            var before := Grouped(rules, entries, code);
            var added := Operators(rules, NetworkNames(rules, Get(entry.fields, "networks")));
            Grouped(rules, entries + [entry], code) ==
              if code in Codes(rules, entries)
              then Country(code, if before.name.Some? then before.name else NameOf(rules, entry.fields),
                           Operators(rules, before.operators + added))
              else Country(code, NameOf(rules, entry.fields), added)
  {
    var code := CodeOf(rules, entry.fields);
    var names := NetworkNames(rules, Get(entry.fields, "networks"));
    assert (entries + [entry])[..|entries|] == entries;
    assert IsFor(rules, entry, code);
    if code in Codes(rules, entries) {
      MergeIsOneNormalisation(rules, AllNetworks(rules, entries, code), names);
    } else {
      UnseenCountryIsEmpty(rules, entries, code);
      assert [] + names == names;
    }
  }

  lemma OtherCountriesStay(rules: TextRules, entries: seq<Value>, entry: Value, code: string)
    requires IsValid(rules, entry) && code != CodeOf(rules, entry.fields)
    ensures Grouped(rules, entries + [entry], code) == Grouped(rules, entries, code)
  {
    assert (entries + [entry])[..|entries|] == entries;
    assert !IsFor(rules, entry, code);
  }

  lemma CodesSnoc(rules: TextRules, entries: seq<Value>, entry: Value)
    requires IsValid(rules, entry)
    ensures var code := CodeOf(rules, entry.fields);
            Codes(rules, entries + [entry]) == Codes(rules, entries) + (if code in Codes(rules, entries) then [] else [code])
  {
    assert (entries + [entry])[..|entries|] == entries;
  }

  lemma GroupUpdated(rules: TextRules, byCode: map<string, Country>, keys: seq<string>, entries: seq<Value>, entry: Value)
    requires HoldsGroups(rules, byCode, keys, entries) && IsValid(rules, entry)
    ensures var code := CodeOf(rules, entry.fields);
            HoldsGroups(rules, byCode[code := Grouped(rules, entries + [entry], code)],
                        if code in byCode then keys else keys + [code], entries + [entry])
  {
    CodesSnoc(rules, entries, entry);
    forall other | other != CodeOf(rules, entry.fields)
      ensures Grouped(rules, entries + [entry], other) == Grouped(rules, entries, other)
    {
      OtherCountriesStay(rules, entries, entry, other);
    }
    OneGroupReplaced(byCode, keys, code => Grouped(rules, entries, code), CodeOf(rules, entry.fields),
                     Codes(rules, entries + [entry]), code => Grouped(rules, entries + [entry], code));
  }

  lemma OneGroupReplaced(byCode: map<string, Country>, keys: seq<string>, group: string -> Country,
                         code: string, newKeys: seq<string>, newGroup: string -> Country)
    requires HoldsGroup(byCode, keys, group)
    requires newKeys == keys + (if code in keys then [] else [code])
    requires forall other :: other != code ==> newGroup(other) == group(other)
    ensures HoldsGroup(byCode[code := newGroup(code)], newKeys, newGroup)
  {}

  /** One turn of the merging loop. */
  lemma EntryIsMerged(rules: TextRules, byCode: map<string, Country>, keys: seq<string>, entries: seq<Value>, entry: Value)
    requires HoldsGroups(rules, byCode, keys, entries) && IsValid(rules, entry)
    ensures var code, name := CodeOf(rules, entry.fields), NameOf(rules, entry.fields);
            var added := Operators(rules, NetworkNames(rules, Get(entry.fields, "networks")));
            if code in byCode then
              var held := byCode[code];
              var merged := Country(held.code, if held.name.Some? then held.name else name, Operators(rules, held.operators + added));
              HoldsGroups(rules, byCode[code := merged], keys, entries + [entry])
            else HoldsGroups(rules, byCode[code := Country(code, name, added)], keys + [code], entries + [entry])
  {
    EntryJoinsItsGroup(rules, entries, entry);
    GroupUpdated(rules, byCode, keys, entries, entry);
  }

  /** The one-pass merge computes the simple form. */
  method NormalizeCoverageSnapshot(rules: TextRules, raw: Value) returns (out: seq<Country>)
    ensures out == Snapshot(rules, raw)
  {
    if !raw.Items? {
      return [];
    }
    var entries := raw.elems;
    var byCode: map<string, Country> := map[];
    var keys: seq<string> := [];
    for i := 0 to |entries|
      invariant HoldsGroups(rules, byCode, keys, entries[..i])
    {
      var entry := entries[i];
      assert entries[..i + 1] == entries[..i] + [entry];
      if !IsValid(rules, entry) {
        SkippedEntryChangesNothing(rules, byCode, keys, entries[..i], entry);
        continue;
      }
      var code := CodeOf(rules, entry.fields);
      var countryName := NameOf(rules, entry.fields);
      var operators := NormalizeOperators(rules, Get(entry.fields, "networks"));
      EntryIsMerged(rules, byCode, keys, entries[..i], entry);
      if code in byCode {
        var existing := byCode[code];
        if existing.name.None? && countryName.Some? {
          existing := existing.(name := countryName);
        }
        var merged := MergeOperators(rules, existing.operators, operators);
        byCode := byCode[code := existing.(operators := merged)];
      } else {
        byCode := byCode[code := Country(code, countryName, operators)];
        keys := keys + [code];
      }
    }
    assert entries[..|entries|] == entries;
    out := InCodeOrder(rules, byCode, keys, raw);
  }

  /** The dictionary's values in the order of their sorted keys. */
  method InCodeOrder(rules: TextRules, byCode: map<string, Country>, keys: seq<string>, raw: Value) returns (out: seq<Country>)
    requires raw.Items? && HoldsGroups(rules, byCode, keys, raw.elems)
    ensures out == Snapshot(rules, raw)
  {
    var sorted := Sort(keys, Points);
    forall code | code in sorted ensures code in byCode {
      MultisetMembers(sorted, keys, code);
    }
    out := seq(|sorted|, i requires 0 <= i < |sorted| && sorted[i] in byCode => byCode[sorted[i]]);
  }

  // ---------------------------------------------------------------- main results

  ghost predicate SomeEntryIsFor(rules: TextRules, entries: seq<Value>, code: string) {
    exists i :: 0 <= i < |entries| && IsFor(rules, entries[i], code)
  }

  ghost predicate Lists(out: seq<Country>, code: string) {
    exists i :: 0 <= i < |out| && out[i].code == code
  }

  lemma {:induction false} CodesAreDistinctAndValid(rules: TextRules, entries: seq<Value>)
    ensures DistinctKeys(Codes(rules, entries), Points)
    ensures forall code :: code in Codes(rules, entries) <==> SomeEntryIsFor(rules, entries, code)
  {
    if entries != [] {
      var n := |entries| - 1;
      var before := Codes(rules, entries[..n]);
      CodesAreDistinctAndValid(rules, entries[..n]);
      forall code ensures code in Codes(rules, entries) <==> SomeEntryIsFor(rules, entries, code) {
        if code in before {
          var i :| 0 <= i < n && IsFor(rules, entries[..n][i], code);
          assert IsFor(rules, entries[i], code);
        }
        if SomeEntryIsFor(rules, entries, code) {
          var i :| 0 <= i < |entries| && IsFor(rules, entries[i], code);
          assert i == n || IsFor(rules, entries[..n][i], code);
          assert IsValid(rules, entries[i]);
        }
      }
      if Codes(rules, entries) != before {
        forall i | 0 <= i < |before| ensures Points(before[i]) != Points(CodeOf(rules, entries[n].fields)) {
          if Points(before[i]) == Points(CodeOf(rules, entries[n].fields)) {
            PointsInjective(before[i], CodeOf(rules, entries[n].fields));
          }
        }
      }
    }
  }

  /** The snapshot lists, strictly by code, exactly the countries that some entry is for. */
  lemma SnapshotListsEachCountryOnce(rules: TextRules, entries: seq<Value>, text: string)
    ensures var out := Snapshot(rules, Items(entries, text));
            && (forall i, j :: 0 <= i < j < |out| ==> Less(Points(out[i].code), Points(out[j].code)))
            && (forall code :: Lists(out, code) <==> SomeEntryIsFor(rules, entries, code))
            && (forall code :: SomeEntryIsFor(rules, entries, code) ==> IsCountryCode(code))
  {
    SortedCodesAreAscending(rules, entries);
    ListedAsSorted(Snapshot(rules, Items(entries, text)), SortedCodes(rules, entries));
  }

  lemma ListedAsSorted(out: seq<Country>, sorted: seq<string>)
    requires |out| == |sorted| && forall i :: 0 <= i < |out| ==> out[i].code == sorted[i]
    ensures forall code :: Lists(out, code) <==> code in sorted
    ensures Ascending(sorted, Points) ==>
              forall i, j :: 0 <= i < j < |out| ==> Less(Points(out[i].code), Points(out[j].code))
  {
    forall code | code in sorted ensures Lists(out, code) {
      var i :| 0 <= i < |sorted| && sorted[i] == code;
      assert out[i].code == code;
    }
  }

  lemma SortedCodesAreAscending(rules: TextRules, entries: seq<Value>)
    ensures Ascending(SortedCodes(rules, entries), Points)
    ensures forall code :: code in SortedCodes(rules, entries) <==> SomeEntryIsFor(rules, entries, code)
  {
    CodesAreDistinctAndValid(rules, entries);
    SortAscends(Codes(rules, entries), Points);
    forall code ensures code in SortedCodes(rules, entries) <==> code in Codes(rules, entries) {
      MultisetMembers(SortedCodes(rules, entries), Codes(rules, entries), code);
    }
  }

  /** Normalised operators are strictly ascending by fold, and are exactly the earliest spellings. */
  lemma OperatorsAreSortedFirsts(rules: TextRules, names: seq<string>)
    ensures Ascending(Operators(rules, names), rules.fold)
    ensures forall name :: name in Operators(rules, names) <==> First(rules, names, rules.fold(name)) == Some(name)
  {
    DedupeKeepsFirsts(rules, names);
    SortAscends(Dedupe(rules, names), rules.fold);
    forall name ensures name in Operators(rules, names) <==> name in Dedupe(rules, names) {
      MultisetMembers(Operators(rules, names), Dedupe(rules, names), name);
    }
  }

  /** The name kept for a country is the one given by its earliest entry that has a non-empty name. */
  lemma {:induction false} FirstNonEmptyNameWins(rules: TextRules, entries: seq<Value>, code: string)
    ensures match CountryName(rules, entries, code)
      case Some(name) =>
        exists i :: 0 <= i < |entries| && IsFor(rules, entries[i], code) && NameOf(rules, entries[i].fields) == Some(name)
          && forall j :: 0 <= j < i && IsFor(rules, entries[j], code) ==> NameOf(rules, entries[j].fields) == None
      case None =>
        forall j :: 0 <= j < |entries| && IsFor(rules, entries[j], code) ==> NameOf(rules, entries[j].fields) == None
  {
    if entries != [] {
      var n := |entries| - 1;
      FirstNonEmptyNameWins(rules, entries[..n], code);
      if CountryName(rules, entries[..n], code).Some? {
        var i :| 0 <= i < n && IsFor(rules, entries[..n][i], code)
          && NameOf(rules, entries[..n][i].fields) == CountryName(rules, entries[..n], code)
          && forall j :: 0 <= j < i && IsFor(rules, entries[..n][j], code) ==> NameOf(rules, entries[..n][j].fields) == None;
        forall j | 0 <= j < i && IsFor(rules, entries[j], code) ensures NameOf(rules, entries[j].fields) == None {
          assert entries[..n][j] == entries[j];
        }
        assert entries[i] == entries[..n][i];
      } else {
        forall j | 0 <= j < n && IsFor(rules, entries[j], code) ensures NameOf(rules, entries[j].fields) == None {
          assert entries[..n][j] == entries[j];
        }
      }
    }
  }

  // ---------------------------------------------------------------- the same on the provider's raw values

  /** Python's `str(v or "")`: an empty or false value gives no text. */
  ghost function Printed(v: Value): string {
    match v
    case Null => ""
    case Text(s) => s
    case Items(elems, text) => if |elems| == 0 then "" else text
    case Record(fields, text) => if |fields| == 0 then "" else text
    case Other(text, truthy) => if truthy then text else ""
  }

  ghost predicate HasField(fields: map<string, Value>, field: string) {
    field in fields && !fields[field].Null?
  }

  /** The entry is a record whose `code`, or failing that `country_code`, is this code of two capital letters. */
  ghost predicate EntryIsFor(rules: TextRules, entry: Value, code: string) {
    && entry.Record?
    && |code| == 2 && 'A' <= code[0] <= 'Z' && 'A' <= code[1] <= 'Z'
    && code == rules.upper(rules.strip(
         if HasField(entry.fields, "code") then Printed(entry.fields["code"])
         else if HasField(entry.fields, "country_code") then Printed(entry.fields["country_code"])
         else ""))
  }

  /** The entry's `name`, or failing that `country_name`, is this text when stripped. */
  ghost predicate GivesName(rules: TextRules, fields: map<string, Value>, name: string) {
    && name != ""
    && (HasField(fields, "name") || HasField(fields, "country_name"))
    && name == rules.strip(
         match (if HasField(fields, "name") then fields["name"] else fields["country_name"])
         case Text(s) => s
         case Items(_, text) => text
         case Record(_, text) => text
         case Other(text, _) => text
         case Null => "")
  }

  /** The network is a string, or a record with a `name`, that is this text when stripped. */
  ghost predicate NetworkGives(rules: TextRules, net: Value, name: string) {
    && name != ""
    && ((net.Text? && name == rules.strip(net.s))
        || (net.Record? && name == rules.strip(if "name" in net.fields then Printed(net.fields["name"]) else "")))
  }

  /** Network `k` of entry `i` gives the country this name. */
  ghost predicate NameAt(rules: TextRules, entries: seq<Value>, code: string, i: nat, k: nat, name: string) {
    && i < |entries| && EntryIsFor(rules, entries[i], code)
    && "networks" in entries[i].fields && entries[i].fields["networks"].Items?
    && k < |entries[i].fields["networks"].elems|
    && NetworkGives(rules, entries[i].fields["networks"].elems[k], name)
  }

  predicate Before(j: nat, l: nat, i: nat, k: nat) { j < i || (j == i && l < k) }

  /** It gives the name, and no earlier network of the country gives one with the same fold. */
  ghost predicate FirstNameAt(rules: TextRules, entries: seq<Value>, code: string, i: nat, k: nat, name: string) {
    && NameAt(rules, entries, code, i, k, name)
    && forall j: nat, l: nat, other :: Before(j, l, i, k) && NameAt(rules, entries, code, j, l, other) ==>
         rules.fold(other) != rules.fold(name)
  }

  lemma RawFieldsAgree(rules: TextRules, entry: Value, code: string, name: string)
    ensures IsFor(rules, entry, code) <==> EntryIsFor(rules, entry, code)
    ensures entry.Record? ==> (NameOf(rules, entry.fields) == Some(name) <==> GivesName(rules, entry.fields, name))
    ensures NetworkName(rules, entry) == Some(name) <==> NetworkGives(rules, entry, name)
  {}

  /** The first name with this fold among the networks of one list, or that there is none. */
  ghost predicate FirstInList(rules: TextRules, nets: seq<Value>, fold: SortKey, first: Option<string>) {
    match first
    case None => forall k, other :: 0 <= k < |nets| && NetworkGives(rules, nets[k], other) ==> rules.fold(other) != fold
    case Some(name) =>
      && rules.fold(name) == fold
      && exists k ::
           && 0 <= k < |nets| && NetworkGives(rules, nets[k], name)
           && forall l, other :: 0 <= l < k && NetworkGives(rules, nets[l], other) ==> rules.fold(other) != fold
  }

  lemma {:induction false} FirstAmongNetworks(rules: TextRules, nets: seq<Value>, fold: SortKey)
    ensures FirstInList(rules, nets, fold, First(rules, NamesIn(rules, nets), fold))
  {
    if nets != [] {
      var n := |nets| - 1;
      var before := NamesIn(rules, nets[..n]);
      FirstAmongNetworks(rules, nets[..n], fold);
      assert forall k :: 0 <= k < n ==> nets[..n][k] == nets[k];
      var last := NetworkName(rules, nets[n]);
      forall name ensures last == Some(name) <==> NetworkGives(rules, nets[n], name) {
        RawFieldsAgree(rules, nets[n], "", name);
      }
      if last.Some? {
        assert (before + [last.value])[..|before|] == before;
      }
      if First(rules, before, fold).Some? {
        var k :| 0 <= k < n && NetworkGives(rules, nets[..n][k], First(rules, before, fold).value)
          && forall l, other :: 0 <= l < k && NetworkGives(rules, nets[..n][l], other) ==> rules.fold(other) != fold;
        assert NetworkGives(rules, nets[k], First(rules, before, fold).value);
        forall l, other | 0 <= l < k && NetworkGives(rules, nets[l], other) ensures rules.fold(other) != fold {
          assert NetworkGives(rules, nets[..n][l], other);
        }
      } else {
        forall l, other | 0 <= l < n && NetworkGives(rules, nets[l], other) ensures rules.fold(other) != fold {
          assert NetworkGives(rules, nets[..n][l], other);
        }
      }
    }
  }

  /** The first name with this fold among all networks of the country, or that there is none. */
  ghost predicate FirstInEntries(rules: TextRules, entries: seq<Value>, code: string, fold: SortKey, first: Option<string>) {
    match first
    case None => forall i: nat, k: nat, other :: NameAt(rules, entries, code, i, k, other) ==> rules.fold(other) != fold
    case Some(name) => rules.fold(name) == fold && exists i: nat, k: nat :: FirstNameAt(rules, entries, code, i, k, name)
  }

  lemma NamesOfPrefix(rules: TextRules, entries: seq<Value>, code: string, i: nat, k: nat, name: string)
    requires entries != []
    ensures i < |entries| - 1 ==>
              (NameAt(rules, entries, code, i, k, name) <==> NameAt(rules, entries[..|entries| - 1], code, i, k, name))
    ensures NameAt(rules, entries[..|entries| - 1], code, i, k, name) ==> i < |entries| - 1
  {}

  lemma FirstStaysFirst(rules: TextRules, entries: seq<Value>, code: string, fold: SortKey, first: Option<string>)
    requires entries != [] && first.Some? && FirstInEntries(rules, entries[..|entries| - 1], code, fold, first)
    ensures FirstInEntries(rules, entries, code, fold, first)
  {
    var before := entries[..|entries| - 1];
    var i: nat, k: nat :| FirstNameAt(rules, before, code, i, k, first.value);
    NamesOfPrefix(rules, entries, code, i, k, first.value);
    forall j: nat, l: nat, other | Before(j, l, i, k) && NameAt(rules, entries, code, j, l, other)
      ensures rules.fold(other) != fold
    {
      NamesOfPrefix(rules, entries, code, j, l, other);
    }
    assert FirstNameAt(rules, entries, code, i, k, first.value);
  }

  /** No earlier entry has the fold, and the last entry's networks are `nets`. */
  lemma FirstOfLastEntry(rules: TextRules, entries: seq<Value>, code: string, fold: SortKey, nets: seq<Value>)
    requires entries != [] && EntryIsFor(rules, entries[|entries| - 1], code)
    requires "networks" in entries[|entries| - 1].fields && entries[|entries| - 1].fields["networks"].Items?
    requires nets == entries[|entries| - 1].fields["networks"].elems
    requires FirstInEntries(rules, entries[..|entries| - 1], code, fold, None)
    ensures FirstInEntries(rules, entries, code, fold, First(rules, NamesIn(rules, nets), fold))
  {
    var n := |entries| - 1;
    var first := First(rules, NamesIn(rules, nets), fold);
    FirstAmongNetworks(rules, nets, fold);
    forall i: nat, k: nat, other | i < n && NameAt(rules, entries, code, i, k, other) ensures rules.fold(other) != fold {
      NamesOfPrefix(rules, entries, code, i, k, other);
    }
    if first.Some? {
      var k :| 0 <= k < |nets| && NetworkGives(rules, nets[k], first.value)
        && forall l, other :: 0 <= l < k && NetworkGives(rules, nets[l], other) ==> rules.fold(other) != fold;
      assert NameAt(rules, entries, code, n, k, first.value);
      forall j: nat, l: nat, other | Before(j, l, n, k) && NameAt(rules, entries, code, j, l, other)
        ensures rules.fold(other) != fold
      {
        if j == n {
          assert NetworkGives(rules, nets[l], other);
        }
      }
      assert FirstNameAt(rules, entries, code, n, k, first.value);
    }
  }

  lemma {:induction false} FirstAmongEntries(rules: TextRules, entries: seq<Value>, code: string, fold: SortKey)
    ensures FirstInEntries(rules, entries, code, fold, First(rules, AllNetworks(rules, entries, code), fold))
  {
    if entries != [] {
      var n := |entries| - 1;
      var last := entries[n];
      var before := AllNetworks(rules, entries[..n], code);
      FirstAmongEntries(rules, entries[..n], code, fold);
      RawFieldsAgree(rules, last, code, "");
      var added := if IsFor(rules, last, code) then NetworkNames(rules, Get(last.fields, "networks")) else [];
      FirstOfConcat(rules, before, added, fold);
      assert before + [] == before;
      if First(rules, before, fold).Some? {
        FirstStaysFirst(rules, entries, code, fold, First(rules, before, fold));
      } else if EntryIsFor(rules, last, code) && "networks" in last.fields && last.fields["networks"].Items? {
        FirstOfLastEntry(rules, entries, code, fold, last.fields["networks"].elems);
      } else {
        forall i: nat, k: nat, other | NameAt(rules, entries, code, i, k, other) ensures rules.fold(other) != fold {
          NamesOfPrefix(rules, entries, code, i, k, other);
        }
      }
    }
  }

  /**
   * A country's operators, strictly ascending by fold, are exactly the names of its entries' networks that
   * no earlier network of the country gives in another spelling.
   */
  lemma OperatorsAreFirstNetworkNames(rules: TextRules, entries: seq<Value>, text: string, n: nat, name: string)
    requires n < |Snapshot(rules, Items(entries, text))|
    ensures var country := Snapshot(rules, Items(entries, text))[n];
            && Ascending(country.operators, rules.fold)
            && (name in country.operators <==>
                  exists i: nat, k: nat :: FirstNameAt(rules, entries, country.code, i, k, name))
  {
    var code := Snapshot(rules, Items(entries, text))[n].code;
    var names, fold := AllNetworks(rules, entries, code), rules.fold(name);
    OperatorsAreSortedFirsts(rules, names);
    FirstAmongEntries(rules, entries, code, fold);
    forall i: nat, k: nat | FirstNameAt(rules, entries, code, i, k, name) ensures First(rules, names, fold) == Some(name) {
      FirstNameIsUnique(rules, entries, code, i, k, name, First(rules, names, fold));
    }
  }

  lemma FirstNameIsUnique(rules: TextRules, entries: seq<Value>, code: string, i: nat, k: nat, name: string, first: Option<string>)
    requires FirstNameAt(rules, entries, code, i, k, name)
    requires FirstInEntries(rules, entries, code, rules.fold(name), first)
    ensures first == Some(name)
  {
    assert NameAt(rules, entries, code, i, k, name);
    assert first.Some?;
    var j: nat, l: nat :| FirstNameAt(rules, entries, code, j, l, first.value);
    assert NameAt(rules, entries, code, j, l, first.value);
    assert !Before(j, l, i, k) && !Before(i, k, j, l);
  }

  /** No operator is lost: each network name of a listed country has an operator with its fold. */
  lemma NetworkNamesAreCovered(rules: TextRules, entries: seq<Value>, text: string, n: nat, i: nat, k: nat, name: string)
    requires n < |Snapshot(rules, Items(entries, text))|
    ensures var country := Snapshot(rules, Items(entries, text))[n];
            NameAt(rules, entries, country.code, i, k, name) ==> HasFold(rules, country.operators, rules.fold(name))
  {
    var code := Snapshot(rules, Items(entries, text))[n].code;
    FirstAmongEntries(rules, entries, code, rules.fold(name));
    var names := AllNetworks(rules, entries, code);
    OperatorsKeepFirsts(rules, names, rules.fold(name));
    FirstIsMember(rules, Operators(rules, names), rules.fold(name));
  }

  /** The countries are exactly those that some raw entry is for; anything but a list gives none. */
  lemma CountriesAreThoseOfEntries(rules: TextRules, raw: Value, code: string)
    ensures Lists(Snapshot(rules, raw), code) <==>
              raw.Items? && exists i :: 0 <= i < |raw.elems| && EntryIsFor(rules, raw.elems[i], code)
  {
    if raw.Items? {
      SnapshotListsEachCountryOnce(rules, raw.elems, raw.text);
      forall i | 0 <= i < |raw.elems| ensures IsFor(rules, raw.elems[i], code) <==> EntryIsFor(rules, raw.elems[i], code) {
        RawFieldsAgree(rules, raw.elems[i], code, "");
      }
    }
  }

  ghost predicate NamedBy(rules: TextRules, entry: Value, code: string, name: string) {
    EntryIsFor(rules, entry, code) && GivesName(rules, entry.fields, name)
  }

  /** The name is the one that the earliest entry with a name gives; `None` if no entry gives one. */
  ghost predicate EarliestName(rules: TextRules, entries: seq<Value>, code: string, name: Option<string>) {
    match name
    case Some(given) =>
      exists i ::
        && 0 <= i < |entries| && NamedBy(rules, entries[i], code, given)
        && forall j, other :: 0 <= j < i ==> !NamedBy(rules, entries[j], code, other)
    case None => forall j, other :: 0 <= j < |entries| ==> !NamedBy(rules, entries[j], code, other)
  }

  lemma NamedByLast(rules: TextRules, entry: Value, code: string)
    ensures var name := if IsFor(rules, entry, code) then NameOf(rules, entry.fields) else None;
            forall other :: NamedBy(rules, entry, code, other) <==> name == Some(other)
  {
    forall other
      ensures NamedBy(rules, entry, code, other) <==> IsFor(rules, entry, code) && NameOf(rules, entry.fields) == Some(other)
    {
      RawFieldsAgree(rules, entry, code, other);
    }
  }

  lemma {:induction false} CountryNameIsEarliest(rules: TextRules, entries: seq<Value>, code: string)
    ensures EarliestName(rules, entries, code, CountryName(rules, entries, code))
  {
    if entries != [] {
      var n := |entries| - 1;
      CountryNameIsEarliest(rules, entries[..n], code);
      NamedByLast(rules, entries[n], code);
      assert forall j :: 0 <= j < n ==> entries[..n][j] == entries[j];
      match CountryName(rules, entries[..n], code)
      case Some(name) =>
        var i :| 0 <= i < n && NamedBy(rules, entries[..n][i], code, name)
          && forall j, other :: 0 <= j < i ==> !NamedBy(rules, entries[..n][j], code, other);
        forall j, other | 0 <= j < i ensures !NamedBy(rules, entries[j], code, other) {
          assert !NamedBy(rules, entries[..n][j], code, other);
        }
        assert NamedBy(rules, entries[i], code, name);
      case None =>
        forall j, other | 0 <= j < n ensures !NamedBy(rules, entries[j], code, other) {
          assert !NamedBy(rules, entries[..n][j], code, other);
        }
    }
  }

  /** A listed country has the name its earliest entry with a name gives. */
  lemma NameIsThatOfEarliestEntry(rules: TextRules, entries: seq<Value>, text: string, n: nat)
    requires n < |Snapshot(rules, Items(entries, text))|
    ensures var country := Snapshot(rules, Items(entries, text))[n];
            EarliestName(rules, entries, country.code, country.name)
  {
    CountryNameIsEarliest(rules, entries, Snapshot(rules, Items(entries, text))[n].code);
  }
}
