/**
 Bringing a registry of models to the fleet a manifest describes: create what is missing, check the
 rows internal roles need, then promote, enable and disable. What to enable and disable is decided
 before promotion, and promotion sets `enabled` from the price.
 */
module FleetManifest {
  import opened Text

  datatype Status = Candidate | Published | Retired
  datatype Reason = Cost | Unavailable
  datatype Price = Price(inputPerMTok: real, outputPerMTok: real)
  datatype Row = Row(status: Status, enabled: bool, disabledReason: Option<Reason>, price: Price)

  type Key = string
  type Rows = map<Key, Row>

  const CAP := Price(2.0, 8.0)

  predicate WithinBudget(p: Price) {
    p.inputPerMTok <= CAP.inputPerMTok && p.outputPerMTok <= CAP.outputPerMTok
  }

  /** An entry names its model in some catalogue's spelling, if it carries one at all. */
  datatype Entry = Entry(key: Key, enabled: bool, modelId: Option<string>)

  /** What the catalogues answer for a model id: its price, or a refusal. */
  type Catalogue = string -> Option<Price>

  // ---- One row at a time ----

  function Born(entry: Entry, catalogue: Catalogue): Option<Row> {
    match entry.modelId
    case None => None
    case Some(id) =>
      match catalogue(id)
      case None => None
      case Some(price) => Some(Row(Candidate, false, None, price))
  }

  function Promoted(row: Row): Row {
    if row.status == Published then row
    else if WithinBudget(row.price) then row.(status := Published, enabled := true, disabledReason := None)
    else row.(status := Published, enabled := false, disabledReason := Some(Cost))
  }

  function Switched(row: Row, enabled: bool): Row {
    row.(enabled := enabled, disabledReason := if enabled then None else Some(Cost))
  }

  // ---- The passes, on whole registries ----

  function CreateAll(rows: Rows, entries: seq<Entry>, catalogue: Catalogue): Rows {
    if entries == [] then rows
    else
      var before, e := CreateAll(rows, entries[..|entries| - 1], catalogue), entries[|entries| - 1];
      if e.key !in before && Born(e, catalogue).Some? then before[e.key := Born(e, catalogue).value] else before
  }

  /** The keys the creation pass adds, and those it cannot, each at the entry where that is found out. */
  function CreatedKeys(rows: Rows, entries: seq<Entry>, catalogue: Catalogue): seq<Key> {
    if entries == [] then []
    else
      var init, e := entries[..|entries| - 1], entries[|entries| - 1];
      CreatedKeys(rows, init, catalogue)
      + if e.key !in CreateAll(rows, init, catalogue) && Born(e, catalogue).Some? then [e.key] else []
  }

  function RefusedKeys(rows: Rows, entries: seq<Entry>, catalogue: Catalogue): seq<Key> {
    if entries == [] then []
    else
      var init, e := entries[..|entries| - 1], entries[|entries| - 1];
      RefusedKeys(rows, init, catalogue)
      + if e.key !in CreateAll(rows, init, catalogue) && Born(e, catalogue).None? then [e.key] else []
  }

  function PromoteAll(rows: Rows, keys: seq<Key>, broken: set<Key>): Rows {
    if keys == [] then rows
    else
      var before, k := PromoteAll(rows, keys[..|keys| - 1], broken), keys[|keys| - 1];
      if k in before && k !in broken then before[k := Promoted(before[k])] else before
  }

  function SwitchAll(rows: Rows, keys: seq<Key>, enabled: bool, broken: set<Key>): Rows {
    if keys == [] then rows
    else
      var before, k := SwitchAll(rows, keys[..|keys| - 1], enabled, broken), keys[|keys| - 1];
      if k in before && k !in broken then before[k := Switched(before[k], enabled)] else before
  }

  /** The keys of the entries a test picks, in manifest order. */
  function KeysWhere(entries: seq<Entry>, test: Entry -> bool): (keys: seq<Key>)
    ensures forall k :: k in keys <==> exists i :: 0 <= i < |entries| && entries[i].key == k && test(entries[i])
  {
    if entries == [] then []
    else
      var before := KeysWhere(entries[..|entries| - 1], test);
      before + if test(entries[|entries| - 1]) then [entries[|entries| - 1].key] else []
  }

  function NeedsPromotion(rows: Rows): Entry -> bool {
    (e: Entry) => e.key in rows && rows[e.key].status != Published
  }

  function NeedsSwitch(rows: Rows, enabled: bool): Entry -> bool {
    (e: Entry) => e.key in rows && rows[e.key].enabled != e.enabled && e.enabled == enabled
  }

  function IsAbsent(rows: Rows): Entry -> bool {
    (e: Entry) => e.key !in rows
  }

  function Creatable(rows: Rows): Entry -> bool {
    (e: Entry) => e.key !in rows && e.modelId.Some?
  }

  function Nameless(rows: Rows): Entry -> bool {
    (e: Entry) => e.key !in rows && e.modelId.None?
  }

  datatype Plan = Plan(toPromote: seq<Key>, toEnable: seq<Key>, toDisable: seq<Key>) {
    predicate Empty() {
      |toPromote| + |toEnable| + |toDisable| == 0
    }
  }

  function PlanFor(rows: Rows, entries: seq<Entry>): Plan {
    Plan(KeysWhere(entries, NeedsPromotion(rows)),
         KeysWhere(entries, NeedsSwitch(rows, true)),
         KeysWhere(entries, NeedsSwitch(rows, false)))
  }

  function Written(rows: Rows, plan: Plan, broken: set<Key>): Rows {
    SwitchAll(SwitchAll(PromoteAll(rows, plan.toPromote, broken), plan.toEnable, true, broken),
              plan.toDisable, false, broken)
  }

  predicate BoundRowsPresent(rows: Rows, bound: seq<Key>) {
    forall i :: 0 <= i < |bound| ==> bound[i] in rows
  }

  /** The registry after an apply that writes. */
  function Applied(rows: Rows, entries: seq<Entry>, bound: seq<Key>, catalogue: Catalogue, broken: set<Key>): Rows {
    var rows := CreateAll(rows, entries, catalogue);
    if BoundRowsPresent(rows, bound) then Written(rows, PlanFor(rows, entries), broken) else rows
  }

  // ---- The script ----

  datatype Outcome = RolesUnserved | NothingToDo | DryRun | Done

  /** How a run ends, and the plan it shows or carries out. */
  datatype Report = Report(outcome: Outcome, plan: Plan)

  const NO_PLAN := Plan([], [], [])

  function Reported(rows: Rows, entries: seq<Entry>, bound: seq<Key>, write: bool, catalogue: Catalogue): Report {
    var seen := if write then CreateAll(rows, entries, catalogue) else rows;
    var plan := PlanFor(seen, entries);
    if write && !BoundRowsPresent(seen, bound) then Report(RolesUnserved, NO_PLAN)
    else Report(if plan.Empty() then NothingToDo else if write then Done else DryRun, plan)
  }

  class Registry {
    var rows: Rows

    constructor (rows: Rows)
      ensures this.rows == rows
    {
      this.rows := rows;
    }

    method AddFromCatalogue(entry: Entry, catalogue: Catalogue) returns (added: bool)
      requires entry.key !in rows
      modifies this
      ensures added == Born(entry, catalogue).Some?
      ensures rows == if added then old(rows)[entry.key := Born(entry, catalogue).value] else old(rows)
    {
      added := false;
      if entry.modelId.Some? {
        var found := catalogue(entry.modelId.value);
        if found.Some? {
          rows := rows[entry.key := Row(Candidate, false, None, found.value)];
          added := true;
        }
      }
    }

    method CreateMissing(entries: seq<Entry>, write: bool, catalogue: Catalogue)
      returns (created: seq<Key>, uncreatable: seq<Key>)
      modifies this
      ensures rows == if write then CreateAll(old(rows), entries, catalogue) else old(rows)
      ensures write ==> created == CreatedKeys(old(rows), entries, catalogue)
                        && uncreatable == RefusedKeys(old(rows), entries, catalogue)
      ensures !write ==> created == KeysWhere(entries, Creatable(rows))
                         && uncreatable == KeysWhere(entries, Nameless(rows))
    {
      created, uncreatable := [], [];
      for i := 0 to |entries|
        invariant rows == if write then CreateAll(old(rows), entries[..i], catalogue) else old(rows)
        invariant write ==> created == CreatedKeys(old(rows), entries[..i], catalogue)
                            && uncreatable == RefusedKeys(old(rows), entries[..i], catalogue)
        invariant !write ==> created == KeysWhere(entries[..i], Creatable(rows))
                             && uncreatable == KeysWhere(entries[..i], Nameless(rows))
      {
        assert entries[..i + 1][..i] == entries[..i];
        var entry := entries[i];
        if entry.key in rows {
          continue;
        }
        if entry.modelId.None? {
          uncreatable := uncreatable + [entry.key];
          continue;
        }
        if !write {
          created := created + [entry.key];
          continue;
        }
        var added := AddFromCatalogue(entry, catalogue);
        if added {
          created := created + [entry.key];
        } else {
          uncreatable := uncreatable + [entry.key];
        }
      }
      assert entries[..|entries|] == entries;
    }

    /** Sequential; a key whose write throws is reported and the batch goes on. */
    method PromoteModels(keys: seq<Key>, broken: set<Key>)
      modifies this
      ensures rows == PromoteAll(old(rows), keys, broken)
    {
      for i := 0 to |keys|
        invariant rows == PromoteAll(old(rows), keys[..i], broken)
      {
        assert keys[..i + 1][..i] == keys[..i];
        var key := keys[i];
        if key in rows && key !in broken && rows[key].status != Published {
          var price := rows[key].price;
          var fits := price.inputPerMTok <= CAP.inputPerMTok && price.outputPerMTok <= CAP.outputPerMTok;
          rows := rows[key := rows[key].(
            status := Published, enabled := fits, disabledReason := if fits then None else Some(Cost))];
        }
        assert key in rows ==> rows == rows[key := rows[key]];
      }
      assert keys[..|keys|] == keys;
    }

    method SetModelsEnabled(keys: seq<Key>, enabled: bool, broken: set<Key>)
      modifies this
      ensures rows == SwitchAll(old(rows), keys, enabled, broken)
    {
      for i := 0 to |keys|
        invariant rows == SwitchAll(old(rows), keys[..i], enabled, broken)
      {
        assert keys[..i + 1][..i] == keys[..i];
        var key := keys[i];
        if key in rows && key !in broken {
          rows := rows[key := rows[key].(enabled := enabled, disabledReason := if enabled then None else Some(Cost))];
        }
      }
      assert keys[..|keys|] == keys;
    }

    method Diff(entries: seq<Entry>) returns (plan: Plan, absent: seq<Key>)
      ensures plan == PlanFor(rows, entries)
      ensures absent == KeysWhere(entries, IsAbsent(rows))
    {
      var toPromote, toEnable, toDisable := [], [], [];
      absent := [];
      for i := 0 to |entries|
        invariant Plan(toPromote, toEnable, toDisable) == PlanFor(rows, entries[..i])
        invariant absent == KeysWhere(entries[..i], IsAbsent(rows))
      {
        assert entries[..i + 1][..i] == entries[..i];
        var entry := entries[i];
        if entry.key !in rows {
          absent := absent + [entry.key];
          continue;
        }
        var row := rows[entry.key];
        if row.status != Published {
          toPromote := toPromote + [entry.key];
        }
        if row.enabled != entry.enabled {
          if entry.enabled {
            toEnable := toEnable + [entry.key];
          } else {
            toDisable := toDisable + [entry.key];
          }
        }
      }
      assert entries[..|entries|] == entries;
      plan := Plan(toPromote, toEnable, toDisable);
    }

    /** A dry run never writes; an apply that finds a role without a row stops after the creations. */
    method Apply(entries: seq<Entry>, bound: seq<Key>, write: bool, catalogue: Catalogue, broken: set<Key>)
      returns (outcome: Outcome, plan: Plan)
      modifies this
      ensures rows == if write then Applied(old(rows), entries, bound, catalogue, broken) else old(rows)
      ensures Report(outcome, plan) == Reported(old(rows), entries, bound, write, catalogue)
    {
      plan := NO_PLAN;
      var created, uncreatable := CreateMissing(entries, write, catalogue);
      var missingBound := [];
      for i := 0 to |bound|
        invariant missingBound == [] <==> BoundRowsPresent(rows, bound[..i])
      {
        if bound[i] !in rows {
          missingBound := missingBound + [bound[i]];
          assert bound[..i + 1][i] !in rows;
        } else {
          assert forall j :: 0 <= j < i ==> bound[..i][j] == bound[..i + 1][j];
        }
      }
      assert bound[..|bound|] == bound;
      if missingBound != [] && write {
        return RolesUnserved, plan;
      }
      var absent;
      plan, absent := Diff(entries);
      if |plan.toPromote| + |plan.toEnable| + |plan.toDisable| == 0 {
        return NothingToDo, plan;
      }
      if !write {
        return DryRun, plan;
      }
      PromoteModels(plan.toPromote, broken);
      SetModelsEnabled(plan.toEnable, true, broken);
      SetModelsEnabled(plan.toDisable, false, broken);
      outcome := Done;
    }
  }

  // ---- What the passes come to, row by row ----

  predicate DistinctKeys(entries: seq<Entry>) {
    forall i, j :: 0 <= i < j < |entries| ==> entries[i].key != entries[j].key
  }

  function Get(rows: Rows, key: Key): Option<Row> {
    if key in rows then Some(rows[key]) else None
  }

  function Known(row: Option<Row>, entry: Entry, catalogue: Catalogue): Option<Row> {
    if row.Some? then row else Born(entry, catalogue)
  }

  /** One apply on one row: what to switch is read off the row before it is promoted. */
  function Settle(row: Row, enabled: bool): Row {
    if row.enabled != enabled then Switched(Promoted(row), enabled) else Promoted(row)
  }

  lemma {:induction false} CreateAllPointwise(rows: Rows, entries: seq<Entry>, catalogue: Catalogue, i: nat)
    requires DistinctKeys(entries) && i < |entries|
    ensures Get(CreateAll(rows, entries, catalogue), entries[i].key)
            == Known(Get(rows, entries[i].key), entries[i], catalogue)
  {
    var n := |entries| - 1;
    if i < n {
      CreateAllPointwise(rows, entries[..n], catalogue, i);
    } else {
      CreateAllOutside(rows, entries[..n], catalogue, entries[n].key);
    }
  }

  lemma {:induction false} CreateAllOutside(rows: Rows, entries: seq<Entry>, catalogue: Catalogue, key: Key)
    requires key in rows || forall i :: 0 <= i < |entries| ==> entries[i].key != key
    ensures Get(CreateAll(rows, entries, catalogue), key) == Get(rows, key)
  {
    if entries != [] {
      CreateAllOutside(rows, entries[..|entries| - 1], catalogue, key);
    }
  }

  lemma {:induction false} PromoteAllPointwise(rows: Rows, keys: seq<Key>, broken: set<Key>, key: Key)
    ensures var after := PromoteAll(rows, keys, broken);
            && (key in after <==> key in rows)
            && (key in rows ==> after[key] == if key in keys && key !in broken then Promoted(rows[key]) else rows[key])
  {
    if keys != [] {
      PromoteAllPointwise(rows, keys[..|keys| - 1], broken, key);
      assert keys == keys[..|keys| - 1] + [keys[|keys| - 1]];
    }
  }

  lemma {:induction false} SwitchAllPointwise(rows: Rows, keys: seq<Key>, enabled: bool, broken: set<Key>, key: Key)
    ensures var after := SwitchAll(rows, keys, enabled, broken);
            && (key in after <==> key in rows)
            && (key in rows ==>
                  after[key] == if key in keys && key !in broken then Switched(rows[key], enabled) else rows[key])
  {
    if keys != [] {
      SwitchAllPointwise(rows, keys[..|keys| - 1], enabled, broken, key);
      assert keys == keys[..|keys| - 1] + [keys[|keys| - 1]];
    }
  }

  lemma WrittenPointwise(rows: Rows, plan: Plan, broken: set<Key>, key: Key)
    ensures var after := Written(rows, plan, broken);
            && (key in after <==> key in rows)
            && (key in rows ==>
                  after[key] ==
                    if key in broken then rows[key]
                    else
                      var row := if key in plan.toPromote then Promoted(rows[key]) else rows[key];
                      var row := if key in plan.toEnable then Switched(row, true) else row;
                      if key in plan.toDisable then Switched(row, false) else row)
  {
    var promoted := PromoteAll(rows, plan.toPromote, broken);
    var enabled := SwitchAll(promoted, plan.toEnable, true, broken);
    PromoteAllPointwise(rows, plan.toPromote, broken, key);
    SwitchAllPointwise(promoted, plan.toEnable, true, broken, key);
    SwitchAllPointwise(enabled, plan.toDisable, false, broken, key);
  }

  /** Entries of one key that has a row agree on its flag. */
  predicate AgreeOn(rows: Rows, entries: seq<Entry>) {
    forall i, j :: 0 <= i < |entries| && 0 <= j < |entries| ==>
      entries[i].key == entries[j].key && entries[i].key in rows ==> entries[i].enabled == entries[j].enabled
  }

  lemma PlanMembers(rows: Rows, entries: seq<Entry>, i: nat)
    requires AgreeOn(rows, entries) && i < |entries|
    ensures var plan, e := PlanFor(rows, entries), entries[i];
            && (e.key in plan.toPromote <==> NeedsPromotion(rows)(e))
            && (e.key in plan.toEnable <==> NeedsSwitch(rows, true)(e))
            && (e.key in plan.toDisable <==> NeedsSwitch(rows, false)(e))
  {
  }

  /** An apply settles every row it knows, save those it cannot write. */
  lemma AppliedPointwise(
    rows: Rows, entries: seq<Entry>, bound: seq<Key>, catalogue: Catalogue, broken: set<Key>, i: nat)
    requires DistinctKeys(entries) && i < |entries|
    requires BoundRowsPresent(CreateAll(rows, entries, catalogue), bound)
    ensures var e := entries[i];
            Get(Applied(rows, entries, bound, catalogue, broken), e.key)
            == match Known(Get(rows, e.key), e, catalogue)
               case None => None
               case Some(row) => Some(if e.key in broken then row else Settle(row, e.enabled))
  {
    var e, seen := entries[i], CreateAll(rows, entries, catalogue);
    CreateAllPointwise(rows, entries, catalogue, i);
    WrittenPointwise(seen, PlanFor(seen, entries), broken, e.key);
    PlanMembers(seen, entries, i);
  }

  /** At most 2 dollars a million tokens in, and 8 out. */
  predicate Cheap(p: Price) {
    p.inputPerMTok <= 2.0 && p.outputPerMTok <= 8.0
  }

  /**
   One apply, told by the fields of the row and the entry. A row there was is published, at its price; its
   flag is the manifest's if the two differed, else its own if it was published, else whether it is cheap.
   */
  lemma KnownRowByFields(rows: Rows, entries: seq<Entry>, bound: seq<Key>, catalogue: Catalogue, i: nat)
    requires DistinctKeys(entries) && BoundRowsPresent(CreateAll(rows, entries, catalogue), bound)
    requires i < |entries| && entries[i].key in rows
    ensures var key, row := entries[i].key, rows[entries[i].key];
            var after := Applied(rows, entries, bound, catalogue, {});
            && key in after && after[key].status == Published && after[key].price == row.price
            && after[key].enabled == (if row.enabled != entries[i].enabled then entries[i].enabled
                                      else if row.status == Published then row.enabled else Cheap(row.price))
            && (row.status == Published && row.enabled == entries[i].enabled ==> after[key] == row)
            && (!(row.status == Published && row.enabled == entries[i].enabled) ==>
                  after[key].disabledReason == if after[key].enabled then None else Some(Cost))
  {
    AppliedPointwise(rows, entries, bound, catalogue, {}, i);
  }

  /**
   A row there was not: none without a model id that a catalogue knows, else one published at the
   catalogue's price, enabled if the manifest says so or if it is cheap.
   */
  lemma NewRowByFields(rows: Rows, entries: seq<Entry>, bound: seq<Key>, catalogue: Catalogue, i: nat)
    requires DistinctKeys(entries) && BoundRowsPresent(CreateAll(rows, entries, catalogue), bound)
    requires i < |entries| && entries[i].key !in rows
    ensures var e, after := entries[i], Applied(rows, entries, bound, catalogue, {});
            && (e.key in after <==> e.modelId.Some? && catalogue(e.modelId.value).Some?)
            && (e.key in after ==>
                  var price := catalogue(e.modelId.value).value;
                  var enabled := e.enabled || Cheap(price);
                  after[e.key] == Row(Published, enabled, if enabled then None else Some(Cost), price))
  {
    AppliedPointwise(rows, entries, bound, catalogue, {}, i);
  }

  /** What only creation writes: a candidate, disabled, at the catalogue's price. */
  lemma CreatedRowByFields(rows: Rows, entries: seq<Entry>, catalogue: Catalogue, i: nat)
    requires DistinctKeys(entries) && i < |entries| && entries[i].key !in rows
    ensures var e, seen := entries[i], CreateAll(rows, entries, catalogue);
            e.key in seen ==>
              && e.modelId.Some? && catalogue(e.modelId.value).Some?
              && seen[e.key] == Row(Candidate, false, None, catalogue(e.modelId.value).value)
  {
    CreateAllPointwise(rows, entries, catalogue, i);
  }

  /** Rows the manifest does not name are never touched. */
  lemma OutsidersUntouched(
    rows: Rows, entries: seq<Entry>, bound: seq<Key>, catalogue: Catalogue, broken: set<Key>, key: Key)
    requires forall i :: 0 <= i < |entries| ==> entries[i].key != key
    ensures Get(Applied(rows, entries, bound, catalogue, broken), key) == Get(rows, key)
  {
    var seen := CreateAll(rows, entries, catalogue);
    CreateAllOutside(rows, entries, catalogue, key);
    WrittenPointwise(seen, PlanFor(seen, entries), broken, key);
  }

  // ---- Convergence ----

  /** The row is as the manifest wants it. */
  predicate Matches(row: Row, entry: Entry) {
    row.status == Published && row.enabled == entry.enabled
  }

  /** Nothing to do means exactly that every row present matches its entry. */
  lemma PlanEmptyIffMatching(rows: Rows, entries: seq<Entry>)
    ensures PlanFor(rows, entries).Empty()
            <==> forall i :: 0 <= i < |entries| && entries[i].key in rows ==> Matches(rows[entries[i].key], entries[i])
  {
    var plan := PlanFor(rows, entries);
    forall i | 0 <= i < |entries| && entries[i].key in rows && !Matches(rows[entries[i].key], entries[i])
      ensures !plan.Empty()
    {
      var k := entries[i].key;
      assert NeedsPromotion(rows)(entries[i]) || NeedsSwitch(rows, true)(entries[i])
             || NeedsSwitch(rows, false)(entries[i]);
      assert k in plan.toPromote || k in plan.toEnable || k in plan.toDisable;
    }
    if !plan.Empty() {
      var k := if plan.toPromote != [] then plan.toPromote[0]
               else if plan.toEnable != [] then plan.toEnable[0] else plan.toDisable[0];
      assert k in plan.toPromote || k in plan.toEnable || k in plan.toDisable;
    }
  }

  /**
   One apply is enough for a row exactly when it was published, or its flag already differed from the
   manifest's, or its price happens to decide what the manifest says. Otherwise promotion flips the
   flag after the switch lists were drawn up.
   */
  predicate OneApplySettles(row: Row, enabled: bool) {
    row.status == Published || row.enabled != enabled || WithinBudget(row.price) == enabled
  }

  lemma OneApplyConvergesIff(rows: Rows, entries: seq<Entry>, bound: seq<Key>, catalogue: Catalogue)
    requires DistinctKeys(entries) && BoundRowsPresent(CreateAll(rows, entries, catalogue), bound)
    ensures PlanFor(Applied(rows, entries, bound, catalogue, {}), entries).Empty()
            <==> forall i :: 0 <= i < |entries| ==>
                   var known := Known(Get(rows, entries[i].key), entries[i], catalogue);
                   known.Some? ==> OneApplySettles(known.value, entries[i].enabled)
  {
    var after := Applied(rows, entries, bound, catalogue, {});
    PlanEmptyIffMatching(after, entries);
    forall i | 0 <= i < |entries|
      ensures var known := Known(Get(rows, entries[i].key), entries[i], catalogue);
              && (entries[i].key in after <==> known.Some?)
              && (known.Some? ==> (Matches(after[entries[i].key], entries[i])
                                   <==> OneApplySettles(known.value, entries[i].enabled)))
    {
      AppliedPointwise(rows, entries, bound, catalogue, {}, i);
    }
  }

  /** What one apply always does: publish every row it can write, and bring published ones to their flag. */
  lemma OneApplyPublishes(
    rows: Rows, entries: seq<Entry>, bound: seq<Key>, catalogue: Catalogue, broken: set<Key>, i: nat)
    requires DistinctKeys(entries) && BoundRowsPresent(CreateAll(rows, entries, catalogue), bound)
    requires i < |entries| && entries[i].key !in broken
    requires Known(Get(rows, entries[i].key), entries[i], catalogue).Some?
    ensures var key, after := entries[i].key, Applied(rows, entries, bound, catalogue, broken);
            && key in after && after[key].status == Published
            && (key in rows && rows[key].status == Published ==> after[key].enabled == entries[i].enabled)
            && after[key].price == Known(Get(rows, key), entries[i], catalogue).value.price
  {
    AppliedPointwise(rows, entries, bound, catalogue, broken, i);
  }

  /** A row after one apply without failing writes, given what it was behind the creation pass. */
  lemma SettledPointwise(
    rows: Rows, entries: seq<Entry>, bound: seq<Key>, catalogue: Catalogue, i: nat)
    requires BoundRowsPresent(CreateAll(rows, entries, catalogue), bound)
    requires AgreeOn(CreateAll(rows, entries, catalogue), entries)
    requires i < |entries| && entries[i].key in CreateAll(rows, entries, catalogue)
    ensures var key, after := entries[i].key, Applied(rows, entries, bound, catalogue, {});
            key in after && after[key] == Settle(CreateAll(rows, entries, catalogue)[key], entries[i].enabled)
  {
    var seen := CreateAll(rows, entries, catalogue);
    WrittenPointwise(seen, PlanFor(seen, entries), {}, entries[i].key);
    PlanMembers(seen, entries, i);
  }

  lemma {:induction false} CreateAllKeys(rows: Rows, entries: seq<Entry>, catalogue: Catalogue, key: Key)
    ensures key in CreateAll(rows, entries, catalogue)
            <==> || key in rows
                 || exists i :: 0 <= i < |entries| && entries[i].key == key && Born(entries[i], catalogue).Some?
    ensures var seen := CreateAll(rows, entries, catalogue);
            key in seen ==> if key in rows then seen[key] == rows[key] else seen[key].status == Candidate
  {
    if entries != [] {
      CreateAllKeys(rows, entries[..|entries| - 1], catalogue, key);
    }
  }

  /** An apply that serves its roles leaves the rows its creation pass left, and no more to create. */
  lemma AppliedKeys(rows: Rows, entries: seq<Entry>, bound: seq<Key>, catalogue: Catalogue)
    requires BoundRowsPresent(CreateAll(rows, entries, catalogue), bound)
    ensures var seen, once := CreateAll(rows, entries, catalogue), Applied(rows, entries, bound, catalogue, {});
            && (forall key :: key in once <==> key in seen)
            && CreateAll(once, entries, catalogue) == once && BoundRowsPresent(once, bound)
  {
    var seen, once := CreateAll(rows, entries, catalogue), Applied(rows, entries, bound, catalogue, {});
    forall key
      ensures key in once <==> key in seen
    {
      WrittenPointwise(seen, PlanFor(seen, entries), {}, key);
    }
    forall i | 0 <= i < |entries| && entries[i].key !in once
      ensures Born(entries[i], catalogue).None?
    {
      CreateAllKeys(rows, entries, catalogue, entries[i].key);
    }
    NothingToCreate(once, entries, catalogue);
  }

  lemma AppliedPublishes(rows: Rows, entries: seq<Entry>, bound: seq<Key>, catalogue: Catalogue, i: nat)
    requires BoundRowsPresent(CreateAll(rows, entries, catalogue), bound)
    requires AgreeOn(CreateAll(rows, entries, catalogue), entries)
    requires i < |entries| && entries[i].key in CreateAll(rows, entries, catalogue)
    ensures var key, after := entries[i].key, Applied(rows, entries, bound, catalogue, {});
            key in after && after[key].status == Published
  {
    SettledPointwise(rows, entries, bound, catalogue, i);
  }

  /** A registry with nothing to create and the entry's row published is brought to the entry's flag. */
  lemma PublishedMatches(rows: Rows, entries: seq<Entry>, bound: seq<Key>, catalogue: Catalogue, i: nat)
    requires CreateAll(rows, entries, catalogue) == rows && BoundRowsPresent(rows, bound) && AgreeOn(rows, entries)
    requires i < |entries| && entries[i].key in rows && rows[entries[i].key].status == Published
    ensures var key, after := entries[i].key, Applied(rows, entries, bound, catalogue, {});
            key in after && Matches(after[key], entries[i])
  {
    SettledPointwise(rows, entries, bound, catalogue, i);
  }

  lemma TwoAppliesMatch(rows: Rows, once: Rows, entries: seq<Entry>, bound: seq<Key>, catalogue: Catalogue, i: nat)
    requires BoundRowsPresent(CreateAll(rows, entries, catalogue), bound)
    requires AgreeOn(CreateAll(rows, entries, catalogue), entries)
    requires once == Applied(rows, entries, bound, catalogue, {})
    requires i < |entries| && entries[i].key in CreateAll(rows, entries, catalogue)
    ensures var key, twice := entries[i].key, Applied(once, entries, bound, catalogue, {});
            key in twice && Matches(twice[key], entries[i])
  {
    AppliedPublishes(rows, entries, bound, catalogue, i);
    AppliedKeys(rows, entries, bound, catalogue);
    PublishedMatches(once, entries, bound, catalogue, i);
  }

  /** After two applies a third finds nothing to do, if the entries agree wherever there is a row. */
  lemma TwoAppliesConverge(rows: Rows, entries: seq<Entry>, bound: seq<Key>, catalogue: Catalogue)
    requires BoundRowsPresent(CreateAll(rows, entries, catalogue), bound)
    requires AgreeOn(CreateAll(rows, entries, catalogue), entries)
    ensures var twice := Applied(Applied(rows, entries, bound, catalogue, {}), entries, bound, catalogue, {});
            && PlanFor(twice, entries).Empty()
            && CreateAll(twice, entries, catalogue) == twice
            && Applied(twice, entries, bound, catalogue, {}) == twice
  {
    var once := Applied(rows, entries, bound, catalogue, {});
    AppliedKeys(rows, entries, bound, catalogue);
    AppliedKeys(once, entries, bound, catalogue);
    forall i | 0 <= i < |entries| && entries[i].key in CreateAll(rows, entries, catalogue)
      ensures var twice := Applied(once, entries, bound, catalogue, {});
              entries[i].key in twice && Matches(twice[entries[i].key], entries[i])
    {
      TwoAppliesMatch(rows, once, entries, bound, catalogue, i);
    }
    NothingLeft(Applied(once, entries, bound, catalogue, {}), entries, bound, catalogue);
  }

  /** And only then: entries of one key, known or creatable, that disagree leave something to do. */
  lemma TwoAppliesConvergeIff(rows: Rows, entries: seq<Entry>, bound: seq<Key>, catalogue: Catalogue)
    requires BoundRowsPresent(CreateAll(rows, entries, catalogue), bound)
    ensures var twice := Applied(Applied(rows, entries, bound, catalogue, {}), entries, bound, catalogue, {});
            PlanFor(twice, entries).Empty() <==> AgreeOn(CreateAll(rows, entries, catalogue), entries)
  {
    var seen := CreateAll(rows, entries, catalogue);
    if AgreeOn(seen, entries) {
      TwoAppliesConverge(rows, entries, bound, catalogue);
    } else {
      var i, j :| 0 <= i < |entries| && 0 <= j < |entries| && entries[i].key == entries[j].key
                  && entries[i].key in seen && entries[i].enabled != entries[j].enabled;
      var once := Applied(rows, entries, bound, catalogue, {});
      AppliedKeys(rows, entries, bound, catalogue);
      AppliedKeys(once, entries, bound, catalogue);
      ConflictingEntriesNeverSettle(Applied(once, entries, bound, catalogue, {}), entries, i, j);
    }
  }

  lemma NothingLeft(rows: Rows, entries: seq<Entry>, bound: seq<Key>, catalogue: Catalogue)
    requires forall i :: 0 <= i < |entries| && entries[i].key in rows ==> Matches(rows[entries[i].key], entries[i])
    requires CreateAll(rows, entries, catalogue) == rows
    ensures PlanFor(rows, entries).Empty()
    ensures Applied(rows, entries, bound, catalogue, {}) == rows
  {
    PlanEmptyIffMatching(rows, entries);
    WrittenNothing(rows, PlanFor(rows, entries));
  }

  lemma {:induction false} NothingToCreate(rows: Rows, entries: seq<Entry>, catalogue: Catalogue)
    requires forall i :: 0 <= i < |entries| && entries[i].key !in rows ==> Born(entries[i], catalogue).None?
    ensures CreateAll(rows, entries, catalogue) == rows
  {
    if entries != [] {
      NothingToCreate(rows, entries[..|entries| - 1], catalogue);
    }
  }

  lemma WrittenNothing(rows: Rows, plan: Plan)
    requires plan.Empty()
    ensures Written(rows, plan, {}) == rows
  {
  }

  /** A created row the manifest keeps disabled, cheap enough to pass the cap, ends up enabled. */
  lemma ManifestDoesNotAlwaysWin(
    rows: Rows, key: Key, id: string, price: Price, bound: seq<Key>, catalogue: Catalogue)
    requires key !in rows && BoundRowsPresent(rows, bound)
    requires WithinBudget(price) && catalogue(id) == Some(price)
    ensures var entries := [Entry(key, false, Some(id))];
            var once := Applied(rows, entries, bound, catalogue, {});
            && key in once && once[key].status == Published && once[key].enabled
            && !PlanFor(once, entries).Empty()
  {
    var entries := [Entry(key, false, Some(id))];
    CreationKeepsBoundRows(rows, entries, bound, catalogue);
    AppliedPointwise(rows, entries, bound, catalogue, {}, 0);
    OneApplyConvergesIff(rows, entries, bound, catalogue);
  }

  lemma CreationKeepsBoundRows(rows: Rows, entries: seq<Entry>, bound: seq<Key>, catalogue: Catalogue)
    requires BoundRowsPresent(rows, bound)
    ensures BoundRowsPresent(CreateAll(rows, entries, catalogue), bound)
  {
    forall i | 0 <= i < |bound|
      ensures bound[i] in CreateAll(rows, entries, catalogue)
    {
      CreateAllKeys(rows, entries, catalogue, bound[i]);
    }
  }

  /** Two entries that disagree about one row present keep every registry unsettled, however often applied. */
  lemma ConflictingEntriesNeverSettle(rows: Rows, entries: seq<Entry>, i: nat, j: nat)
    requires i < |entries| && j < |entries|
    requires entries[i].key == entries[j].key && entries[i].enabled != entries[j].enabled
    requires entries[i].key in rows
    ensures !PlanFor(rows, entries).Empty()
  {
    PlanEmptyIffMatching(rows, entries);
    assert Matches(rows[entries[i].key], entries[i]) ==> !Matches(rows[entries[j].key], entries[j]);
  }

  // ---- The dry run ----

  /** The apply ends as the dry run announced: with nothing to do, or with its very plan carried out. */
  predicate Foretold(dry: Report, actual: Report) {
    actual == Report(if dry.outcome == NothingToDo then NothingToDo else Done, dry.plan)
  }

  /**
   A dry run foretells the apply exactly when nothing would be created and every bound role has its row:
   it neither sees the rows creation would add nor stops for a role without one.
   */
  lemma DryRunForeseesIff(rows: Rows, entries: seq<Entry>, bound: seq<Key>, catalogue: Catalogue)
    ensures Foretold(Reported(rows, entries, bound, false, catalogue), Reported(rows, entries, bound, true, catalogue))
            <==> && BoundRowsPresent(rows, bound)
                 && forall i :: 0 <= i < |entries| && entries[i].key !in rows ==> Born(entries[i], catalogue).None?
  {
    var seen := CreateAll(rows, entries, catalogue);
    if i :| 0 <= i < |entries| && entries[i].key !in rows && Born(entries[i], catalogue).Some? {
      var key := entries[i].key;
      CreateAllKeys(rows, entries, catalogue, key);
      assert NeedsPromotion(seen)(entries[i]);
      assert key in PlanFor(seen, entries).toPromote && key !in PlanFor(rows, entries).toPromote;
    } else {
      NothingToCreate(rows, entries, catalogue);
    }
  }

  /** Of a row that is missing and creatable the dry run says nothing to do; the apply creates and publishes it. */
  lemma DryRunMissesCreation(rows: Rows, entry: Entry, bound: seq<Key>, catalogue: Catalogue)
    requires entry.key !in rows && Born(entry, catalogue).Some? && BoundRowsPresent(rows, bound)
    ensures Reported(rows, [entry], bound, false, catalogue).outcome == NothingToDo
    ensures Reported(rows, [entry], bound, true, catalogue).outcome == Done
    ensures var after := Applied(rows, [entry], bound, catalogue, {});
            entry.key in after && after[entry.key].status == Published
  {
    var entries := [entry];
    var seen := CreateAll(rows, entries, catalogue);
    PlanEmptyIffMatching(rows, entries);
    CreationKeepsBoundRows(rows, entries, bound, catalogue);
    assert entries[0].key == entry.key && Born(entries[0], catalogue).Some?;
    CreateAllKeys(rows, entries, catalogue, entry.key);
    PlanEmptyIffMatching(seen, entries);
    AppliedPointwise(rows, entries, bound, catalogue, {}, 0);
  }

  /** With a role unserved the dry run shows a plan, and the apply stops with every row as it was. */
  lemma DryRunMissesRoles(row: Row, key: Key, role: Key, catalogue: Catalogue, broken: set<Key>)
    requires role != key && row.status == Published && !row.enabled
    ensures var rows, entries := map[key := row], [Entry(key, true, None)];
            && Reported(rows, entries, [role], false, catalogue).outcome == DryRun
            && Reported(rows, entries, [role], true, catalogue) == Report(RolesUnserved, NO_PLAN)
            && Applied(rows, entries, [role], catalogue, broken) == rows
  {
    var rows, entries := map[key := row], [Entry(key, true, None)];
    NothingToCreate(rows, entries, catalogue);
    assert NeedsSwitch(rows, true)(entries[0]);
    assert key in PlanFor(rows, entries).toEnable;
    assert [role][0] !in rows;
  }
}
