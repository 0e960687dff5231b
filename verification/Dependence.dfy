/** Which changes commute, and what reordering commuting changes preserves. This is the theory
    behind lanes (internal/cdc/replay_plan.go) and behind regrouping inside a lane
    (internal/cdc/replay_execute.go). */
module Dependence {
  import opened Wrappers
  import opened Model
  import opened Catalog
  import opened Target

  /** pgoutput sends values in an old tuple only for replica-identity columns. */
  predicate OldTupleIsIdentity(item: Item) {
    item.change.kind == Update && item.change.oldTuple.Some? ==>
      forall i: nat | i < |item.relation.columns| ::
        PresentDatum(Cell(item.change.oldTuple.value, item.relation.columns[i].sourceIndex)) ==>
          IdentityColumn(item.relation, i)
  }

  /** The primary key an update leaves its row under: an unchanged TOAST value keeps the old one. */
  function MovedKey(r: TargetRelation, c: Change): Key
    requires c.newTuple.Some?
  {
    var indexes := PrimaryIndexes(r);
    assert forall i :: 0 <= i < |indexes| ==> indexes[i] in indexes;
    seq(|indexes|, i requires 0 <= i < |indexes| =>
      var after := Cell(c.newTuple.value, r.columns[indexes[i]].sourceIndex);
      if after.kind == DatumUnchangedToast
      then Cell(UpdatePredicate(c).value, r.columns[indexes[i]].sourceIndex) else after)
  }

  /** The rows, by primary key, that a change reads or writes; `None` when it may touch any row of
      its table. */
  function Footprint(item: Item): Option<set<Key>> {
    var r, c := item.relation, item.change;
    if !RelationLocal(item) || !RowLane(r) || KeyTuple(c).None? then None
    else
      var k := TupleKey(r, KeyTuple(c).value);
      match c.kind
      case Insert => Some({k})
      case Update =>
        if CanPrimaryKeyUpsert(r, c) then Some({k})
        else if IdentityCoversKey(r) then Some({TupleKey(r, UpdatePredicate(c).value), MovedKey(r, c)})
        else None
      case Delete => if PrimaryKeyDeleteSafe(r) || IdentityCoversKey(r) then Some({k}) else None
      case Truncate => None
  }

  predicate Overlap(a: Item, b: Item) {
    var fa, fb := Footprint(a), Footprint(b);
    a.relation.source.oid == b.relation.source.oid &&
    (a.relation != b.relation || fa.None? || fb.None? || !(fa.value !! fb.value))
  }

  predicate Independent(a: Item, b: Item) {
    RelationLocal(a) && RelationLocal(b) && !Overlap(a, b)
  }

  function Rows(t: Table, keys: set<Key>): Table {
    map k | k in keys && k in t :: t[k]
  }

  /** The step reads and writes only rows under `keys`. */
  ghost predicate Confined(f: Table -> Option<Table>, keys: set<Key>, t: Table) {
    var part := f(Rows(t, keys));
    && f(t).None? == part.None?
    && (part.Some? ==> part.value.Keys <= keys && f(t).value == PutRows(t, keys, part.value))
  }

  lemma MergedRowKey(r: TargetRelation, c: Change, row: Row)
    requires |row| == |r.columns| && c.kind == Update && c.newTuple.Some? && IdentityCoversKey(r)
    requires RowMatches(r, row, UpdatePredicate(c).value)
    ensures RowPrimaryKey(r, MergedRow(r, row, c.newTuple.value)) == MovedKey(r, c)
  {
    var indexes := PrimaryIndexes(r);
    var merged := MergedRow(r, row, c.newTuple.value);
    forall i | 0 <= i < |indexes| ensures RowPrimaryKey(r, merged)[i] == MovedKey(r, c)[i] {
      assert indexes[i] in indexes;
    }
  }

  lemma RowWritten(r: TargetRelation, c: Change, t: Table)
    requires c.newTuple.Some?
    ensures
      var keys := {TupleKey(r, c.newTuple.value)};
      Confined(u => SqlInsert(r, c, u), keys, t) && Confined(u => SqlUpsert(r, c, u), keys, t)
  {
    hide InsertableTuple, TupleKey, RowOf;
  }

  lemma SqlDeleteConfined(r: TargetRelation, c: Change, t: Table)
    requires c.oldTuple.Some? && (PrimaryKeyDeleteSafe(r) || IdentityCoversKey(r))
    ensures Confined(u => SqlDelete(r, c, u), {TupleKey(r, c.oldTuple.value)}, t)
  {
    hide PredicateOk, RowMatches, Scan, ParamOk, TupleKey;
    var part := Rows(t, {TupleKey(r, c.oldTuple.value)});
    assert Selected(r, t, c.oldTuple.value) == Selected(r, part, c.oldTuple.value) || !IdentityCoversKey(r);
  }

  lemma FootprintConfines(sem: Semantics, item: Item, t: Table)
    requires Footprint(item).Some?
    ensures Confined(u => TableStep(sem, item, u), Footprint(item).value, t)
  {
    hide SqlInsert, SqlUpsert, SqlUpdate, SqlDelete, CanPrimaryKeyUpsert, TupleKey, MovedKey, Rows, PutRows;
    var r, c := item.relation, item.change;
    match c.kind
    case Insert => RowWritten(r, c, t);
    case Update =>
      if CanPrimaryKeyUpsert(r, c) {
        RowWritten(r, c, t);
      } else {
        SqlUpdateConfined(r, c, Footprint(item).value, t);
      }
    case Delete => SqlDeleteConfined(r, c, t);
  }

  lemma SqlUpdateConfined(r: TargetRelation, c: Change, keys: set<Key>, t: Table)
    requires c.kind == Update && c.newTuple.Some? && IdentityCoversKey(r)
    requires keys == {TupleKey(r, UpdatePredicate(c).value), MovedKey(r, c)}
    ensures Confined(u => SqlUpdate(r, c, u), keys, t)
  {
    var tuple, part := UpdatePredicate(c).value, Rows(t, keys);
    var k := TupleKey(r, tuple);
    assert Selected(r, t, tuple) == Selected(r, part, tuple);
    if Selected(r, t, tuple) == {k} {
      MergedRowKey(r, c, t[k]);
    } else {
      assert Selected(r, t, tuple) == {};
    }
  }

  ghost function Then(first: Option<Database>, oid: Oid, step: Table -> Option<Table>): Option<Database> {
    match first
    case None => None
    case Some(db) => OnTable(db, oid, step)
  }

  lemma DifferentTablesCommute(
    db: Database, oidA: Oid, f: Table -> Option<Table>, oidB: Oid, g: Table -> Option<Table>)
    requires oidA != oidB
    ensures Then(OnTable(db, oidA, f), oidB, g) == Then(OnTable(db, oidB, g), oidA, f)
  {
    var tA, tB := f(TableOf(db, oidA)), g(TableOf(db, oidB));
    if tA.Some? && tB.Some? {
      assert db[oidA := tA.value][oidB := tB.value] == db[oidB := tB.value][oidA := tA.value];
    }
  }

  function PutRows(t: Table, keys: set<Key>, part: Table): Table {
    (t - keys) + part
  }

  lemma OtherRowsUntouched(t: Table, k: set<Key>, part: Table, l: set<Key>)
    requires k !! l && part.Keys <= k
    ensures Rows(PutRows(t, k, part), l) == Rows(t, l)
  {
    forall x | x in l ensures x in PutRows(t, k, part) <==> x in t {
      assert x !in k;
    }
  }

  lemma PutRowsCommute(t: Table, k: set<Key>, partK: Table, l: set<Key>, partL: Table)
    requires k !! l && partK.Keys <= k && partL.Keys <= l
    ensures PutRows(PutRows(t, k, partK), l, partL) == PutRows(PutRows(t, l, partL), k, partK)
  {
    var kl, lk := PutRows(PutRows(t, k, partK), l, partL), PutRows(PutRows(t, l, partL), k, partK);
    forall x ensures (x in kl <==> x in lk) && (x in kl ==> kl[x] == lk[x]) {
      assert !(x in k && x in l);
    }
  }

  /** Steps confined to different rows of one table. */
  lemma DifferentRowsCommute(
    db: Database, oid: Oid, f: Table -> Option<Table>, k: set<Key>, g: Table -> Option<Table>, l: set<Key>)
    requires k !! l
    requires forall t: Table :: Confined(f, k, t) && Confined(g, l, t)
    ensures Then(OnTable(db, oid, f), oid, g) == Then(OnTable(db, oid, g), oid, f)
  {
    var t := TableOf(db, oid);
    assert Confined(f, k, t) && Confined(g, l, t);
    var partF, partG := f(Rows(t, k)), g(Rows(t, l));
    if partF.Some? {
      assert f(t).value == PutRows(t, k, partF.value);
      OtherRowsUntouched(t, k, partF.value, l);
      assert Confined(g, l, f(t).value);
    }
    if partG.Some? {
      assert g(t).value == PutRows(t, l, partG.value);
      OtherRowsUntouched(t, l, partG.value, k);
      assert Confined(f, k, g(t).value);
    }
    if partF.Some? && partG.Some? {
      PutRowsCommute(t, k, partF.value, l, partG.value);
      assert g(f(t).value).value == f(g(t).value).value;
      assert db[oid := f(t).value][oid := g(f(t).value).value] == db[oid := g(t).value][oid := f(g(t).value).value];
    }
  }

  lemma RunTwo(sem: Semantics, db: Database, a: Item, b: Item)
    requires RelationLocal(a) && RelationLocal(b)
    ensures Run(sem, Some(db), [a, b]) ==
      Then(OnTable(db, a.relation.source.oid, t => TableStep(sem, a, t)), b.relation.source.oid,
           t => TableStep(sem, b, t))
  {
    assert [a, b][1..] == [b];
    var first := Apply(sem, db, a);
    if first.Some? {
      assert Run(sem, first, [b]) == Run(sem, Apply(sem, first.value, b), []);
    }
  }

  /** Independent changes commute, failures included. */
  lemma IndependentCommute(sem: Semantics, db: Option<Database>, a: Item, b: Item)
    requires Independent(a, b)
    ensures Run(sem, db, [a, b]) == Run(sem, db, [b, a])
  {
    if db.Some? {
      RunTwo(sem, db.value, a, b);
      RunTwo(sem, db.value, b, a);
      var f, g := t => TableStep(sem, a, t), t => TableStep(sem, b, t);
      var oidA, oidB := a.relation.source.oid, b.relation.source.oid;
      if oidA != oidB {
        DifferentTablesCommute(db.value, oidA, f, oidB, g);
      } else {
        var k, l := Footprint(a).value, Footprint(b).value;
        forall t: Table ensures Confined(f, k, t) && Confined(g, l, t) {
          FootprintConfines(sem, a, t);
          FootprintConfines(sem, b, t);
        }
        DifferentRowsCommute(db.value, oidA, f, k, g, l);
      }
    }
  }

  /** A change independent of everything in `xs` may run after them instead of before. */
  lemma {:induction false} MovePast(sem: Semantics, db: Option<Database>, a: Item, xs: seq<Item>)
    requires forall i :: 0 <= i < |xs| ==> Independent(a, xs[i])
    ensures Run(sem, db, [a] + xs) == Run(sem, db, xs + [a])
    decreases |xs|
  {
    if xs == [] {
      assert [a] + xs == xs + [a];
    } else {
      var x, rest := xs[0], xs[1..];
      calc {
        Run(sem, db, [a] + xs);
        { assert [a] + xs == [a, x] + rest; RunConcat(sem, db, [a, x], rest); }
        Run(sem, Run(sem, db, [a, x]), rest);
        { IndependentCommute(sem, db, a, x); }
        Run(sem, Run(sem, db, [x, a]), rest);
        { assert [x] + [a] == [x, a]; RunConcat(sem, db, [x], [a]); RunConcat(sem, Run(sem, db, [x]), [a], rest); }
        Run(sem, Run(sem, db, [x]), [a] + rest);
        { MovePast(sem, Run(sem, db, [x]), a, rest); }
        Run(sem, Run(sem, db, [x]), rest + [a]);
        { RunConcat(sem, db, [x], rest + [a]); assert [x] + (rest + [a]) == xs + [a]; }
        Run(sem, db, xs + [a]);
      }
    }
  }

  // --- Selecting and merging subsequences ---

  function Select(p: Item -> bool, xs: seq<Item>): (s: seq<Item>)
    ensures forall x :: x in s <==> x in xs && p(x)
  {
    if xs == [] then []
    else if p(xs[0]) then [xs[0]] + Select(p, xs[1..])
    else Select(p, xs[1..])
  }

  lemma {:induction false} SelectConcat(p: Item -> bool, xs: seq<Item>, ys: seq<Item>)
    ensures Select(p, xs + ys) == Select(p, xs) + Select(p, ys)
    decreases |xs|
  {
    if xs == [] {
      assert xs + ys == ys;
    } else {
      assert (xs + ys)[1..] == xs[1..] + ys;
      SelectConcat(p, xs[1..], ys);
    }
  }

  lemma {:induction false} SelectAgree(p: Item -> bool, q: Item -> bool, xs: seq<Item>)
    requires forall x :: x in xs ==> p(x) == q(x)
    ensures Select(p, xs) == Select(q, xs)
    decreases |xs|
  {
    if xs != [] {
      SelectAgree(p, q, xs[1..]);
    }
  }

  lemma {:induction false} SelectSelect(p: Item -> bool, q: Item -> bool, xs: seq<Item>)
    ensures Select(p, Select(q, xs)) == Select(x => p(x) && q(x), xs)
    decreases |xs|
  {
    if xs != [] {
      SelectSelect(p, q, xs[1..]);
      if q(xs[0]) {
        assert Select(q, xs)[1..] == Select(q, xs[1..]);
      }
    }
  }

  lemma {:induction false} SelectAll(p: Item -> bool, xs: seq<Item>)
    requires forall x :: x in xs ==> p(x)
    ensures Select(p, xs) == xs
    decreases |xs|
  {
    if xs != [] {
      SelectAll(p, xs[1..]);
    }
  }

  lemma {:induction false} SelectNone(p: Item -> bool, xs: seq<Item>)
    requires forall x :: x in xs ==> !p(x)
    ensures Select(p, xs) == []
    decreases |xs|
  {
    if xs != [] {
      SelectNone(p, xs[1..]);
    }
  }

  /** Nothing selected by `later` that precedes something selected by `first` depends on it. */
  predicate Separable(first: Item -> bool, later: Item -> bool, xs: seq<Item>) {
    forall i, j :: 0 <= i < j < |xs| && later(xs[i]) && first(xs[j]) ==> Independent(xs[i], xs[j])
  }

  /** Running one selection and then another equals running both in source order. */
  lemma {:induction false} Merge(
    sem: Semantics, db: Option<Database>, first: Item -> bool, later: Item -> bool, xs: seq<Item>)
    requires forall x :: x in xs ==> !(first(x) && later(x))
    requires Separable(first, later, xs)
    ensures Run(sem, Run(sem, db, Select(first, xs)), Select(later, xs)) ==
            Run(sem, db, Select(x => first(x) || later(x), xs))
    decreases |xs|
  {
    if xs != [] {
      var both := x => first(x) || later(x);
      var x, rest := xs[0], xs[1..];
      assert forall i :: 0 <= i < |rest| ==> rest[i] == xs[i + 1];
      if later(x) {
        var firsts := Select(first, rest);
        forall i | 0 <= i < |firsts| ensures Independent(x, firsts[i]) {
          assert firsts[i] in firsts;
          var j :| 0 <= j < |rest| && rest[j] == firsts[i];
          assert xs[j + 1] == firsts[i];
        }
        calc {
          Run(sem, Run(sem, db, Select(first, xs)), Select(later, xs));
          Run(sem, Run(sem, db, firsts), [x] + Select(later, rest));
          { RunConcat(sem, db, firsts, [x] + Select(later, rest));
            assert firsts + ([x] + Select(later, rest)) == (firsts + [x]) + Select(later, rest);
            RunConcat(sem, db, firsts + [x], Select(later, rest)); }
          Run(sem, Run(sem, db, firsts + [x]), Select(later, rest));
          { MovePast(sem, db, x, firsts); }
          Run(sem, Run(sem, db, [x] + firsts), Select(later, rest));
          { RunConcat(sem, db, [x], firsts); }
          Run(sem, Run(sem, Run(sem, db, [x]), firsts), Select(later, rest));
          { Merge(sem, Run(sem, db, [x]), first, later, rest); }
          Run(sem, Run(sem, db, [x]), Select(both, rest));
          { RunConcat(sem, db, [x], Select(both, rest)); }
          Run(sem, db, Select(both, xs));
        }
      } else if first(x) {
        RunConcat(sem, db, [x], Select(first, rest));
        RunConcat(sem, db, [x], Select(both, rest));
        Merge(sem, Run(sem, db, [x]), first, later, rest);
      } else {
        Merge(sem, db, first, later, rest);
      }
    }
  }

  // --- Grouping by a label ---

  function HasLabel<L(==)>(labelOf: Item -> L, l: L): Item -> bool {
    x => labelOf(x) == l
  }

  function AnyLabel<L(==)>(labelOf: Item -> L, labels: seq<L>): Item -> bool {
    x => labelOf(x) in labels
  }

  /** The groups of `xs`, one per label, in the order of `labels`. */
  function Grouped<L(==)>(labels: seq<L>, labelOf: Item -> L, xs: seq<Item>): seq<Item> {
    if labels == [] then []
    else Select(HasLabel(labelOf, labels[0]), xs) + Grouped(labels[1..], labelOf, xs)
  }

  predicate Distinct<L(==)>(s: seq<L>) {
    forall i, j :: 0 <= i < j < |s| ==> s[i] != s[j]
  }

  /** Changes with different labels are independent. */
  predicate LabelsSeparate<L(==)>(labelOf: Item -> L, xs: seq<Item>) {
    forall i, j :: 0 <= i < j < |xs| && labelOf(xs[i]) != labelOf(xs[j]) ==> Independent(xs[i], xs[j])
  }

  /** Running whole groups one after another, in any order of the labels, equals source order. */
  lemma {:induction false} GroupingPreservesRun<L>(
    sem: Semantics, db: Option<Database>, labels: seq<L>, labelOf: Item -> L, xs: seq<Item>)
    requires Distinct(labels) && LabelsSeparate(labelOf, xs)
    ensures Run(sem, db, Grouped(labels, labelOf, xs)) == Run(sem, db, Select(AnyLabel(labelOf, labels), xs))
    decreases |labels|
  {
    if labels == [] {
      SelectNone(AnyLabel(labelOf, labels), xs);
    } else {
      var head, tail := HasLabel(labelOf, labels[0]), AnyLabel(labelOf, labels[1..]);
      RunConcat(sem, db, Select(head, xs), Grouped(labels[1..], labelOf, xs));
      GroupingPreservesRun(sem, Run(sem, db, Select(head, xs)), labels[1..], labelOf, xs);
      Merge(sem, db, head, tail, xs);
      SelectAgree(x => head(x) || tail(x), AnyLabel(labelOf, labels), xs);
    }
  }
}
