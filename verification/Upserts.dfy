/** The table after a batch of INSERT OR REPLACE (pkg/database/memdb.go:301-356) under the foreign
    keys of pkg/database/migrations/001_initial.sql:40-42: each row that is replaced is deleted
    first, and takes everything below it along. */
module Upserts {
  import opened Messages

  /** INSERT OR REPLACE: a row with the same ID is deleted first, with everything below it. */
  function Replace(rows: map<nat, Row>, r: Row): map<nat, Row> {
    if r.id in rows then (rows - Cascade(rows, {r.id}))[r.id := r] else rows[r.id := r]
  }

  /** The table after the rows have been written one after another. */
  function Upsert(rows: map<nat, Row>, list: seq<Row>): map<nat, Row> {
    if list == [] then rows else Replace(Upsert(rows, list[..|list|-1]), list[|list|-1])
  }

  lemma {:induction false} UpsertAppend(rows: map<nat, Row>, a: seq<Row>, b: seq<Row>)
    ensures Upsert(rows, a + b) == Upsert(Upsert(rows, a), b)
  {
    hide Replace;
    if b == [] {
      assert a + b == a;
    } else {
      var c := b[..|b|-1];
      assert (a + b)[..|a + b|-1] == a + c;
      UpsertAppend(rows, a, c);
    }
  }

  /** `list` holds the rows of `written`, each under its own ID, in ascending order. */
  ghost predicate Lists(list: seq<Row>, written: map<nat, Row>) {
    && (forall i :: 0 <= i < |list| ==> list[i].id in written && written[list[i].id] == list[i])
    && (forall id :: id in written ==> written[id] in list && written[id].id == id)
  }

  ghost predicate AscendingIds(list: seq<Row>) {
    forall i, j :: 0 <= i < j < |list| ==> list[i].id < list[j].id
  }

  /** Rows under their own IDs, after what they refer to. */
  ghost predicate GroundedTable(rows: map<nat, Row>) {
    forall id :: id in rows ==> rows[id].id == id && Grounded(rows[id])
  }

  /** What hangs below a row has no smaller ID. */
  lemma CascadeIsLater(rows: map<nat, Row>, b: nat)
    requires GroundedTable(rows)
    ensures forall id :: id in Cascade(rows, {b}) ==> id >= b
  {
    var later := {b} + set id | id in rows && id >= b;
    hide Cascade;
    CascadeIsLeast(rows, {b}, later);
  }

  lemma RewrittenGrounded(rows: map<nat, Row>, w: map<nat, Row>)
    requires GroundedTable(rows) && GroundedTable(w)
    ensures GroundedTable(Rewritten(rows, w))
  {
    hide Cascade;
  }

  /** What the replacement of `b` takes from the rewritten table, it takes from the original. */
  lemma TakenFromRewritten(rows: map<nat, Row>, w: map<nat, Row>, b: nat)
    requires GroundedTable(rows) && GroundedTable(w) && forall x :: x in w ==> x < b
    ensures forall id :: id in Cascade(Rewritten(rows, w), {b}) ==>
              id >= b && id in Cascade(rows, rows.Keys * w.Keys + {b})
  {
    hide Cascade;
    var now := Cascade(rows, rows.Keys * w.Keys + {b});
    CascadeCloses(rows, rows.Keys * w.Keys + {b});
    var part := set x | x in now && x >= b;
    DependsLater(now, b);
    assert Closed(Rewritten(rows, w), part);
    CascadeIsLeast(Rewritten(rows, w), {b}, part);
  }

  /** What goes with the rows of `w` and `b` goes with those of `w`, or when `b` is replaced. */
  lemma TakenInTwoSteps(rows: map<nat, Row>, w: map<nat, Row>, b: nat)
    requires GroundedTable(rows) && GroundedTable(w) && forall x :: x in w ==> x < b
    ensures Cascade(rows, rows.Keys * w.Keys + {b}) <=
            Cascade(rows, rows.Keys * w.Keys) + Cascade(Rewritten(rows, w), {b})
    ensures Cascade(rows, rows.Keys * w.Keys) <= Cascade(rows, rows.Keys * w.Keys + {b})
  {
    hide Cascade;
    var g, r := rows.Keys * w.Keys, Rewritten(rows, w);
    var before, d := Cascade(rows, g), Cascade(r, {b});
    RewrittenGrounded(rows, w);
    CascadeIsLater(r, b);
    CascadeCloses(rows, g);
    CascadeCloses(r, {b});
    DependsSplit(before, d);
    assert Closed(rows, before + d);
    CascadeIsLeast(rows, g + {b}, before + d);
    CascadeCloses(rows, g + {b});
    CascadeIsLeast(rows, g, Cascade(rows, g + {b}));
  }

  lemma DependsSplit(a: set<nat>, b: set<nat>)
    ensures forall r: Row :: DependsOn(r, a + b) <==> DependsOn(r, a) || DependsOn(r, b)
  {
  }

  /** A grounded row that depends on IDs from `b` on has such an ID itself. */
  lemma DependsLater(all: set<nat>, b: nat)
    ensures var part := set x | x in all && x >= b;
      forall r: Row :: Grounded(r) && DependsOn(r, part) ==> r.id >= b && DependsOn(r, all)
  {
  }

  lemma ReplaceStep(rows: map<nat, Row>, w: map<nat, Row>, r: Row)
    requires GroundedTable(rows) && GroundedTable(w) && forall x :: x in w ==> x < r.id
    ensures Replace(Rewritten(rows, w), r) == Rewritten(rows, w[r.id := r])
  {
    hide Cascade, GroundedTable;
    var g := rows.Keys * w.Keys;
    if r.id !in rows {
      assert rows.Keys * w[r.id := r].Keys == g;
    } else {
      assert rows.Keys * w[r.id := r].Keys == g + {r.id};
      if r.id in Cascade(rows, g) {
        CascadeAbsorbs(rows, g, r.id);
      } else {
        ReplacePresent(rows, w, r);
      }
    }
  }

  /** What goes anyway takes nothing more along. */
  lemma CascadeAbsorbs(rows: map<nat, Row>, gone: set<nat>, b: nat)
    requires b in Cascade(rows, gone)
    ensures Cascade(rows, gone + {b}) == Cascade(rows, gone)
  {
    CascadeCloses(rows, gone);
    CascadeCloses(rows, gone + {b});
    CascadeIsLeast(rows, gone + {b}, Cascade(rows, gone));
    CascadeIsLeast(rows, gone, Cascade(rows, gone + {b}));
  }

  lemma ReplacePresent(rows: map<nat, Row>, w: map<nat, Row>, r: Row)
    requires GroundedTable(rows) && GroundedTable(w) && forall x :: x in w ==> x < r.id
    requires r.id in rows && r.id !in Cascade(rows, rows.Keys * w.Keys)
    requires rows.Keys * w[r.id := r].Keys == rows.Keys * w.Keys + {r.id}
    ensures Replace(Rewritten(rows, w), r) == Rewritten(rows, w[r.id := r])
  {
    hide Cascade, GroundedTable;
    TakenFromRewritten(rows, w, r.id);
    TakenInTwoSteps(rows, w, r.id);
    var x, y := Replace(Rewritten(rows, w), r), Rewritten(rows, w[r.id := r]);
    forall id: nat ensures id in x <==> id in y ensures id in x ==> x[id] == y[id] {
    }
  }

  function MapOf(list: seq<Row>): map<nat, Row> {
    if list == [] then map[] else MapOf(list[..|list|-1])[list[|list|-1].id := list[|list|-1]]
  }

  lemma {:induction false} MapOfAt(list: seq<Row>, i: nat)
    requires AscendingIds(list) && i < |list|
    ensures list[i].id in MapOf(list) && MapOf(list)[list[i].id] == list[i]
    decreases |list|
  {
    var n := |list| - 1;
    if i < n {
      MapOfAt(list[..n], i);
      assert list[..n][i] == list[i] && list[i].id < list[n].id;
    }
  }

  lemma {:induction false} MapOfHolds(list: seq<Row>, id: nat) returns (i: nat)
    requires id in MapOf(list)
    ensures i < |list| && list[i].id == id && MapOf(list)[id] == list[i]
    decreases |list|
  {
    var n := |list| - 1;
    if id == list[n].id {
      i := n;
    } else {
      i := MapOfHolds(list[..n], id);
    }
  }

  predicate AllGrounded(list: seq<Row>) {
    forall i :: 0 <= i < |list| ==> Grounded(list[i])
  }

  lemma MapOfGrounded(list: seq<Row>)
    requires AllGrounded(list)
    ensures GroundedTable(MapOf(list))
  {
    forall id | id in MapOf(list) ensures MapOf(list)[id].id == id && Grounded(MapOf(list)[id]) {
      var i := MapOfHolds(list, id);
    }
  }

  lemma PrefixBelow(list: seq<Row>)
    requires AscendingIds(list) && list != []
    ensures var n := |list| - 1;
      AscendingIds(list[..n]) && forall id :: id in MapOf(list[..n]) ==> id < list[n].id
  {
    var n := |list| - 1;
    forall id | id in MapOf(list[..n]) ensures id < list[n].id {
      var i := MapOfHolds(list[..n], id);
      assert list[i].id < list[n].id;
    }
  }

  /** Written in ascending order, the rows replace what they replace at once. */
  lemma {:induction false} UpsertIsRewritten(rows: map<nat, Row>, list: seq<Row>)
    requires GroundedTable(rows) && AscendingIds(list) && AllGrounded(list)
    ensures Upsert(rows, list) == Rewritten(rows, MapOf(list))
  {
    hide Replace, Rewritten, GroundedTable, AscendingIds, Grounded;
    if list == [] {
      NothingRewritten(rows);
    } else {
      var n := |list| - 1;
      PrefixBelow(list);
      UpsertIsRewritten(rows, list[..n]);
      MapOfGrounded(list[..n]);
      ReplaceStep(rows, MapOf(list[..n]), list[n]);
    }
  }

  lemma NothingRewritten(rows: map<nat, Row>)
    ensures Rewritten(rows, map[]) == rows
  {
    var nothing: map<nat, Row> := map[];
    assert rows.Keys * nothing.Keys == {};
    NothingCascades(rows);
    assert rows - {} == rows;
  }

  /** So a snapshot's batches leave the table that the operation says. */
  lemma UpsertLists(rows: map<nat, Row>, list: seq<Row>, written: map<nat, Row>)
    requires GroundedTable(rows) && GroundedTable(written) && Lists(list, written) && AscendingIds(list)
    ensures Upsert(rows, list) == Rewritten(rows, written)
  {
    hide *;
    MapOfListed(list, written);
    UpsertIsRewritten(rows, list);
  }

  lemma MapOfListed(list: seq<Row>, written: map<nat, Row>)
    requires GroundedTable(written) && Lists(list, written) && AscendingIds(list)
    ensures MapOf(list) == written && AllGrounded(list)
  {
    hide MapOf, Grounded;
    forall id | id in written ensures id in MapOf(list) && MapOf(list)[id] == written[id] {
      var i :| 0 <= i < |list| && list[i] == written[id];
      MapOfAt(list, i);
    }
    forall id | id in MapOf(list) ensures id in written {
      var i := MapOfHolds(list, id);
    }
  }
}
