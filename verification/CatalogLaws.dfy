/** The catalog as a cache: exactly when a rebuild from an empty table gives the same rows. */
module CatalogLaws {
  import opened Wrappers
  import opened Text
  import opened Versions
  import opened StoreSpec
  import opened HistoryLaws
  import opened IdOrder
  import opened Catalog

  // ----- what a row should be ------------------------------------------------------------

  /** A recipe with a head has a history, all of whose records are the recipe's own. */
  lemma HeadHasHistory(norm: Normalizer, s: Store, id: string)
    requires Sound(norm, s) && id in s.heads
    ensures HeadOf(s, id).Success? && HeadOf(s, id).value.Some? && HeadOf(s, id).value.value in Stored(s, id).Values
    ensures History(s, id).Success? && History(s, id).value != []
    ensures History(s, id).value[0].recipe.doc.id == id && History(s, id).value[0] in Stored(s, id).Values
  {
    HistoryExact(norm, s, id);
    assert RecordKept(norm, s.versions[id], id);
    var out := History(s, id).value;
    var walk := Walk(Stored(s, id), [s.heads[id]], {});
    WalkExact(Stored(s, id), s.heads[id]);
    SameMembers(out, walk);
    assert out[0] in walk;
    hide Reaches, WellHashed;
  }

  /** The newest content of a recipe. */
  function NewestDoc(s: Store, id: string): Doc
    requires History(s, id).Success? && History(s, id).value != []
  {
    History(s, id).value[0].recipe.doc
  }

  /** The table has a history to show for the recipe, and an owner. */
  ghost predicate Showable(env: CatalogEnv, s: Store, id: string) {
    Owned(env, s, id) && History(s, id).Success? && History(s, id).value != []
  }

  ghost function RowOf(env: CatalogEnv, s: Store, id: string, slug: string): (row: Row)
    requires Showable(env, s, id)
    ensures row.slug == slug
  {
    RowFor(env, History(s, id).value, env.ownerFor(HeadOf(s, id).value.value.author).value, slug)
  }

  ghost function Base(env: CatalogEnv, s: Store, id: string): string
    requires Showable(env, s, id)
  {
    BaseSlug(env, NewestDoc(s, id).title)
  }

  lemma OwnedShows(norm: Normalizer, env: CatalogEnv, s: Store, id: string)
    requires Sound(norm, s)
    ensures Owned(env, s, id) ==> Showable(env, s, id) && NewestDoc(s, id).id == id && id in s.heads
  {
    if id in s.heads {
      HeadHasHistory(norm, s, id);
    }
    hide Sound, History;
  }

  /** The slug the projection picks for the recipe in this table. */
  ghost function PickSlug(env: CatalogEnv, s: Store, rows: Table, id: string): string
    requires Showable(env, s, id)
  {
    if Taken(rows, Base(env, s, id), id) then SuffixedSlug(env, Base(env, s, id), id) else Base(env, s, id)
  }

  lemma OneStep(norm: Normalizer, env: CatalogEnv, s: Store, rows: Table, id: string)
    requires Sound(norm, s)
    ensures !Owned(env, s, id) ==> ProjectOne(env, s, rows, id) == Progress(rows, None)
    ensures Owned(env, s, id) ==>
              && Showable(env, s, id)
              && var slug := PickSlug(env, s, rows, id);
                 ProjectOne(env, s, rows, id)
                 == if Taken(rows, slug, id) then Progress(rows, Some(SlugTaken(slug)))
                    else Progress(rows[id := RowOf(env, s, id, slug)], None)
  {
    OwnedShows(norm, env, s, id);
    if id in s.heads {
      HeadHasHistory(norm, s, id);
    }
    hide Sound, History, RowFor, Taken, SuffixedSlug, BaseSlug;
  }

  lemma SuffixedDiffers(env: CatalogEnv, base: string, id: string)
    ensures SuffixedSlug(env, base, id) != base && SuffixedSlug(env, base, id) != ""
  {
    assert |SuffixedSlug(env, base, id)| > |base|;
  }

  // ----- tables that show the store ------------------------------------------------------------

  /** The rows are those of the owned recipes, right in every column but the slug. */
  ghost predicate Current(env: CatalogEnv, s: Store, rows: Table) {
    && (forall id :: id in rows <==> Owned(env, s, id))
    && (forall id :: id in rows ==> RowShown(env, s, rows, id))
  }

  /** The row is right in every column but the slug. */
  ghost predicate RowShown(env: CatalogEnv, s: Store, rows: Table, id: string)
    requires id in rows
  {
    Showable(env, s, id) && rows[id] == RowOf(env, s, id, rows[id].slug)
  }

  predicate UniqueSlugs(rows: Table) {
    forall p, q :: p in rows && q in rows && p != q ==> rows[p].slug != rows[q].slug
  }

  /** Some recipe with a smaller id has the slug. */
  predicate TakenBefore(rows: Table, slug: string, id: string) {
    exists q :: q in rows && LexLess(q, id) && rows[q].slug == slug
  }

  /** The recipe has its title's slug exactly if no recipe with a smaller id has it. */
  ghost predicate SlugInIdOrder(env: CatalogEnv, s: Store, rows: Table, id: string)
    requires id in rows && Showable(env, s, id)
  {
    var base := Base(env, s, id);
    rows[id].slug == if TakenBefore(rows, base, id) then SuffixedSlug(env, base, id) else base
  }

  ghost predicate InIdOrder(env: CatalogEnv, s: Store, rows: Table) {
    forall id :: id in rows ==> Showable(env, s, id) && SlugInIdOrder(env, s, rows, id)
  }

  /** The rows of the first k ids. */
  function Restrict(rows: Table, ids: seq<string>, k: nat): Table
    requires k <= |ids|
  {
    map id | id in rows && id in ids[..k] :: rows[id]
  }

  lemma SortedPrefix(ids: seq<string>, k: nat, q: string)
    requires StrictlySorted(ids) && k < |ids|
    ensures q in ids ==> (q in ids[..k] <==> LexLess(q, ids[k]))
    ensures ids[k] !in ids[..k] && (q in ids[..k + 1] <==> q in ids[..k] || q == ids[k])
  {
    LexLessTotal(ids[k], ids[k]);
    if q in ids {
      var j :| 0 <= j < |ids| && ids[j] == q;
      LexLessTotal(q, ids[k]);
    }
  }

  lemma TakenInPrefix(rows: Table, ids: seq<string>, k: nat, slug: string)
    requires StrictlySorted(ids) && k < |ids| && forall id :: id in rows ==> id in ids
    ensures Taken(Restrict(rows, ids, k), slug, ids[k]) <==> TakenBefore(rows, slug, ids[k])
  {
    LexLessTotal(ids[k], ids[k]);
    forall q | q in rows ensures q in ids[..k] <==> LexLess(q, ids[k]) {
      SortedPrefix(ids, k, q);
    }
    if TakenBefore(rows, slug, ids[k]) {
      var q :| q in rows && LexLess(q, ids[k]) && rows[q].slug == slug;
      assert q in Restrict(rows, ids, k);
    }
  }

  lemma RestrictStep(rows: Table, ids: seq<string>, k: nat)
    requires StrictlySorted(ids) && k < |ids|
    ensures Restrict(rows, ids, k + 1)
         == if ids[k] in rows then Restrict(rows, ids, k)[ids[k] := rows[ids[k]]] else Restrict(rows, ids, k)
    ensures ids[k] !in Restrict(rows, ids, k)
  {
    forall q ensures ids[k] !in ids[..k] && (q in ids[..k + 1] <==> q in ids[..k] || q == ids[k]) {
      SortedPrefix(ids, k, q);
    }
    hide LexLess, StrictlySorted;
  }

  // ----- a rebuild -------------------------------------------------------------------------------

  /** With slugs in id order, the rebuild adds exactly the rows of the table, one after the other. */
  lemma {:induction false} RebuildFollows(norm: Normalizer, env: CatalogEnv, s: Store, rows: Table, ids: seq<string>,
                                          k: nat)
    requires Sound(norm, s) && StrictlySorted(ids) && k <= |ids|
    requires Current(env, s, rows) && UniqueSlugs(rows) && InIdOrder(env, s, rows)
    requires forall id :: id in rows ==> id in ids
    ensures ProjectIds(env, s, map[], ids[..k]) == Progress(Restrict(rows, ids, k), None)
  {
    hide Sound, StrictlySorted, UniqueSlugs, Current, InIdOrder, ProjectOne;
    if k == 0 {
      assert Restrict(rows, ids, 0) == map[];
    } else {
      RebuildFollows(norm, env, s, rows, ids, k - 1);
      assert ids[..k][..k - 1] == ids[..k - 1];
      FollowOne(norm, env, s, rows, ids, k - 1);
    }
  }

  lemma FollowOne(norm: Normalizer, env: CatalogEnv, s: Store, rows: Table, ids: seq<string>, k: nat)
    requires Sound(norm, s) && StrictlySorted(ids) && k < |ids|
    requires Current(env, s, rows) && UniqueSlugs(rows) && InIdOrder(env, s, rows)
    requires forall id :: id in rows ==> id in ids
    ensures ProjectOne(env, s, Restrict(rows, ids, k), ids[k]) == Progress(Restrict(rows, ids, k + 1), None)
  {
    var id := ids[k];
    OneStep(norm, env, s, Restrict(rows, ids, k), id);
    RestrictStep(rows, ids, k);
    if Owned(env, s, id) {
      assert id in rows;
      TakenInPrefix(rows, ids, k, Base(env, s, id));
      assert SlugInIdOrder(env, s, rows, id);
      NotTakenElsewhere(rows, ids, k);
    }
    hide Sound, ProjectOne, RowOf, Owned, Base, SuffixedSlug, Taken, TakenBefore;
  }

  lemma NotTakenElsewhere(rows: Table, ids: seq<string>, k: nat)
    requires UniqueSlugs(rows) && k < |ids| && ids[k] in rows
    ensures !Taken(Restrict(rows, ids, k), rows[ids[k]].slug, ids[k])
    ensures !Taken(rows, rows[ids[k]].slug, ids[k])
  {
  }

  /** The row was added with the slug picked among the rows before it. */
  ghost predicate Picked(env: CatalogEnv, s: Store, ids: seq<string>, i: nat, rows: Table)
    requires i < |ids|
  {
    && ids[i] in rows && RowShown(env, s, rows, ids[i])
    && rows[ids[i]].slug == PickSlug(env, s, Restrict(rows, ids, i), ids[i])
  }

  /** What the rebuild has after k ids: the rows of the owned ones, each with the slug picked when it was added. */
  ghost predicate Built(env: CatalogEnv, s: Store, ids: seq<string>, k: nat, rows: Table)
    requires k <= |ids|
  {
    && UniqueSlugs(rows)
    && (forall id :: id in rows <==> id in ids[..k] && Owned(env, s, id))
    && (forall i :: 0 <= i < k && Owned(env, s, ids[i]) ==> Picked(env, s, ids, i, rows))
  }

  lemma RestrictSame(rows: Table, ids: seq<string>, i: nat, id: string, row: Row)
    requires i <= |ids| && id !in ids[..i]
    ensures Restrict(rows[id := row], ids, i) == Restrict(rows, ids, i)
  {
  }

  lemma PickedStays(env: CatalogEnv, s: Store, ids: seq<string>, i: nat, k: nat, rows: Table, row: Row)
    requires StrictlySorted(ids) && i < k < |ids| && Picked(env, s, ids, i, rows)
    ensures Picked(env, s, ids, i, rows[ids[k] := row])
  {
    SortedPrefix(ids, k, ids[i]);
    assert ids[k] !in ids[..i] by {
      assert forall q :: q in ids[..i] ==> q in ids[..k];
    }
    assert ids[i] in ids[..k];
    RestrictSame(rows, ids, i, ids[k], row);
    hide Showable, RowOf, PickSlug, Restrict, StrictlySorted;
  }

  lemma PickedNew(env: CatalogEnv, s: Store, ids: seq<string>, k: nat, rows: Table)
    requires StrictlySorted(ids) && k < |ids| && Showable(env, s, ids[k]) && forall id :: id in rows ==> id in ids[..k]
    ensures var slug := PickSlug(env, s, rows, ids[k]);
            Picked(env, s, ids, k, rows[ids[k] := RowOf(env, s, ids[k], slug)])
  {
    SortedPrefix(ids, k, ids[k]);
    RestrictSame(rows, ids, k, ids[k], RowOf(env, s, ids[k], PickSlug(env, s, rows, ids[k])));
    assert Restrict(rows, ids, k) == rows;
    hide Showable, PickSlug, StrictlySorted, Restrict;
  }

  lemma BuiltMore(env: CatalogEnv, s: Store, ids: seq<string>, k: nat, rows: Table)
    requires StrictlySorted(ids) && k < |ids| && Built(env, s, ids, k, rows) && Showable(env, s, ids[k])
    requires !Taken(rows, PickSlug(env, s, rows, ids[k]), ids[k])
    ensures Built(env, s, ids, k + 1, rows[ids[k] := RowOf(env, s, ids[k], PickSlug(env, s, rows, ids[k]))])
  {
    var row := RowOf(env, s, ids[k], PickSlug(env, s, rows, ids[k]));
    var after := rows[ids[k] := row];
    forall q ensures q in ids[..k + 1] <==> q in ids[..k] || q == ids[k] {
      SortedPrefix(ids, k, q);
    }
    PickedNew(env, s, ids, k, rows);
    forall i | 0 <= i < k && Owned(env, s, ids[i]) ensures Picked(env, s, ids, i, after) {
      PickedStays(env, s, ids, i, k, rows, row);
    }
    hide StrictlySorted, RowOf, Picked, PickSlug, Taken, UniqueSlugs, Restrict;
    NewSlugUnique(rows, ids[k], after);
  }

  lemma BuiltSame(env: CatalogEnv, s: Store, ids: seq<string>, k: nat, rows: Table)
    requires StrictlySorted(ids) && k < |ids| && Built(env, s, ids, k, rows) && !Owned(env, s, ids[k])
    ensures Built(env, s, ids, k + 1, rows)
  {
    forall q ensures q in ids[..k + 1] <==> q in ids[..k] || q == ids[k] {
      SortedPrefix(ids, k, q);
    }
    hide StrictlySorted, Picked, UniqueSlugs, Owned;
  }

  lemma BuiltStep(norm: Normalizer, env: CatalogEnv, s: Store, ids: seq<string>, k: nat, rows: Table)
    requires Sound(norm, s) && StrictlySorted(ids) && k < |ids| && Built(env, s, ids, k, rows)
    ensures var p := ProjectOne(env, s, rows, ids[k]);
            p.error.None? ==> Built(env, s, ids, k + 1, p.rows)
  {
    hide Sound, ProjectOne, RowOf, Showable, PickSlug, StrictlySorted, Taken, Built, Owned;
    OneStep(norm, env, s, rows, ids[k]);
    if !Owned(env, s, ids[k]) {
      BuiltSame(env, s, ids, k, rows);
    } else if !Taken(rows, PickSlug(env, s, rows, ids[k]), ids[k]) {
      BuiltMore(env, s, ids, k, rows);
    }
  }

  lemma NewSlugUnique(rows: Table, id: string, after: Table)
    requires UniqueSlugs(rows)
    requires after == rows || (id in after && after == rows[id := after[id]] && !Taken(rows, after[id].slug, id))
    ensures UniqueSlugs(after)
  {
  }

  lemma {:induction false} RebuildIsBuilt(norm: Normalizer, env: CatalogEnv, s: Store, ids: seq<string>, k: nat)
    requires Sound(norm, s) && StrictlySorted(ids) && k <= |ids|
    ensures var p := ProjectIds(env, s, map[], ids[..k]);
            p.error.None? ==> Built(env, s, ids, k, p.rows)
  {
    if k > 0 {
      RebuildIsBuilt(norm, env, s, ids, k - 1);
      assert ids[..k][..k - 1] == ids[..k - 1];
      var before := ProjectIds(env, s, map[], ids[..k - 1]);
      if before.error.None? {
        BuiltStep(norm, env, s, ids, k - 1, before.rows);
      }
      hide Built, Sound, StrictlySorted, ProjectOne;
    }
  }

  lemma PickedInOrder(env: CatalogEnv, s: Store, ids: seq<string>, i: nat, rows: Table)
    requires StrictlySorted(ids) && i < |ids| && Picked(env, s, ids, i, rows) && forall id :: id in rows ==> id in ids
    ensures SlugInIdOrder(env, s, rows, ids[i])
  {
    TakenInPrefix(rows, ids, i, Base(env, s, ids[i]));
    hide RowOf, Showable, Base, StrictlySorted, SuffixedSlug, Taken, TakenBefore;
  }

  lemma BuiltAt(env: CatalogEnv, s: Store, ids: seq<string>, rows: Table, id: string)
    requires StrictlySorted(ids) && Built(env, s, ids, |ids|, rows) && id in rows
    ensures RowShown(env, s, rows, id) && SlugInIdOrder(env, s, rows, id)
  {
    hide RowOf, Owned, Showable, StrictlySorted, UniqueSlugs, SlugInIdOrder;
    assert ids[..|ids|] == ids;
    var i :| 0 <= i < |ids| && ids[i] == id;
    assert Picked(env, s, ids, i, rows);
    PickedInOrder(env, s, ids, i, rows);
  }

  lemma BuiltKeys(env: CatalogEnv, s: Store, ids: seq<string>, rows: Table)
    requires Built(env, s, ids, |ids|, rows) && forall id :: Owned(env, s, id) ==> id in ids
    ensures UniqueSlugs(rows) && forall id :: id in rows <==> Owned(env, s, id)
  {
    assert ids[..|ids|] == ids;
    hide UniqueSlugs, Picked, Owned;
  }

  lemma BuiltInOrder(env: CatalogEnv, s: Store, ids: seq<string>, rows: Table)
    requires StrictlySorted(ids) && Built(env, s, ids, |ids|, rows) && forall id :: Owned(env, s, id) ==> id in ids
    ensures Current(env, s, rows) && UniqueSlugs(rows) && InIdOrder(env, s, rows)
  {
    hide Built, Owned, Showable, StrictlySorted, UniqueSlugs, SlugInIdOrder, RowOf;
    BuiltKeys(env, s, ids, rows);
    forall id | id in rows ensures RowShown(env, s, rows, id) && SlugInIdOrder(env, s, rows, id) {
      BuiltAt(env, s, ids, rows, id);
    }
  }

  lemma OwnedListed(env: CatalogEnv, s: Store, ids: seq<string>)
    requires Sorts(ids, s.versions.Keys + s.heads.Keys)
    ensures forall id :: Owned(env, s, id) ==> id in ids
  {
  }

  /** A rebuild without error shows the store, with unique slugs given out in id order. */
  lemma {:induction false} RebuildIsOrdered(norm: Normalizer, env: CatalogEnv, s: Store, ids: seq<string>)
    requires Sound(norm, s) && Sorts(ids, s.versions.Keys + s.heads.Keys)
    requires ProjectIds(env, s, map[], ids).error.None?
    ensures var rows := ProjectIds(env, s, map[], ids).rows;
            Current(env, s, rows) && UniqueSlugs(rows) && InIdOrder(env, s, rows)
  {
    OwnedListed(env, s, ids);
    assert ids[..|ids|] == ids;
    hide Sound, Built, StrictlySorted, UniqueSlugs, InIdOrder, Owned, ProjectIds, Current;
    RebuildIsBuilt(norm, env, s, ids, |ids|);
    BuiltInOrder(env, s, ids, ProjectIds(env, s, map[], ids).rows);
  }

  /**
   A table is what a rebuild from an empty table gives exactly if it shows the store, with unique slugs given out in
   id order.
   */
  lemma {:induction false} RebuildIff(norm: Normalizer, env: CatalogEnv, s: Store, rows: Table, ids: seq<string>)
    requires Sound(norm, s) && Sorts(ids, s.versions.Keys + s.heads.Keys)
    ensures ProjectIds(env, s, map[], ids) == Progress(rows, None) <==>
              Current(env, s, rows) && UniqueSlugs(rows) && InIdOrder(env, s, rows)
  {
    hide Sound, StrictlySorted, UniqueSlugs, InIdOrder, ProjectIds, Current, Sorts;
    if Current(env, s, rows) && UniqueSlugs(rows) && InIdOrder(env, s, rows) {
      RebuildGives(norm, env, s, rows, ids);
    }
    if ProjectIds(env, s, map[], ids) == Progress(rows, None) {
      RebuildIsOrdered(norm, env, s, ids);
    }
  }

  lemma RebuildGives(norm: Normalizer, env: CatalogEnv, s: Store, rows: Table, ids: seq<string>)
    requires Sound(norm, s) && Sorts(ids, s.versions.Keys + s.heads.Keys)
    requires Current(env, s, rows) && UniqueSlugs(rows) && InIdOrder(env, s, rows)
    ensures ProjectIds(env, s, map[], ids) == Progress(rows, None)
  {
    OwnedListed(env, s, ids);
    hide Sound, StrictlySorted, UniqueSlugs, InIdOrder, Owned, ProjectIds, Restrict, RowShown;
    assert ids[..|ids|] == ids;
    RebuildFollows(norm, env, s, rows, ids, |ids|);
    RestrictAll(rows, ids);
  }

  lemma RestrictAll(rows: Table, ids: seq<string>)
    requires forall id :: id in rows ==> id in ids
    ensures Restrict(rows, ids, |ids|) == rows
  {
    assert ids[..|ids|] == ids;
  }

  // ----- projecting again ----------------------------------------------------------------------------

  /** With unique slugs, the slug picked again is the one the row has. */
  lemma PickedAgain(env: CatalogEnv, s: Store, rows: Table, id: string)
    requires UniqueSlugs(rows) && id in rows && Showable(env, s, id) && SlugInIdOrder(env, s, rows, id)
    ensures PickSlug(env, s, rows, id) == rows[id].slug && !Taken(rows, rows[id].slug, id)
  {
    var base := Base(env, s, id);
    SuffixedDiffers(env, base, id);
    LexLessTotal(id, id);
    hide Showable, Base, SuffixedSlug, LexLess;
  }

  lemma AgainOne(norm: Normalizer, env: CatalogEnv, s: Store, rows: Table, id: string)
    requires Sound(norm, s) && Current(env, s, rows) && UniqueSlugs(rows) && InIdOrder(env, s, rows)
    ensures ProjectOne(env, s, rows, id) == Progress(rows, None)
  {
    hide Sound, ProjectOne, RowOf, Owned, Showable, PickSlug, UniqueSlugs, Taken, SlugInIdOrder;
    OneStep(norm, env, s, rows, id);
    if Owned(env, s, id) {
      assert RowShown(env, s, rows, id);
      PickedAgain(env, s, rows, id);
      SameRow(rows, id);
    }
  }

  lemma SameRow(rows: Table, id: string)
    requires id in rows
    ensures rows[id := rows[id]] == rows
  {
  }

  lemma {:induction false} AgainAll(norm: Normalizer, env: CatalogEnv, s: Store, rows: Table, ids: seq<string>)
    requires Sound(norm, s) && Current(env, s, rows) && UniqueSlugs(rows) && InIdOrder(env, s, rows)
    ensures ProjectIds(env, s, rows, ids) == Progress(rows, None)
  {
    hide Sound, Current, UniqueSlugs, InIdOrder, ProjectOne;
    if ids != [] {
      AgainAll(norm, env, s, rows, ids[..|ids| - 1]);
      AgainOne(norm, env, s, rows, ids[|ids| - 1]);
    }
  }

  /** Projecting the store onto the result of a rebuild changes no row. */
  lemma {:induction false} ProjectionIdempotent(norm: Normalizer, env: CatalogEnv, s: Store, ids: seq<string>)
    requires Sound(norm, s) && Sorts(ids, s.versions.Keys + s.heads.Keys)
    requires ProjectIds(env, s, map[], ids).error.None?
    ensures var rows := ProjectIds(env, s, map[], ids).rows; ProjectIds(env, s, rows, ids) == Progress(rows, None)
  {
    hide Sound, ProjectIds, InIdOrder, UniqueSlugs, Current, Sorts;
    RebuildIsOrdered(norm, env, s, ids);
    AgainAll(norm, env, s, ProjectIds(env, s, map[], ids).rows, ids);
  }

  // ----- what project_store reports -------------------------------------------------------------------

  /** The recipes among the first k ids that are owned, and those that have a head. */
  function OwnedAmong(env: CatalogEnv, s: Store, ids: seq<string>, k: nat): set<string>
    requires k <= |ids|
  {
    set i | 0 <= i < k && Owned(env, s, ids[i]) :: ids[i]
  }

  function HeadedAmong(s: Store, ids: seq<string>, k: nat): set<string>
    requires k <= |ids|
  {
    set i | 0 <= i < k && ids[i] in s.heads :: ids[i]
  }

  lemma AmongStep(env: CatalogEnv, s: Store, ids: seq<string>, k: nat)
    requires StrictlySorted(ids) && k < |ids|
    ensures OwnedAmong(env, s, ids, k + 1)
         == OwnedAmong(env, s, ids, k) + if Owned(env, s, ids[k]) then {ids[k]} else {}
    ensures HeadedAmong(s, ids, k + 1) == HeadedAmong(s, ids, k) + if ids[k] in s.heads then {ids[k]} else {}
    ensures ids[k] !in OwnedAmong(env, s, ids, k) && ids[k] !in HeadedAmong(s, ids, k)
  {
    LexLessTotal(ids[k], ids[k]);
    hide LexLess, Owned;
  }

  lemma OwnedOrOrphaned(norm: Normalizer, env: CatalogEnv, s: Store, id: string)
    requires Sound(norm, s)
    ensures id in s.heads <==> Owned(env, s, id) || Orphaned(env, s, id)
    ensures !(Owned(env, s, id) && Orphaned(env, s, id))
  {
    if id in s.heads {
      HeadHasHistory(norm, s, id);
    }
    hide Sound;
  }

  lemma {:induction false} CountsAre(norm: Normalizer, env: CatalogEnv, s: Store, ids: seq<string>, k: nat)
    requires Sound(norm, s) && StrictlySorted(ids) && k <= |ids|
    ensures CountOwned(env, s, ids[..k]) == |OwnedAmong(env, s, ids, k)|
    ensures CountOwned(env, s, ids[..k]) + |SkippedIds(env, s, ids[..k])| == |HeadedAmong(s, ids, k)|
  {
    hide Sound, StrictlySorted, Owned, Orphaned;
    if k > 0 {
      CountsAre(norm, env, s, ids, k - 1);
      AmongStep(env, s, ids, k - 1);
      OwnedOrOrphaned(norm, env, s, ids[k - 1]);
      CountsStep(env, s, ids, k - 1);
    }
    hide OwnedAmong, HeadedAmong, CountOwned, SkippedIds;
  }

  /** A rebuild reports as many recipes as it has rows, and projects or skips every recipe with a head. */
  lemma {:induction false} RebuildCounts(norm: Normalizer, env: CatalogEnv, s: Store, ids: seq<string>)
    requires Sound(norm, s) && Sorts(ids, s.versions.Keys + s.heads.Keys) && ProjectIds(env, s, map[], ids).error.None?
    ensures CountOwned(env, s, ids) == |ProjectIds(env, s, map[], ids).rows|
    ensures CountOwned(env, s, ids) + |SkippedIds(env, s, ids)| == |s.heads|
  {
    var rows := ProjectIds(env, s, map[], ids).rows;
    RebuildIsOrdered(norm, env, s, ids);
    CountsAre(norm, env, s, ids, |ids|);
    AllAmong(env, s, ids, rows);
    assert ids[..|ids|] == ids;
    hide Sound, Current, Sorts, InIdOrder, UniqueSlugs, ProjectIds, CountOwned, SkippedIds, OwnedAmong, HeadedAmong;
    assert |rows| == |rows.Keys| && |s.heads| == |s.heads.Keys|;
  }

  lemma AllAmong(env: CatalogEnv, s: Store, ids: seq<string>, rows: Table)
    requires Sorts(ids, s.versions.Keys + s.heads.Keys) && Current(env, s, rows)
    ensures OwnedAmong(env, s, ids, |ids|) == rows.Keys && HeadedAmong(s, ids, |ids|) == s.heads.Keys
  {
    OwnedListed(env, s, ids);
    hide Owned, RowShown, StrictlySorted;
    forall id | id in rows ensures id in OwnedAmong(env, s, ids, |ids|) {
      var i :| 0 <= i < |ids| && ids[i] == id;
    }
    forall id | id in s.heads ensures id in HeadedAmong(s, ids, |ids|) {
      assert id in ids;
      var i :| 0 <= i < |ids| && ids[i] == id;
    }
  }

  // ----- what a row tells ----------------------------------------------------------------------------------

  /** The last part of an id: no underscore in it, and an underscore or nothing before it. */
  lemma {:induction false} LastPartIs(id: string)
    ensures var part := LastPart(id);
            '_' !in part && (part == id || exists before :: id == before + "_" + part)
  {
    if id != "" && id[|id| - 1] != '_' {
      var init := id[..|id| - 1];
      LastPartIs(init);
      if LastPart(init) != init {
        var before :| init == before + "_" + LastPart(init);
        assert id == before + "_" + LastPart(id);
      } else {
        assert LastPart(id) == id;
      }
    } else if id != "" {
      assert id == id[..|id| - 1] + "_" + "";
    }
  }

  /** A slug with a suffix: the base, a dash and at most eight characters of the id's last part, in lower case. */
  lemma {:induction false} SuffixIs(env: CatalogEnv, base: string, id: string)
    ensures exists part, n :: '_' !in part && (part == id || exists before :: id == before + "_" + part)
                           && 0 <= n <= 8 && n <= |part| && (n == 8 || n == |part|)
                           && SuffixedSlug(env, base, id) == base + "-" + env.lower(part[..n])
  {
    LastPartIs(id);
    var part := LastPart(id);
    var n := if |part| <= 8 then |part| else 8;
    assert part[..|part|] == part;
    assert SuffixedSlug(env, base, id) == base + "-" + env.lower(part[..n]);
  }

  /**
   The slug picked: the slug of the title if it has one and no other row has it, "recipe" for a title without one, with
   the suffix of the id exactly if another row has that.
   */
  lemma {:induction false} SlugPicked(env: CatalogEnv, rows: Table, doc: Doc)
    ensures var slug, plain := UniqueSlug(env, rows, doc), env.slugify(doc.title);
            var base := if plain != "" then plain else "recipe";
            && slug != ""
            && (slug == base <==> forall q :: q in rows && q != doc.id ==> rows[q].slug != base)
            && (slug != base ==> slug == SuffixedSlug(env, base, doc.id))
  {
    SuffixedDiffers(env, BaseSlug(env, doc.title), doc.id);
    hide SuffixedSlug;
  }

  predicate HasVersionRow(row: Row, v: VersionId) {
    exists k :: 0 <= k < |row.versions| && row.versions[k].versionId == v
  }

  /** No version reachable from the head has a later time, or an earlier one. */
  ghost predicate NoneNewer(s: Store, id: string, time: string)
    requires id in s.heads
  {
    forall v :: v in Stored(s, id) && Reaches(Stored(s, id), s.heads[id], v) ==>
      !LexLess(time, Stored(s, id)[v].createdAt)
  }

  ghost predicate NoneOlder(s: Store, id: string, time: string)
    requires id in s.heads
  {
    forall v :: v in Stored(s, id) && Reaches(Stored(s, id), s.heads[id], v) ==>
      !LexLess(Stored(s, id)[v].createdAt, time)
  }

  /** The version is reachable from the head, and no reachable one is older. */
  ghost predicate IsOldest(s: Store, id: string, v: VersionId)
    requires id in s.heads
  {
    v in Stored(s, id) && Reaches(Stored(s, id), s.heads[id], v) && NoneOlder(s, id, Stored(s, id)[v].createdAt)
  }

  lemma VersionRowsAre(env: CatalogEnv, records: seq<Record>, owner: string, slug: string)
    requires records != []
    ensures forall v :: HasVersionRow(RowFor(env, records, owner, slug), v) <==> HasId(records, v)
  {
    var row := RowFor(env, records, owner, slug);
    assert forall k :: 0 <= k < |records| ==> row.versions[k].versionId == records[k].versionId;
  }

  /** The version is reachable from the head, and no reachable one is newer. */
  ghost predicate IsNewest(s: Store, id: string, v: VersionId)
    requires id in s.heads
  {
    v in Stored(s, id) && Reaches(Stored(s, id), s.heads[id], v) && NoneNewer(s, id, Stored(s, id)[v].createdAt)
  }

  /** Every record of the history is stored under its id and reachable; the history is sorted and lists none twice. */
  lemma HistoryRecords(norm: Normalizer, s: Store, id: string)
    requires Sound(norm, s) && id in s.heads
    ensures var out, store := History(s, id), Stored(s, id);
            && out.Success? && TimeSorted(out.value) && DistinctVersions(out.value)
            && forall k :: 0 <= k < |out.value| ==>
                 && out.value[k].versionId in store && store[out.value[k].versionId] == out.value[k]
                 && Reaches(store, s.heads[id], out.value[k].versionId)
  {
    hide Sound, Walk, NewestFirst, Reaches, LexLess, History, WellKeyed, Stored, TimeSorted, DistinctVersions;
    HistoryExact(norm, s, id);
    HistoryIsSortedWalk(norm, s, id);
    var out, store := History(s, id).value, Stored(s, id);
    var walk := Walk(store, [s.heads[id]], {});
    WalkExact(store, s.heads[id]);
    SameMembers(out, walk);
    DistinctPermuted(walk, out);
    forall k | 0 <= k < |out|
      ensures out[k].versionId in store && store[out[k].versionId] == out[k]
           && Reaches(store, s.heads[id], out[k].versionId) {
      assert out[k] in walk;
      assert HasId(out, out[k].versionId);
    }
  }

  /** Records of distinct versions stay so in any order. */
  lemma DistinctPermuted(s: seq<Record>, t: seq<Record>)
    requires multiset(s) == multiset(t) && DistinctVersions(s)
    ensures DistinctVersions(t)
  {
    forall i, j | 0 <= i < j < |t| ensures t[i].versionId != t[j].versionId {
      if t[i].versionId == t[j].versionId {
        assert t[i] in multiset(t) && t[j] in multiset(t);
        var x :| 0 <= x < |s| && s[x] == t[i];
        var y :| 0 <= y < |s| && s[y] == t[j];
        assert x == y;
        CountedTwice(t, i, j);
        CountedOnce(s, x);
      }
    }
  }

  lemma CountedTwice(t: seq<Record>, i: nat, j: nat)
    requires i < j < |t| && t[i] == t[j]
    ensures multiset(t)[t[i]] >= 2
  {
    assert t == t[..i] + [t[i]] + t[i + 1..j] + [t[j]] + t[j + 1..];
  }

  lemma CountedOnce(s: seq<Record>, x: nat)
    requires x < |s| && DistinctVersions(s)
    ensures multiset(s)[s[x]] == 1
  {
    assert s == s[..x] + [s[x]] + s[x + 1..];
  }

  /** The row's columns are those of the recipe content the record holds. */
  predicate HeadTold(env: CatalogEnv, row: Row, rec: Record) {
    && row.headVersion == rec.versionId && row.headContent == rec.contentHash
    && row.updatedAt == env.parseTime(rec.createdAt)
    && row.title == rec.recipe.doc.title && row.body == rec.recipe.doc.body
  }

  /** The columns of a version row are the record's. */
  predicate VersionTold(env: CatalogEnv, row: VersionRow, rec: Record) {
    && row.versionId == rec.versionId && row.contentHash == rec.contentHash && row.parents == rec.parents
    && row.origin == rec.origin && row.author == rec.author && row.message == rec.message
    && row.createdAt == env.parseTime(rec.createdAt)
  }

  /** Each version row is a stored version's, none is listed twice, and they are listed newest first. */
  ghost predicate VersionsTold(env: CatalogEnv, s: Store, id: string, versions: seq<VersionRow>) {
    && (forall k :: 0 <= k < |versions| ==>
          versions[k].versionId in Stored(s, id) && VersionTold(env, versions[k], Stored(s, id)[versions[k].versionId]))
    && (forall j, k :: 0 <= j < k < |versions| ==>
          && versions[j].versionId != versions[k].versionId
          && !LexLess(Stored(s, id)[versions[j].versionId].createdAt, Stored(s, id)[versions[k].versionId].createdAt))
  }

  /** The first version of the history is a newest one. */
  lemma NewestHead(norm: Normalizer, s: Store, id: string)
    requires Sound(norm, s) && id in s.heads && History(s, id).Success? && History(s, id).value != []
    ensures var first := History(s, id).value[0];
            IsNewest(s, id, first.versionId) && Stored(s, id)[first.versionId] == first
  {
    hide Sound, Reaches, LexLess, History, Stored, Walk, DistinctVersions;
    HistoryExact(norm, s, id);
    HistoryRecords(norm, s, id);
    var out, store := History(s, id).value, Stored(s, id);
    forall u | u in store && Reaches(store, s.heads[id], u) ensures !LexLess(out[0].createdAt, store[u].createdAt) {
      assert HasId(out, u);
      var k :| 0 <= k < |out| && out[k].versionId == u;
      LexLessTotal(out[0].createdAt, out[0].createdAt);
    }
  }

  lemma RowsTold(env: CatalogEnv, s: Store, id: string, records: seq<Record>, owner: string, slug: string)
    requires records != [] && TimeSorted(records) && DistinctVersions(records)
    requires forall k :: 0 <= k < |records| ==>
               records[k].versionId in Stored(s, id) && Stored(s, id)[records[k].versionId] == records[k]
    ensures var row := RowFor(env, records, owner, slug);
            VersionsTold(env, s, id, row.versions) && HeadTold(env, row, records[0]) && row.owner == owner
  {
    hide LexLess, Stored;
  }

  /** The last version of the history is an oldest one. */
  lemma OldestLast(norm: Normalizer, s: Store, id: string) returns (v: VersionId)
    requires Sound(norm, s) && id in s.heads && History(s, id).Success? && History(s, id).value != []
    ensures IsOldest(s, id, v) && Stored(s, id)[v] == History(s, id).value[|History(s, id).value| - 1]
  {
    hide Sound, Walk, NewestFirst, Reaches, LexLess, History, DistinctVersions, WellKeyed, Stored;
    var out, store := History(s, id).value, Stored(s, id);
    var walk := Walk(store, [s.heads[id]], {});
    HistoryExact(norm, s, id);
    HistoryIsSortedWalk(norm, s, id);
    WalkExact(store, s.heads[id]);
    SameMembers(out, walk);
    var last := out[|out| - 1];
    v := last.versionId;
    assert last in walk;
    assert HasId(out, v);
    forall u | u in store && Reaches(store, s.heads[id], u) ensures !LexLess(store[u].createdAt, last.createdAt) {
      assert HasId(out, u);
      var k :| 0 <= k < |out| && out[k].versionId == u;
      assert out[k] in out;
      assert out[k] in walk;
      LexLessTotal(last.createdAt, last.createdAt);
    }
  }

  /**
   A row of a table that shows the store: its head is a newest reachable version, with its content and its time, and
   is the recipe's head exactly if no reachable version is newer than that; its owner is the one found for the head's
   author; its creation time is an oldest reachable version's; its version rows are the reachable versions, newest
   first, each with what is stored of it.
   */
  lemma {:induction false} RowTellsStore(norm: Normalizer, env: CatalogEnv, s: Store, rows: Table, id: string)
    requires Sound(norm, s) && Current(env, s, rows) && id in rows
    ensures id in s.heads && s.heads[id] in Stored(s, id)
    ensures rows[id].headVersion == s.heads[id] <==> NoneNewer(s, id, Stored(s, id)[s.heads[id]].createdAt)
    ensures exists v :: IsNewest(s, id, v) && HeadTold(env, rows[id], Stored(s, id)[v])
    ensures env.ownerFor(Stored(s, id)[s.heads[id]].author) == Some(rows[id].owner)
    ensures VersionsTold(env, s, id, rows[id].versions)
    ensures exists v :: IsOldest(s, id, v) && rows[id].createdAt == env.parseTime(Stored(s, id)[v].createdAt)
    ensures forall v :: HasVersionRow(rows[id], v) <==> v in Stored(s, id) && Reaches(Stored(s, id), s.heads[id], v)
  {
    OwnedShows(norm, env, s, id);
    HistoryExact(norm, s, id);
    HeadHasHistory(norm, s, id);
    var oldest := OldestLast(norm, s, id);
    HistoryRecords(norm, s, id);
    NewestHead(norm, s, id);
    assert RecordKept(norm, s.versions[id], id);
    hide Sound, Reaches, LexLess, History, HasId, HasVersionRow, WellHashed, TimeSorted, Walk, DistinctVersions,
      IsOldest, IsNewest, HeadTold, VersionsTold, RowFor;
    RowsTold(env, s, id, History(s, id).value, env.ownerFor(HeadOf(s, id).value.value.author).value, rows[id].slug);
    VersionRowsAre(env, History(s, id).value, env.ownerFor(HeadOf(s, id).value.value.author).value, rows[id].slug);
    assert RowShown(env, s, rows, id);
    assert IsOldest(s, id, oldest);
  }
}
