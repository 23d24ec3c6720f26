/** Committing and projecting, recipe by recipe: what the table is after any run, and when a rebuild agrees. */
module CatalogRuns {
  import opened Wrappers
  import opened Text
  import opened Versions
  import opened StoreSpec
  import opened IdOrder
  import opened Catalog
  import opened CatalogLaws

  /** The store and the table of a running site. */
  datatype Site = Site(store: Store, table: Progress)

  /** Each request is committed and its recipe projected; an error stops the run. */
  function RunSite(norm: Normalizer, env: CatalogEnv, reqs: seq<Request>): Site {
    if reqs == [] then Site(EMPTY, Progress(map[], None))
    else
      var before, req := RunSite(norm, env, reqs[..|reqs| - 1]), reqs[|reqs| - 1];
      if before.table.error.Some? then before
      else
        var s := Commit(norm, before.store, req).1;
        Site(s, ProjectOne(env, s, before.table.rows, req.recipe.doc.id))
  }

  // ----- what is stored was asked for ------------------------------------------------------

  predicate Asked(reqs: seq<Request>, rec: Record) {
    exists k :: 0 <= k < |reqs| && reqs[k].recipe.doc == rec.recipe.doc && reqs[k].author == rec.author
  }

  ghost predicate StoredFrom(reqs: seq<Request>, s: Store) {
    forall r, v :: v in Stored(s, r) ==> Asked(reqs, Stored(s, r)[v])
  }

  lemma AskedMore(reqs: seq<Request>, req: Request, rec: Record)
    requires Asked(reqs, rec) || (req.recipe.doc == rec.recipe.doc && req.author == rec.author)
    ensures Asked(reqs + [req], rec)
  {
    var more := reqs + [req];
    assert more[|reqs|] == req;
    if Asked(reqs, rec) {
      var k :| 0 <= k < |reqs| && reqs[k].recipe.doc == rec.recipe.doc && reqs[k].author == rec.author;
      assert more[k] == reqs[k];
    }
  }

  lemma StoredFromMore(norm: Normalizer, reqs: seq<Request>, s: Store, req: Request)
    requires StoredFrom(reqs, s)
    ensures StoredFrom(reqs + [req], Commit(norm, s, req).1)
  {
    hide Asked;
    var t := Commit(norm, s, req).1;
    forall r, v | v in Stored(t, r) ensures Asked(reqs + [req], Stored(t, r)[v]) {
      assert v in Stored(s, r) ==> Asked(reqs, Stored(s, r)[v]);
      AskedMore(reqs, req, Stored(t, r)[v]);
    }
  }

  /** The authors of all requests are known users. */
  predicate AuthorsKnown(env: CatalogEnv, reqs: seq<Request>) {
    forall k :: 0 <= k < |reqs| ==> env.ownerFor(reqs[k].author).Some?
  }

  lemma HeadsOwned(norm: Normalizer, env: CatalogEnv, reqs: seq<Request>, s: Store)
    requires Sound(norm, s) && StoredFrom(reqs, s) && AuthorsKnown(env, reqs)
    ensures forall id :: id in s.heads <==> Owned(env, s, id)
  {
    forall id | id in s.heads ensures Owned(env, s, id) {
      HeadHasHistory(norm, s, id);
      assert Asked(reqs, Stored(s, id)[s.heads[id]]);
    }
    hide Sound, StoredFrom, Asked;
  }

  /** The newest content of a recipe was asked for under its id. */
  lemma NewestAsked(norm: Normalizer, env: CatalogEnv, reqs: seq<Request>, s: Store, id: string) returns (k: nat)
    requires Sound(norm, s) && StoredFrom(reqs, s) && id in s.heads
    ensures History(s, id).Success? && History(s, id).value != []
    ensures k < |reqs| && reqs[k].recipe.doc == NewestDoc(s, id) && NewestDoc(s, id).id == id
  {
    HeadHasHistory(norm, s, id);
    var rec := History(s, id).value[0];
    var v :| v in Stored(s, id) && Stored(s, id)[v] == rec;
    assert Asked(reqs, rec);
    k :| 0 <= k < |reqs| && reqs[k].recipe.doc == rec.recipe.doc && reqs[k].author == rec.author;
  }

  /** Every owned recipe has its row, right in every column but the slug; every row is of a recipe with a head. */
  ghost predicate Follows(env: CatalogEnv, s: Store, rows: Table) {
    && (forall id :: Owned(env, s, id) ==> id in rows && RowShown(env, s, rows, id))
    && (forall id :: id in rows ==> id in s.heads)
  }

  ghost predicate AllOwned(env: CatalogEnv, s: Store, rows: Table) {
    forall id :: id in rows ==> Owned(env, s, id)
  }

  lemma CurrentIff(norm: Normalizer, env: CatalogEnv, s: Store, rows: Table)
    requires Follows(env, s, rows)
    ensures Current(env, s, rows) <==> AllOwned(env, s, rows)
  {
    hide RowShown, Owned;
  }

  // ----- one commit, one projection --------------------------------------------------------------

  lemma OtherRowSame(norm: Normalizer, env: CatalogEnv, s: Store, req: Request, id: string)
    requires Sound(norm, s) && id != req.recipe.doc.id
    ensures var t := Commit(norm, s, req).1;
            && History(t, id) == History(s, id) && HeadOf(t, id) == HeadOf(s, id)
            && (Owned(env, t, id) <==> Owned(env, s, id)) && (Showable(env, t, id) <==> Showable(env, s, id))
            && (Showable(env, s, id) ==>
                  (forall slug :: RowOf(env, t, id, slug) == RowOf(env, s, id, slug))
                    && Base(env, t, id) == Base(env, s, id))
  {
    CommitAnswers(norm, s, req);
    hide Sound, Commit, RowFor, Walk, NewestFirst;
  }

  lemma OtherShown(norm: Normalizer, env: CatalogEnv, s: Store, req: Request, rows: Table, after: Table, id: string)
    requires Sound(norm, s) && id != req.recipe.doc.id && id in rows && RowShown(env, s, rows, id)
    requires id in after && after[id] == rows[id]
    ensures RowShown(env, Commit(norm, s, req).1, after, id)
  {
    OtherRowSame(norm, env, s, req, id);
    hide Sound, Commit, RowOf, Showable;
  }

  /** Committing and projecting the recipe keeps a table that follows the store, whoever the author is. */
  lemma SiteStep(norm: Normalizer, env: CatalogEnv, s: Store, req: Request, rows: Table)
    requires Sound(norm, s) && Follows(env, s, rows) && UniqueSlugs(rows)
    requires Sound(norm, Commit(norm, s, req).1)
             && s.heads.Keys + {req.recipe.doc.id} <= Commit(norm, s, req).1.heads.Keys
    ensures var t := Commit(norm, s, req).1;
            var p := ProjectOne(env, t, rows, req.recipe.doc.id);
            p.error.None? ==> Follows(env, t, p.rows) && UniqueSlugs(p.rows)
  {
    hide Sound, Commit, ProjectOne, RowOf, Owned, Showable, PickSlug, UniqueSlugs, Taken, RowShown;
    var t, id := Commit(norm, s, req).1, req.recipe.doc.id;
    var p := ProjectOne(env, t, rows, id);
    OneStep(norm, env, t, rows, id);
    if p.error.None? {
      NewSlugUnique(rows, id, p.rows);
      if Owned(env, t, id) {
        NewRowShown(env, t, rows, id, PickSlug(env, t, rows, id));
      }
      forall q | q != id && Owned(env, t, q) ensures q in p.rows && RowShown(env, t, p.rows, q) {
        OtherRowSame(norm, env, s, req, q);
        OtherShown(norm, env, s, req, rows, p.rows, q);
      }
    }
  }

  lemma NewRowShown(env: CatalogEnv, s: Store, rows: Table, id: string, slug: string)
    requires Showable(env, s, id)
    ensures RowShown(env, s, rows[id := RowOf(env, s, id, slug)], id)
  {
  }

  // ----- whole runs ------------------------------------------------------------------------------------

  /** Everything a run keeps. */
  ghost predicate SiteOk(norm: Normalizer, env: CatalogEnv, reqs: seq<Request>, site: Site) {
    && Sound(norm, site.store) && StoredFrom(reqs, site.store)
    && Follows(env, site.store, site.table.rows) && UniqueSlugs(site.table.rows)
  }

  lemma SiteStart(norm: Normalizer, env: CatalogEnv)
    ensures SiteOk(norm, env, [], RunSite(norm, env, []))
  {
  }

  lemma HeadsGrow(norm: Normalizer, s: Store, req: Request)
    requires Sound(norm, s)
    ensures s.heads.Keys + {req.recipe.doc.id} <= Commit(norm, s, req).1.heads.Keys
  {
    CommitKeeps(norm, s, req);
    CommitAnswers(norm, s, req);
    hide Sound, Commit;
  }

  lemma SiteOkStep(norm: Normalizer, env: CatalogEnv, reqs: seq<Request>, req: Request, before: Site)
    requires SiteOk(norm, env, reqs, before)
    ensures var s := Commit(norm, before.store, req).1;
            var site := Site(s, ProjectOne(env, s, before.table.rows, req.recipe.doc.id));
            && Sound(norm, s) && StoredFrom(reqs + [req], s) && req.recipe.doc.id in s.heads
            && (site.table.error.None? ==> SiteOk(norm, env, reqs + [req], site))
  {
    hide Sound, Commit, StoredFrom, Follows, ProjectOne, UniqueSlugs;
    CommitKeeps(norm, before.store, req);
    StoredFromMore(norm, reqs, before.store, req);
    HeadsGrow(norm, before.store, req);
    SiteStep(norm, env, before.store, req, before.table.rows);
  }

  /**
   After any run without error, whoever the authors are, the slugs are unique and every recipe whose head's author is
   a known user has its row, right in every column but the slug.
   */
  lemma {:induction false} RunShowsStore(norm: Normalizer, env: CatalogEnv, reqs: seq<Request>)
    requires RunSite(norm, env, reqs).table.error.None?
    ensures SiteOk(norm, env, reqs, RunSite(norm, env, reqs))
  {
    if reqs == [] {
      SiteStart(norm, env);
    } else {
      var init, last := reqs[..|reqs| - 1], reqs[|reqs| - 1];
      LastRequest(norm, env, reqs);
      hide SiteOk, Commit, ProjectOne, RunSite;
      RunShowsStore(norm, env, init);
      SiteOkStep(norm, env, init, last, RunSite(norm, env, init));
    }
  }

  /** If the authors are known users as well, the table shows the store. */
  lemma {:induction false} KnownAuthorsShow(norm: Normalizer, env: CatalogEnv, reqs: seq<Request>)
    requires RunSite(norm, env, reqs).table.error.None? && AuthorsKnown(env, reqs)
    ensures Current(env, RunSite(norm, env, reqs).store, RunSite(norm, env, reqs).table.rows)
  {
    var site := RunSite(norm, env, reqs);
    RunShowsStore(norm, env, reqs);
    hide Sound, StoredFrom, Current, UniqueSlugs, RowShown, Owned, RunSite;
    HeadsOwned(norm, env, reqs, site.store);
    CurrentIff(norm, env, site.store, site.table.rows);
  }

  /** The run up to the last request, and what that request makes of it. */
  lemma LastRequest(norm: Normalizer, env: CatalogEnv, reqs: seq<Request>)
    requires reqs != []
    ensures reqs[..|reqs| - 1] + [reqs[|reqs| - 1]] == reqs
    ensures AuthorsKnown(env, reqs) ==> AuthorsKnown(env, reqs[..|reqs| - 1])
    ensures TitlesApart(env, reqs) ==> TitlesApart(env, reqs[..|reqs| - 1])
    ensures var before, last := RunSite(norm, env, reqs[..|reqs| - 1]), reqs[|reqs| - 1];
            var s := Commit(norm, before.store, last).1;
            RunSite(norm, env, reqs) ==
              if before.table.error.Some? then before
                else Site(s, ProjectOne(env, s, before.table.rows, last.recipe.doc.id))
  {
    hide Commit, ProjectOne, BaseSlug;
  }

  /**
   The table a run leaves is the rebuilt one exactly if every recipe in it still has a known author and its slugs
   happen to be in id order.
   */
  lemma {:induction false} RunRebuildIff(norm: Normalizer, env: CatalogEnv, reqs: seq<Request>, ids: seq<string>)
    requires RunSite(norm, env, reqs).table.error.None?
    requires var s := RunSite(norm, env, reqs).store; Sorts(ids, s.versions.Keys + s.heads.Keys)
    ensures var site := RunSite(norm, env, reqs);
            ProjectIds(env, site.store, map[], ids) == site.table <==>
              AllOwned(env, site.store, site.table.rows) && InIdOrder(env, site.store, site.table.rows)
  {
    RunShowsStore(norm, env, reqs);
    var site := RunSite(norm, env, reqs);
    hide Sound, Current, UniqueSlugs, InIdOrder, Sorts, ProjectIds, RunSite, Follows, AllOwned, StoredFrom;
    CurrentIff(norm, env, site.store, site.table.rows);
    RebuildIff(norm, env, site.store, site.table.rows, ids);
    assert site.table == Progress(site.table.rows, None);
  }

  // ----- titles that never coincide ----------------------------------------------------------------------

  /** No two recipes ever have titles with the same slug. */
  predicate TitlesApart(env: CatalogEnv, reqs: seq<Request>) {
    forall i, j :: 0 <= i < |reqs| && 0 <= j < |reqs| && reqs[i].recipe.doc.id != reqs[j].recipe.doc.id ==>
                     BaseSlug(env, reqs[i].recipe.doc.title) != BaseSlug(env, reqs[j].recipe.doc.title)
  }

  ghost predicate AllBase(env: CatalogEnv, s: Store, rows: Table) {
    forall id :: id in rows ==> Showable(env, s, id) && rows[id].slug == Base(env, s, id)
  }

  lemma BasesApart(norm: Normalizer, env: CatalogEnv, reqs: seq<Request>, s: Store, p: string, t: Store, q: string)
    requires Sound(norm, s) && StoredFrom(reqs, s) && Sound(norm, t) && StoredFrom(reqs, t) && TitlesApart(env, reqs)
    requires p != q && p in s.heads && q in t.heads && Showable(env, s, p) && Showable(env, t, q)
    ensures Base(env, s, p) != Base(env, t, q)
  {
    hide Sound, StoredFrom, Showable, History;
    var i := NewestAsked(norm, env, reqs, s, p);
    var j := NewestAsked(norm, env, reqs, t, q);
  }

  lemma BaseNotTaken(norm: Normalizer, env: CatalogEnv, reqs: seq<Request>, s: Store, rows: Table, t: Store, id: string)
    requires Sound(norm, s) && StoredFrom(reqs, s) && Sound(norm, t) && StoredFrom(reqs, t) && TitlesApart(env, reqs)
    requires AllBase(env, s, rows) && (forall q :: q in rows ==> q in s.heads) && id in t.heads && Showable(env, t, id)
    ensures !Taken(rows, Base(env, t, id), id)
  {
    hide Sound, StoredFrom, Showable, TitlesApart, Base;
    forall q | q in rows && q != id ensures rows[q].slug != Base(env, t, id) {
      BasesApart(norm, env, reqs, s, q, t, id);
    }
  }

  lemma StoredFromWeaker(reqs: seq<Request>, req: Request, s: Store)
    requires StoredFrom(reqs, s)
    ensures StoredFrom(reqs + [req], s)
  {
    forall r, v | v in Stored(s, r) ensures Asked(reqs + [req], Stored(s, r)[v]) {
      AskedMore(reqs, req, Stored(s, r)[v]);
    }
    hide Asked;
  }

  lemma OwnedHead(env: CatalogEnv, s: Store, rows: Table)
    requires Follows(env, s, rows)
    ensures forall q :: q in rows ==> q in s.heads
  {
  }

  lemma ApartStep(norm: Normalizer, env: CatalogEnv, reqs: seq<Request>, req: Request, before: Site)
    requires SiteOk(norm, env, reqs, before) && AuthorsKnown(env, reqs + [req]) && TitlesApart(env, reqs + [req])
    requires AllBase(env, before.store, before.table.rows)
    ensures var s := Commit(norm, before.store, req).1;
            var p := ProjectOne(env, s, before.table.rows, req.recipe.doc.id);
            p.error.None? && AllBase(env, s, p.rows)
  {
    var s, id, rows := Commit(norm, before.store, req).1, req.recipe.doc.id, before.table.rows;
    SiteOkStep(norm, env, reqs, req, before);
    OneStep(norm, env, s, rows, id);
    OwnedShows(norm, env, s, id);
    OwnedHead(env, before.store, rows);
    StoredFromWeaker(reqs, req, before.store);
    hide Sound, Commit, StoredFrom, Follows, ProjectOne, UniqueSlugs, Owned, Showable, TitlesApart, Base, AllBase,
      Taken;
    BaseNotTaken(norm, env, reqs + [req], before.store, rows, s, id);
    AllBaseStep(norm, env, before.store, req, rows);
  }

  lemma AllBaseStep(norm: Normalizer, env: CatalogEnv, s: Store, req: Request, rows: Table)
    requires Sound(norm, s) && AllBase(env, s, rows) && Showable(env, Commit(norm, s, req).1, req.recipe.doc.id)
    ensures var t, id := Commit(norm, s, req).1, req.recipe.doc.id;
            AllBase(env, t, rows[id := RowOf(env, t, id, Base(env, t, id))])
  {
    hide Sound, Commit, Showable, Base, RowOf;
    forall q | q in rows && q != req.recipe.doc.id
      ensures Showable(env, Commit(norm, s, req).1, q) && rows[q].slug == Base(env, Commit(norm, s, req).1, q) {
      OtherRowSame(norm, env, s, req, q);
    }
  }

  lemma {:induction false} ApartRun(norm: Normalizer, env: CatalogEnv, reqs: seq<Request>)
    requires AuthorsKnown(env, reqs) && TitlesApart(env, reqs)
    ensures var site := RunSite(norm, env, reqs); site.table.error.None? && AllBase(env, site.store, site.table.rows)
  {
    if reqs != [] {
      var init := reqs[..|reqs| - 1];
      LastRequest(norm, env, reqs);
      hide SiteOk, AllBase, Commit, ProjectOne, TitlesApart, AuthorsKnown, RunSite;
      ApartRun(norm, env, init);
      RunShowsStore(norm, env, init);
      ApartStep(norm, env, init, reqs[|reqs| - 1], RunSite(norm, env, init));
    }
  }

  /** If titles of different recipes never share a slug, no projection fails and a rebuild gives the same table. */
  lemma {:induction false} ApartRebuilds(norm: Normalizer, env: CatalogEnv, reqs: seq<Request>, ids: seq<string>)
    requires AuthorsKnown(env, reqs) && TitlesApart(env, reqs)
    requires var s := RunSite(norm, env, reqs).store; Sorts(ids, s.versions.Keys + s.heads.Keys)
    ensures var site := RunSite(norm, env, reqs);
            site.table.error.None? && ProjectIds(env, site.store, map[], ids) == site.table
  {
    ApartRun(norm, env, reqs);
    RunShowsStore(norm, env, reqs);
    var site := RunSite(norm, env, reqs);
    OwnedHead(env, site.store, site.table.rows);
    hide Sound, StoredFrom, Follows, UniqueSlugs, Showable, TitlesApart, Base, Sorts, RunSite, ProjectIds, Taken,
      SuffixedSlug;
    forall id | id in site.table.rows
      ensures Showable(env, site.store, id) && SlugInIdOrder(env, site.store, site.table.rows, id) {
      BaseNotTaken(norm, env, reqs, site.store, site.table.rows, site.store, id);
      NotTakenBefore(site.table.rows, Base(env, site.store, id), id);
    }
    RunRebuildIff(norm, env, reqs, ids);
  }

  lemma NotTakenBefore(rows: Table, slug: string, id: string)
    requires !Taken(rows, slug, id)
    ensures !TakenBefore(rows, slug, id)
  {
    LexLessTotal(id, id);
  }

  // ----- a title clash -----------------------------------------------------------------------------------------

  lemma ClashFirst(norm: Normalizer, env: CatalogEnv, b: Request)
    requires AuthorsKnown(env, [b])
    ensures var site := RunSite(norm, env, [b]);
            && site.table.error.None? && b.recipe.doc.id in site.table.rows
            && site.table.rows[b.recipe.doc.id].slug == BaseSlug(env, b.recipe.doc.title)
  {
    ApartRun(norm, env, [b]);
    RunShowsStore(norm, env, [b]);
    var site, id := RunSite(norm, env, [b]), b.recipe.doc.id;
    SiteStart(norm, env);
    assert [b][..0] == [] && [] + [b] == [b];
    SiteOkStep(norm, env, [], b, RunSite(norm, env, []));
    assert id in site.table.rows;
    OwnedHead(env, site.store, site.table.rows);
    hide Sound, StoredFrom, Follows, UniqueSlugs, Showable, TitlesApart, RunSite;
    var k := NewestAsked(norm, env, [b], site.store, id);
    assert k == 0;
  }

  /**
   Two recipes whose titles share a slug, the one with the larger id projected first: no error, but a rebuild
   gives the slugs the other way round.
   */
  lemma {:induction false} TitleClashBreaksRebuild(norm: Normalizer, env: CatalogEnv, a: Request, b: Request,
                                                   ids: seq<string>)
    requires AuthorsKnown(env, [b, a]) && LexLess(a.recipe.doc.id, b.recipe.doc.id)
    requires BaseSlug(env, a.recipe.doc.title) == BaseSlug(env, b.recipe.doc.title)
    requires var s := RunSite(norm, env, [b, a]).store; Sorts(ids, s.versions.Keys + s.heads.Keys)
    ensures var site := RunSite(norm, env, [b, a]);
            site.table.error.None? && ProjectIds(env, site.store, map[], ids) != site.table
  {
    var base, idA, idB := BaseSlug(env, a.recipe.doc.title), a.recipe.doc.id, b.recipe.doc.id;
    assert [b, a][..1] == [b] && [b] + [a] == [b, a];
    assert AuthorsKnown(env, [b]) by {
      assert [b, a][0] == b;
    }
    ClashFirst(norm, env, b);
    RunShowsStore(norm, env, [b]);
    LexLessTotal(idA, idB);
    var before := RunSite(norm, env, [b]);
    SiteOkStep(norm, env, [b], a, before);
    ClashSecond(norm, env, a, b, before);
    RunShowsStore(norm, env, [b, a]);
    hide SiteOk, Sorts, ProjectIds, RunSite;
    RunRebuildIff(norm, env, [b, a], ids);
  }

  lemma ClashSecond(norm: Normalizer, env: CatalogEnv, a: Request, b: Request, before: Site)
    requires a.recipe.doc.id != b.recipe.doc.id && LexLess(a.recipe.doc.id, b.recipe.doc.id)
    requires SiteOk(norm, env, [b], before) && before.table.error.None? && AuthorsKnown(env, [b, a])
    requires b.recipe.doc.id in before.table.rows
             && before.table.rows[b.recipe.doc.id].slug == BaseSlug(env, a.recipe.doc.title)
    ensures var s := Commit(norm, before.store, a).1;
            var p := ProjectOne(env, s, before.table.rows, a.recipe.doc.id);
            p.error.None? && !InIdOrder(env, s, p.rows)
  {
    hide SiteOk, AuthorsKnown, Sound, StoredFrom, ProjectOne, Commit, Owned, Base, Taken, RowOf, InIdOrder, LexLess,
      PickSlug, Showable, BaseSlug;
    var s, id, rows := Commit(norm, before.store, a).1, a.recipe.doc.id, before.table.rows;
    assert [b] + [a] == [b, a];
    SiteOkStep(norm, env, [b], a, before);
    HeadsOwned(norm, env, [b, a], s);
    OneStep(norm, env, s, rows, id);
    OnlyRow(norm, env, b, before);
    NewestOfSecond(norm, env, a, b, s);
    ClashSlugs(env, s, rows, id, b.recipe.doc.id);
  }

  lemma NewestOfSecond(norm: Normalizer, env: CatalogEnv, a: Request, b: Request, s: Store)
    requires Sound(norm, s) && StoredFrom([b, a], s) && a.recipe.doc.id != b.recipe.doc.id
             && Owned(env, s, a.recipe.doc.id)
    ensures Showable(env, s, a.recipe.doc.id) && Base(env, s, a.recipe.doc.id) == BaseSlug(env, a.recipe.doc.title)
  {
    OwnedShows(norm, env, s, a.recipe.doc.id);
    hide Sound, StoredFrom, Owned;
    var k := NewestAsked(norm, env, [b, a], s, a.recipe.doc.id);
    assert k == 1;
  }

  lemma ClashSlugs(env: CatalogEnv, s: Store, rows: Table, id: string, other: string)
    requires Showable(env, s, id) && LexLess(id, other)
    requires other in rows && rows[other].slug == Base(env, s, id) && forall q :: q in rows ==> q == other
    ensures var slug := PickSlug(env, s, rows, id);
            && !Taken(rows, slug, id) && !InIdOrder(env, s, rows[id := RowOf(env, s, id, slug)])
  {
    hide Showable, Base, SuffixedSlug;
    var base, slug := Base(env, s, id), PickSlug(env, s, rows, id);
    SuffixedDiffers(env, base, id);
    LexLessTotal(id, other);
    LexLessTotal(id, id);
    assert Taken(rows, base, id);
    var after := rows[id := RowOf(env, s, id, slug)];
    assert !TakenBefore(after, base, id);
    assert id in after && !SlugInIdOrder(env, s, after, id);
  }

  lemma OnlyRow(norm: Normalizer, env: CatalogEnv, b: Request, site: Site)
    requires SiteOk(norm, env, [b], site)
    ensures forall q :: q in site.table.rows ==> q == b.recipe.doc.id
  {
    OwnedHead(env, site.store, site.table.rows);
    hide Follows, UniqueSlugs, Sound, StoredFrom;
    forall q | q in site.table.rows ensures q == b.recipe.doc.id {
      var k := NewestAsked(norm, env, [b], site.store, q);
    }
  }
}
