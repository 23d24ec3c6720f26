/** A step's own lists after the round trip: what comes back is what the step shows, exactly when nothing is lost. */
module StepLists {
  import opened Decimals
  import opened Schema
  import opened QuantityText
  import opened Printer
  import opened TokenText
  import opened StepRoundTrip
  import opened StepLines
  import opened LineLaws
  import opened Stability
  import opened RoundTrip

  // ----- the lists that come back are what is shown ------------------------------------------------

  function ReadBackTimers(env: Env, timers: seq<Timer>): (r: seq<Timer>)
    ensures |r| == |timers|
  {
    seq(|timers|, k requires 0 <= k < |timers| => Timer(timers[k].name, ReadBackQuantity(env, timers[k].quantity)))
  }

  function ReadBackHeats(heats: seq<Temperature>): (r: seq<Temperature>)
    ensures |r| == |heats|
  {
    seq(|heats|, k requires 0 <= k < |heats| => Temperature(Plain(heats[k].value), heats[k].unit))
  }

  lemma {:induction false} AmongReadBack(env: Env, ps: seq<Piece>)
    ensures IngredientsAmong(ReadBackAll(env, ps)) == ReadBackAll(env, IngredientsAmong(ps))
    ensures ToolsAmong(ReadBackAll(env, ps)) == ReadBackAll(env, ToolsAmong(ps))
    ensures TimersAmong(ReadBackAll(env, ps)) == ReadBackTimers(env, TimersAmong(ps))
    ensures HeatsAmong(ReadBackAll(env, ps)) == ReadBackHeats(HeatsAmong(ps))
  {
    if ps != [] {
      var init, p := ps[..|ps| - 1], ps[|ps| - 1];
      assert ps == init + [p];
      AmongReadBack(env, init);
      ReadBackSnoc(env, init, p);
      AmongSnoc(init, p);
      AmongSnoc(ReadBackAll(env, init), ReadBackPiece(env, p));
      AmongOne(env, init, p);
    }
  }

  lemma AmongOne(env: Env, ps: seq<Piece>, p: Piece)
    ensures ReadBackAll(env, IngredientsAmong(ps) + [p])
            == ReadBackAll(env, IngredientsAmong(ps)) + [ReadBackPiece(env, p)]
    ensures ReadBackAll(env, ToolsAmong(ps) + [p]) == ReadBackAll(env, ToolsAmong(ps)) + [ReadBackPiece(env, p)]
    ensures p.Duration? ==>
              ReadBackTimers(env, TimersAmong(ps) + [p.timer])
                == ReadBackTimers(env, TimersAmong(ps)) + [ReadBackPiece(env, p).timer]
    ensures p.Heat? ==>
              ReadBackHeats(HeatsAmong(ps) + [p.temperature])
                == ReadBackHeats(HeatsAmong(ps)) + [ReadBackPiece(env, p).temperature]
    ensures IngredientsAmong(ps) + [] == IngredientsAmong(ps) && ToolsAmong(ps) + [] == ToolsAmong(ps)
    ensures TimersAmong(ps) + [] == TimersAmong(ps) && HeatsAmong(ps) + [] == HeatsAmong(ps)
    ensures forall r: seq<Piece> :: r + [] == r
    ensures forall r: seq<Timer> :: r + [] == r
    ensures forall r: seq<Temperature> :: r + [] == r
  {
    hide IngredientsAmong, ToolsAmong, TimersAmong, HeatsAmong, Plain, ReadBackQuantity, ReadBackSpec;
  }

  lemma {:induction false} AmongConcat(ps: seq<Piece>, qs: seq<Piece>)
    ensures IngredientsAmong(ps + qs) == IngredientsAmong(ps) + IngredientsAmong(qs)
    ensures ToolsAmong(ps + qs) == ToolsAmong(ps) + ToolsAmong(qs)
    ensures TimersAmong(ps + qs) == TimersAmong(ps) + TimersAmong(qs)
    ensures HeatsAmong(ps + qs) == HeatsAmong(ps) + HeatsAmong(qs)
    decreases |qs|
  {
    hide IngredientsAmong, ToolsAmong, TimersAmong, HeatsAmong;
    AmongNothing();
    if qs == [] {
      assert ps + qs == ps;
    } else {
      var init, q := qs[..|qs| - 1], qs[|qs| - 1];
      assert qs == init + [q] && ps + qs == (ps + init) + [q];
      AmongConcat(ps, init);
      AmongSnoc(ps + init, q);
      AmongSnoc(init, q);
    }
  }

  lemma AmongNothing()
    ensures IngredientsAmong([]) == [] && ToolsAmong([]) == [] && TimersAmong([]) == [] && HeatsAmong([]) == []
  {
  }

  /** Regrouping leaves the ingredients, tools, timers and temperatures as they are. */
  lemma {:induction false} AmongRegroup(names: map<string, string>, literal: string, ps: seq<Piece>)
    ensures IngredientsAmong(Regroup(names, literal, ps)) == IngredientsAmong(ps)
    ensures ToolsAmong(Regroup(names, literal, ps)) == ToolsAmong(ps)
    ensures TimersAmong(Regroup(names, literal, ps)) == TimersAmong(ps)
    ensures HeatsAmong(Regroup(names, literal, ps)) == HeatsAmong(ps)
    decreases |ps|
  {
    hide PrintPiece, IngredientsAmong, ToolsAmong, TimersAmong, HeatsAmong;
    AmongNothing();
    AmongProse(literal);
    if ps != [] {
      var p, rest := ps[0], ps[1..];
      assert ps == [p] + rest;
      AmongConcat([p], rest);
      if IsRead(names, p) {
        AmongRegroup(names, "", rest);
        AmongConcat(Joined(literal) + [p], Regroup(names, "", rest));
        AmongConcat(Joined(literal), [p]);
      } else {
        AmongRegroup(names, literal + PrintPiece(p), rest);
        AmongUnread(names, p);
      }
    }
  }

  lemma AmongProse(literal: string)
    ensures var q := Joined(literal);
            IngredientsAmong(q) == [] && ToolsAmong(q) == [] && TimersAmong(q) == [] && HeatsAmong(q) == []
  {
  }

  lemma AmongUnread(names: map<string, string>, p: Piece)
    requires !IsRead(names, p)
    ensures IngredientsAmong([p]) == [] && ToolsAmong([p]) == [] && TimersAmong([p]) == [] && HeatsAmong([p]) == []
  {
  }

  function TimerPieces(timers: seq<Timer>): (ps: seq<Piece>)
    ensures |ps| == |timers|
  {
    seq(|timers|, k requires 0 <= k < |timers| => Duration(timers[k]))
  }

  function HeatPieces(heats: seq<Temperature>): (ps: seq<Piece>)
    ensures |ps| == |heats|
  {
    seq(|heats|, k requires 0 <= k < |heats| => Heat(heats[k]))
  }

  lemma TimersBack(env: Env, timers: seq<Timer>)
    ensures TimerPieces(ReadBackTimers(env, timers)) == ReadBackAll(env, TimerPieces(timers))
  {
    hide ReadBackQuantity;
  }

  lemma HeatsBack(env: Env, heats: seq<Temperature>)
    ensures HeatPieces(ReadBackHeats(heats)) == ReadBackAll(env, HeatPieces(heats))
  {
    hide Plain;
  }

  /** The items of the step's four lists, as pieces. */
  function Items(a: Action): (r: seq<seq<Piece>>)
    ensures |r| == 4
  {
    [UsePieces(a.ingredients), ToolPieces(a.cookware), TimerPieces(a.timers), HeatPieces(a.temperatures)]
  }

  /** The items the step shows, list by list in the order of the text. */
  function ShownItems(ps: seq<Piece>): (r: seq<seq<Piece>>)
    ensures |r| == 4
  {
    [IngredientsAmong(ps), ToolsAmong(ps), TimerPieces(TimersAmong(ps)), HeatPieces(HeatsAmong(ps))]
  }

  /** Each list that comes back holds the items shown, in order, as often as they are shown, and read back. */
  lemma {:induction false} ListsRead(env: Env, s: seq<Action>, i: nat)
    requires WritableRecipe(s) && i < |s|
    ensures forall n :: 0 <= n < 4 ==>
              Items(ReadBackRecipe(env, s)[i])[n] == ReadBackAll(env, ShownItems(Pieces(s[i], StateLabels(s)))[n])
  {
    hide IngredientsAmong, ToolsAmong, TimersAmong, HeatsAmong, Pieces, UsePieces, ToolPieces, Regroup, ReadBackAll,
      LinesOf, AllLabelled, WritableLines, WritableLine, ReadLines, NamesAt, StateLabels, ValidAction, Labelled,
      LineScan, ReadBackTimers, ReadBackHeats, TimerPieces, HeatPieces;
    LineAt(s, i);
    var ps := Pieces(s[i], StateLabels(s));
    LineShows(env, LinesOf(s), i);
    ReadAt(env, LinesOf(s), i);
    AmongReadBack(env, StepReads(env, s, i));
    AmongRegroup(NamesAt(env, LinesOf(s), i), "", ps);
    TimersBack(env, TimersAmong(ps));
    HeatsBack(env, HeatsAmong(ps));
  }

  lemma {:induction false} AmongListed(uses: seq<IngredientUse>)
    ensures IngredientsAmong(ListedPieces(uses)) == UsePieces(uses)
  {
    hide IngredientsAmong, ToolsAmong, TimersAmong, HeatsAmong;
    AmongNothing();
    if |uses| == 1 {
      OneAmong(UsePiece(uses[0]));
      assert UsePieces(uses) == [UsePiece(uses[0])];
    } else if |uses| > 1 {
      AmongListed(uses[1..]);
      AmongConcat([UsePiece(uses[0]), Prose(" ")], ListedPieces(uses[1..]));
      OneAmong(UsePiece(uses[0]));
      assert UsePieces(uses) == [UsePiece(uses[0])] + UsePieces(uses[1..]);
    } else {
      assert UsePieces(uses) == [];
    }
  }

  lemma OneAmong(p: Piece)
    requires p.Ingredient?
    ensures IngredientsAmong([p]) == [p] && IngredientsAmong([p, Prose(" ")]) == [p]
  {
    assert [p][..0] == [] && [p, Prose(" ")][..1] == [p];
  }

  lemma {:induction false} NoneLed(ps: seq<Piece>)
    requires forall k :: 0 <= k < |ps| ==> ps[k].State?
    ensures IngredientsAmong(ps) == []
  {
    if ps != [] {
      NoneLed(ps[..|ps| - 1]);
    }
  }

  /** A step without prose comes back with all its own ingredients, in order. */
  lemma {:induction false} ProselessIngredients(env: Env, s: seq<Action>, i: nat)
    requires WritableRecipe(s) && i < |s| && s[i].text.None?
    ensures UsePieces(ReadBackRecipe(env, s)[i].ingredients) == ReadBackAll(env, UsePieces(s[i].ingredients))
  {
    LineAt(s, i);
    ListsRead(env, s, i);
    hide IngredientsAmong, ToolsAmong, TimersAmong, HeatsAmong, UsePieces, ReadBackAll, LinesOf, AllLabelled,
      WritableLines, ReadLines, ValidAction, Labelled, StateLabels, ListedPieces, LeadingUses;
    var a, labels := s[i], StateLabels(s);
    var leading := LeadingPieces(LeadingUses(a.uses, ChunkStates(a)), labels);
    NoneLed(leading);
    AmongConcat(leading, ListedPieces(a.ingredients));
    AmongListed(a.ingredients);
    assert Pieces(a, labels) == leading + ListedPieces(a.ingredients);
    assert Items(ReadBackRecipe(env, s)[i])[0] == ReadBackAll(env, ShownItems(Pieces(a, labels))[0]);
    assert IngredientsAmong(Pieces(a, labels)) == UsePieces(a.ingredients);
  }

  // ----- the same lists ------------------------------------------------------------------------------

  ghost predicate SamePieces(ps: seq<Piece>, qs: seq<Piece>) {
    |ps| == |qs| && forall k :: 0 <= k < |ps| ==> SamePiece(ps[k], qs[k])
  }

  lemma SameSym(p: Piece, q: Piece)
    ensures SamePiece(p, q) ==> SamePiece(q, p)
  {
    hide Value;
  }

  lemma SameTrans(p: Piece, q: Piece, r: Piece)
    requires SamePiece(p, q) && SamePiece(q, r)
    ensures SamePiece(p, r)
  {
    hide Value;
  }

  /** What means the same as a piece whose meaning is kept keeps its meaning. */
  lemma SameKeeps(env: Env, p: Piece, q: Piece)
    requires SamePiece(p, q) && KeepsMeaning(env, q)
    ensures KeepsMeaning(env, p)
  {
    hide Value, SizeOf;
  }

  /** A piece that came back keeps its meaning from then on. */
  lemma {:induction false} ReadBackKeepsMeaning(env: Env, p: Piece)
    requires WritablePiece(p)
    ensures KeepsMeaning(env, ReadBackPiece(env, p))
  {
    hide Plain, Value, IsNumber, IsNegative;
  }

  ghost predicate AllKeepMeaning(env: Env, ps: seq<Piece>) {
    forall k :: 0 <= k < |ps| ==> KeepsMeaning(env, ps[k])
  }

  /** An item comes back the same exactly if the item shown in its place is the same and its meaning is kept. */
  lemma ItemSurvivesIff(env: Env, p: Piece, q: Piece)
    requires WritablePiece(q)
    ensures SamePiece(p, ReadBackPiece(env, q)) && KeepsMeaning(env, q) <==> SamePiece(p, q) && KeepsMeaning(env, p)
    ensures SamePiece(p, ReadBackPiece(env, q)) ==> KeepsMeaning(env, p)
  {
    hide SamePiece, KeepsMeaning, WritablePiece, ReadBackPiece;
    var r := ReadBackPiece(env, q);
    PieceSurvivesIff(env, q);
    ReadBackKeepsMeaning(env, q);
    SameSym(p, q);
    SameSym(q, r);
    if SamePiece(p, r) {
      SameKeeps(env, p, r);
      if KeepsMeaning(env, q) {
        SameTrans(p, r, q);
      }
    }
    if SamePiece(p, q) && KeepsMeaning(env, p) {
      SameKeeps(env, q, p);
      SameTrans(p, q, r);
    }
  }

  /**
   A list of which only items are shown comes back the same exactly if it is what is shown and all meanings are kept.
   */
  lemma ListSurvivesIff(env: Env, items: seq<Piece>, shown: seq<Piece>)
    requires AllWritable(shown) && forall k :: 0 <= k < |shown| ==> shown[k] in items
    ensures SamePieces(items, ReadBackAll(env, shown)) <==> SamePieces(items, shown) && AllKeepMeaning(env, items)
  {
    hide SamePiece, KeepsMeaning, WritablePiece, ReadBackPiece;
    if |items| == |shown| {
      forall k | 0 <= k < |items|
        ensures SamePiece(items[k], ReadBackAll(env, shown)[k]) ==> KeepsMeaning(env, items[k])
        ensures SamePiece(items[k], ReadBackAll(env, shown)[k]) && KeepsMeaning(env, shown[k]) <==>
                SamePiece(items[k], shown[k]) && KeepsMeaning(env, items[k]) {
        ItemSurvivesIff(env, items[k], shown[k]);
      }
      if AllKeepMeaning(env, items) {
        forall k | 0 <= k < |shown| ensures KeepsMeaning(env, shown[k]) {
          var j :| 0 <= j < |items| && items[j] == shown[k];
        }
      }
    }
  }

  // ----- only items are shown ------------------------------------------------------------------------

  lemma {:induction false} AmongMembers(ps: seq<Piece>)
    ensures forall p :: p in IngredientsAmong(ps) ==> p in ps && p.Ingredient?
    ensures forall p :: p in ToolsAmong(ps) ==> p in ps && p.Tool?
    ensures forall t :: t in TimersAmong(ps) ==> Duration(t) in ps
    ensures forall t :: t in HeatsAmong(ps) ==> Heat(t) in ps
  {
    if ps != [] {
      var init, p := ps[..|ps| - 1], ps[|ps| - 1];
      AmongMembers(init);
      assert forall q :: q in init ==> q in ps;
      assert p in ps;
    }
  }

  /** What a step shows is an item of its list. */
  predicate OwnItem(a: Action, p: Piece) {
    && (p.Ingredient? ==> p in UsePieces(a.ingredients)) && (p.Tool? ==> p in ToolPieces(a.cookware))
    && (p.Duration? ==> p in TimerPieces(a.timers)) && (p.Heat? ==> p in HeatPieces(a.temperatures))
  }

  lemma ChunkIsOwn(a: Action, labels: map<string, string>, c: Chunk)
    requires Showable(a, labels, c)
    ensures OwnItem(a, PieceOf(a, labels, c))
  {
    match c
    case IngredientChunk(ref) =>
      var u := FindUse(a.ingredients, ref);
      var k :| 0 <= k < |a.ingredients| && a.ingredients[k] == u;
      assert UsePieces(a.ingredients)[k] == UsePiece(u);
    case CookwareChunk(ref) =>
      var u := FindTool(a.cookware, ref);
      var k :| 0 <= k < |a.cookware| && a.cookware[k] == u;
      assert ToolPieces(a.cookware)[k] == ToolPiece(u);
    case TimerChunk(n) => assert TimerPieces(a.timers)[n] == Duration(a.timers[n]);
    case TemperatureChunk(n) => assert HeatPieces(a.temperatures)[n] == Heat(a.temperatures[n]);
    case _ =>
  }

  lemma {:induction false} ListedMembers(uses: seq<IngredientUse>, p: Piece)
    requires p in ListedPieces(uses)
    ensures p.Prose? || (p.Ingredient? && p in UsePieces(uses))
  {
    if |uses| == 1 {
      assert UsePieces(uses)[0] == UsePiece(uses[0]);
    } else if |uses| > 1 {
      assert UsePieces(uses)[0] == UsePiece(uses[0]);
      if p in ListedPieces(uses[1..]) {
        ListedMembers(uses[1..], p);
        assert UsePieces(uses)[1..] == UsePieces(uses[1..]);
        assert forall q :: q in UsePieces(uses)[1..] ==> q in UsePieces(uses);
      }
    }
  }

  lemma BodyIsOwn(a: Action, labels: map<string, string>, k: nat)
    requires ValidAction(a) && Labelled(a, labels) && k < |BodyPieces(a, labels)|
    ensures OwnItem(a, BodyPieces(a, labels)[k])
  {
    hide OwnItem;
    if a.text.Some? {
      hide ListedPieces;
      assert AllShowable(a, labels, a.text.value);
      ChunkIsOwn(a, labels, a.text.value[k]);
    } else {
      hide ValidAction, Labelled, UsePieces, ToolPieces, TimerPieces, HeatPieces, ListedPieces;
      ListedIsOwn(a, ListedPieces(a.ingredients)[k]);
    }
  }

  lemma ListedIsOwn(a: Action, p: Piece)
    requires p in ListedPieces(a.ingredients)
    ensures OwnItem(a, p)
  {
    hide UsePieces, ToolPieces, TimerPieces, HeatPieces, ListedPieces;
    ListedMembers(a.ingredients, p);
  }

  lemma ShownIsOwn(a: Action, labels: map<string, string>, p: Piece)
    requires ValidAction(a) && Labelled(a, labels) && p in Pieces(a, labels)
    ensures OwnItem(a, p)
  {
    hide UsePieces, ToolPieces, TimerPieces, HeatPieces, BodyPieces, ValidAction, Labelled, ChunkStates, LeadingUses;
    var n := |LeadingUses(a.uses, ChunkStates(a))|;
    var k :| 0 <= k < |Pieces(a, labels)| && Pieces(a, labels)[k] == p;
    if k >= n {
      assert p == BodyPieces(a, labels)[k - n];
      BodyIsOwn(a, labels, k - n);
    }
  }

  /** The items shown in a list are items of the list, and can be written. */
  lemma {:induction false} ShownFits(s: seq<Action>, i: nat, n: nat)
    requires WritableRecipe(s) && i < |s| && n < 4
    ensures ValidAction(s[i]) && Labelled(s[i], StateLabels(s))
    ensures var shown := ShownItems(Pieces(s[i], StateLabels(s)))[n];
            AllWritable(shown) && forall k :: 0 <= k < |shown| ==> shown[k] in Items(s[i])[n]
    ensures var shown, ps := ShownItems(Pieces(s[i], StateLabels(s)))[n], Pieces(s[i], StateLabels(s));
            forall k :: 0 <= k < |shown| ==> shown[k] in ps
  {
    LineAt(s, i);
    var ps := Pieces(s[i], StateLabels(s));
    hide Pieces, IngredientsAmong, ToolsAmong, TimersAmong, HeatsAmong, ValidAction, Labelled, StateLabels, LinesOf,
      WritableLines, AllLabelled, WritablePiece, TrimmedPieces, UsePieces, ToolPieces;
    AmongMembers(ps);
    var shown := ShownItems(ps)[n];
    forall k | 0 <= k < |shown| ensures shown[k] in ps && WritablePiece(shown[k]) && shown[k] in Items(s[i])[n] {
      ShownIsOwn(s[i], StateLabels(s), shown[k]);
    }
  }

  // ----- the theorem ------------------------------------------------------------------------------------

  /** The lists mean the same, item by item and in order. */
  ghost predicate SameLists(a: Action, b: Action) {
    forall n :: 0 <= n < 4 ==> SamePieces(Items(a)[n], Items(b)[n])
  }

  /** Each list is what the step shows: every item once and in order, up to items that mean the same. */
  ghost predicate ListsShown(a: Action, labels: map<string, string>)
    requires ValidAction(a) && Labelled(a, labels)
  {
    forall n :: 0 <= n < 4 ==> SamePieces(Items(a)[n], ShownItems(Pieces(a, labels))[n])
  }

  ghost predicate ItemsKeepMeaning(env: Env, a: Action) {
    forall n :: 0 <= n < 4 ==> AllKeepMeaning(env, Items(a)[n])
  }

  /** The lists of a step come back the same exactly if each is what the step shows and every item's meaning is kept. */
  lemma {:induction false} ListsComeBackIff(env: Env, s: seq<Action>, i: nat)
    requires WritableRecipe(s) && i < |s|
    ensures ValidAction(s[i]) && Labelled(s[i], StateLabels(s))
    ensures SameLists(s[i], ReadBackRecipe(env, s)[i]) <==>
              ListsShown(s[i], StateLabels(s)) && ItemsKeepMeaning(env, s[i])
  {
    LineAt(s, i);
    hide Items, ShownItems, Pieces, SamePieces, AllKeepMeaning, AllWritable, ReadBackAll, ReadLines, LinesOf,
      StateLabels, ValidAction, Labelled, WritableLines, WritableLine, AllLabelled;
    ListsRead(env, s, i);
    forall n | 0 <= n < 4
      ensures SamePieces(Items(s[i])[n], Items(ReadBackRecipe(env, s)[i])[n]) <==>
              SamePieces(Items(s[i])[n], ShownItems(Pieces(s[i], StateLabels(s)))[n])
              && AllKeepMeaning(env, Items(s[i])[n]) {
      ShownFits(s, i, n);
      ListSurvivesIff(env, Items(s[i])[n], ShownItems(Pieces(s[i], StateLabels(s)))[n]);
    }
  }

  /** If the lists are what is shown and all that is shown keeps its meaning, so does every item. */
  lemma ShownKeepsItems(env: Env, s: seq<Action>, i: nat)
    requires WritableRecipe(s) && i < |s|
    requires ValidAction(s[i]) && Labelled(s[i], StateLabels(s)) && ListsShown(s[i], StateLabels(s))
    requires AllKeepMeaning(env, Pieces(s[i], StateLabels(s)))
    ensures ItemsKeepMeaning(env, s[i])
  {
    hide Items, ShownItems, Pieces, AllWritable, LinesOf, StateLabels, ValidAction, Labelled, WritableLines,
      AllLabelled, SamePiece, KeepsMeaning;
    var ps := Pieces(s[i], StateLabels(s));
    forall n | 0 <= n < 4 ensures AllKeepMeaning(env, Items(s[i])[n]) {
      ShownFits(s, i, n);
      var items, shown := Items(s[i])[n], ShownItems(ps)[n];
      assert SamePieces(items, shown);
      forall k | 0 <= k < |items| ensures KeepsMeaning(env, items[k]) {
        assert shown[k] in ps;
        var j :| 0 <= j < |ps| && ps[j] == shown[k];
        SameKeeps(env, items[k], shown[k]);
      }
    }
  }
}
