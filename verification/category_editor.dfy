/**
 * `CategoryEditor` (src/categories/category-editor.ts): edits an in-memory
 * list of categories by name — create a category, add games to it, or set
 * its games.
 */
module CategoryEditing {
  import opened Wrappers
  import opened Errors
  import opened Sequences
  import opened Categories

  /** The category has a payload named `name`. */
  predicate Named(c: Category, name: string) {
    c.data.Some? && c.data.value.name == name
  }

  /** The position of the first category named `name`. */
  function FindIndexByName(categories: seq<Category>, name: string): (r: Option<nat>)
    ensures r.Some? ==> r.value < |categories| && Named(categories[r.value], name)
    ensures r.Some? ==> forall j :: 0 <= j < r.value ==> !Named(categories[j], name)
    ensures r.None? <==> forall j :: 0 <= j < |categories| ==> !Named(categories[j], name)
  {
    if categories == [] then None
    else if Named(categories[0], name) then Some(0)
    else match FindIndexByName(categories[1..], name)
      case None =>
        assert forall j :: 1 <= j < |categories| ==> categories[j] == categories[1..][j - 1];
        None
      case Some(i) => Some(i + 1)
  }

  /** `FindIndexByName` finds the first category carrying the name. */
  lemma FindIndexIs(categories: seq<Category>, name: string, i: nat)
    requires i < |categories| && Named(categories[i], name)
    requires forall j :: 0 <= j < i ==> !Named(categories[j], name)
    ensures FindIndexByName(categories, name) == Some(i)
  {
  }

  /** The category `createCategory` builds: no namespace or version yet; no `added` list when there are no games. */
  function NewCategory(name: string, gameIds: seq<int>): (c: Category)
    ensures Named(c, name) && c.entryKey == CreateCollectionKey(name) && c.data.value.id == CreateCollectionId(name)
    ensures c.namespaceKey.None? && c.version.None? && c.isDeleted.None? && c.timestamp.None?
    ensures c.data.value.added == if |gameIds| > 0 then Some(gameIds) else None
    ensures c.data.value.removed.None? && c.data.value.filterSpec.None?
  {
    var added := if |gameIds| > 0 then Some(gameIds) else None;
    Category(None, CreateCollectionKey(name), None, Some(CategoryData(CreateCollectionId(name), name, added, None, None)), None, None)
  }

  /** The ids that `added` does not list, in their order, repeats included. */
  function Unlisted(added: seq<int>, ids: seq<int>): (r: seq<int>)
    ensures forall i :: 0 <= i < |r| ==> r[i] in ids && r[i] !in added
    ensures forall i :: 0 <= i < |ids| && ids[i] !in added ==> ids[i] in r
  {
    if ids == [] then []
    else
      var front := ids[..|ids| - 1];
      var x := ids[|ids| - 1];
      assert forall i :: 0 <= i < |front| ==> ids[i] == front[i];
      Unlisted(added, front) + if x in added then [] else [x]
  }

  /** `added` with each of `ids` pushed when not already included, in order. */
  function AddUnique(added: seq<int>, ids: seq<int>): (r: seq<int>)
    ensures |added| <= |r| <= |added| + |ids|
    ensures r[..|added|] == added
    ensures forall i :: 0 <= i < |r| ==> r[i] in added || r[i] in ids
    ensures forall i :: 0 <= i < |ids| ==> ids[i] in r
    ensures NoDuplicates(added) ==> NoDuplicates(r)
  {
    if ids == [] then added
    else
      var front := ids[..|ids| - 1];
      var a := AddUnique(added, front);
      var x := ids[|ids| - 1];
      assert forall i :: 0 <= i < |front| ==> ids[i] == front[i];
      if x in a then a else a + [x]
  }

  /** One step of `AddUnique`: the last id is pushed unless already listed. */
  lemma AddUniqueLast(added: seq<int>, ids: seq<int>)
    requires ids != []
    ensures var a := AddUnique(added, ids[..|ids| - 1]);
      AddUnique(added, ids) == if ids[|ids| - 1] in a then a else a + [ids[|ids| - 1]]
  {
  }

  /** One step of `Unlisted`: the last id is kept unless `added` lists it. */
  lemma UnlistedLast(added: seq<int>, ids: seq<int>)
    requires ids != []
    ensures Unlisted(added, ids) == Unlisted(added, ids[..|ids| - 1]) + if ids[|ids| - 1] in added then [] else [ids[|ids| - 1]]
  {
  }

  /**
   * The order of the pushes: the old list, then the ids it does not list, each
   * once, in the order of their first appearance.
   */
  lemma {:induction false} AddUniqueInOrder(added: seq<int>, ids: seq<int>)
    ensures AddUnique(added, ids) == added + Distinct(Unlisted(added, ids))
  {
    if ids != [] {
      var front := ids[..|ids| - 1];
      var x := ids[|ids| - 1];
      var u := Unlisted(added, front);
      var d := Distinct(u);
      AddUniqueInOrder(added, front);
      AddUniqueLast(added, ids);
      UnlistedLast(added, ids);
      DistinctSnoc(u, x);
      if x in added {
        assert u + [] == u;
        InConcat(added, d, x);
      } else {
        InConcat(added, d, x);
        AppendAssoc(added, d, [x]);
      }
    }
  }

  /** As sets, the new list is the union of the old list and the ids. */
  lemma AddUniqueUnion(added: seq<int>, ids: seq<int>)
    ensures (set x | x in AddUnique(added, ids)) == (set x | x in added) + (set x | x in ids)
  {
    var r := AddUnique(added, ids);
    forall x | x in added
      ensures x in r
    {
      var i :| 0 <= i < |added| && added[i] == x;
      assert r[..|added|][i] == x;
    }
  }

  /** Adding the same ids a second time changes nothing. */
  lemma {:induction false} AddUniqueIdempotent(added: seq<int>, ids: seq<int>)
    ensures AddUnique(AddUnique(added, ids), ids) == AddUnique(added, ids)
  {
    var r := AddUnique(added, ids);
    AddUniqueNoop(r, ids);
  }

  /** Ids that are all present already are not pushed again. */
  lemma {:induction false} AddUniqueNoop(added: seq<int>, ids: seq<int>)
    requires forall i :: 0 <= i < |ids| ==> ids[i] in added
    ensures AddUnique(added, ids) == added
  {
    if ids != [] {
      var front := ids[..|ids| - 1];
      assert forall i :: 0 <= i < |front| ==> front[i] == ids[i];
      AddUniqueNoop(added, front);
    }
  }

  /** A deleted category is restored (its flag becomes absent); other flags are kept. */
  function Restored(c: Category): (r: Category)
    ensures r.isDeleted != Some(true)
    ensures c.isDeleted != Some(true) ==> r == c
    ensures r == c.(isDeleted := r.isDeleted)
  {
    if c.isDeleted == Some(true) then c.(isDeleted := None) else c
  }

  /**
   * What `addGamesForCategory` makes of a found category: restored, and, when
   * there are games, each game not yet listed pushed onto `added` (an absent
   * list starts empty).
   */
  function WithGamesAdded(c: Category, gameIds: seq<int>): (r: Category)
    requires c.data.Some?
    ensures r.data.Some? && r.data.value == c.data.value.(added := r.data.value.added)
    ensures r.isDeleted != Some(true) && r.entryKey == c.entryKey && r.namespaceKey == c.namespaceKey && r.version == c.version
    ensures |gameIds| == 0 ==> r.data == c.data
    ensures |gameIds| > 0 ==> r.data.value.added.Some?
    ensures |gameIds| > 0 ==>
      r.data.value.added.value == AddUnique(if c.data.value.added.Some? then c.data.value.added.value else [], gameIds)
    ensures |gameIds| > 0 ==> forall i :: 0 <= i < |gameIds| ==> gameIds[i] in r.data.value.added.value
  {
    var d := c.data.value;
    var r := Restored(c);
    if |gameIds| == 0 then r
    else
      var old_added := if d.added.Some? then d.added.value else [];
      r.(data := Some(d.(added := Some(AddUnique(old_added, gameIds)))))
  }

  /** What `setGamesForCategory` makes of a found category: restored, with `added` set to the games. */
  function WithGamesSet(c: Category, gameIds: seq<int>): (r: Category)
    requires c.data.Some?
    ensures r.data == Some(c.data.value.(added := Some(gameIds)))
    ensures r.isDeleted != Some(true) && r.entryKey == c.entryKey && r.namespaceKey == c.namespaceKey && r.version == c.version
  {
    Restored(c).(data := Some(c.data.value.(added := Some(gameIds))))
  }

  /**
   * The `forEach` of `addGamesForCategory` on a category's `added` list: an
   * absent list starts empty once there is a game, and each game not yet
   * listed is pushed.
   */
  method PushGames(added: Option<seq<int>>, gameIds: seq<int>) returns (r: Option<seq<int>>)
    ensures |gameIds| == 0 ==> r == added
    ensures |gameIds| > 0 ==> r == Some(AddUnique(if added.Some? then added.value else [], gameIds))
  {
    var base := if added.Some? then added.value else [];
    r := added;
    for j := 0 to |gameIds|
      invariant r == if j == 0 then added else Some(AddUnique(base, gameIds[..j]))
    {
      var list := if r.Some? then r.value else [];
      if gameIds[j] !in list {
        list := list + [gameIds[j]];
      }
      r := Some(list);
      assert gameIds[..j + 1][..j] == gameIds[..j];
    }
    assert gameIds[..|gameIds|] == gameIds;
  }

  class CategoryEditor {
    var categories: seq<Category>

    constructor(categories: seq<Category>)
      ensures this.categories == categories
    {
      this.categories := categories;
    }

    /** The first category whose payload is named `name`. */
    function FindCategoryByName(name: string): (r: Option<Category>)
      reads this
      ensures r.Some? <==> exists j :: 0 <= j < |categories| && Named(categories[j], name)
      ensures r.Some? ==> r.value == categories[FindIndexByName(categories, name).value]
    {
      match FindIndexByName(categories, name)
      case None => None
      case Some(i) => Some(categories[i])
    }

    /** Appends a new category named `name`, unless one already carries that name. */
    method CreateCategory(name: string, gameIds: seq<int>) returns (r: Result<Category, Error>)
      modifies this
      ensures old(FindIndexByName(categories, name)).Some? ==>
        r == Err(DuplicateCategory(name)) && categories == old(categories)
      ensures old(FindIndexByName(categories, name)).None? ==>
        r == Ok(NewCategory(name, gameIds)) && categories == old(categories) + [r.value]
      ensures r.Ok? ==> FindCategoryByName(name) == Some(r.value)
    {
      if FindIndexByName(categories, name).Some? {
        return Err(DuplicateCategory(name));
      }
      var c := NewCategory(name, gameIds);
      categories := categories + [c];
      FindIndexIs(categories, name, |categories| - 1);
      r := Ok(c);
    }

    /**
     * Adds games to the category named `name`, restoring it if deleted; creates
     * the category when there is none.
     */
    method AddGamesForCategory(name: string, gameIds: seq<int>)
      modifies this
      ensures old(FindIndexByName(categories, name)).Some? ==>
        var i := old(FindIndexByName(categories, name)).value;
        categories == old(categories)[i := WithGamesAdded(old(categories)[i], gameIds)]
      ensures old(FindIndexByName(categories, name)).None? ==>
        categories == old(categories) + [NewCategory(name, gameIds)]
      ensures |gameIds| > 0 ==> FindCategoryByName(name).Some?
      ensures |gameIds| > 0 ==> FindCategoryByName(name).value.data.value.added.Some?
      ensures |gameIds| > 0 ==> forall k :: 0 <= k < |gameIds| ==>
        gameIds[k] in FindCategoryByName(name).value.data.value.added.value
    {
      var found := FindIndexByName(categories, name);
      if found.None? {
        var _ := CreateCategory(name, gameIds);
        return;
      }
      var i := found.value;
      var d := categories[i].data.value;
      var added := PushGames(d.added, gameIds);
      var c := Restored(categories[i]).(data := Some(d.(added := added)));
      assert c == WithGamesAdded(categories[i], gameIds);
      categories := categories[i := c];
      FindIndexIs(categories, name, i);
    }

    /** Sets the games of the category named `name`, restoring it if deleted; creates the category when there is none. */
    method SetGamesForCategory(name: string, gameIds: seq<int>)
      modifies this
      ensures old(FindIndexByName(categories, name)).Some? ==>
        var i := old(FindIndexByName(categories, name)).value;
        categories == old(categories)[i := WithGamesSet(old(categories)[i], gameIds)]
      ensures old(FindIndexByName(categories, name)).None? ==>
        categories == old(categories) + [NewCategory(name, gameIds)]
      ensures FindCategoryByName(name).Some?
      ensures old(FindIndexByName(categories, name)).Some? || |gameIds| > 0 ==>
        FindCategoryByName(name).value.data.value.added == Some(gameIds)
    {
      var found := FindIndexByName(categories, name);
      if found.None? {
        var _ := CreateCategory(name, gameIds);
        return;
      }
      var i := found.value;
      categories := categories[i := WithGamesSet(categories[i], gameIds)];
      FindIndexIs(categories, name, i);
    }

    /** The edited list. */
    function GetCategories(): (r: seq<Category>)
      reads this
      ensures r == categories
    {
      categories
    }
  }
}
