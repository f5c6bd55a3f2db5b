/** The admin category editor.  Adding and deleting categories and
    subcategories is optimistic: the list shown is changed at once, the
    backend is called, and the change is then committed or rolled back.
    Each phase is its own function; `AddCategory`, `DeleteCategory`,
    `AddSubcategory` and `DeleteSubcategory` run the phases of one mutation
    back to back.  The later phases find their target again by id or by
    position, where the component keeps an object reference across the
    await; the two agree when nothing else changes the list in between. */
module CategoryEditor {
  import opened Common
  import opened Text
  import opened Catalog

  /** The component's state: the category list with attached subcategories,
      the "new category" text box and the set of expanded rows. */
  datatype Editor = Editor(categories: seq<Category>, newName: string, expanded: set<Id>)

  /** `i` is where `findIndex(c => c.id === id)` stops. */
  predicate FirstCategoryWith(cats: seq<Category>, id: Id, i: nat) {
    i < |cats| && cats[i].id == id && forall j :: 0 <= j < i ==> cats[j].id != id
  }

  predicate NoCategoryWith(cats: seq<Category>, id: Id) {
    forall i :: 0 <= i < |cats| ==> cats[i].id != id
  }

  predicate FirstSubWith(subs: seq<Subcategory>, id: Id, i: nat) {
    i < |subs| && subs[i].id == id && forall j :: 0 <= j < i ==> subs[j].id != id
  }

  predicate NoSubWith(subs: seq<Subcategory>, id: Id) {
    forall i :: 0 <= i < |subs| ==> subs[i].id != id
  }

  function CategoryIndex(cats: seq<Category>, id: Id): (r: Option<nat>)
    ensures r.None? <==> NoCategoryWith(cats, id)
    ensures r.Some? ==> FirstCategoryWith(cats, id, r.value)
  {
    FirstIndex(cats, (c: Category) => c.id == id)
  }

  function SubIndex(subs: seq<Subcategory>, id: Id): (r: Option<nat>)
    ensures r.None? <==> NoSubWith(subs, id)
    ensures r.Some? ==> FirstSubWith(subs, id, r.value)
  {
    FirstIndex(subs, (s: Subcategory) => s.id == id)
  }

  // ------------------------------------------------------------ addCategory

  /** Optimistic phase of `addCategory`: a blank name is ignored; otherwise a
      category with the temporary id and the trimmed name goes to the front
      and the text box is cleared. */
  function AddCategoryApply(e: Editor, stamp: nat): (r: Editor)
    ensures IsBlank(e.newName) ==> r == e
    ensures !IsBlank(e.newName) ==>
      && |r.categories| == |e.categories| + 1
      && r.categories[0] == Category(Temp(stamp), Trim(e.newName), [])
      && r.categories[1..] == e.categories
      && r.newName == ""
      && r.expanded == e.expanded
  {
    if IsBlank(e.newName) then e
    else e.(categories := [Category(Temp(stamp), Trim(e.newName), [])] + e.categories, newName := "")
  }

  /** Success phase: the first entry carrying the temporary id is replaced,
      in place, by the created row with no subcategories; if that entry is
      gone, nothing changes. */
  function AddCategoryCommit(cats: seq<Category>, tempId: Id, created: Category): (r: seq<Category>)
    ensures NoCategoryWith(cats, tempId) ==> r == cats
    ensures forall i: nat :: FirstCategoryWith(cats, tempId, i) ==>
      && |r| == |cats|
      && r[i] == created.(subcategories := [])
      && (forall j :: 0 <= j < |cats| && j != i ==> r[j] == cats[j])
  {
    match CategoryIndex(cats, tempId)
    case None => cats
    case Some(i) => cats[i := created.(subcategories := [])]
  }

  /** Failure phase: every entry carrying the temporary id is dropped and the
      others keep their order and multiplicity. */
  function OtherCategory(tempId: Id): Category -> bool {
    (c: Category) => c.id != tempId
  }

  function AddCategoryRollback(cats: seq<Category>, tempId: Id): (r: seq<Category>)
    ensures forall i :: 0 <= i < |r| ==> r[i].id != tempId
    ensures Subsequence(r, cats)
    ensures forall c: Category :: c.id != tempId ==> multiset(r)[c] == multiset(cats)[c]
    ensures NoCategoryWith(cats, tempId) ==> r == cats
  {
    var keep := OtherCategory(tempId);
    FilterIsSubsequence(cats, keep);
    FilterCounts(cats, keep);
    if NoCategoryWith(cats, tempId) then FilterKeepsAll(cats, keep); Filter(cats, keep)
    else Filter(cats, keep)
  }

  /** `addCategory` from click to settlement, with no other mutation in
      between.  A failure drops every row carrying the temporary id, so when
      that id is fresh it gives the original list back (the text box stays
      cleared); a success leaves the created row at the front. */
  function AddCategory(e: Editor, stamp: nat, reply: Reply<Category>): (r: Editor)
    ensures IsBlank(e.newName) ==> r == e
    ensures !IsBlank(e.newName) ==> r.newName == "" && r.expanded == e.expanded
    ensures !IsBlank(e.newName) && reply.Failed? ==>
      r.categories == AddCategoryRollback(e.categories, Temp(stamp))
    ensures !IsBlank(e.newName) && NoCategoryWith(e.categories, Temp(stamp)) && reply.Failed? ==>
      r.categories == e.categories
    ensures !IsBlank(e.newName) && reply.Ok? ==>
      r.categories == [reply.value.(subcategories := [])] + e.categories
  {
    var applied := AddCategoryApply(e, stamp);
    if IsBlank(e.newName) then applied
    else match reply
      case Ok(created) =>
        CommitAfterApply(e, stamp, created);
        applied.(categories := AddCategoryCommit(applied.categories, Temp(stamp), created))
      case Failed(_) =>
        assert applied.categories == [applied.categories[0]] + e.categories;
        RollbackDropsTemp(applied.categories[0], e.categories);
        if NoCategoryWith(e.categories, Temp(stamp)) then
          RollbackAfterApply(applied.categories[0], e.categories);
          applied.(categories := AddCategoryRollback(applied.categories, Temp(stamp)))
        else
          applied.(categories := AddCategoryRollback(applied.categories, Temp(stamp)))
  }

  lemma CommitAfterApply(e: Editor, stamp: nat, created: Category)
    requires !IsBlank(e.newName)
    ensures AddCategoryCommit(AddCategoryApply(e, stamp).categories, Temp(stamp), created)
            == [created.(subcategories := [])] + e.categories
  {
    var x := Category(Temp(stamp), Trim(e.newName), []);
    assert AddCategoryApply(e, stamp).categories == [x] + e.categories;
    CommitAtFront(x, e.categories, created);
  }

  /** Committing replaces a temporary category sitting at the front. */
  lemma CommitAtFront(x: Category, cats: seq<Category>, created: Category)
    ensures AddCategoryCommit([x] + cats, x.id, created) == [created.(subcategories := [])] + cats
  {
    assert FirstCategoryWith([x] + cats, x.id, 0);
    assert ([x] + cats)[0 := created.(subcategories := [])] == [created.(subcategories := [])] + cats;
  }

  /** Rolling back right after the optimistic phase is rolling back the old
      list: the prepended row goes, and so does any older row that shares its
      temporary id (two adds in the same millisecond). */
  lemma RollbackDropsTemp(x: Category, cats: seq<Category>)
    ensures AddCategoryRollback([x] + cats, x.id) == AddCategoryRollback(cats, x.id)
  {
    var keep := OtherCategory(x.id);
    assert AddCategoryRollback([x] + cats, x.id) == Filter([x] + cats, keep);
    FilterSkipsHead(x, cats, keep);
    assert AddCategoryRollback(cats, x.id) == Filter(cats, keep);
  }

  /** Rolling back right after the optimistic phase undoes it. */
  lemma RollbackAfterApply(x: Category, cats: seq<Category>)
    requires NoCategoryWith(cats, x.id)
    ensures AddCategoryRollback([x] + cats, x.id) == cats
  {
    var keep := OtherCategory(x.id);
    assert AddCategoryRollback([x] + cats, x.id) == Filter([x] + cats, keep);
    FilterSkipsHead(x, cats, keep);
    assert AddCategoryRollback(cats, x.id) == Filter(cats, keep);
  }

  // --------------------------------------------------------- deleteCategory

  /** What an optimistic removal took out, so that it can be put back. */
  datatype Removal<T> = NotFound | Removed(index: nat, item: T, rest: seq<T>)

  /** Optimistic phase of `deleteCategory`: the first category with the id is
      spliced out; an unknown id changes nothing. */
  function DeleteCategoryApply(cats: seq<Category>, id: Id): (r: Removal<Category>)
    ensures r.NotFound? <==> NoCategoryWith(cats, id)
    ensures r.Removed? ==>
      && FirstCategoryWith(cats, id, r.index)
      && r.item == cats[r.index]
      && r.rest == RemoveAt(cats, r.index)
  {
    match CategoryIndex(cats, id)
    case None => NotFound
    case Some(i) => Removed(i, cats[i], RemoveAt(cats, i))
  }

  /** `deleteCategory` from confirmation to settlement: on failure the
      removed category is spliced back at its old index, which restores the
      list exactly. */
  function DeleteCategory(cats: seq<Category>, id: Id, reply: Reply<()>): (r: seq<Category>)
    ensures NoCategoryWith(cats, id) ==> r == cats
    ensures reply.Failed? ==> r == cats
    ensures reply.Ok? ==> forall i: nat :: FirstCategoryWith(cats, id, i) ==> r == RemoveAt(cats, i)
  {
    match DeleteCategoryApply(cats, id)
    case NotFound => cats
    case Removed(i, item, rest) =>
      if reply.Ok? then rest
      else SpliceBackRestores(cats, i); InsertAt(rest, i, item)
  }

  // ---------------------------------------------------------- addSubcategory

  /** Optimistic phase of `addSubcategory`: a blank name is ignored;
      otherwise a temporary subcategory goes to the front of the first
      category whose id is `===` to `categoryId`, and no other category
      changes.  An unknown category changes nothing. */
  function AddSubApply(cats: seq<Category>, categoryId: Id, name: string, stamp: nat): (r: seq<Category>)
    ensures IsBlank(name) || NoCategoryWith(cats, categoryId) ==> r == cats
    ensures !IsBlank(name) ==> forall i: nat :: FirstCategoryWith(cats, categoryId, i) ==>
      && |r| == |cats|
      && r[i] == cats[i].(subcategories := [Subcategory(Temp(stamp), Trim(name), categoryId)] + cats[i].subcategories)
      && (forall j :: 0 <= j < |cats| && j != i ==> r[j] == cats[j])
  {
    if IsBlank(name) then cats
    else
      UpdateSubsOf(cats, categoryId, Prepend(Subcategory(Temp(stamp), Trim(name), categoryId)))
  }

  /** Replace the first subcategory with id `tempId` by `created`. */
  function ReplaceSub(subs: seq<Subcategory>, tempId: Id, created: Subcategory): (r: seq<Subcategory>)
    ensures NoSubWith(subs, tempId) ==> r == subs
    ensures forall k: nat :: FirstSubWith(subs, tempId, k) ==> r == subs[k := created]
  {
    match SubIndex(subs, tempId)
    case None => subs
    case Some(k) => subs[k := created]
  }

  /** Drop every subcategory with id `tempId`, keeping the others in order. */
  function OtherSub(tempId: Id): Subcategory -> bool {
    (s: Subcategory) => s.id != tempId
  }

  function DropSub(subs: seq<Subcategory>, tempId: Id): (r: seq<Subcategory>)
    ensures NoSubWith(r, tempId)
    ensures Subsequence(r, subs)
    ensures forall s: Subcategory :: s.id != tempId ==> multiset(r)[s] == multiset(subs)[s]
    ensures NoSubWith(subs, tempId) ==> r == subs
  {
    var keep := OtherSub(tempId);
    FilterIsSubsequence(subs, keep);
    FilterCounts(subs, keep);
    if NoSubWith(subs, tempId) then FilterKeepsAll(subs, keep); Filter(subs, keep)
    else Filter(subs, keep)
  }

  /** Apply `f` to the subcategories of the first category whose id is
      `categoryId`: the category `addSubcategory` found before the await,
      as long as nothing else changed the list meanwhile. */
  function UpdateSubsOf(cats: seq<Category>, categoryId: Id, f: seq<Subcategory> -> seq<Subcategory>): (r: seq<Category>)
    ensures NoCategoryWith(cats, categoryId) ==> r == cats
    ensures forall i: nat :: FirstCategoryWith(cats, categoryId, i) ==>
      && |r| == |cats|
      && r[i] == cats[i].(subcategories := f(cats[i].subcategories))
      && (forall j :: 0 <= j < |cats| && j != i ==> r[j] == cats[j])
  {
    match CategoryIndex(cats, categoryId)
    case None => cats
    case Some(i) => cats[i := cats[i].(subcategories := f(cats[i].subcategories))]
  }

  function Prepend(temp: Subcategory): seq<Subcategory> -> seq<Subcategory> {
    (subs: seq<Subcategory>) => [temp] + subs
  }

  function Replacing(tempId: Id, created: Subcategory): seq<Subcategory> -> seq<Subcategory> {
    (subs: seq<Subcategory>) => ReplaceSub(subs, tempId, created)
  }

  function Dropping(tempId: Id): seq<Subcategory> -> seq<Subcategory> {
    (subs: seq<Subcategory>) => DropSub(subs, tempId)
  }

  /** `UpdateSubsOf` at the category it finds, as one sequence update. */
  lemma UpdateAt(cats: seq<Category>, categoryId: Id, f: seq<Subcategory> -> seq<Subcategory>, i: nat)
    requires FirstCategoryWith(cats, categoryId, i)
    ensures UpdateSubsOf(cats, categoryId, f) == cats[i := cats[i].(subcategories := f(cats[i].subcategories))]
  {
    assert CategoryIndex(cats, categoryId) == Some(i);
  }

  /** Success phase: the temporary subcategory is replaced in place by the
      created row, in the target category only. */
  function AddSubCommit(cats: seq<Category>, categoryId: Id, tempId: Id, created: Subcategory): (r: seq<Category>)
    ensures NoCategoryWith(cats, categoryId) ==> r == cats
    ensures forall i: nat, k: nat :: FirstCategoryWith(cats, categoryId, i) && FirstSubWith(cats[i].subcategories, tempId, k) ==>
      && |r| == |cats|
      && r[i].subcategories == cats[i].subcategories[k := created]
      && r[i].id == cats[i].id && r[i].name == cats[i].name
      && (forall j :: 0 <= j < |cats| && j != i ==> r[j] == cats[j])
  {
    UpdateSubsOf(cats, categoryId, Replacing(tempId, created))
  }

  /** Failure phase: the temporary subcategory is filtered out of the target
      category only. */
  function AddSubRollback(cats: seq<Category>, categoryId: Id, tempId: Id): (r: seq<Category>)
    ensures NoCategoryWith(cats, categoryId) ==> r == cats
    ensures forall i: nat :: FirstCategoryWith(cats, categoryId, i) ==>
      && |r| == |cats|
      && r[i].subcategories == DropSub(cats[i].subcategories, tempId)
      && NoSubWith(r[i].subcategories, tempId)
      && Subsequence(r[i].subcategories, cats[i].subcategories)
      && r[i].id == cats[i].id && r[i].name == cats[i].name
      && (forall j :: 0 <= j < |cats| && j != i ==> r[j] == cats[j])
  {
    UpdateSubsOf(cats, categoryId, Dropping(tempId))
  }

  /** `addSubcategory` from click to settlement.  With a fresh temporary id a
      failure restores the list, and a success leaves the created row at the
      front of the target category. */
  function AddSubcategory(cats: seq<Category>, categoryId: Id, name: string, stamp: nat,
                          reply: Reply<Subcategory>): (r: seq<Category>)
    ensures IsBlank(name) || NoCategoryWith(cats, categoryId) ==> r == cats
    ensures reply.Failed? ==> forall i: nat ::
      (FirstCategoryWith(cats, categoryId, i) && NoSubWith(cats[i].subcategories, Temp(stamp))) ==> r == cats
    ensures !IsBlank(name) && reply.Ok? ==> forall i: nat :: FirstCategoryWith(cats, categoryId, i) ==>
      r == cats[i := cats[i].(subcategories := [reply.value] + cats[i].subcategories)]
  {
    if IsBlank(name) then cats
    else
      var applied := AddSubApply(cats, categoryId, name, stamp);
      match CategoryIndex(cats, categoryId)
      case None => applied
      case Some(i) =>
        match reply
        case Ok(created) =>
          SubCommitAfterApply(cats, categoryId, name, stamp, created, i);
          AddSubCommit(applied, categoryId, Temp(stamp), created)
        case Failed(_) =>
          if NoSubWith(cats[i].subcategories, Temp(stamp)) then
            SubRollbackAfterApply(cats, categoryId, name, stamp, i);
            AddSubRollback(applied, categoryId, Temp(stamp))
          else
            AddSubRollback(applied, categoryId, Temp(stamp))
  }

  /** The optimistic phase leaves the target category where it was, with
      the temporary row in front of its subcategories. */
  lemma ApplyKeepsTarget(cats: seq<Category>, categoryId: Id, name: string, stamp: nat, i: nat)
    requires !IsBlank(name) && FirstCategoryWith(cats, categoryId, i)
    ensures var temp := Subcategory(Temp(stamp), Trim(name), categoryId);
      AddSubApply(cats, categoryId, name, stamp) == cats[i := cats[i].(subcategories := [temp] + cats[i].subcategories)]
    ensures FirstCategoryWith(AddSubApply(cats, categoryId, name, stamp), categoryId, i)
  {
    var temp := Subcategory(Temp(stamp), Trim(name), categoryId);
    UpdateAt(cats, categoryId, Prepend(temp), i);
    var applied := AddSubApply(cats, categoryId, name, stamp);
    assert forall j :: 0 <= j < i ==> applied[j] == cats[j];
  }

  lemma SubCommitAfterApply(cats: seq<Category>, categoryId: Id, name: string, stamp: nat,
                            created: Subcategory, i: nat)
    requires !IsBlank(name) && FirstCategoryWith(cats, categoryId, i)
    ensures AddSubCommit(AddSubApply(cats, categoryId, name, stamp), categoryId, Temp(stamp), created)
            == cats[i := cats[i].(subcategories := [created] + cats[i].subcategories)]
  {
    var applied := AddSubApply(cats, categoryId, name, stamp);
    var temp := Subcategory(Temp(stamp), Trim(name), categoryId);
    var subs := cats[i].subcategories;
    ApplyKeepsTarget(cats, categoryId, name, stamp, i);
    UpdateAt(applied, categoryId, Replacing(temp.id, created), i);
    ReplaceAtFront(temp, subs, created);
    UpdateTwice(cats, i, cats[i].(subcategories := [temp] + subs), cats[i].(subcategories := [created] + subs));
  }

  /** Replacing a temporary row sitting at the front of a list. */
  lemma ReplaceAtFront(temp: Subcategory, subs: seq<Subcategory>, created: Subcategory)
    ensures ReplaceSub([temp] + subs, temp.id, created) == [created] + subs
  {
    assert FirstSubWith([temp] + subs, temp.id, 0);
  }

  /** A second update of the same position overrides the first. */
  lemma UpdateTwice(cats: seq<Category>, i: nat, y: Category, x: Category)
    requires i < |cats|
    ensures cats[i := y][i := x] == cats[i := x]
  {
  }

  lemma SubRollbackAfterApply(cats: seq<Category>, categoryId: Id, name: string, stamp: nat, i: nat)
    requires !IsBlank(name) && FirstCategoryWith(cats, categoryId, i)
    requires NoSubWith(cats[i].subcategories, Temp(stamp))
    ensures AddSubRollback(AddSubApply(cats, categoryId, name, stamp), categoryId, Temp(stamp)) == cats
  {
    var applied := AddSubApply(cats, categoryId, name, stamp);
    var temp := Subcategory(Temp(stamp), Trim(name), categoryId);
    var subs := cats[i].subcategories;
    ApplyKeepsTarget(cats, categoryId, name, stamp, i);
    UpdateAt(applied, categoryId, Dropping(temp.id), i);
    DropSubAfterPrepend(temp, subs);
    UpdateTwice(cats, i, cats[i].(subcategories := [temp] + subs), cats[i]);
    UpdateSame(cats, i);
  }

  lemma UpdateSame(cats: seq<Category>, i: nat)
    requires i < |cats|
    ensures cats[i := cats[i]] == cats
  {
  }

  /** Dropping a temporary row right after prepending it undoes the prepend. */
  lemma DropSubAfterPrepend(temp: Subcategory, subs: seq<Subcategory>)
    requires NoSubWith(subs, temp.id)
    ensures DropSub([temp] + subs, temp.id) == subs
  {
    var keep := OtherSub(temp.id);
    assert DropSub([temp] + subs, temp.id) == Filter([temp] + subs, keep);
    FilterSkipsHead(temp, subs, keep);
    assert DropSub(subs, temp.id) == Filter(subs, keep);
  }

  // ------------------------------------------------------- deleteSubcategory

  predicate HasSub(c: Category, id: Id) {
    exists k :: 0 <= k < |c.subcategories| && c.subcategories[k].id == id
  }

  /** What `removeSubOptimistic` reports: nothing, or the category it
      touched, the index it removed at, the removed row, and the new list. */
  datatype SubRemoval =
    | NoSub
    | SubRemoved(catIndex: nat, index: nat, item: Subcategory, categories: seq<Category>)

  /** `removeSubOptimistic`: scan categories in list order, and in the first
      one holding a subcategory with the id, splice out its first such
      subcategory.  When no category holds it, nothing changes. */
  function RemoveSubOptimistic(cats: seq<Category>, id: Id): (r: SubRemoval)
    ensures r.NoSub? <==> forall i :: 0 <= i < |cats| ==> !HasSub(cats[i], id)
    ensures r.SubRemoved? ==>
      && r.catIndex < |cats|
      && HasSub(cats[r.catIndex], id)
      && (forall j :: 0 <= j < r.catIndex ==> !HasSub(cats[j], id))
      && FirstSubWith(cats[r.catIndex].subcategories, id, r.index)
      && r.item == cats[r.catIndex].subcategories[r.index]
      && r.categories == cats[r.catIndex := cats[r.catIndex].(subcategories := RemoveAt(cats[r.catIndex].subcategories, r.index))]
  {
    match FirstIndex(cats, (c: Category) => HasSub(c, id))
    case None => NoSub
    case Some(ci) =>
      var subs := cats[ci].subcategories;
      match SubIndex(subs, id)
      case None => NoSub
      case Some(si) => SubRemoved(ci, si, subs[si], cats[ci := cats[ci].(subcategories := RemoveAt(subs, si))])
  }

  /** Rollback of a subcategory delete: splice the row back into the
      category it came from, at the index it had. */
  function RestoreSub(cats: seq<Category>, catIndex: nat, index: nat, item: Subcategory): (r: seq<Category>)
    requires catIndex < |cats|
    ensures |r| == |cats|
    ensures r[catIndex].subcategories == InsertAt(cats[catIndex].subcategories, index, item)
    ensures forall j :: 0 <= j < |cats| && j != catIndex ==> r[j] == cats[j]
  {
    cats[catIndex := cats[catIndex].(subcategories := InsertAt(cats[catIndex].subcategories, index, item))]
  }

  /** `deleteSubcategory` from confirmation to settlement: a failure puts the
      list back exactly as it was. */
  function DeleteSubcategory(cats: seq<Category>, id: Id, reply: Reply<()>): (r: seq<Category>)
    ensures reply.Failed? ==> r == cats
    ensures (forall i :: 0 <= i < |cats| ==> !HasSub(cats[i], id)) ==> r == cats
    ensures |r| == |cats|
    ensures reply.Ok? ==> forall i :: 0 <= i < |r| ==> |r[i].subcategories| <= |cats[i].subcategories|
    ensures reply.Ok? && RemoveSubOptimistic(cats, id).SubRemoved? ==> r == RemoveSubOptimistic(cats, id).categories
  {
    match RemoveSubOptimistic(cats, id)
    case NoSub => cats
    case SubRemoved(ci, si, item, removed) =>
      if reply.Ok? then removed
      else
        SpliceBackRestores(cats[ci].subcategories, si);
        RestoreSub(removed, ci, si, item)
  }

  // ---------------------------------------------------------------- loadAll

  /** The fetched subcategories whose `category_id` is `===` to `id`, in
      fetched order. */
  function ChildrenOf(subs: seq<Subcategory>, id: Id): (r: seq<Subcategory>)
    ensures forall k :: 0 <= k < |r| ==> r[k].categoryId == id
    ensures Subsequence(r, subs)
    ensures forall s: Subcategory :: multiset(r)[s] == if s.categoryId == id then multiset(subs)[s] else 0
  {
    var mine := (s: Subcategory) => s.categoryId == id;
    FilterIsSubsequence(subs, mine);
    FilterCounts(subs, mine);
    Filter(subs, mine)
  }

  /** The `forEach` of `loadAll`: every fetched category gets, as its
      subcategories, exactly the fetched subcategories that point at it, in
      fetched order; the categories themselves keep their order. */
  function AttachSubs(cats: seq<Category>, subs: seq<Subcategory>): (r: seq<Category>)
    ensures |r| == |cats|
    ensures forall i :: 0 <= i < |r| ==> r[i].id == cats[i].id && r[i].name == cats[i].name
    ensures forall i, k :: 0 <= i < |r| && 0 <= k < |r[i].subcategories| ==>
      r[i].subcategories[k].categoryId == r[i].id
    ensures forall i :: 0 <= i < |r| ==> Subsequence(r[i].subcategories, subs)
    ensures forall i, s: Subcategory :: 0 <= i < |r| ==>
      multiset(r[i].subcategories)[s] == if s.categoryId == cats[i].id then multiset(subs)[s] else 0
  {
    seq(|cats|, i requires 0 <= i < |cats| => cats[i].(subcategories := ChildrenOf(subs, cats[i].id)))
  }

  /** `loadAll`: the categories are assigned as soon as they arrive, so a
      failed subcategory fetch leaves them without their children; a failed
      category fetch changes nothing. */
  function LoadAll(current: seq<Category>, cats: Option<seq<Category>>, subs: Option<seq<Subcategory>>): (r: seq<Category>)
    ensures cats.None? ==> r == current
    ensures cats.Some? && subs.None? ==> r == cats.value
    ensures cats.Some? && subs.Some? ==>
      && |r| == |cats.value|
      && (forall i :: 0 <= i < |r| ==> r[i].id == cats.value[i].id && r[i].name == cats.value[i].name)
      && (forall i :: 0 <= i < |r| ==> Subsequence(r[i].subcategories, subs.value))
      && (forall i, s: Subcategory :: 0 <= i < |r| ==>
            multiset(r[i].subcategories)[s] == if s.categoryId == cats.value[i].id then multiset(subs.value)[s] else 0)
  {
    match (cats, subs)
    case (None, _) => current
    case (Some(cs), None) => cs
    case (Some(cs), Some(ss)) => AttachSubs(cs, ss)
  }

  // ------------------------------------------------------- expand / collapse

  predicate IsExpanded(expanded: set<Id>, id: Id) {
    id in expanded
  }

  /** `toggleExpand` flips one row and leaves the others alone. */
  function ToggleExpand(expanded: set<Id>, id: Id): (r: set<Id>)
    ensures IsExpanded(r, id) <==> !IsExpanded(expanded, id)
    ensures forall x :: x != id ==> (IsExpanded(r, x) <==> IsExpanded(expanded, x))
  {
    if id in expanded then expanded - {id} else expanded + {id}
  }

  lemma ToggleTwiceRestores(expanded: set<Id>, id: Id)
    ensures ToggleExpand(ToggleExpand(expanded, id), id) == expanded
  {
  }
}
