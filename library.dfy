/** The snippet library of App.tsx as pure functions: the filter pipeline
    that turns the stored list into the visible one (the `filteredItems`
    memo) and the list updaters handed to `setItems`. */
module Library {
  import opened Types
  import opened Seqs
  import opened Text
  import opened Sorting

  // ---------------------------------------------------------------------
  // The visible list
  // ---------------------------------------------------------------------

  /** The three state hooks the visible list depends on, besides the items. */
  datatype FilterState = FilterState(showFavorites: bool, activeTag: Option<string>, searchQuery: string)

  /** `if (activeTag)`: both `null` and the empty string leave the tag filter off. */
  predicate TagFilterOn(tag: Option<string>)
  {
    tag.Some? && tag.value != ""
  }

  predicate IsFavorite(item: SavedItem)
  {
    item.isFavorite
  }

  /** `item.tags.includes(tag)`: exact, case-sensitive membership. */
  predicate HasTag(tag: string, item: SavedItem)
  {
    tag in item.tags
  }

  /** The search predicate for an already lowercased, non-empty query: it
      occurs in the lowercased summary, in the lowercased text, or in some
      lowercased tag. */
  predicate MatchesQuery(query: string, item: SavedItem)
  {
    || Includes(ToLower(item.summary), query)
    || Includes(ToLower(item.text), query)
    || exists tag :: tag in item.tags && Includes(ToLower(tag), query)
  }

  /** The `filteredItems` memo, stage by stage as the source applies them:
      favourites, then the active tag, then the search query. The query is
      lowercased but not trimmed, so a query of spaces is a real filter. */
  function FilteredItems(items: seq<SavedItem>, st: FilterState): (r: seq<SavedItem>)
    ensures |r| <= |items|
    ensures forall x :: x in r ==> x in items && Admits(st, x)
  {
    var byFavorite := if st.showFavorites then Filter(IsFavorite, items) else items;
    var byTag := if TagFilterOn(st.activeTag)
                 then Filter((item: SavedItem) => HasTag(st.activeTag.value, item), byFavorite)
                 else byFavorite;
    var query := ToLower(st.searchQuery);
    if query != "" then Filter((item: SavedItem) => MatchesQuery(query, item), byTag) else byTag
  }

  /** The stages of the pipeline, each a predicate that holds of every item
      when its stage is switched off. */
  datatype Stage = FavoritesStage | TagStage | QueryStage

  predicate Passes(stage: Stage, st: FilterState, item: SavedItem)
  {
    match stage
    case FavoritesStage => !st.showFavorites || IsFavorite(item)
    case TagStage => !TagFilterOn(st.activeTag) || HasTag(st.activeTag.value, item)
    case QueryStage => ToLower(st.searchQuery) == "" || MatchesQuery(ToLower(st.searchQuery), item)
  }

  function StageFilter(stage: Stage, st: FilterState): SavedItem -> bool
  {
    (item: SavedItem) => Passes(stage, st, item)
  }

  function ApplyStage(stage: Stage, st: FilterState, items: seq<SavedItem>): seq<SavedItem>
  {
    Filter(StageFilter(stage, st), items)
  }

  /** An item is visible when it passes every active filter. */
  predicate Admits(st: FilterState, item: SavedItem)
  {
    && (st.showFavorites ==> item.isFavorite)
    && (TagFilterOn(st.activeTag) ==> st.activeTag.value in item.tags)
    && (ToLower(st.searchQuery) != "" ==> MatchesQuery(ToLower(st.searchQuery), item))
  }

  function AdmitsFilter(st: FilterState): SavedItem -> bool
  {
    (item: SavedItem) => Admits(st, item)
  }

  /** The source's pipeline is its three stages applied in its order. */
  lemma {:induction false} FilteredItemsStaged(items: seq<SavedItem>, st: FilterState)
    ensures FilteredItems(items, st)
            == ApplyStage(QueryStage, st, ApplyStage(TagStage, st, ApplyStage(FavoritesStage, st, items)))
  {
    var byFavorite := ApplyStage(FavoritesStage, st, items);
    if st.showFavorites {
      FilterCongruent(IsFavorite, StageFilter(FavoritesStage, st), items);
    } else {
      FilterAllPass(StageFilter(FavoritesStage, st), items);
    }
    var byTag := ApplyStage(TagStage, st, byFavorite);
    if TagFilterOn(st.activeTag) {
      FilterCongruent((item: SavedItem) => HasTag(st.activeTag.value, item), StageFilter(TagStage, st), byFavorite);
    } else {
      FilterAllPass(StageFilter(TagStage, st), byFavorite);
    }
    var query := ToLower(st.searchQuery);
    if query != "" {
      FilterCongruent((item: SavedItem) => MatchesQuery(query, item), StageFilter(QueryStage, st), byTag);
    } else {
      FilterAllPass(StageFilter(QueryStage, st), byTag);
    }
  }

  /** Applying the three stages in any order gives the visible list, which
      is one filter by `Admits`. */
  lemma {:induction false} AnyStageOrder(a: Stage, b: Stage, c: Stage, st: FilterState, items: seq<SavedItem>)
    requires a != b && b != c && a != c
    ensures ApplyStage(c, st, ApplyStage(b, st, ApplyStage(a, st, items))) == Filter(AdmitsFilter(st), items)
  {
    forall x | x in items
      ensures (StageFilter(a, st)(x) && StageFilter(b, st)(x) && StageFilter(c, st)(x)) == AdmitsFilter(st)(x)
    {
      StagesCover(a, b, c, st, x);
    }
    FilterThree(StageFilter(a, st), StageFilter(b, st), StageFilter(c, st), AdmitsFilter(st), items);
  }

  /** Three distinct stages are all the stages: passing them is being admitted. */
  lemma StagesCover(a: Stage, b: Stage, c: Stage, st: FilterState, x: SavedItem)
    requires a != b && b != c && a != c
    ensures (Passes(a, st, x) && Passes(b, st, x) && Passes(c, st, x)) == Admits(st, x)
  {
    var fav, tag, query := Passes(FavoritesStage, st, x), Passes(TagStage, st, x), Passes(QueryStage, st, x);
    assert Admits(st, x) == (fav && tag && query);
  }

  /** The visible list is the stored list filtered once by `Admits`. */
  lemma FilteredItemsIsOneFilter(items: seq<SavedItem>, st: FilterState)
    ensures FilteredItems(items, st) == Filter(AdmitsFilter(st), items)
  {
    FilteredItemsStaged(items, st);
    AnyStageOrder(FavoritesStage, TagStage, QueryStage, st, items);
  }

  /** Any two stages commute. */
  lemma StagesCommute(a: Stage, b: Stage, st: FilterState, items: seq<SavedItem>)
    ensures ApplyStage(a, st, ApplyStage(b, st, items)) == ApplyStage(b, st, ApplyStage(a, st, items))
  {
    FilterCommute(StageFilter(a, st), StageFilter(b, st), items);
  }

  /** The visible list is an order-preserving subsequence of the stored
      list made of exactly the positions whose item passes every active
      filter. */
  lemma FilteredItemsSubsequence(items: seq<SavedItem>, st: FilterState) returns (idx: seq<int>)
    ensures Embedding(FilteredItems(items, st), items, idx)
    ensures forall j :: 0 <= j < |items| ==> (Admits(st, items[j]) <==> j in idx)
  {
    FilteredItemsIsOneFilter(items, st);
    idx := FilterEmbeds(AdmitsFilter(st), items);
  }

  /** Soundness and completeness: an item is visible exactly when it is
      stored and passes every active filter. */
  lemma FilteredItemsMembership(items: seq<SavedItem>, st: FilterState, x: SavedItem)
    ensures x in FilteredItems(items, st) <==> x in items && Admits(st, x)
  {
    FilteredItemsIsOneFilter(items, st);
    var r := Filter(AdmitsFilter(st), items);
    if x in r {
      var i :| 0 <= i < |r| && r[i] == x;
    }
    if x in items && Admits(st, x) {
      var i :| 0 <= i < |items| && items[i] == x;
    }
  }

  /** Filtering never duplicates: a visible item appears as often as it is
      stored. */
  lemma FilteredItemsCount(items: seq<SavedItem>, st: FilterState, x: SavedItem)
    ensures multiset(FilteredItems(items, st))[x] == if Admits(st, x) then multiset(items)[x] else 0
  {
    FilteredItemsIsOneFilter(items, st);
    FilterCount(AdmitsFilter(st), items, x);
  }

  /** With no favourites filter, no tag and an empty query everything is shown,
      in stored order. */
  lemma NoFilterShowsAll(items: seq<SavedItem>, st: FilterState)
    requires !st.showFavorites && !TagFilterOn(st.activeTag) && st.searchQuery == ""
    ensures FilteredItems(items, st) == items
  {
  }

  /** A query made of one space is not treated as empty: it hides an item
      that contains no space anywhere. */
  lemma SpaceQueryFilters(item: SavedItem)
    requires item.summary == "bug" && item.text == "bug" && item.tags == ["js"]
    ensures FilteredItems([item], FilterState(false, None, " ")) == []
  {
    var st := FilterState(false, None, " ");
    assert ToLower(" ") == " ";
    assert ToLower("bug") == "bug";
    assert ToLower("js") == "js";
    assert !Includes("bug", " ") by {
      forall i | 0 <= i <= 3
        ensures !(" " <= "bug"[i..])
      {
        assert i < 3 ==> "bug"[i..][0] == "bug"[i];
      }
    }
    assert !Includes("js", " ") by {
      forall i | 0 <= i <= 2
        ensures !(" " <= "js"[i..])
      {
        assert i < 2 ==> "js"[i..][0] == "js"[i];
      }
    }
    assert !Admits(st, item);
    FilteredItemsMembership([item], st, item);
  }

  /** The search ignores case on both sides: the query "BUG" finds an item
      whose summary reads "Fixing a bug". */
  lemma UpperCaseQueryMatches(item: SavedItem)
    requires item.summary == "Fixing a bug"
    ensures FilteredItems([item], FilterState(false, None, "BUG")) == [item]
  {
    var st := FilterState(false, None, "BUG");
    assert ToLower("BUG") == "bug";
    var summary := ToLower(item.summary);
    assert summary[9..] == "bug";
    assert Includes(summary, "bug");
    assert Admits(st, item);
    FilteredItemsIsOneFilter([item], st);
    FilterAllPass(AdmitsFilter(st), [item]);
  }

  // ---------------------------------------------------------------------
  // The updaters handed to setItems
  // ---------------------------------------------------------------------

  /** `toggleFavoriteStatus(id)`: flips the favourite flag of every entry
      with that id and leaves everything else as it was. */
  function ToggleFavoriteStatus(items: seq<SavedItem>, id: string): (r: seq<SavedItem>)
    ensures |r| == |items|
    ensures forall i :: 0 <= i < |items| ==>
              r[i].(isFavorite := items[i].isFavorite) == items[i]
              && r[i].isFavorite == (items[i].isFavorite != (items[i].id == id))
  {
    Map((item: SavedItem) => if item.id == id then item.(isFavorite := !item.isFavorite) else item, items)
  }

  /** Toggling twice restores the list. */
  lemma ToggleTwice(items: seq<SavedItem>, id: string)
    ensures ToggleFavoriteStatus(ToggleFavoriteStatus(items, id), id) == items
  {
    var once := ToggleFavoriteStatus(items, id);
    var twice := ToggleFavoriteStatus(once, id);
    forall i | 0 <= i < |items|
      ensures twice[i] == items[i]
    {
      assert once[i].id == items[i].id;
    }
  }

  /** `handleDeleteItem(id)`: keeps exactly the entries with another id. */
  function DeleteItem(items: seq<SavedItem>, id: string): (r: seq<SavedItem>)
    ensures forall i :: 0 <= i < |r| ==> r[i].id != id && r[i] in items
    ensures forall i :: 0 <= i < |items| && items[i].id != id ==> items[i] in r
  {
    Filter(OtherId(id), items)
  }

  function OtherId(id: string): SavedItem -> bool
  {
    (item: SavedItem) => item.id != id
  }

  /** The entries that survive a delete keep their order, each exactly once. */
  lemma DeleteKeepsOrder(items: seq<SavedItem>, id: string) returns (idx: seq<int>)
    ensures Embedding(DeleteItem(items, id), items, idx)
    ensures forall j :: 0 <= j < |items| ==> (items[j].id != id <==> j in idx)
  {
    idx := FilterEmbeds(OtherId(id), items);
  }

  /** Deleting an id that no entry has changes nothing. */
  lemma DeleteAbsent(items: seq<SavedItem>, id: string)
    requires forall i :: 0 <= i < |items| ==> items[i].id != id
    ensures DeleteItem(items, id) == items
  {
    FilterAllPass(OtherId(id), items);
  }

  /** Deleting twice is deleting once. */
  lemma DeleteTwice(items: seq<SavedItem>, id: string)
    ensures DeleteItem(DeleteItem(items, id), id) == DeleteItem(items, id)
  {
    FilterIdempotent(OtherId(id), items);
  }

  /** `handleUpdateItem(u)`: every entry with `u`'s id becomes `u`, every
      other entry stays. */
  function UpdateItem(items: seq<SavedItem>, u: SavedItem): (r: seq<SavedItem>)
    ensures |r| == |items|
    ensures forall i :: 0 <= i < |items| ==> r[i].id == items[i].id
    ensures forall i :: 0 <= i < |items| && items[i].id == u.id ==> r[i] == u
    ensures forall i :: 0 <= i < |items| && items[i].id != u.id ==> r[i] == items[i]
  {
    Map((item: SavedItem) => if item.id == u.id then u else item, items)
  }

  /** Updating twice with the same record is updating once. */
  lemma UpdateTwice(items: seq<SavedItem>, u: SavedItem)
    ensures UpdateItem(UpdateItem(items, u), u) == UpdateItem(items, u)
  {
  }

  // ---------------------------------------------------------------------
  // handleAddItem: prepend, then sort newest first
  // ---------------------------------------------------------------------

  /** The fields of a record other than its id, favourite flag and folder. */
  function DraftOf(item: SavedItem): ItemDraft
  {
    ItemDraft(item.text, item.markdown, item.summary, item.tags, item.codeBlocks, item.images,
              item.model, item.url, item.pageTitle, item.timestamp, item.sourcePlatform)
  }

  /** `{ ...newItem, id, isFavorite: false }`: the draft completed with an
      id, not a favourite, in no folder (the draft has no `folderId`). */
  function NewRecord(draft: ItemDraft, id: string): (r: SavedItem)
    ensures DraftOf(r) == draft
    ensures r.id == id && !r.isFavorite && r.folderId == None
  {
    SavedItem(id, draft.text, draft.markdown, draft.summary, draft.tags, draft.codeBlocks,
              draft.images, draft.model, draft.url, draft.pageTitle, draft.timestamp,
              draft.sourcePlatform, false, None)
  }

  /** The sort key: `new Date(item.timestamp)` as a number. */
  function Timestamp(item: SavedItem): int
  {
    item.timestamp
  }

  /** `handleAddItem(draft)` with the id the clock supplies: the new record
      goes in front of the stored entries and the whole list is sorted with
      the comparator `b.timestamp - a.timestamp`, newest first. */
  function AddItem(items: seq<SavedItem>, draft: ItemDraft, id: string): (r: seq<SavedItem>)
    ensures |r| == |items| + 1
    ensures multiset(r) == multiset(items) + multiset{NewRecord(draft, id)}
    ensures Descending(Timestamp, r)
  {
    SortDescending(Timestamp, [NewRecord(draft, id)] + items)
  }

  /** The new record comes before every stored entry with the same
      timestamp, and entries sharing a timestamp keep their stored order. */
  lemma AddItemStable(items: seq<SavedItem>, draft: ItemDraft, id: string, t: int)
    ensures Filter(KeyIs(Timestamp, t), AddItem(items, draft, id))
            == (if draft.timestamp == t then [NewRecord(draft, id)] else []) + Filter(KeyIs(Timestamp, t), items)
  {
    var n := NewRecord(draft, id);
    SortStable(Timestamp, [n] + items, t);
    FilterAppend(KeyIs(Timestamp, t), [n], items);
  }

  /** Whatever stable sort the engine uses, the resulting list is `AddItem`'s:
      sorted newest first with equal timestamps in their prepended order
      pins the list down. */
  lemma AddItemIsTheStableSort(items: seq<SavedItem>, draft: ItemDraft, id: string, r: seq<SavedItem>)
    requires Descending(Timestamp, r)
    requires forall t :: Filter(KeyIs(Timestamp, t), r) == Filter(KeyIs(Timestamp, t), [NewRecord(draft, id)] + items)
    ensures r == AddItem(items, draft, id)
  {
    var n := NewRecord(draft, id);
    forall t
      ensures Filter(KeyIs(Timestamp, t), r) == Filter(KeyIs(Timestamp, t), AddItem(items, draft, id))
    {
      SortStable(Timestamp, [n] + items, t);
    }
    StableSortUnique(Timestamp, r, AddItem(items, draft, id));
  }

  /** Where the new record lands: after exactly the entries that are
      strictly newer than it. */
  lemma AddedItemPosition(items: seq<SavedItem>, draft: ItemDraft, id: string) returns (k: int)
    ensures 0 <= k < |AddItem(items, draft, id)|
    ensures AddItem(items, draft, id)[k] == NewRecord(draft, id)
    ensures forall j :: 0 <= j < k ==> AddItem(items, draft, id)[j].timestamp > draft.timestamp
    ensures forall j :: k < j < |AddItem(items, draft, id)| ==> AddItem(items, draft, id)[j].timestamp <= draft.timestamp
  {
    var n := NewRecord(draft, id);
    var s := [n] + items;
    assert s[0] == n && s[1..] == items;
    k := InsertPosition(Timestamp, n, SortDescending(Timestamp, items));
  }
}
