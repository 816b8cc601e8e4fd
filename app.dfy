/** The `App` component's state hooks and the handlers that update them.
    The list updaters are the pure functions of `Library`; here they are
    applied to the state, together with the other hooks each handler sets. */
module App {
  import opened Types
  import opened Library

  /** What the add dialog is opened with: `{ text, context: { url, pageTitle } }`. */
  datatype ModalSeed = ModalSeed(text: string, context: PageContext)

  const EmptySeed: ModalSeed := ModalSeed("", PageContext("", ""))

  /** The `localStorage` key a capturing page leaves a snippet under. */
  const PendingKey: string := "snippet-to-add"

  /** What `JSON.parse` makes of the stored value: a syntax error, or an
      object whose `text`, `url` and `title` fields are present or not. */
  datatype PendingParse = Malformed | Parsed(text: Option<string>, url: Option<string>, title: Option<string>)

  /** `field || ''` for a string field: a missing field becomes empty. */
  function OrEmpty(field: Option<string>): string
  {
    match field
    case Some(s) => s
    case None => ""
  }

  class AppState {
    var items: seq<SavedItem>
    var searchQuery: string
    var activeTag: Option<string>
    var showFavorites: bool
    var selectedItem: Option<SavedItem>
    var editingItem: Option<SavedItem>
    var isAddModalOpen: bool
    var modalInitialData: ModalSeed
    /** The browser's `localStorage`, as far as this component touches it. */
    var storage: map<string, string>

    /** The initial hook values; `loaded` is what `loadItems` returned. */
    constructor (loaded: seq<SavedItem>, initialStorage: map<string, string>)
      ensures items == loaded && searchQuery == "" && activeTag == None && !showFavorites
      ensures selectedItem == None && editingItem == None
      ensures !isAddModalOpen && modalInitialData == EmptySeed
      ensures storage == initialStorage
    {
      items := loaded;
      searchQuery := "";
      activeTag := None;
      showFavorites := false;
      selectedItem := None;
      editingItem := None;
      isAddModalOpen := false;
      modalInitialData := EmptySeed;
      storage := initialStorage;
    }

    function Filters(): FilterState
      reads this
    {
      FilterState(showFavorites, activeTag, searchQuery)
    }

    /** `filteredItems`: the list the page shows. */
    function Visible(): (r: seq<SavedItem>)
      reads this
      ensures forall x :: x in r ==> x in items && Admits(Filters(), x)
    {
      FilteredItems(items, Filters())
    }

    /** The mount effect that picks up a snippet left by a capturing page.
        A present, non-empty value is consumed whatever it holds; if it
        parses, the add dialog opens seeded with its text, url and title. */
    method ConsumePendingSnippet(parse: string -> PendingParse)
      modifies this`storage, this`modalInitialData, this`isAddModalOpen
      ensures PendingKey !in old(storage) || old(storage)[PendingKey] == "" ==>
                storage == old(storage) && modalInitialData == old(modalInitialData)
                && isAddModalOpen == old(isAddModalOpen)
      ensures PendingKey in old(storage) && old(storage)[PendingKey] != "" ==>
                storage == old(storage) - {PendingKey}
                && match parse(old(storage)[PendingKey])
                   case Malformed =>
                     modalInitialData == old(modalInitialData) && isAddModalOpen == old(isAddModalOpen)
                   case Parsed(text, url, title) =>
                     modalInitialData == ModalSeed(OrEmpty(text), PageContext(OrEmpty(url), OrEmpty(title)))
                     && isAddModalOpen
    {
      if PendingKey in storage && storage[PendingKey] != "" {
        match parse(storage[PendingKey])
        case Malformed =>
          storage := storage - {PendingKey};
        case Parsed(text, url, title) =>
          modalInitialData := ModalSeed(OrEmpty(text), PageContext(OrEmpty(url), OrEmpty(title)));
          isAddModalOpen := true;
          storage := storage - {PendingKey};
      }
    }

    /** The search bar's `onChange`. */
    method SetSearchQuery(query: string)
      modifies this`searchQuery
      ensures searchQuery == query
    {
      searchQuery := query;
    }

    /** `handleTagClick`: filter by the tag and clear the search, so the page
        shows exactly the stored (and, if on, favourite) items with that tag. */
    method HandleTagClick(tag: string)
      modifies this`activeTag, this`searchQuery
      ensures activeTag == Some(tag) && searchQuery == ""
      ensures forall x :: x in Visible() <==>
                x in items && (showFavorites ==> x.isFavorite) && (tag != "" ==> tag in x.tags)
    {
      activeTag := Some(tag);
      searchQuery := "";
      forall x
        ensures x in Visible() <==> x in items && (showFavorites ==> x.isFavorite) && (tag != "" ==> tag in x.tags)
      {
        FilteredItemsMembership(items, Filters(), x);
      }
    }

    /** `clearFilter`: drop the tag filter; nothing that was shown disappears. */
    method ClearFilter()
      modifies this`activeTag
      ensures activeTag == None
      ensures forall x :: x in old(Visible()) ==> x in Visible()
    {
      ghost var before := Filters();
      activeTag := None;
      forall x | x in FilteredItems(items, before)
        ensures x in Visible()
      {
        FilteredItemsMembership(items, before, x);
        FilteredItemsMembership(items, Filters(), x);
      }
    }

    /** `toggleFavorites`: with the favourites filter on, only favourites show. */
    method ToggleFavorites()
      modifies this`showFavorites
      ensures showFavorites == !old(showFavorites)
      ensures showFavorites ==> forall x :: x in Visible() ==> x.isFavorite
    {
      showFavorites := !showFavorites;
      forall x | x in Visible()
        ensures showFavorites ==> x.isFavorite
      {
        FilteredItemsMembership(items, Filters(), x);
      }
    }

    /** `toggleFavoriteStatus`. */
    method ToggleFavoriteStatus(id: string)
      modifies this`items
      ensures items == Library.ToggleFavoriteStatus(old(items), id)
    {
      items := Library.ToggleFavoriteStatus(items, id);
    }

    /** `handleDeleteItem`: afterwards no entry with that id is stored or shown. */
    method HandleDeleteItem(id: string)
      modifies this`items
      ensures items == DeleteItem(old(items), id)
      ensures forall x :: x in Visible() ==> x.id != id
    {
      items := DeleteItem(items, id);
      forall x | x in Visible()
        ensures x.id != id
      {
        FilteredItemsMembership(items, Filters(), x);
      }
    }

    /** `handleUpdateItem`: replace the entry and close the edit dialog. */
    method HandleUpdateItem(updated: SavedItem)
      modifies this`items, this`editingItem
      ensures items == UpdateItem(old(items), updated)
      ensures editingItem == None
    {
      items := UpdateItem(items, updated);
      editingItem := None;
    }

    /** `handleStartEdit`: the detail view closes and the edit dialog opens. */
    method HandleStartEdit(item: SavedItem)
      modifies this`selectedItem, this`editingItem
      ensures selectedItem == None && editingItem == Some(item)
    {
      selectedItem := None;
      editingItem := Some(item);
    }

    /** `handleSelectItem`. */
    method HandleSelectItem(item: SavedItem)
      modifies this`selectedItem
      ensures selectedItem == Some(item)
    {
      selectedItem := Some(item);
    }

    /** `handleCloseModal`. */
    method HandleCloseModal()
      modifies this`selectedItem
      ensures selectedItem == None
    {
      selectedItem := None;
    }

    /** The edit dialog's `onClose`. */
    method CloseEditDialog()
      modifies this`editingItem
      ensures editingItem == None
    {
      editingItem := None;
    }

    /** `handleAddItem` with the id `new Date().toISOString()` yields. */
    method HandleAddItem(draft: ItemDraft, id: string)
      modifies this`items
      ensures items == AddItem(old(items), draft, id)
    {
      items := AddItem(items, draft, id);
    }

    /** The floating button's `onOpen`: an empty dialog. */
    method OpenAddDialog()
      modifies this`modalInitialData, this`isAddModalOpen
      ensures modalInitialData == EmptySeed && isAddModalOpen
    {
      modalInitialData := EmptySeed;
      isAddModalOpen := true;
    }

    /** The add dialog's `onClose`. */
    method CloseAddDialog()
      modifies this`isAddModalOpen
      ensures !isAddModalOpen
    {
      isAddModalOpen := false;
    }
  }
}
