/**
 * The page's module-level state and the handlers that change it: the
 * catalog, the favourites, the tab, the tag, the search box and its
 * suggestion dropdown, and the detail view with its carousel cursor.
 */
module Browser {
  import opened Wrappers
  import opened Text
  import opened Catalog
  import opened Favorites
  import opened View
  import opened Search
  import Carousel

  /** The suggestion dropdown: hidden, or shown with a result (possibly the "no results" one). */
  datatype Dropdown = Hidden | Shown(result: SearchResult)

  class CatalogBrowser {
    var cardsData: seq<Entry>
    var favorites: set<string>
    var activeTab: Tab
    var activeTag: Option<string>
    /** The value of the search box. */
    var searchText: string
    var dropdown: Dropdown
    /** Whether the detail view is on screen; `currentCard` outlives it. */
    var modalOpen: bool
    var currentCard: Option<Entry>
    /** The carousel position, `modalImage.dataset.index`. */
    var imageIndex: nat

    /** `modalImage.dataset.total`: the image count of the open entry, 1 when it has none. */
    function ImageTotal(): (n: nat)
      reads this
      ensures n >= 1
      ensures currentCard.Some? && |currentCard.value.imagens| > 0 ==> n == |currentCard.value.imagens|
    {
      if currentCard.Some? && |currentCard.value.imagens| > 0 then |currentCard.value.imagens| else 1
    }

    /** The carousel index stays within the images of the current entry. */
    ghost predicate Valid()
      reads this
    {
      imageIndex < ImageTotal()
    }

    /** What `getVisibleCards()` returns in the current state. */
    function Visible(): seq<Entry>
      reads this
    {
      GetVisibleCards(cardsData, favorites, activeTab, activeTag)
    }

    /**
     * Start-up: the module variables' initial values, with the favourites
     * read back from storage (the empty set on any failure).
     */
    constructor (saved: SavedFavorites)
      ensures Valid()
      ensures cardsData == [] && favorites == LoadFavorites(saved)
      ensures activeTab == All && activeTag == None
      ensures searchText == "" && dropdown == Hidden
      ensures !modalOpen && currentCard == None && imageIndex == 0
    {
      cardsData := [];
      favorites := LoadFavorites(saved);
      activeTab := All;
      activeTag := None;
      searchText := "";
      dropdown := Hidden;
      modalOpen := false;
      currentCard := None;
      imageIndex := 0;
    }

    /**
     * `loadCardsData` once the fetch has settled: a parsed array replaces the
     * catalog by its normalisation; a failed fetch, a non-ok status or a body
     * that is not an array (None) leaves the catalog as it was.
     */
    method LoadCards(fetched: Option<seq<RawItem>>)
      requires Valid()
      modifies this`cardsData
      ensures Valid()
      ensures fetched.Some? ==> cardsData == LoadCatalog(fetched.value)
      ensures fetched.None? ==> cardsData == old(cardsData)
    {
      if fetched.Some? {
        cardsData := LoadCatalog(fetched.value);
      }
    }

    /** `renderCards`: the list to draw, and whether the empty-state indicator shows. */
    method RenderCards() returns (visible: seq<Entry>, showEmptyState: bool)
      ensures visible == GetVisibleCards(cardsData, favorites, activeTab, activeTag)
      ensures showEmptyState <==> !exists c :: c in cardsData && IsVisible(c, favorites, activeTab, activeTag)
    {
      visible := GetVisibleCards(cardsData, favorites, activeTab, activeTag);
      showEmptyState := |visible| == 0;
      if !showEmptyState {
        assert visible[0] in visible;
      }
    }

    /** `toggleFavorite(id)`: flips the membership of id and of no other id. */
    method ToggleFavorite(id: string)
      requires Valid()
      modifies this`favorites
      ensures Valid()
      ensures favorites == Toggled(old(favorites), id)
    {
      favorites := if id in favorites then favorites - {id} else favorites + {id};
    }

    /** `updateFavCount`: the counter shows the size of the set. */
    method FavCount() returns (n: nat)
      ensures n == |favorites|
    {
      n := |favorites|;
    }

    /** The `'all'` tab handler: sets the tab and nothing else. */
    method SelectAllTab()
      requires Valid()
      modifies this`activeTab
      ensures Valid()
      ensures activeTab == All
    {
      activeTab := All;
    }

    /** The `'favs'` tab handler: sets the tab and nothing else. */
    method SelectFavsTab()
      requires Valid()
      modifies this`activeTab
      ensures Valid()
      ensures activeTab == Favs
    {
      activeTab := Favs;
    }

    /** The clear-filter handler: drops the tag, keeps tab and search text. */
    method ClearTagFilter()
      requires Valid()
      modifies this`activeTag
      ensures Valid()
      ensures activeTag == None
    {
      activeTag := None;
    }

    /**
     * `applyTagFilter(tagName)`: whatever the prior state, the tag is set, the
     * tab forced to `'all'`, the search box emptied, the dropdown hidden and
     * the detail view closed.
     */
    method ApplyTagFilter(tagName: string)
      requires Valid()
      modifies this`activeTag, this`activeTab, this`searchText, this`dropdown, this`modalOpen
      ensures Valid()
      ensures activeTag == Some(tagName) && activeTab == All && searchText == ""
      ensures dropdown == Hidden && !modalOpen
    {
      activeTag := Some(tagName);
      dropdown := Hidden;
      searchText := "";
      activeTab := All;
      modalOpen := false;
    }

    /**
     * `onSearchInput`: the trimmed text is matched against the catalog; text
     * that is white space only hides the dropdown instead of searching.
     * The visible list is not affected.
     */
    method OnSearchInput(value: string)
      requires Valid()
      modifies this`searchText, this`dropdown
      ensures Valid()
      ensures searchText == value
      ensures dropdown.Hidden? <==> forall k :: 0 <= k < |value| ==> IsSpace(value[k])
      ensures dropdown.Shown? ==> dropdown.result == SearchSpec(cardsData, Trim(value))
    {
      searchText := value;
      var q := Trim(value);
      if q == "" {
        dropdown := Hidden;
      } else {
        var results := SearchQuery(cardsData, q);
        dropdown := Shown(results);
      }
    }

    /** `hideSearchDropdown`, on Escape or a click outside the search box. */
    method HideSearchDropdown()
      requires Valid()
      modifies this`dropdown
      ensures Valid()
      ensures dropdown == Hidden
    {
      dropdown := Hidden;
    }

    /** `openCardModal(card)`: the entry becomes current and the carousel starts at its first image. */
    method OpenCard(card: Entry)
      requires Valid()
      modifies this`currentCard, this`imageIndex, this`modalOpen
      ensures Valid()
      ensures currentCard == Some(card) && imageIndex == 0 && modalOpen
    {
      currentCard := Some(card);
      imageIndex := 0;
      modalOpen := true;
    }

    /** `closeCardModal`: the view closes; the current entry stays. */
    method CloseCard()
      requires Valid()
      modifies this`modalOpen
      ensures Valid()
      ensures !modalOpen
    {
      modalOpen := false;
    }

    /** `nextImage`: one step forward, nothing when the entry has fewer than two images. */
    method NextImage()
      requires Valid()
      modifies this`imageIndex
      ensures Valid()
      ensures imageIndex == if currentCard.None? || |currentCard.value.imagens| < 2 then old(imageIndex)
                            else Carousel.Next(old(imageIndex), |currentCard.value.imagens|)
    {
      if currentCard.None? || |currentCard.value.imagens| < 2 {
        return;
      }
      var total := |currentCard.value.imagens|;
      imageIndex := (imageIndex + 1) % total;
    }

    /** `prevImage`: one step back, nothing when the entry has fewer than two images. */
    method PrevImage()
      requires Valid()
      modifies this`imageIndex
      ensures Valid()
      ensures imageIndex == if currentCard.None? || |currentCard.value.imagens| < 2 then old(imageIndex)
                            else Carousel.Prev(old(imageIndex), |currentCard.value.imagens|)
    {
      if currentCard.None? || |currentCard.value.imagens| < 2 {
        return;
      }
      var total := |currentCard.value.imagens|;
      imageIndex := (imageIndex - 1 + total) % total;
    }
  }
}
