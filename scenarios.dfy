/**
 * A walkthrough of the page as a client of `CatalogBrowser`: two entries,
 * one of them made a favourite, then the favourites tab, then a tag.
 */
module Scenarios {
  import opened Wrappers
  import opened Text
  import opened Seqs
  import opened Catalog
  import opened Favorites
  import opened View
  import opened Browser

  const FooItem := RawItem("a", "Foo", "", "", Some(["x"]), None, NoImage)
  const BarItem := RawItem("b", "Bar", "", "", Some(["y"]), None, NoImage)

  /** Loading the two records yields their two normalised entries, in order. */
  lemma LoadsTwo()
    ensures LoadCatalog([FooItem, BarItem]) == [Normalize(FooItem), Normalize(BarItem)]
  {
    assert [FooItem, BarItem][1..] == [BarItem];
    assert [BarItem][1..] == [];
  }

  /** The visible list of a two-entry catalog, entry by entry. */
  lemma VisibleOfTwo(a: Entry, b: Entry, favorites: set<string>, tab: Tab, tag: Option<string>)
    ensures GetVisibleCards([a, b], favorites, tab, tag) ==
      (if IsVisible(a, favorites, tab, tag) then [a] else []) + (if IsVisible(b, favorites, tab, tag) then [b] else [])
  {
    VisibleIsOneFilter([a, b], favorites, tab, tag);
    FilterOfTwo(a, b, (c: Entry) => IsVisible(c, favorites, tab, tag));
  }

  /** With "a" a favourite and "b" not, the favourites tab lists only "a". */
  lemma FavouritesShowFoo(cards: seq<Entry>, favorites: set<string>, tab: Tab, tag: Option<string>)
    requires cards == [Normalize(FooItem), Normalize(BarItem)]
    requires "a" in favorites && "b" !in favorites
    requires tab == Favs && tag == None
    ensures GetVisibleCards(cards, favorites, tab, tag) == [Normalize(FooItem)]
  {
    VisibleOfTwo(Normalize(FooItem), Normalize(BarItem), favorites, tab, tag);
  }

  /** Tag "y" on the all tab lists only "b", whatever the favourites. */
  lemma TagShowsBar(cards: seq<Entry>, favorites: set<string>, tab: Tab, tag: Option<string>)
    requires cards == [Normalize(FooItem), Normalize(BarItem)]
    requires tab == All && tag == Some("y")
    ensures GetVisibleCards(cards, favorites, tab, tag) == [Normalize(BarItem)]
  {
    var a := Normalize(FooItem);
    var b := Normalize(BarItem);
    assert !HasTag(a, "y") by {
      assert Lower(a.tags[0])[0] == 'x' && Lower("y")[0] == 'y';
    }
    assert Lower(b.tags[0]) == Lower("y");
    VisibleOfTwo(a, b, favorites, tab, tag);
  }

  method TwoEntryWalkthrough()
  {
    var page := new CatalogBrowser(NothingSaved);
    page.LoadCards(Some([FooItem, BarItem]));
    LoadsTwo();

    // all tab, no tag: the whole catalog
    AllTabShowsCatalog(page.cardsData, page.favorites, page.activeTag);
    assert page.Visible() == [Normalize(FooItem), Normalize(BarItem)];

    // favourite "a", then switch to the favourites tab
    page.ToggleFavorite("a");
    assert "b" != "a" by { assert "b"[0] != "a"[0]; }
    page.SelectFavsTab();
    FavouritesShowFoo(page.cardsData, page.favorites, page.activeTab, page.activeTag);
    assert page.Visible() == [Normalize(FooItem)];

    // choosing tag "y" goes back to the all tab and keeps only "b"
    page.ApplyTagFilter("y");
    TagShowsBar(page.cardsData, page.favorites, page.activeTab, page.activeTag);
    assert page.Visible() == [Normalize(BarItem)];
  }
}
