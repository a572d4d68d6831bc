/**
 * The view resolver, `getVisibleCards`: the catalog narrowed by the active
 * tab and the active tag, in catalog order. The free-text query takes no
 * part in it.
 */
module View {
  import opened Wrappers
  import opened Text
  import opened Seqs
  import opened Catalog

  /** `activeTab`: `'all'` or `'favs'`. */
  datatype Tab = All | Favs

  /** `if (activeTag)`: a tag filters only when it is set and non-empty. */
  predicate TagActive(tag: Option<string>)
  {
    tag.Some? && tag.value != ""
  }

  /** `c.tags.map(t => t.toLowerCase()).includes(tag.toLowerCase())`. */
  predicate HasTag(c: Entry, tag: string): (b: bool)
    ensures tag in c.tags ==> b
  {
    exists k :: 0 <= k < |c.tags| && Lower(c.tags[k]) == Lower(tag)
  }

  /** The tag filter ignores case: lower-casing the active tag first selects the same entries. */
  lemma HasTagIgnoresCase(c: Entry, tag: string)
    ensures HasTag(c, tag) <==> HasTag(c, Lower(tag))
  {
    LowerIdempotent(tag);
  }

  /** The conjunction of both filters: the condition for an entry to be on the list. */
  predicate IsVisible(c: Entry, favorites: set<string>, tab: Tab, tag: Option<string>)
  {
    && (tab == Favs ==> c.id in favorites)
    && (TagActive(tag) ==> HasTag(c, tag.value))
  }

  /**
   * `getVisibleCards`: a subsequence of the catalog holding each entry that
   * passes both filters, as often as the catalog holds it, and nothing else.
   */
  function GetVisibleCards(cards: seq<Entry>, favorites: set<string>, tab: Tab, tag: Option<string>): (r: seq<Entry>)
    ensures IsSubsequence(r, cards)
    ensures forall c :: c in r <==> c in cards && IsVisible(c, favorites, tab, tag)
    ensures forall c :: multiset(r)[c] == if IsVisible(c, favorites, tab, tag) then multiset(cards)[c] else 0
  {
    var afterTab := if tab == Favs then Filter(cards, (c: Entry) => c.id in favorites) else cards;
    SubsequenceReflexive(cards);
    if TagActive(tag) then
      var t := tag.value;
      var afterTag := Filter(afterTab, (c: Entry) => HasTag(c, t));
      SubsequenceTransitive(afterTag, afterTab, cards);
      afterTag
    else
      afterTab
  }

  /**
   * The tab filter followed by the tag filter is a single filter by
   * `IsVisible`: the list is the catalog's visible entries in catalog order.
   */
  lemma VisibleIsOneFilter(cards: seq<Entry>, favorites: set<string>, tab: Tab, tag: Option<string>)
    ensures GetVisibleCards(cards, favorites, tab, tag) == Filter(cards, (c: Entry) => IsVisible(c, favorites, tab, tag))
  {
    if tab == Favs && TagActive(tag) {
      var t := tag.value;
      FilterFilter(cards, (c: Entry) => c.id in favorites, (c: Entry) => HasTag(c, t), (c: Entry) => IsVisible(c, favorites, tab, tag));
    } else if tab == Favs {
      FilterAgree(cards, (c: Entry) => c.id in favorites, (c: Entry) => IsVisible(c, favorites, tab, tag));
    } else if TagActive(tag) {
      var t := tag.value;
      FilterAgree(cards, (c: Entry) => HasTag(c, t), (c: Entry) => IsVisible(c, favorites, tab, tag));
    } else {
      FilterKeepsAll(cards, (c: Entry) => IsVisible(c, favorites, tab, tag));
    }
  }

  /** With the tab on `'all'` and no tag the whole catalog is shown unchanged. */
  lemma AllTabShowsCatalog(cards: seq<Entry>, favorites: set<string>, tag: Option<string>)
    requires !TagActive(tag)
    ensures GetVisibleCards(cards, favorites, All, tag) == cards
  {
  }

  /**
   * On the favourites tab only favourites are shown; with no tag active every
   * catalog entry whose id is a favourite is shown. Stale ids that match no
   * entry show nothing.
   */
  lemma FavsTabShowsExactlyFavorites(cards: seq<Entry>, favorites: set<string>, tag: Option<string>)
    ensures forall c :: c in GetVisibleCards(cards, favorites, Favs, tag) ==> c.id in favorites
    ensures !TagActive(tag) ==>
      forall c :: c in cards && c.id in favorites ==> c in GetVisibleCards(cards, favorites, Favs, tag)
  {
  }

  /** With a tag active, every shown entry carries it up to case. */
  lemma TagFilterShowsOnlyTagged(cards: seq<Entry>, favorites: set<string>, tab: Tab, tag: string)
    requires tag != ""
    ensures forall c :: c in GetVisibleCards(cards, favorites, tab, Some(tag)) ==>
      exists k :: 0 <= k < |c.tags| && Lower(c.tags[k]) == Lower(tag)
  {
  }

  /**
   * Clearing the tag only widens the list: what a tag shows is a
   * subsequence of what the same tab shows without it.
   */
  lemma {:induction false} ClearingTagWidens(cards: seq<Entry>, favorites: set<string>, tab: Tab, tag: Option<string>)
    ensures IsSubsequence(GetVisibleCards(cards, favorites, tab, tag), GetVisibleCards(cards, favorites, tab, None))
  {
    var wide := GetVisibleCards(cards, favorites, tab, None);
    if TagActive(tag) {
      var t := tag.value;
      assert GetVisibleCards(cards, favorites, tab, tag) == Filter(wide, (c: Entry) => HasTag(c, t));
    } else {
      SubsequenceReflexive(wide);
    }
  }
}
