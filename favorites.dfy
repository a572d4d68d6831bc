/**
 * The favourites set: the ids the user has starred, the toggle that flips
 * one id, and the start-up read of the persisted list.
 */
module Favorites {

  /**
   * What the start-up read of the `lt_favs` slot yields: nothing (or an
   * empty string), text that does not parse, a parsed value that is not an
   * array, or an array of ids.
   */
  datatype SavedFavorites = NothingSaved | Unreadable | NotAList | Saved(ids: seq<string>)

  /** `loadFavorites`: every failure of the read degrades to the empty set. */
  function LoadFavorites(saved: SavedFavorites): (r: set<string>)
    ensures !saved.Saved? ==> r == {}
    ensures saved.Saved? ==> forall id :: id in r <==> id in saved.ids
    ensures saved.Saved? ==> |r| <= |saved.ids|
  {
    match saved
    case Saved(ids) => DistinctIds(ids)
    case _ => {}
  }

  /** `new Set(arr)`. */
  function DistinctIds(ids: seq<string>): (r: set<string>)
    ensures forall id :: id in r <==> id in ids
    ensures |r| <= |ids|
  {
    if ids == [] then {}
    else
      var rest := DistinctIds(ids[1..]);
      assert ids == [ids[0]] + ids[1..];
      assert |rest + {ids[0]}| <= |rest| + 1;
      rest + {ids[0]}
  }

  /**
   * `favorites.has(id) ? favorites.delete(id) : favorites.add(id)`: the
   * membership of id flips, the counter moves by one, all other ids keep
   * their membership.
   */
  function Toggled(favorites: set<string>, id: string): (r: set<string>)
    ensures id in r <==> id !in favorites
    ensures forall other :: other != id ==> (other in r <==> other in favorites)
    ensures |r| == if id in favorites then |favorites| - 1 else |favorites| + 1
  {
    if id in favorites then favorites - {id} else favorites + {id}
  }

  /** Toggling the same id twice restores the set, and with it `has(id)` and `size`. */
  lemma ToggleTwice(favorites: set<string>, id: string)
    ensures Toggled(Toggled(favorites, id), id) == favorites
    ensures |Toggled(Toggled(favorites, id), id)| == |favorites|
  {
  }
}
