/**
 * The search matcher, `searchQuery`: card suggestions whose title contains
 * the query and tag suggestions that contain it, both compared after
 * lower-casing, both in catalog order.
 */
module Search {
  import opened Text
  import opened Seqs
  import opened Catalog

  /** A card suggestion, `{ type: 'card', id, title, url }`. */
  datatype CardHit = CardHit(id: string, title: string, url: string)

  /** `{ cards, tags }`, the two suggestion buckets. */
  datatype SearchResult = SearchResult(cards: seq<CardHit>, tags: seq<string>)

  function Hit(c: Entry): (h: CardHit)
    ensures h.id == c.id && h.title == c.title && h.url == c.url
  {
    CardHit(c.id, c.title, c.url)
  }

  /** The suggestion of every catalog entry, in catalog order. */
  function Hits(cards: seq<Entry>): (r: seq<CardHit>)
    ensures |r| == |cards|
    ensures forall k :: 0 <= k < |cards| ==> r[k] == Hit(cards[k])
  {
    if cards == [] then [] else [Hit(cards[0])] + Hits(cards[1..])
  }

  /** `c.title.toLowerCase().includes(q)`, for an already lower-cased q. */
  predicate TitleMatches(title: string, q: string)
  {
    Contains(Lower(title), q)
  }

  /** `t.toLowerCase().includes(q)`, for an already lower-cased q. */
  predicate TagMatches(t: string, q: string)
  {
    Contains(Lower(t), q)
  }

  /** `cardsData.filter(c => c.title.toLowerCase().includes(q)).map(…)`. */
  function CardMatches(cards: seq<Entry>, q: string): (r: seq<CardHit>)
    ensures |r| <= |cards|
  {
    if cards == [] then []
    else (if TitleMatches(cards[0].title, q) then [Hit(cards[0])] else []) + CardMatches(cards[1..], q)
  }

  /** Every card suggestion has a title that contains the query. */
  lemma {:induction false} CardMatchesSound(cards: seq<Entry>, q: string)
    ensures forall h :: h in CardMatches(cards, q) ==> TitleMatches(h.title, q)
  {
    if cards != [] {
      CardMatchesSound(cards[1..], q);
    }
  }

  /** An entry is suggested exactly when its lower-cased title contains the query. */
  lemma {:induction false} CardMatchesExact(cards: seq<Entry>, q: string)
    ensures forall c :: c in cards ==> (Hit(c) in CardMatches(cards, q) <==> TitleMatches(c.title, q))
  {
    if cards != [] {
      CardMatchesExact(cards[1..], q);
      CardMatchesSound(cards[1..], q);
      assert forall c :: c in cards ==> c == cards[0] || c in cards[1..];
    }
  }

  /** The suggestions keep catalog order. */
  lemma {:induction false} CardMatchesInOrder(cards: seq<Entry>, q: string)
    ensures IsSubsequence(CardMatches(cards, q), Hits(cards))
  {
    if cards != [] {
      CardMatchesInOrder(cards[1..], q);
      var rest := CardMatches(cards[1..], q);
      if TitleMatches(cards[0].title, q) {
        assert ([Hit(cards[0])] + rest)[1..] == rest;
      } else {
        assert CardMatches(cards, q) == rest;
      }
    }
  }

  /** Each matching entry is suggested as often as the catalog holds it. */
  lemma {:induction false} CardMatchesCount(cards: seq<Entry>, q: string)
    ensures forall h ::
      multiset(CardMatches(cards, q))[h] == if TitleMatches(h.title, q) then multiset(Hits(cards))[h] else 0
  {
    if cards != [] {
      CardMatchesCount(cards[1..], q);
      var rest := CardMatches(cards[1..], q);
      assert multiset(Hits(cards)) == multiset{Hit(cards[0])} + multiset(Hits(cards[1..]));
      if TitleMatches(cards[0].title, q) {
        assert multiset([Hit(cards[0])] + rest) == multiset{Hit(cards[0])} + multiset(rest);
      } else {
        assert CardMatches(cards, q) == rest;
      }
    }
  }

  /** Every tag of every entry, entry after entry, each entry's tags in their order. */
  function AllTags(cards: seq<Entry>): seq<string>
  {
    if cards == [] then [] else AllTags(cards[..|cards| - 1]) + cards[|cards| - 1].tags
  }

  /** A string is among all tags exactly when some entry carries it. */
  lemma {:induction false} AllTagsMembers(cards: seq<Entry>)
    ensures forall t :: t in AllTags(cards) <==> exists k :: 0 <= k < |cards| && t in cards[k].tags
  {
    if cards != [] {
      var init := cards[..|cards| - 1];
      AllTagsMembers(init);
      assert forall k :: 0 <= k < |init| ==> init[k] == cards[k];
    }
  }

  /** The tags of ts that match q, in their order in ts. */
  function MatchingTags(ts: seq<string>, q: string): (r: seq<string>)
    ensures forall t :: t in r <==> t in ts && TagMatches(t, q)
  {
    if ts == [] then []
    else
      var init := ts[..|ts| - 1];
      var last := ts[|ts| - 1];
      assert ts == init + [last];
      MatchingTags(init, q) + (if TagMatches(last, q) then [last] else [])
  }

  /** Where the first occurrence of x lies once t is appended. */
  lemma FirstIndexAfterAppend(a: seq<string>, t: string, x: string)
    requires x in a + [t]
    ensures FirstIndex(a + [t], x) == if x in a then FirstIndex(a, x) else |a|
  {
    FirstIndexOfPrefix(a + [t], |a|);
    assert (a + [t])[..|a|] == a;
  }

  /** Filtering keeps the relative order of first occurrences of the elements it keeps. */
  lemma {:induction false} MatchingKeepsFirstOrder(s: seq<string>, q: string, x: string, y: string)
    requires x in MatchingTags(s, q) && y in MatchingTags(s, q)
    ensures x in s && y in s
    ensures FirstIndex(MatchingTags(s, q), x) < FirstIndex(MatchingTags(s, q), y) <==> FirstIndex(s, x) < FirstIndex(s, y)
  {
    var init := s[..|s| - 1];
    var t := s[|s| - 1];
    var m := MatchingTags(init, q);
    assert s == init + [t];
    FirstIndexAfterAppend(init, t, x);
    FirstIndexAfterAppend(init, t, y);
    if TagMatches(t, q) {
      assert MatchingTags(s, q) == m + [t];
      FirstIndexAfterAppend(m, t, x);
      FirstIndexAfterAppend(m, t, y);
    } else {
      assert MatchingTags(s, q) == m;
    }
    if x in m && y in m {
      MatchingKeepsFirstOrder(init, q, x, y);
    }
  }

  /**
   * Tag suggestions follow the order in which each tag is first met,
   * entry after entry and, within an entry, tag after tag.
   */
  lemma TagSuggestionsInCatalogOrder(cards: seq<Entry>, query: string)
    ensures InFirstOccurrenceOrder(SearchSpec(cards, query).tags, AllTags(cards))
  {
    var r := SearchSpec(cards, query).tags;
    var q := Lower(query);
    forall i, j | 0 <= i < j < |r|
      ensures r[i] in AllTags(cards) && r[j] in AllTags(cards)
      ensures FirstIndex(AllTags(cards), r[i]) < FirstIndex(AllTags(cards), r[j])
    {
      MatchingKeepsFirstOrder(AllTags(cards), q, r[i], r[j]);
    }
  }

  /**
   * What `searchQuery(query)` returns. Card suggestions: in catalog order,
   * exactly the entries whose lower-cased title contains the lower-cased
   * query. Tag suggestions: no repeats, each one a tag of some entry that
   * contains the query up to case, every such tag present, in the order of
   * their first occurrence among the matching tags.
   */
  function SearchSpec(cards: seq<Entry>, query: string): (r: SearchResult)
    ensures forall c :: c in cards ==> (Hit(c) in r.cards <==> Contains(Lower(c.title), Lower(query)))
    ensures IsSubsequence(r.cards, Hits(cards))
    ensures forall h :: multiset(r.cards)[h] == if TitleMatches(h.title, Lower(query)) then multiset(Hits(cards))[h] else 0
    ensures NoDuplicates(r.tags)
    ensures forall t :: t in r.tags <==>
      Contains(Lower(t), Lower(query)) && exists k :: 0 <= k < |cards| && t in cards[k].tags
    ensures InFirstOccurrenceOrder(r.tags, MatchingTags(AllTags(cards), Lower(query)))
  {
    var q := Lower(query);
    AllTagsMembers(cards);
    CardMatchesExact(cards, q);
    CardMatchesInOrder(cards, q);
    CardMatchesCount(cards, q);
    SearchResult(CardMatches(cards, q), Dedup(MatchingTags(AllTags(cards), q)))
  }

  /**
   * `Set.prototype.add` on an insertion-ordered set: the elements already
   * there keep their places, t is present afterwards, and the set grows by
   * one element only when t was not yet in it.
   */
  function Add(acc: seq<string>, t: string): (r: seq<string>)
    ensures acc <= r && t in r
    ensures |r| == if t in acc then |acc| else |acc| + 1
  {
    if t in acc then acc else acc + [t]
  }

  /** The set the nested loop builds from the tags it has visited, ts, in visiting order. */
  function Collected(ts: seq<string>, q: string): seq<string>
  {
    if ts == [] then []
    else
      var acc := Collected(ts[..|ts| - 1], q);
      var t := ts[|ts| - 1];
      if TagMatches(t, q) then Add(acc, t) else acc
  }

  /** One more tag seen by the loop: it is added when it matches the query. */
  lemma CollectedStep(seen: seq<string>, t: string, q: string)
    ensures Collected(seen + [t], q) == if TagMatches(t, q) then Add(Collected(seen, q), t) else Collected(seen, q)
  {
    var s := seen + [t];
    assert s[..|s| - 1] == seen && s[|s| - 1] == t;
  }

  /** What the loop collects is the de-duplicated sequence of matching tags. */
  lemma {:induction false} CollectedIsDedup(ts: seq<string>, q: string)
    ensures Collected(ts, q) == Dedup(MatchingTags(ts, q))
  {
    if ts != [] {
      var init := ts[..|ts| - 1];
      var t := ts[|ts| - 1];
      CollectedIsDedup(init, q);
      assert ts == init + [t];
      var m := MatchingTags(init, q);
      assert MatchingTags(ts, q) == m + (if TagMatches(t, q) then [t] else []);
      if TagMatches(t, q) {
        var mt := m + [t];
        assert mt[..|mt| - 1] == m && mt[|mt| - 1] == t;
        assert Dedup(mt) == if t in Dedup(m) then Dedup(m) else Dedup(m) + [t];
      } else {
        assert m + [] == m;
      }
    }
  }

  lemma AllTagsOfPrefix(cards: seq<Entry>, i: nat)
    requires i < |cards|
    ensures AllTags(cards[..i + 1]) == AllTags(cards[..i]) + cards[i].tags
  {
    assert cards[..i + 1][..i] == cards[..i];
  }

  /**
   * The inner `c.tags.forEach(t => { if (…) tagSet.add(t); })`: the tags
   * of one entry added to the set collected from the tags seen before.
   */
  method CollectTags(tagSet: seq<string>, ghost seen: seq<string>, tags: seq<string>, q: string)
    returns (acc: seq<string>)
    requires tagSet == Collected(seen, q)
    ensures acc == Collected(seen + tags, q)
  {
    acc := tagSet;
    var j := 0;
    assert seen + tags[..j] == seen;
    while j < |tags|
      invariant 0 <= j <= |tags|
      invariant acc == Collected(seen + tags[..j], q)
    {
      var t := tags[j];
      assert seen + tags[..j + 1] == (seen + tags[..j]) + [t] by {
        assert tags[..j + 1] == tags[..j] + [t];
      }
      CollectedStep(seen + tags[..j], t, q);
      if TagMatches(t, q) {
        acc := Add(acc, t);
      }
      j := j + 1;
    }
    assert tags[..j] == tags;
  }

  /**
   * `searchQuery`: the title filter, then the nested `forEach` that adds
   * each matching tag to an insertion-ordered `Set`.
   */
  method SearchQuery(cards: seq<Entry>, query: string) returns (res: SearchResult)
    ensures res == SearchSpec(cards, query)
  {
    var q := Lower(query);
    var cardMatches := CardMatches(cards, q);
    var tagSet: seq<string> := [];
    var i := 0;
    while i < |cards|
      invariant 0 <= i <= |cards|
      invariant tagSet == Collected(AllTags(cards[..i]), q)
    {
      tagSet := CollectTags(tagSet, AllTags(cards[..i]), cards[i].tags, q);
      AllTagsOfPrefix(cards, i);
      i := i + 1;
    }
    assert cards[..i] == cards;
    CollectedIsDedup(AllTags(cards), q);
    res := SearchResult(cardMatches, tagSet);
  }
}
