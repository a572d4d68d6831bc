/**
 * The carousel cursor of the detail view: a circular index over the images
 * of the open entry. `nextImage` computes `(index + 1) % total` and
 * `prevImage` `(index - 1 + total) % total`; both operands are
 * non-negative, so JavaScript's truncating `%` and Dafny's `%` agree.
 */
module Carousel {

  /** `(index + 1) % total`: one step forward, from the last image back to the first. */
  function Next(index: nat, total: nat): (r: nat)
    requires index < total
    ensures r < total
    ensures r == if index == total - 1 then 0 else index + 1
  {
    (index + 1) % total
  }

  /** `(index - 1 + total) % total`: one step back, from the first image to the last. */
  function Prev(index: nat, total: nat): (r: nat)
    requires index < total
    ensures r < total
    ensures r == if index == 0 then total - 1 else index - 1
  {
    (index - 1 + total) % total
  }

  /** The two steps undo each other. */
  lemma PrevUndoesNext(index: nat, total: nat)
    requires index < total
    ensures Prev(Next(index, total), total) == index
    ensures Next(Prev(index, total), total) == index
  {
  }

  /** k presses of the next button. */
  function Forward(index: nat, k: nat, total: nat): (r: nat)
    requires index < total
    ensures r < total
  {
    if k == 0 then index else Next(Forward(index, k - 1, total), total)
  }

  /** Up to a full turn, k steps forward land on index + k, wrapped once. */
  lemma {:induction false} ForwardWithinTurn(index: nat, k: nat, total: nat)
    requires index < total && k <= total
    ensures Forward(index, k, total) == if index + k < total then index + k else index + k - total
  {
    if k > 0 {
      ForwardWithinTurn(index, k - 1, total);
    }
  }

  /** Cycle closure: as many steps forward as there are images return to the start. */
  lemma FullTurn(index: nat, total: nat)
    requires index < total
    ensures Forward(index, total, total) == index
  {
    ForwardWithinTurn(index, total, total);
  }
}
