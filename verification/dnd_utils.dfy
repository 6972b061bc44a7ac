/**
 * Card lookup on the dashboard board (`findCardInBoard`): scan the keys of
 * the board in order and, in each lane, take the first card with the
 * requested id. The lookup only reads the board.
 */
module DndUtils {
  import opened Wrappers
  import opened Types

  /** Some card of `cards` has id `id`. */
  predicate HasCard(cards: seq<BoardData>, id: int) {
    exists c :: c in cards && c.id == id
  }

  /** `cards.find(item => item.id === id)`, as the index of the card found. */
  function FirstMatch(cards: seq<BoardData>, id: int): (r: Option<nat>)
    ensures r.None? <==> !HasCard(cards, id)
    ensures r.Some? ==> r.value < |cards| && cards[r.value].id == id
    ensures r.Some? ==> forall j :: 0 <= j < r.value ==> cards[j].id != id
  {
    if cards == [] then None
    else if cards[0].id == id then Some(0)
    else
      match FirstMatch(cards[1..], id)
      case None => None
      case Some(k) => Some(k + 1)
  }

  /** The `for..in` loop over the keys `keys` with its early return. */
  function ScanKeys(b: Board, keys: seq<BoardLane>, id: int): (r: (Option<BoardLane>, Option<BoardData>))
    ensures r.0.Some? <==> r.1.Some?
    ensures r.0.None? <==> forall k :: 0 <= k < |keys| ==> !HasCard(b.Lane(keys[k]), id)
    ensures r.0.Some? ==> exists k :: 0 <= k < |keys| && keys[k] == r.0.value
                            && forall j :: 0 <= j < k ==> !HasCard(b.Lane(keys[j]), id)
    ensures r.0.Some? ==> FirstMatch(b.Lane(r.0.value), id).Some?
                          && r.1.value == b.Lane(r.0.value)[FirstMatch(b.Lane(r.0.value), id).value]
  {
    if keys == [] then (None, None)
    else
      match FirstMatch(b.Lane(keys[0]), id)
      case Some(k) => (Some(keys[0]), Some(b.Lane(keys[0])[k]))
      case None =>
        var rest := ScanKeys(b, keys[1..], id);
        assert forall k :: 1 <= k < |keys| ==> keys[k] == keys[1..][k - 1];
        rest
  }

  /**
   * `findCardInBoard(boardState, id)`: the first key (in declaration order)
   * whose lane holds a card with id `id`, paired with the first such card of
   * that lane; `[null, null]` when no lane holds one.
   */
  function FindCardInBoard(b: Board, id: int): (r: (Option<BoardLane>, Option<BoardData>))
    ensures r.0.Some? <==> r.1.Some?
    ensures r.0.None? <==> forall l: BoardLane :: !HasCard(b.Lane(l), id)
    ensures r.0.Some? ==> r.1.value in b.Lane(r.0.value) && r.1.value.id == id
    ensures r.0.Some? ==> forall l: BoardLane :: Rank(l) < Rank(r.0.value) ==> !HasCard(b.Lane(l), id)
    ensures r.0.Some? ==> exists k :: 0 <= k < |b.Lane(r.0.value)| && r.1.value == b.Lane(r.0.value)[k]
                            && forall j :: 0 <= j < k ==> b.Lane(r.0.value)[j].id != id
  {
    var r := ScanKeys(b, KeyOrder, id);
    assert forall l: BoardLane :: KeyOrder[Rank(l)] == l;
    if r.0.None? then NoCardInAnyLane(b, id); r else r
  }

  /** No card in any of the three keys means no card under any key. */
  lemma NoCardInAnyLane(b: Board, id: int)
    requires forall k :: 0 <= k < |KeyOrder| ==> !HasCard(b.Lane(KeyOrder[k]), id)
    ensures forall l: BoardLane :: !HasCard(b.Lane(l), id)
  {
    forall l: BoardLane ensures !HasCard(b.Lane(l), id) {
      assert KeyOrder[Rank(l)] == l;
    }
  }
}
