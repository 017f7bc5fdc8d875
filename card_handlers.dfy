/** The two card read handlers (src/rust/src/handlers/card.rs) and the two
    request scenarios written beside them. The mutex guard and the JSON body
    are left out: a handler reads the repository's card map and answers. */
module CardHandlers {
  import opened Notes
  import opened Cards
  import opened MapQueries
  import opened Repository

  /** Card ids never decrease from left to right. */
  predicate SortedById(cards: seq<Card>) {
    forall i, j :: 0 <= i < j < |cards| ==> cards[i].id.value <= cards[j].id.value
  }

  /** Card ids strictly increase from left to right. */
  ghost predicate StrictlyAscending(cards: seq<Card>) {
    forall i, j :: 0 <= i < j < |cards| ==> cards[i].id.value < cards[j].id.value
  }

  /** Where a stable insertion puts `c`: after every card whose id is not
      larger, before every card whose id is larger. */
  method InsertionPoint(sorted: seq<Card>, c: Card) returns (j: nat)
    requires SortedById(sorted)
    ensures j <= |sorted|
    ensures forall k :: 0 <= k < j ==> sorted[k].id.value <= c.id.value
    ensures forall k :: j <= k < |sorted| ==> sorted[k].id.value > c.id.value
  {
    j := |sorted|;
    while j > 0 && sorted[j - 1].id.value > c.id.value
      invariant 0 <= j <= |sorted|
      invariant forall k :: j <= k < |sorted| ==> sorted[k].id.value > c.id.value
      decreases j
    {
      j := j - 1;
    }
  }

  /** Putting `c` at its insertion point keeps the order and adds exactly `c`. */
  lemma InsertAt(sorted: seq<Card>, c: Card, j: nat)
    requires SortedById(sorted) && j <= |sorted|
    requires forall k :: 0 <= k < j ==> sorted[k].id.value <= c.id.value
    requires forall k :: j <= k < |sorted| ==> sorted[k].id.value > c.id.value
    ensures SortedById(sorted[..j] + [c] + sorted[j..])
    ensures multiset(sorted[..j] + [c] + sorted[j..]) == multiset(sorted) + multiset{c}
  {
    var r := sorted[..j] + [c] + sorted[j..];
    forall a, b | 0 <= a < b < |r| ensures r[a].id.value <= r[b].id.value {
      if b < j {
        assert r[a] == sorted[a] && r[b] == sorted[b];
      } else if b == j {
        assert r[a] == sorted[a];
      } else if a < j {
        assert r[a] == sorted[a] && r[b] == sorted[b - 1];
      } else if a > j {
        assert r[a] == sorted[a - 1] && r[b] == sorted[b - 1];
      }
    }
    assert sorted == sorted[..j] + sorted[j..];
  }

  /** `sort_by(|c1, c2| c1.id.cmp(&c2.id))`: a stable sort on the card id,
      written as an insertion sort. */
  method SortById(cards: seq<Card>) returns (sorted: seq<Card>)
    ensures SortedById(sorted)
    ensures multiset(sorted) == multiset(cards)
  {
    sorted := [];
    for i := 0 to |cards|
      invariant SortedById(sorted)
      invariant multiset(sorted) == multiset(cards[..i])
    {
      var j := InsertionPoint(sorted, cards[i]);
      InsertAt(sorted, cards[i], j);
      assert cards[..i + 1] == cards[..i] + [cards[i]];
      sorted := sorted[..j] + [cards[i]] + sorted[j..];
    }
    assert cards[..|cards|] == cards;
  }

  /** Cards with distinct ids are distinct, so each occurs at most once. */
  lemma {:induction false} OnceEach(cards: seq<Card>, c: Card)
    requires DistinctIds(cards)
    ensures multiset(cards)[c] <= 1
    decreases |cards|
  {
    if cards != [] {
      var init, last := cards[..|cards| - 1], cards[|cards| - 1];
      assert cards == init + [last];
      assert DistinctIds(init) by {
        forall i, j | 0 <= i < j < |init| ensures init[i].id != init[j].id {
          assert init[i] == cards[i] && init[j] == cards[j];
        }
      }
      OnceEach(init, c);
      if c == last {
        forall i | 0 <= i < |init| ensures init[i] != c {
          assert init[i] == cards[i];
        }
        assert c !in multiset(init);
      }
    }
  }

  /** A card at two positions occurs at least twice. */
  lemma TwiceAtTwoPositions(cards: seq<Card>, i: nat, j: nat)
    requires i < j < |cards| && cards[i] == cards[j]
    ensures multiset(cards)[cards[i]] >= 2
  {
    assert cards == cards[..j] + [cards[j]] + cards[j + 1..];
    assert cards[..j][i] == cards[i];
    assert cards[i] in multiset(cards[..j]);
  }

  /** Reordering cards whose ids are distinct keeps the ids distinct. */
  lemma DistinctIdsPermuted(a: seq<Card>, b: seq<Card>)
    requires multiset(a) == multiset(b) && DistinctIds(a)
    ensures DistinctIds(b)
  {
    forall i, j | 0 <= i < j < |b| ensures b[i].id != b[j].id {
      if b[i].id == b[j].id {
        assert b[i] in multiset(a) && b[j] in multiset(a);
        var p :| 0 <= p < |a| && a[p] == b[i];
        var q :| 0 <= q < |a| && a[q] == b[j];
        assert p == q;
        TwiceAtTwoPositions(b, i, j);
        OnceEach(a, b[i]);
        assert false;
      }
    }
  }

  /** Strictly ascending ids that are all at least 1 are at least their position plus one. */
  lemma {:induction false} IdAtLeastPosition(cards: seq<Card>, i: nat)
    requires StrictlyAscending(cards)
    requires forall k :: 0 <= k < |cards| ==> 1 <= cards[k].id.value
    requires i < |cards|
    ensures cards[i].id.value >= i + 1
    decreases i
  {
    if i > 0 {
      IdAtLeastPosition(cards, i - 1);
    }
  }

  /** Strictly ascending ids that are all at most the length are at most their position plus one. */
  lemma {:induction false} IdAtMostPosition(cards: seq<Card>, i: nat)
    requires StrictlyAscending(cards)
    requires forall k :: 0 <= k < |cards| ==> cards[k].id.value <= |cards|
    requires i < |cards|
    ensures cards[i].id.value <= i + 1
    decreases |cards| - i
  {
    if i + 1 < |cards| {
      IdAtMostPosition(cards, i + 1);
    }
  }

  /** A listing of a dense card map, with each id once and ascending,
      is card 1, card 2, ... in that order. */
  lemma DenseListing(m: map<CardId, Card>, all: seq<Card>)
    requires DenseCards(m) && |all| == |m|
    requires forall c :: c in all ==> c in m.Values
    requires SortedById(all) && DistinctIds(all)
    ensures forall i :: 0 <= i < |all| ==> all[i] == m[CardId(i + 1)]
  {
    forall k | 0 <= k < |all| ensures 1 <= all[k].id.value <= |all| && m[all[k].id] == all[k] {
      assert all[k] in m.Values;
      var key :| key in m && m[key] == all[k];
    }
    forall i | 0 <= i < |all| ensures all[i] == m[CardId(i + 1)] {
      IdAtLeastPosition(all, i);
      IdAtMostPosition(all, i);
    }
  }

  /** `get_all_cards`: every stored card once, in ascending id order. In a
      valid repository that is card 1, card 2, ... up to the card count. */
  method GetAllCards(state: State) returns (all: seq<Card>, ghost collected: seq<Card>, ghost keys: seq<CardId>)
    // `collected` lists each stored card once per key, in `keys`' order; the result reorders it
    ensures |collected| == |keys| == |state.cardsById|
    ensures forall i :: 0 <= i < |keys| ==> keys[i] in state.cardsById && collected[i] == state.cardsById[keys[i]]
    ensures forall k :: k in state.cardsById ==> k in keys
    ensures forall i, j :: 0 <= i < j < |keys| ==> keys[i] != keys[j]
    ensures multiset(all) == multiset(collected)
    ensures |all| == |state.cardsById|
    ensures forall c :: c in all <==> c in state.cardsById.Values
    ensures SortedById(all)
    ensures state.Valid() ==> forall i :: 0 <= i < |all| ==> all[i] == state.cardsById[CardId(i + 1)]
  {
    var values;
    values, keys := CollectValues(state.cardsById);
    collected := values;
    all := SortById(values);
    assert |all| == |multiset(all)| == |multiset(values)| == |values|;
    forall c ensures c in all <==> c in state.cardsById.Values {
      assert c in all <==> c in multiset(values);
      if c in state.cardsById.Values {
        var k :| k in state.cardsById && state.cardsById[k] == c;
        var i :| 0 <= i < |keys| && keys[i] == k;
        assert values[i] == c;
      }
    }
    if state.Valid() {
      var m := state.cardsById;
      assert DistinctIds(values) by {
        forall i, j | 0 <= i < j < |values| ensures values[i].id != values[j].id {
          assert values[i].id == keys[i] && values[j].id == keys[j];
        }
      }
      DistinctIdsPermuted(values, all);
      DenseListing(m, all);
    }
  }

  /** `get_card`: the card stored under the id, or NotFound. In a valid
      repository it is found exactly for ids 1 to the card count, and carries that id. */
  function GetCard(state: State, id: nat): (r: Response<Card>)
    reads state
    ensures r.Ok? <==> CardId(id) in state.cardsById
    ensures r.Ok? ==> r.value == state.cardsById[CardId(id)]
    ensures state.Valid() ==> (r.Ok? <==> 1 <= id <= |state.cardsById|)
    ensures state.Valid() && r.Ok? ==> r.value.id == CardId(id)
  {
    Get(state.cardsById, CardId(id))
  }

  /** The two notes the first request scenario adds to an empty repository. */
  method AddScenarioNotes(state: State)
    requires state.Valid() && state.notesById == map[] && state.cardsById == map[]
    modifies state
    ensures state.Valid() && |state.cardsById| == 3
    ensures state.cardsById[CardId(1)] == Card(CardId(1), NoteId(1), Definition)
    ensures state.cardsById[CardId(2)] == Card(CardId(2), NoteId(2), Term)
    ensures state.cardsById[CardId(3)] == Card(CardId(3), NoteId(2), Definition)
  {
    var note1, cards1 := state.AddNote(CreateNoteRequest.New("term1", DefinitionOnly));
    assert cards1 == [Card(CardId(1), NoteId(1), Definition)];
    assert |state.notesById| == 1 && |state.cardsById| == 1;
    var note2, cards2 := state.AddNote(CreateNoteRequest.New("term2", TermAndDefinition));
    assert cards2 == [Card(CardId(2), NoteId(2), Term), Card(CardId(3), NoteId(2), Definition)];
  }

  /** The first request scenario: no cards on a new repository; after a
      definition-only note and a term-and-definition note, the three cards
      in id order. */
  method GetAllCardsScenario() returns (before: seq<Card>, after: seq<Card>)
    ensures before == []
    ensures after == [
      Card(CardId(1), NoteId(1), Definition),
      Card(CardId(2), NoteId(2), Term),
      Card(CardId(3), NoteId(2), Definition)]
  {
    var state := new State();
    ghost var collected, keys;
    before, collected, keys := GetAllCards(state);
    AddScenarioNotes(state);
    after, collected, keys := GetAllCards(state);
    assert |after| == 3;
    assert after[0] == state.cardsById[CardId(1)];
    assert after[1] == state.cardsById[CardId(2)];
    assert after[2] == state.cardsById[CardId(3)];
    assert after == [after[0], after[1], after[2]];
  }

  /** The second request scenario: card 1 is not found on a new repository,
      and after a term-only note it is that note's term card. */
  method GetCardScenario() returns (before: Response<Card>, after: Response<Card>)
    ensures before == NotFound
    ensures after == Ok(Card(CardId(1), NoteId(1), Term))
  {
    var state := new State();
    before := GetCard(state, 1);
    var note, cards := state.AddNote(CreateNoteRequest.New("term1", TermOnly));
    after := GetCard(state, 1);
  }
}
