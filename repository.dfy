/** The in-memory repository of notes and cards (src/rust/src/state.rs).
    The two mutex-guarded maps become two map fields of one object, and
    `add_note` one sequential method, so its atomicity holds by construction. */
module Repository {
  import opened Notes
  import opened Cards

  datatype Option<T> = None | Some(value: T)

  /** `keys().max()` on the wrapped integers of a key set. */
  method MaxKey(keys: set<nat>) returns (max: Option<nat>)
    ensures max.None? <==> keys == {}
    ensures max.Some? ==> max.value in keys && forall k :: k in keys ==> k <= max.value
  {
    max := None;
    var rest := keys;
    while rest != {}
      invariant rest <= keys
      invariant max.None? <==> rest == keys
      invariant max.Some? ==> max.value in keys && forall u :: u in keys - rest ==> u <= max.value
      decreases rest
    {
      var k :| k in rest;
      if max.None? || max.value < k {
        max := Some(k);
      }
      assert keys - (rest - {k}) == (keys - rest) + {k};
      rest := rest - {k};
    }
    assert keys - rest == keys;
  }

  function NoteKeys(notesById: map<NoteId, Note>): set<nat> {
    set id | id in notesById :: id.value
  }

  function CardKeys(cardsById: map<CardId, Card>): set<nat> {
    set id | id in cardsById :: id.value
  }

  /** `next` is the id the source allocates after the ids in `used`:
      1 when there are none, otherwise one more than the largest. */
  ghost predicate IsNextId(used: set<nat>, next: nat) {
    && next >= 1
    && (used == {} ==> next == 1)
    && (used != {} ==> next - 1 in used)
    && forall u :: u in used ==> u < next
  }

  /** The cards a creation kind asks for, in the order ids are handed out. */
  ghost predicate DerivedFrom(cards: seq<Card>, kind: CreateCardsKind, noteId: NoteId, lastCardId: nat) {
    && 1 <= |cards| <= 2
    // ids continue from `lastCardId`, one by one; every card belongs to the note
    && (forall i :: 0 <= i < |cards| ==> cards[i].id == CardId(lastCardId + 1 + i) && cards[i].noteId == noteId)
    // a term card exactly unless only a definition card is asked for, and vice versa
    && ((exists i :: 0 <= i < |cards| && cards[i].kind == Term) <==> kind != DefinitionOnly)
    && ((exists i :: 0 <= i < |cards| && cards[i].kind == Definition) <==> kind != TermOnly)
    // of two cards, the term card comes first
    && (|cards| == 2 ==> cards[0].kind == Term && cards[1].kind == Definition)
  }

  /** The match at src/rust/src/state.rs:38-45. */
  function DeriveCards(kind: CreateCardsKind, noteId: NoteId, lastCardId: nat): (cards: seq<Card>)
    ensures DerivedFrom(cards, kind, noteId, lastCardId)
  {
    var cards := match kind
      case TermOnly =>
        [Card.New(CardId(lastCardId + 1), noteId, Term)]
      case DefinitionOnly =>
        [Card.New(CardId(lastCardId + 1), noteId, Definition)]
      case TermAndDefinition =>
        [Card.New(CardId(lastCardId + 1), noteId, Term),
         Card.New(CardId(lastCardId + 2), noteId, Definition)];
    assert cards[0].kind == Term || cards[0].kind == Definition;
    assert |cards| == 2 ==> cards[1].kind == Definition;
    cards
  }

  /** The description in DerivedFrom leaves no choice: it is met by DeriveCards only. */
  lemma {:induction false} DerivationIsUnique(cards: seq<Card>, kind: CreateCardsKind, noteId: NoteId, lastCardId: nat)
    requires DerivedFrom(cards, kind, noteId, lastCardId)
    ensures cards == DeriveCards(kind, noteId, lastCardId)
  {
    if |cards| == 2 {
      assert cards[1] == Card(CardId(lastCardId + 2), noteId, Definition);
    }
    assert cards[0] == Card(CardId(lastCardId + 1), noteId, cards[0].kind);
    match kind
    case TermOnly =>
      assert cards[0].kind != Definition && cards[|cards| - 1].kind != Definition;
      assert cards == [cards[0]];
    case DefinitionOnly =>
      assert cards[0].kind != Term;
      assert cards == [cards[0]];
    case TermAndDefinition =>
      var i :| 0 <= i < |cards| && cards[i].kind == Term;
      var j :| 0 <= j < |cards| && cards[j].kind == Definition;
      assert i != j;
      assert cards == [cards[0], cards[1]];
  }

  /** `TermAndDefinition` gives a term card and then a definition card whose id is one more. */
  lemma TermAndDefinitionCards(noteId: NoteId, lastCardId: nat)
    ensures var cards := DeriveCards(TermAndDefinition, noteId, lastCardId);
      |cards| == 2 && cards[0].kind == Term && cards[1].kind == Definition
      && cards[0].id.value == cards[1].id.value - 1
  {
  }

  /** Every note is stored under its own id and the note ids are exactly 1 to the count. */
  ghost predicate DenseNotes(notesById: map<NoteId, Note>) {
    && (forall id :: id in notesById ==> notesById[id].id == id && 1 <= id.value <= |notesById|)
    && (forall i: nat :: 1 <= i <= |notesById| ==> NoteId(i) in notesById)
  }

  /** Every card is stored under its own id and the card ids are exactly 1 to the count. */
  ghost predicate DenseCards(cardsById: map<CardId, Card>) {
    && (forall id :: id in cardsById ==> cardsById[id].id == id && 1 <= id.value <= |cardsById|)
    && (forall i: nat :: 1 <= i <= |cardsById| ==> CardId(i) in cardsById)
  }

  /** What `new` and `add_note` keep true of the two maps. */
  ghost predicate ValidMaps(notesById: map<NoteId, Note>, cardsById: map<CardId, Card>) {
    && DenseNotes(notesById)
    && DenseCards(cardsById)
    && (forall id :: id in cardsById ==> cardsById[id].noteId in notesById)
  }

  /** With dense note ids, the next note id is the note count plus one. */
  lemma NextNoteIdIsCount(notesById: map<NoteId, Note>, next: nat)
    requires DenseNotes(notesById) && IsNextId(NoteKeys(notesById), next)
    ensures next == |notesById| + 1
  {
    var n := |notesById|;
    if n > 0 {
      assert NoteId(n) in notesById;
      assert n in NoteKeys(notesById);
      var last :| last in notesById && last.value == next - 1;
    } else {
      assert notesById == map[];
    }
  }

  /** With dense card ids, the next card id is the card count plus one. */
  lemma NextCardIdIsCount(cardsById: map<CardId, Card>, next: nat)
    requires DenseCards(cardsById) && IsNextId(CardKeys(cardsById), next)
    ensures next == |cardsById| + 1
  {
    var n := |cardsById|;
    if n > 0 {
      assert CardId(n) in cardsById;
      assert n in CardKeys(cardsById);
      var last :| last in cardsById && last.value == next - 1;
    } else {
      assert cardsById == map[];
    }
  }

  /** Adding the next note keeps the note ids dense. */
  lemma NextNoteKeepsDense(notesById: map<NoteId, Note>, note: Note)
    requires DenseNotes(notesById) && note.id == NoteId(|notesById| + 1)
    ensures DenseNotes(notesById[note.id := note])
  {
    assert note.id !in notesById;
    assert |notesById[note.id := note]| == |notesById| + 1;
  }

  /** No two cards share an id. */
  ghost predicate DistinctIds(cards: seq<Card>) {
    forall i, j :: 0 <= i < j < |cards| ==> cards[i].id != cards[j].id
  }

  /** `cardsById` after inserting each of `cards` under its own id, in order
      (on a repeated id the later card wins, as with `HashMap::insert`). */
  function Inserted(cardsById: map<CardId, Card>, cards: seq<Card>): map<CardId, Card>
    decreases |cards|
  {
    if cards == [] then cardsById
    else Inserted(cardsById[cards[0].id := cards[0]], cards[1..])
  }

  /** Inserting cards with fresh, distinct ids adds exactly those cards and
      keeps every earlier entry. */
  lemma {:induction false} InsertedFresh(cardsById: map<CardId, Card>, cards: seq<Card>)
    requires forall i :: 0 <= i < |cards| ==> cards[i].id !in cardsById
    requires DistinctIds(cards)
    ensures forall id :: id in cardsById ==> id in Inserted(cardsById, cards) && Inserted(cardsById, cards)[id] == cardsById[id]
    ensures forall i :: 0 <= i < |cards| ==> cards[i].id in Inserted(cardsById, cards) && Inserted(cardsById, cards)[cards[i].id] == cards[i]
    ensures forall id :: id in Inserted(cardsById, cards) ==> id in cardsById || exists i :: 0 <= i < |cards| && cards[i].id == id
    ensures |Inserted(cardsById, cards)| == |cardsById| + |cards|
    decreases |cards|
  {
    if cards != [] {
      var next := cardsById[cards[0].id := cards[0]];
      var rest := cards[1..];
      forall i | 0 <= i < |rest| ensures rest[i].id !in next {
        assert rest[i] == cards[i + 1];
      }
      assert DistinctIds(rest) by {
        forall i, j | 0 <= i < j < |rest| ensures rest[i].id != rest[j].id {
          assert rest[i] == cards[i + 1] && rest[j] == cards[j + 1];
        }
      }
      InsertedFresh(next, rest);
      forall i | 0 <= i < |cards|
        ensures cards[i].id in Inserted(cardsById, cards) && Inserted(cardsById, cards)[cards[i].id] == cards[i]
      {
        if i > 0 {
          assert cards[i] == rest[i - 1];
        }
      }
      forall id | id in Inserted(cardsById, cards)
        ensures id in cardsById || exists i :: 0 <= i < |cards| && cards[i].id == id
      {
        if id !in next {
          var i :| 0 <= i < |rest| && rest[i].id == id;
          assert cards[i + 1].id == id;
        } else if id !in cardsById {
          assert cards[0].id == id;
        }
      }
    }
  }

  /** Adding cards with the next ids keeps the card ids dense. */
  lemma {:induction false} NextCardsKeepDense(cardsById: map<CardId, Card>, cards: seq<Card>)
    requires DenseCards(cardsById)
    requires forall i :: 0 <= i < |cards| ==> cards[i].id == CardId(|cardsById| + 1 + i)
    ensures forall i :: 0 <= i < |cards| ==> cards[i].id !in cardsById
    ensures DistinctIds(cards)
    ensures DenseCards(Inserted(cardsById, cards))
  {
    var m, after := |cardsById|, Inserted(cardsById, cards);
    InsertedFresh(cardsById, cards);
    forall id | id in after
      ensures after[id].id == id && 1 <= id.value <= |after|
    {
      if id !in cardsById {
        var i :| 0 <= i < |cards| && cards[i].id == id;
      }
    }
    forall i: nat | 1 <= i <= |after|
      ensures CardId(i) in after
    {
      if i > m {
        assert cards[i - m - 1].id == CardId(i);
      }
    }
  }

  /** Cards of the new note, added with the note, leave every card attached to a stored note. */
  lemma {:induction false} NewCardsAttached(
    notesById: map<NoteId, Note>, cardsById: map<CardId, Card>, note: Note, cards: seq<Card>)
    requires forall id :: id in cardsById ==> cardsById[id].noteId in notesById
    requires forall i :: 0 <= i < |cards| ==> cards[i].id !in cardsById && cards[i].noteId == note.id
    requires DistinctIds(cards)
    ensures forall id :: id in Inserted(cardsById, cards) ==>
      Inserted(cardsById, cards)[id].noteId in notesById[note.id := note]
  {
    InsertedFresh(cardsById, cards);
    forall id | id in Inserted(cardsById, cards)
      ensures Inserted(cardsById, cards)[id].noteId in notesById[note.id := note]
    {
      if id !in cardsById {
        var i :| 0 <= i < |cards| && cards[i].id == id;
      }
    }
  }

  /** `add_note` on valid maps: the new ids are the counts plus one, and the maps stay valid. */
  lemma AddKeepsValid(
    notesById: map<NoteId, Note>, cardsById: map<CardId, Card>,
    note: Note, kind: CreateCardsKind, lastCardId: nat, cards: seq<Card>)
    requires ValidMaps(notesById, cardsById)
    requires IsNextId(NoteKeys(notesById), note.id.value)
    requires IsNextId(CardKeys(cardsById), lastCardId + 1) && DerivedFrom(cards, kind, note.id, lastCardId)
    ensures note.id == NoteId(|notesById| + 1) && lastCardId == |cardsById|
    ensures ValidMaps(notesById[note.id := note], Inserted(cardsById, cards))
  {
    NextNoteIdIsCount(notesById, note.id.value);
    NextCardIdIsCount(cardsById, lastCardId + 1);
    NextNoteKeepsDense(notesById, note);
    NextCardsKeepDense(cardsById, cards);
    NewCardsAttached(notesById, cardsById, note, cards);
  }

  /** The cards `add_note` derives have fresh, distinct ids, so inserting them
      stores each one and keeps every earlier card. */
  lemma FreshCardsInserted(
    cardsById: map<CardId, Card>, kind: CreateCardsKind, noteId: NoteId, lastCardId: nat, cards: seq<Card>)
    requires IsNextId(CardKeys(cardsById), lastCardId + 1) && DerivedFrom(cards, kind, noteId, lastCardId)
    ensures forall i :: 0 <= i < |cards| ==> cards[i].id !in cardsById
    ensures forall i :: 0 <= i < |cards| ==> cards[i].id in Inserted(cardsById, cards) && Inserted(cardsById, cards)[cards[i].id] == cards[i]
    ensures forall id :: id in cardsById ==> id in Inserted(cardsById, cards) && Inserted(cardsById, cards)[id] == cardsById[id]
    ensures |Inserted(cardsById, cards)| == |cardsById| + |cards|
  {
    forall i | 0 <= i < |cards| ensures cards[i].id !in cardsById {
      assert cards[i].id.value !in CardKeys(cardsById);
    }
    InsertedFresh(cardsById, cards);
  }

  class State {
    var cardsById: map<CardId, Card>
    var notesById: map<NoteId, Note>

    /** Every entry is stored under its own id, the ids of each map are
        exactly 1 to its size, and every card belongs to a stored note. */
    ghost predicate Valid()
      reads this
    {
      ValidMaps(notesById, cardsById)
    }

    /** `State::new`: no notes, no cards. */
    constructor ()
      ensures notesById == map[] && cardsById == map[]
      ensures Valid()
    {
      cardsById := map[];
      notesById := map[];
    }

    /** The note id `add_note` allocates: 1 on no notes, else the largest plus one. */
    method NextNoteId() returns (noteId: NoteId)
      ensures IsNextId(NoteKeys(notesById), noteId.value)
      ensures noteId !in notesById
    {
      var maxNote := MaxKey(NoteKeys(notesById));
      noteId := match maxNote
        case None => NoteId(1)
        case Some(x) => NoteId(x + 1);
      forall id | id in notesById ensures id.value < noteId.value {
        assert id.value in NoteKeys(notesById);
      }
    }

    /** The largest card id, or 0 when there are no cards. */
    method LastCardId() returns (lastCardId: nat)
      ensures IsNextId(CardKeys(cardsById), lastCardId + 1)
      ensures forall id :: id in cardsById ==> id.value <= lastCardId
    {
      var maxCard := MaxKey(CardKeys(cardsById));
      lastCardId := match maxCard
        case None => 0
        case Some(x) => x;
      forall id | id in cardsById ensures id.value <= lastCardId {
        assert id.value in CardKeys(cardsById);
      }
    }

    /** The loop at src/rust/src/state.rs:46-48: stores each card under its id. */
    method InsertCards(cards: seq<Card>)
      modifies this
      ensures notesById == old(notesById)
      ensures cardsById == Inserted(old(cardsById), cards)
    {
      for i := 0 to |cards|
        invariant notesById == old(notesById)
        invariant Inserted(cardsById, cards[i..]) == Inserted(old(cardsById), cards)
      {
        assert cards[i..][1..] == cards[i + 1..];
        cardsById := cardsById[cards[i].id := cards[i]];
      }
    }

    /** Lines 32-48 of `add_note`: derives the cards for `noteId` with ids
        after the largest card id and stores them. */
    method AddCards(noteId: NoteId, kind: CreateCardsKind) returns (cards: seq<Card>)
      modifies this
      ensures notesById == old(notesById)
      ensures |cards| >= 1 && IsNextId(CardKeys(old(cardsById)), cards[0].id.value)
      ensures DerivedFrom(cards, kind, noteId, cards[0].id.value - 1)
      ensures cardsById == Inserted(old(cardsById), cards)
    {
      var lastCardId := LastCardId();
      cards := DeriveCards(kind, noteId, lastCardId);
      assert forall i :: 0 <= i < |cards| ==> cards[i].id == CardId(lastCardId + 1 + i);
      InsertCards(cards);
    }

    /** `State::add_note`: stores the requested note under a fresh id, derives
        its cards with fresh ids from the global card counter, stores them and
        returns the note with its cards in derivation order. */
    method AddNote(request: CreateNoteRequest) returns (note: Note, cards: seq<Card>)
      modifies this
      // the note: the next note id, the request's fields, stored, nothing else touched
      ensures IsNextId(NoteKeys(old(notesById)), note.id.value)
      ensures note.id !in old(notesById)
      ensures note == request.Build(note.id).0
      ensures notesById == old(notesById)[note.id := note]
      // the cards: ids continue from the largest card id, kinds as requested,
      // each stored under its id, every earlier card kept
      ensures |cards| >= 1 && IsNextId(CardKeys(old(cardsById)), cards[0].id.value)
      ensures DerivedFrom(cards, request.cardsKind, note.id, cards[0].id.value - 1)
      ensures forall i :: 0 <= i < |cards| ==> cards[i].id !in old(cardsById)
      ensures cardsById == Inserted(old(cardsById), cards)
      ensures forall i :: 0 <= i < |cards| ==> cards[i].id in cardsById && cardsById[cards[i].id] == cards[i]
      ensures forall id :: id in old(cardsById) ==> id in cardsById && cardsById[id] == old(cardsById)[id]
      ensures |cardsById| == |old(cardsById)| + |cards|
      // on a valid repository: ids run 1, 2, 3, ... in both maps
      ensures old(Valid()) ==> Valid()
      ensures old(Valid()) ==> note.id == NoteId(|old(notesById)| + 1)
      ensures old(Valid()) ==> cards == DeriveCards(request.cardsKind, note.id, |old(cardsById)|)
    {
      var noteId := NextNoteId();
      var built := request.Build(noteId);
      note := built.0;
      var createCardsKind := built.1;
      notesById := notesById[noteId := note];

      ghost var cardsBefore := cardsById;
      cards := AddCards(noteId, createCardsKind);
      ghost var lastCardId: nat := cards[0].id.value - 1;
      FreshCardsInserted(cardsBefore, createCardsKind, noteId, lastCardId, cards);
      if old(Valid()) {
        AddKeepsValid(old(notesById), cardsBefore, note, createCardsKind, lastCardId, cards);
        DerivationIsUnique(cards, createCardsKind, noteId, lastCardId);
      }
    }
  }
}
