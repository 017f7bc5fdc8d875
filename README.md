# Flashcards repository in Dafny

A model of the Rust back end of a small flashcard service. A user submits a
*note*: a term with its definitions, examples, usage notes and clues. The
service derives one or two *cards* from it: a term card, a definition card,
or both. It keeps notes and cards in an in-memory repository and serves them
back through four read handlers.

Modules, one per source file:

- `Notes` (`notes.dfy`, models/note.rs): the note, its builder and the
  note-creation request.
- `Cards` (`cards.dfy`, models/card.rs): cards and their two kinds.
- `Decks` (`deck.dfy`, models/deck.rs): the deck, a class with a sequence
  of cards that `Add` appends to.
- `Repository` (`repository.dfy`, state.rs): the repository.
  - It is a class `State` with the two maps as fields.
  - `AddNote` is one sequential method that updates both maps.
  - `Valid()` is the invariant `new` establishes and `add_note` keeps:
    - every note and card is stored under its own id;
    - the ids of each map are exactly 1 to the map's size;
    - every card belongs to a stored note.
- `MapQueries` (`map_queries.dfy`): the two map operations the handlers are
  made of.
  - A lookup that answers `NotFound`.
  - Collecting a map's values in an order the map chooses.
- `CardHandlers` (`card_handlers.dfy`, handlers/card.rs): `get_all_cards`
  and `get_card`, plus the two request scenarios written beside them as
  methods with exact postconditions.
- `NoteHandlers` (`note_handlers.dfy`, handlers/note.rs): `get_all_notes`
  and `get_note`.

The read handlers have no `modifies` clause, so they leave the repository
unchanged.

How the source files disagree with each other, and how the model resolves it:

- `add_note` (state.rs:21-51) calls `build(note_id)` on its argument and
  gets back a note and a card kind. The builder in models/note.rs has
  `build()` with no argument, and it returns only a note.
- The request scenarios in handlers/card.rs call `Note::builder(term, kind)`.
- The model reconciles these with `CreateNoteRequest`. It carries the term,
  the four lists and the card kind. `Build(id)` goes through the note
  builder of models/note.rs.
- The note handlers read `deck.notes_by_id`, which `State` does not have.
  They are modelled as reads of the repository's `notesById`.
- `NoteId` and `CardId` derive no ordering. Yet `keys().max()`
  (state.rs:25 and :33) and `c1.id.cmp(&c2.id)` (handlers/card.rs:18)
  compare them. The model compares ids by their wrapped integer, which is
  what `#[derive(PartialOrd, Ord)]` on the one-field structs would give.
  This is how `MaxKey` over the key integers and `SortedById` order them.

## Model

| member | source | states |
|---|---|---|
| Notes.NoteBuilder.New | src/rust/src/models/note.rs:34-43 | the builder holds the given id and term, and all four lists are empty |
| Notes.NoteBuilder.Definitions | src/rust/src/models/note.rs:45-48 | the definitions are replaced by the argument and every other field is unchanged |
| Notes.NoteBuilder.Examples | src/rust/src/models/note.rs:50-53 | the examples are replaced by the argument and every other field is unchanged |
| Notes.NoteBuilder.Notes | src/rust/src/models/note.rs:55-58 | the usage notes are replaced by the argument and every other field is unchanged |
| Notes.NoteBuilder.Clues | src/rust/src/models/note.rs:60-63 | the clues are replaced by the argument and every other field is unchanged |
| Notes.NoteBuilder.Build | src/rust/src/models/note.rs:65-82 | the note has exactly the builder's six fields |
| Notes.Note.Builder | src/rust/src/models/note.rs:86-88 | a builder for the id and term, with nothing else set |
| Notes.BuilderThenBuild | src/rust/src/models/note.rs:34-43 | building a fresh builder at once gives the note with four empty lists |
| Notes.SettersLastWriterWins | src/rust/src/models/note.rs:45-63 | setting a list twice keeps only the second value, for each of the four setters |
| Notes.BuildReproducesNote | src/rust/src/models/note.rs:65-88 | every note is what the builder produces from its own fields, so building loses nothing |
| Notes.CreateNoteRequest.New | src/rust/src/handlers/card.rs:53-56 | a request for a term and a card kind, with the four lists empty |
| Notes.CreateNoteRequest.Build | src/rust/src/state.rs:29 | the note under the allocated id carries the request's term and lists, and the requested card kind is passed on |
| Cards.Card.New | src/rust/src/models/card.rs:22-26 | the card has the given id, note id and kind |
| Cards.CardKindHasTwoValues | src/rust/src/models/card.rs:6-12 | a card kind is Term or Definition, and the two differ |
| Cards.CardIdEquality | src/rust/src/models/card.rs:3-4 | two card ids are equal exactly when their integers are |
| Cards.CardEquality | src/rust/src/models/card.rs:14-20 | two cards are equal exactly when id, note id and kind all are |
| Decks.Deck.constructor | src/rust/src/models/deck.rs:13-15 | a new deck has no cards |
| Decks.Deck.Add | src/rust/src/models/deck.rs:17-19 | the card is appended at the end and the earlier cards keep their order |
| MapQueries.Get | src/rust/src/handlers/card.rs:27-30 | Ok exactly when the key is stored, and then with the stored value; NotFound otherwise |
| MapQueries.CollectValues | src/rust/src/handlers/card.rs:17 | exactly the map's values, one for every key, each key visited once, so the length is the map's size |
| Repository.MaxKey | src/rust/src/state.rs:25-28 | None exactly for no keys; otherwise a key that no key exceeds |
| Repository.State.constructor | src/rust/src/state.rs:14-19 | both maps are empty, and the repository is valid |
| Repository.State.NextNoteId | src/rust/src/state.rs:25-28 | 1 when there are no notes, otherwise one more than the largest note id; never a stored id |
| Repository.State.LastCardId | src/rust/src/state.rs:33-36 | 0 when there are no cards, otherwise the largest card id; no card id exceeds it |
| Repository.DeriveCards | src/rust/src/state.rs:38-45 | one or two cards for the note, with ids following the last card id. There is a term card unless the kind is DefinitionOnly and a definition card unless it is TermOnly; of two cards the term card comes first |
| Repository.DerivationIsUnique | src/rust/src/state.rs:38-45 | any card list meeting that description is exactly what the match builds |
| Repository.TermAndDefinitionCards | src/rust/src/state.rs:41-44 | TermAndDefinition gives a term card, then a definition card whose id is one more |
| Repository.State.InsertCards | src/rust/src/state.rs:46-48 | the card map becomes the old one with each card inserted under its own id, in order; the notes are untouched |
| Repository.InsertedFresh | src/rust/src/state.rs:46-48 | inserting cards with fresh, distinct ids keeps every earlier entry, stores each new card under its id, adds nothing else and grows the map by the number of cards |
| Repository.FreshCardsInserted | src/rust/src/state.rs:33-48 | the derived cards never reuse a stored card id, so inserting them keeps every earlier card and stores each new one |
| Repository.State.AddCards | src/rust/src/state.rs:32-48 | derives the cards with ids after the largest card id and inserts them; the notes are untouched |
| Repository.NextNoteIdIsCount | src/rust/src/state.rs:25-28 | on dense note ids, the allocated note id is the note count plus one |
| Repository.NextCardIdIsCount | src/rust/src/state.rs:33-36 | on dense card ids, the first new card id is the card count plus one |
| Repository.NextNoteKeepsDense | src/rust/src/state.rs:25-30 | storing the note under the next id keeps the note ids dense |
| Repository.NextCardsKeepDense | src/rust/src/state.rs:33-48 | storing cards under the next ids keeps the card ids dense |
| Repository.NewCardsAttached | src/rust/src/state.rs:38-48 | after the add, every stored card, old or new, belongs to a stored note |
| Repository.AddKeepsValid | src/rust/src/state.rs:21-51 | on a valid repository the new note id is the note count plus one, the first card id is the card count plus one, and both maps stay valid |
| Repository.State.AddNote | src/rust/src/state.rs:21-51 | the note gets the next note id and the request's fields and is stored; the cards are derived for that note with ids after the largest card id, stored under their ids, and returned in derivation order; every earlier note and card is kept; on a valid repository the ids are the counts plus one, the cards are exactly the derived ones, and the repository stays valid |
| CardHandlers.InsertionPoint | src/rust/src/handlers/card.rs:18 | the position after every card whose id is not larger and before every card whose id is larger |
| CardHandlers.InsertAt | src/rust/src/handlers/card.rs:18 | inserting there keeps the ids in order and adds exactly that card |
| CardHandlers.SortById | src/rust/src/handlers/card.rs:18 | the result is ordered by card id and is a permutation of the input |
| CardHandlers.DistinctIdsPermuted | src/rust/src/handlers/card.rs:17-18 | reordering keeps the card ids distinct |
| CardHandlers.DenseListing | src/rust/src/handlers/card.rs:12-20 | an ascending listing of a dense card map, with each id once, is card 1, card 2, and so on |
| CardHandlers.GetAllCards | src/rust/src/handlers/card.rs:12-20 | a reordering of the card stored under each key, each key once, so every stored card appears as often as it is stored; in ascending id order; on a valid repository position i holds card i+1 |
| CardHandlers.GetCard | src/rust/src/handlers/card.rs:22-31 | the card stored under the id, or NotFound when there is none; on a valid repository it is found exactly for ids 1 to the card count and carries the requested id |
| CardHandlers.AddScenarioNotes | src/rust/src/handlers/card.rs:53-60 | a definition-only note and then a term-and-definition note, added to an empty repository, give the three cards (1, note 1, definition), (2, note 2, term) and (3, note 2, definition) |
| CardHandlers.GetAllCardsScenario | src/rust/src/handlers/card.rs:44-73 | an empty listing first; after the two notes, exactly those three cards in that order |
| CardHandlers.GetCardScenario | src/rust/src/handlers/card.rs:75-87 | card 1 is NotFound on a new repository, and after a term-only note it is (1, note 1, term) |
| NoteHandlers.GetAllNotes | src/rust/src/handlers/note.rs:12-20 | lists the note stored under each key exactly once, in an unpromised key order, so each stored note appears as often as it is stored; on a valid repository no two share an id and every id is between 1 and the count |
| NoteHandlers.GetNote | src/rust/src/handlers/note.rs:22-31 | the note stored under the id, or NotFound when there is none; on a valid repository it is found exactly for ids 1 to the note count and carries the requested id |

## Left out

- Repository.State.AddNote: the ids are unbounded integers. `x + 1` on the
  largest note id and `last_card_id + 1`/`+ 2` on a `u64` would overflow
  at 2^64 - 1, and that case is not modelled.
- The `Mutex` around each map, `lock().unwrap()` in `add_note`, and the
  handlers' mapping of a poisoned lock to status 500 are not modelled.
  Each operation is one sequential method on one object, so `add_note`
  runs atomically by construction.
- Routing, the server start-up and the HTTP status codes are not modelled.
  main.rs and routes/ are not part of this model. `Ok`/`NotFound` stand for
  200 and 404.
- JSON serialisation and the request helpers of handlers/mod.rs are not
  modelled. The scenarios' requests are modelled as direct handler calls.
- A uniqueness check on terms, with a Conflict answer, is not in the
  source, so it is not modelled. `add_note` stores a note whatever its term.
- NoteHandlers.GetAllNotes: does not promise an order. The handler returns
  the map's values without sorting them, and only `get_all_cards` sorts.
  The order of keys is left to the map and recorded as a ghost result.
- CardHandlers.SortById: does not state that `sort_by` is stable, that is,
  that cards with equal ids keep their input order. In a valid repository
  card ids are distinct, so stability does not change the result.
- The deck of models/deck.rs is modelled on its own. No other core file
  adds cards to it.
