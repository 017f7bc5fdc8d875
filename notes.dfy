/** Notes, the builder that assembles them, and the note-creation request
    handed to the repository (src/rust/src/models/note.rs). */
module Notes {

  /** `NoteId(pub u64)`; the wrapped integer is unbounded here. */
  datatype NoteId = NoteId(value: nat)

  /** A term with its definitions, examples, usage notes and clues. */
  datatype Note = Note(
    id: NoteId,
    term: string,
    definitions: seq<string>,
    examples: seq<string>,
    notes: seq<string>,
    clues: seq<string>)
  {
    /** `Note::builder`: a builder for `id` and `term` with nothing else set. */
    static function Builder(id: NoteId, term: string): (b: NoteBuilder)
      ensures b.id == id && b.term == term
      ensures b.definitions == [] && b.examples == [] && b.notes == [] && b.clues == []
    {
      NoteBuilder.New(id, term)
    }
  }

  /** The builder: id and term up front, the four lists set one at a time. */
  datatype NoteBuilder = NoteBuilder(
    id: NoteId,
    term: string,
    definitions: seq<string>,
    examples: seq<string>,
    notes: seq<string>,
    clues: seq<string>)
  {
    static function New(id: NoteId, term: string): (b: NoteBuilder)
      ensures b.id == id && b.term == term
      ensures b.definitions == [] && b.examples == [] && b.notes == [] && b.clues == []
    {
      NoteBuilder(id, term, [], [], [], [])
    }

    /** Replaces (does not extend) the definitions; nothing else changes. */
    function Definitions(definitions: seq<string>): (b: NoteBuilder)
      ensures b.definitions == definitions
      ensures b.id == this.id && b.term == this.term
      ensures b.examples == this.examples && b.notes == this.notes && b.clues == this.clues
    {
      this.(definitions := definitions)
    }

    /** Replaces the examples; nothing else changes. */
    function Examples(examples: seq<string>): (b: NoteBuilder)
      ensures b.examples == examples
      ensures b.id == this.id && b.term == this.term
      ensures b.definitions == this.definitions && b.notes == this.notes && b.clues == this.clues
    {
      this.(examples := examples)
    }

    /** Replaces the usage notes; nothing else changes. */
    function Notes(notes: seq<string>): (b: NoteBuilder)
      ensures b.notes == notes
      ensures b.id == this.id && b.term == this.term
      ensures b.definitions == this.definitions && b.examples == this.examples && b.clues == this.clues
    {
      this.(notes := notes)
    }

    /** Replaces the clues; nothing else changes. */
    function Clues(clues: seq<string>): (b: NoteBuilder)
      ensures b.clues == clues
      ensures b.id == this.id && b.term == this.term
      ensures b.definitions == this.definitions && b.examples == this.examples && b.notes == this.notes
    {
      this.(clues := clues)
    }

    /** Moves all six fields into a note. */
    function Build(): (n: Note)
      ensures n.id == id && n.term == term
      ensures n.definitions == definitions && n.examples == examples
      ensures n.notes == notes && n.clues == clues
    {
      Note(id, term, definitions, examples, notes, clues)
    }
  }

  /** Which cards a new note gets (matched in src/rust/src/state.rs). */
  datatype CreateCardsKind = TermOnly | DefinitionOnly | TermAndDefinition

  /** What a caller asks the repository to store; the repository picks the id. */
  datatype CreateNoteRequest = CreateNoteRequest(
    term: string,
    definitions: seq<string>,
    examples: seq<string>,
    notes: seq<string>,
    clues: seq<string>,
    cardsKind: CreateCardsKind)
  {
    /** A request for `term` with all four lists empty. */
    static function New(term: string, cardsKind: CreateCardsKind): (r: CreateNoteRequest)
      ensures r.term == term && r.cardsKind == cardsKind
      ensures r.definitions == [] && r.examples == [] && r.notes == [] && r.clues == []
    {
      CreateNoteRequest(term, [], [], [], [], cardsKind)
    }

    /** The note this request describes under `id`, and the cards it asks for. */
    function Build(id: NoteId): (r: (Note, CreateCardsKind))
      ensures r.0 == Note(id, term, definitions, examples, notes, clues)
      ensures r.1 == cardsKind
    {
      var builder := Note.Builder(id, term)
        .Definitions(definitions)
        .Examples(examples)
        .Notes(notes)
        .Clues(clues);
      (builder.Build(), cardsKind)
    }
  }

  /** A fresh builder built at once gives a note with four empty lists. */
  lemma BuilderThenBuild(id: NoteId, term: string)
    ensures Note.Builder(id, term).Build() == Note(id, term, [], [], [], [])
  {
  }

  /** Setting a field twice keeps only the second value. */
  lemma SettersLastWriterWins(b: NoteBuilder, first: seq<string>, second: seq<string>)
    ensures b.Definitions(first).Definitions(second) == b.Definitions(second)
    ensures b.Examples(first).Examples(second) == b.Examples(second)
    ensures b.Notes(first).Notes(second) == b.Notes(second)
    ensures b.Clues(first).Clues(second) == b.Clues(second)
  {
  }

  /** Every note is what the builder makes of its own fields: build copies verbatim. */
  lemma BuildReproducesNote(n: Note)
    ensures Note.Builder(n.id, n.term)
              .Definitions(n.definitions)
              .Examples(n.examples)
              .Notes(n.notes)
              .Clues(n.clues)
              .Build() == n
  {
  }
}
