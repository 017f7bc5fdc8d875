/** Cards and their two kinds (src/rust/src/models/card.rs). */
module Cards {
  import opened Notes

  /** `CardId(pub u64)`; the wrapped integer is unbounded here. */
  datatype CardId = CardId(value: nat)

  /** Which side of the note a card shows first. */
  datatype CardKind = Term | Definition

  /** A card refers to its note by id only. */
  datatype Card = Card(id: CardId, noteId: NoteId, kind: CardKind)
  {
    /** `Card::new`. */
    static function New(id: CardId, noteId: NoteId, kind: CardKind): (c: Card)
      ensures c.id == id && c.noteId == noteId && c.kind == kind
    {
      Card(id, noteId, kind)
    }
  }

  /** A card kind is one of exactly two values. */
  lemma CardKindHasTwoValues(k: CardKind)
    ensures k == Term || k == Definition
    ensures Term != Definition
  {
  }

  /** Card ids are equal exactly when the wrapped integers are. */
  lemma CardIdEquality(a: CardId, b: CardId)
    ensures a == b <==> a.value == b.value
  {
  }

  /** Card equality is field by field. */
  lemma CardEquality(c: Card, d: Card)
    ensures c == d <==> c.id == d.id && c.noteId == d.noteId && c.kind == d.kind
  {
  }
}
