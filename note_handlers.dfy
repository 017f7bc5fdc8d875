/** The two note read handlers (src/rust/src/handlers/note.rs). They read the
    repository's note map; the mutex guard and the JSON body are left out. */
module NoteHandlers {
  import opened Notes
  import opened MapQueries
  import opened Repository

  /** `get_all_notes`: every stored note once, in the map's iteration order,
      which the handler does not sort; `keys` records that order. In a valid
      repository no two listed notes share an id. */
  method GetAllNotes(state: State) returns (all: seq<Note>, ghost keys: seq<NoteId>)
    ensures |all| == |keys| == |state.notesById|
    ensures forall i :: 0 <= i < |keys| ==> keys[i] in state.notesById && all[i] == state.notesById[keys[i]]
    ensures forall k :: k in state.notesById ==> k in keys
    ensures forall i, j :: 0 <= i < j < |keys| ==> keys[i] != keys[j]
    ensures forall n :: n in all <==> n in state.notesById.Values
    ensures state.Valid() ==> forall i, j :: 0 <= i < j < |all| ==> all[i].id != all[j].id
    ensures state.Valid() ==> forall i :: 0 <= i < |all| ==> 1 <= all[i].id.value <= |all|
  {
    all, keys := CollectValues(state.notesById);
    forall n | n in state.notesById.Values ensures n in all {
      var k :| k in state.notesById && state.notesById[k] == n;
      var i :| 0 <= i < |keys| && keys[i] == k;
      assert all[i] == n;
    }
    if state.Valid() {
      forall i, j | 0 <= i < j < |all| ensures all[i].id != all[j].id {
        assert all[i].id == keys[i] && all[j].id == keys[j];
      }
      forall i | 0 <= i < |all| ensures 1 <= all[i].id.value <= |all| {
        assert all[i].id == keys[i];
      }
    }
  }

  /** `get_note`: the note stored under the id, or NotFound. In a valid
      repository it is found exactly for ids 1 to the note count, and carries that id. */
  function GetNote(state: State, id: nat): (r: Response<Note>)
    reads state
    ensures r.Ok? <==> NoteId(id) in state.notesById
    ensures r.Ok? ==> r.value == state.notesById[NoteId(id)]
    ensures state.Valid() ==> (r.Ok? <==> 1 <= id <= |state.notesById|)
    ensures state.Valid() && r.Ok? ==> r.value.id == NoteId(id)
  {
    Get(state.notesById, NoteId(id))
  }
}
