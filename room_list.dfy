/** The room list: creating a room and highlighting the selected one. */
module RoomList {
  import opened Wrappers
  import opened Text

  /** A room's row is highlighted exactly when it is the selected room. */
  predicate IsHighlighted(selectedRoomId: Option<string>, roomId: string) {
    selectedRoomId == Some(roomId)
  }

  /** A room as the list shows it. */
  datatype Room = Room(id: string, name: string)

  /** The indices of the rows drawn highlighted. */
  function HighlightedRows(rooms: seq<Room>, selectedRoomId: Option<string>): (rows: set<nat>)
    ensures forall k: nat :: k in rows <==> k < |rooms| && IsHighlighted(selectedRoomId, rooms[k].id)
  {
    set k: nat | k < |rooms| && IsHighlighted(selectedRoomId, rooms[k].id)
  }

  /**
   * With room ids unique, the list highlights exactly the selected room's
   * row, so after a create the new room's row is the only one highlighted;
   * nothing is highlighted when no room is selected or the selected id is
   * not listed.
   */
  lemma HighlightOnlySelected(rooms: seq<Room>, selectedRoomId: Option<string>)
    requires forall i, j :: 0 <= i < j < |rooms| ==> rooms[i].id != rooms[j].id
    ensures forall k :: 0 <= k < |rooms| && selectedRoomId == Some(rooms[k].id) ==>
              HighlightedRows(rooms, selectedRoomId) == {k}
    ensures (forall k :: 0 <= k < |rooms| ==> selectedRoomId != Some(rooms[k].id)) ==>
              HighlightedRows(rooms, selectedRoomId) == {}
  {
    forall k | 0 <= k < |rooms| && selectedRoomId == Some(rooms[k].id)
      ensures HighlightedRows(rooms, selectedRoomId) == {k}
    {
      forall m | m in HighlightedRows(rooms, selectedRoomId) ensures m == k {
        assert rooms[m].id == rooms[k].id;
      }
    }
  }

  /** The create button is disabled while a create is pending or the trimmed name is empty. */
  predicate CreateDisabled(pending: bool, name: string) {
    pending || Trim(name) == ""
  }

  const NameRequired := "Please enter a room name"
  const CreateFailed := "Failed to create room. Please try again."

  /**
   * The list's form. `created` logs the names sent to the backend and
   * `selections` the room ids handed to the selection callback.
   */
  class RoomForm {
    var newRoomName: string
    var created: seq<string>
    var selections: seq<string>
    var reported: seq<string>

    constructor ()
      ensures newRoomName == "" && created == [] && selections == [] && reported == []
    {
      newRoomName := "";
      created := [];
      selections := [];
      reported := [];
    }

    method Type(text: string)
      modifies this
      ensures newRoomName == text && created == old(created) && selections == old(selections) && reported == old(reported)
    {
      newRoomName := text;
    }

    /**
     * A blank name is refused; otherwise the trimmed name is sent, and on
     * success the input is cleared and the new room selected. A failure
     * changes neither.
     */
    method CreateRoom(outcome: Outcome<string>)
      modifies this
      ensures AllSpace(old(newRoomName)) ==>
                created == old(created) && selections == old(selections) && newRoomName == old(newRoomName)
                && reported == old(reported) + [NameRequired]
      ensures !AllSpace(old(newRoomName)) ==>
                && created == old(created) + [Trim(old(newRoomName))]
                && (outcome.Success? ==> newRoomName == "" && selections == old(selections) + [outcome.value] && reported == old(reported))
                && (outcome.Failure? ==>
                      newRoomName == old(newRoomName) && selections == old(selections) && reported == old(reported) + [CreateFailed])
      ensures forall i :: |old(created)| <= i < |created| ==> created[i] != "" && IsTrimmed(created[i])
    {
      var trimmed := Trim(newRoomName);
      if trimmed == "" {
        reported := reported + [NameRequired];
        return;
      }
      created := created + [trimmed];
      if outcome.Success? {
        newRoomName := "";
        selections := selections + [outcome.value];
      } else {
        reported := reported + [CreateFailed];
      }
    }
  }
}
