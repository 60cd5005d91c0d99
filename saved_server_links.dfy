/**
 * Saving and removing a server link. Every failure, including a missing
 * backend connection, passes through an error handler that replaces its
 * message with one of three fixed texts.
 */
module SavedServerLinks {
  import opened Wrappers
  import opened Text

  const ActorUnavailable := "Actor not available"
  const AlreadySaved := "This server link is already saved"
  const SaveSignIn := "You must be signed in to save server links"
  const SaveFailed := "Failed to save server link. Please try again."
  const LinkNotFound := "Saved link not found"
  const RemoveSignIn := "You must be signed in to remove saved links"
  const RemoveFailed := "Failed to remove saved link. Please try again."

  /** The save failure's message, checked in order; a missing message counts as ''. */
  function SaveErrorMessage(message: Option<string>): (r: string)
    ensures Contains(Or(message, ""), "already saved") ==> r == AlreadySaved
    ensures !Contains(Or(message, ""), "already saved") && Contains(Or(message, ""), "Unauthorized") ==> r == SaveSignIn
    ensures !Contains(Or(message, ""), "already saved") && !Contains(Or(message, ""), "Unauthorized") ==> r == SaveFailed
    ensures r in {AlreadySaved, SaveSignIn, SaveFailed}
  {
    var m := Or(message, "");
    if Contains(m, "already saved") then AlreadySaved
    else if Contains(m, "Unauthorized") then SaveSignIn
    else SaveFailed
  }

  /** The remove failure's message, checked in order; a missing message counts as ''. */
  function RemoveErrorMessage(message: Option<string>): (r: string)
    ensures Contains(Or(message, ""), "not found") ==> r == LinkNotFound
    ensures !Contains(Or(message, ""), "not found") && Contains(Or(message, ""), "Unauthorized") ==> r == RemoveSignIn
    ensures !Contains(Or(message, ""), "not found") && !Contains(Or(message, ""), "Unauthorized") ==> r == RemoveFailed
    ensures r in {LinkNotFound, RemoveSignIn, RemoveFailed}
  {
    var m := Or(message, "");
    if Contains(m, "not found") then LinkNotFound
    else if Contains(m, "Unauthorized") then RemoveSignIn
    else RemoveFailed
  }

  /** A failure without a message gets the generic text. */
  lemma MissingMessageIsGeneric()
    ensures SaveErrorMessage(None) == SaveFailed
    ensures SaveErrorMessage(Some("")) == SaveFailed
    ensures RemoveErrorMessage(None) == RemoveFailed
    ensures RemoveErrorMessage(Some("")) == RemoveFailed
  {
    LongerNotContained("", "already saved");
    LongerNotContained("", "Unauthorized");
    LongerNotContained("", "not found");
  }

  /** The call as the mutation makes it: no backend connection fails before calling. */
  function Attempt(actorAvailable: bool, call: Outcome<()>): (r: Outcome<()>)
    ensures !actorAvailable ==> r == Failure(Some(ActorUnavailable))
    ensures actorAvailable ==> r == call
  {
    if !actorAvailable then Failure(Some(ActorUnavailable)) else call
  }

  /** What a save reports to its caller: success, or the normalised failure. */
  function SaveServerLink(actorAvailable: bool, call: Outcome<()>): (r: Outcome<()>)
    ensures r.Success? <==> actorAvailable && call.Success?
    ensures r.Failure? ==> r.message == Some(SaveErrorMessage(Attempt(actorAvailable, call).message))
  {
    var raw := Attempt(actorAvailable, call);
    if raw.Success? then raw else Failure(Some(SaveErrorMessage(raw.message)))
  }

  /** What a removal reports to its caller. */
  function RemoveSavedServerLink(actorAvailable: bool, call: Outcome<()>): (r: Outcome<()>)
    ensures r.Success? <==> actorAvailable && call.Success?
    ensures r.Failure? ==> r.message == Some(RemoveErrorMessage(Attempt(actorAvailable, call).message))
  {
    var raw := Attempt(actorAvailable, call);
    if raw.Success? then raw else Failure(Some(RemoveErrorMessage(raw.message)))
  }

  /** Without a backend connection the caller sees the generic text, not "Actor not available". */
  lemma NoActorIsGeneric(call: Outcome<()>)
    ensures SaveServerLink(false, call) == Failure(Some(SaveFailed))
    ensures RemoveSavedServerLink(false, call) == Failure(Some(RemoveFailed))
  {
    var s := ActorUnavailable;
    forall k | 0 <= k <= |s| - 13 ensures !OccursAt(s, "already saved", k) {
      assert s[k..k + 13][0] == s[k];
    }
    forall k | 0 <= k <= |s| - 12 ensures !OccursAt(s, "Unauthorized", k) {
      assert s[k..k + 12][0] == s[k];
    }
    forall k | 0 <= k <= |s| - 9 ensures !OccursAt(s, "not found", k) {
      assert s[k..k + 9][0] == s[k];
      assert s[k..k + 9][4] == s[k + 4];
    }
  }
}
