/** The chat message composer: trim-and-post, Enter to send. */
module MessageComposer {
  import opened Wrappers
  import opened Text

  datatype Post = Post(roomId: string, content: string)

  /** Enter without Shift sends; Shift+Enter inserts a line break. */
  predicate SubmitsOnKey(key: string, shift: bool) {
    key == "Enter" && !shift
  }

  /** The send button is disabled while a post is pending or the trimmed content is empty. */
  predicate SendDisabled(pending: bool, content: string) {
    pending || Trim(content) == ""
  }

  const EmptyMessage := "Message cannot be empty"
  const SendFailed := "Failed to send message. Please try again."

  class Composer {
    const roomId: string
    var content: string
    var posted: seq<Post>
    var reported: seq<string>

    constructor (roomId: string)
      ensures this.roomId == roomId && content == "" && posted == [] && reported == []
    {
      this.roomId := roomId;
      content := "";
      posted := [];
      reported := [];
    }

    method Type(text: string)
      modifies this
      ensures content == text && posted == old(posted) && reported == old(reported)
    {
      content := text;
    }

    /**
     * Blank content is refused and nothing is posted; otherwise the trimmed
     * text is posted to this room, and the box is cleared only on success.
     */
    method Submit(outcome: Outcome<()>)
      modifies this
      ensures AllSpace(old(content)) ==>
                posted == old(posted) && content == old(content) && reported == old(reported) + [EmptyMessage]
      ensures !AllSpace(old(content)) ==>
                && posted == old(posted) + [Post(roomId, Trim(old(content)))]
                && content == (if outcome.Success? then "" else old(content))
                && reported == old(reported) + (if outcome.Success? then [] else [SendFailed])
      ensures forall i :: |old(posted)| <= i < |posted| ==> posted[i].content != "" && IsTrimmed(posted[i].content)
    {
      var trimmed := Trim(content);
      if trimmed == "" {
        reported := reported + [EmptyMessage];
        return;
      }
      posted := posted + [Post(roomId, trimmed)];
      if outcome.Success? {
        content := "";
      } else {
        reported := reported + [SendFailed];
      }
    }

    /** A key press in the box: Enter without Shift submits, every other key changes nothing. */
    method KeyDown(key: string, shift: bool, outcome: Outcome<()>)
      modifies this
      ensures !SubmitsOnKey(key, shift) ==> content == old(content) && posted == old(posted) && reported == old(reported)
      ensures SubmitsOnKey(key, shift) && AllSpace(old(content)) ==>
                posted == old(posted) && content == old(content) && reported == old(reported) + [EmptyMessage]
      ensures SubmitsOnKey(key, shift) && !AllSpace(old(content)) ==>
                && posted == old(posted) + [Post(roomId, Trim(old(content)))]
                && content == (if outcome.Success? then "" else old(content))
                && reported == old(reported) + (if outcome.Success? then [] else [SendFailed])
    {
      if SubmitsOnKey(key, shift) {
        Submit(outcome);
      }
    }
  }

  /** An enabled send button always leads to a post, never to the empty-message refusal. */
  lemma EnabledSendPosts(content: string)
    ensures !SendDisabled(false, content) <==> !AllSpace(content)
  {
  }
}
