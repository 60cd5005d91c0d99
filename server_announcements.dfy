/**
 * The announcement thread of a server: the search filter, the pinned and
 * unpinned sections, the composer (attachments, posting, emoji insertion)
 * and each announcement's edit, pin and delete handlers.
 */
module ServerAnnouncements {
  import opened Wrappers
  import opened Text
  import opened Lists
  import opened Records

  /** The fields of `ServerAnnouncement` the thread's logic reads. */
  datatype Announcement = Announcement(id: nat, content: string, isPinned: bool, isDeleted: bool)

  // ---------------------------------------------------------------- search and sections

  /** The search test: the lowercased content contains the lowercased query. */
  predicate Matches(a: Announcement, query: string) {
    Contains(LowerStr(a.content), LowerStr(query))
  }

  /** `filteredAnnouncements`: a blank query keeps everything; otherwise the matches, in order. */
  function FilterAnnouncements(anns: seq<Announcement>, query: string): (r: seq<Announcement>)
    ensures Trim(query) == [] ==> r == anns
    ensures Trim(query) != [] ==> forall a :: a in r <==> a in anns && Matches(a, query)
    ensures Trim(query) != [] ==> forall a :: multiset(r)[a] == if Matches(a, query) then multiset(anns)[a] else 0
    ensures IsSubsequence(r, anns)
  {
    if Trim(query) != [] then Filter(anns, a => Matches(a, query))
    else SubsequenceOfSelf(anns); anns
  }

  /**
   * The query is matched untrimmed: only its blankness is decided on the
   * trimmed text. An announcement is found by its own content, but not by
   * that content with a trailing space, although both trim to the same query.
   */
  lemma QueryMatchedUntrimmed(a: Announcement)
    ensures Matches(a, a.content)
    ensures !Matches(a, a.content + " ")
    ensures Trim(a.content + " ") == Trim(a.content)
  {
    ContainsSelf(LowerStr(a.content));
    LongerNotContained(LowerStr(a.content), LowerStr(a.content + " "));
    TrimIgnoresTrailingSpace(a.content);
  }

  /** Searching the results again with the same query changes nothing. */
  lemma FilterIdempotentOnQuery(anns: seq<Announcement>, query: string)
    ensures FilterAnnouncements(FilterAnnouncements(anns, query), query) == FilterAnnouncements(anns, query)
  {
    if Trim(query) != [] {
      FilterIdempotent(anns, a => Matches(a, query));
    }
  }

  predicate IsPinnedShown(a: Announcement) { a.isPinned && !a.isDeleted }
  predicate IsUnpinned(a: Announcement) { !a.isPinned }

  /** `pinnedAnnouncements`. */
  function PinnedSection(anns: seq<Announcement>): (r: seq<Announcement>)
    ensures forall a :: a in r <==> a in anns && IsPinnedShown(a)
    ensures IsSubsequence(r, anns)
  {
    Filter(anns, IsPinnedShown)
  }

  /** `unpinnedAnnouncements`. */
  function UnpinnedSection(anns: seq<Announcement>): (r: seq<Announcement>)
    ensures forall a :: a in r <==> a in anns && IsUnpinned(a)
    ensures IsSubsequence(r, anns)
  {
    Filter(anns, IsUnpinned)
  }

  /**
   * The sections never share an announcement; together with the pinned and
   * deleted ones, which appear in neither, they account for every
   * announcement exactly once.
   */
  lemma SectionsPartition(anns: seq<Announcement>)
    ensures forall a :: !(a in PinnedSection(anns) && a in UnpinnedSection(anns))
    ensures forall a :: a in anns && a.isPinned && a.isDeleted ==>
      a !in PinnedSection(anns) && a !in UnpinnedSection(anns)
    ensures multiset(PinnedSection(anns)) + multiset(UnpinnedSection(anns))
          + multiset(Filter(anns, (a: Announcement) => a.isPinned && a.isDeleted)) == multiset(anns)
  {
    var hidden := Filter(anns, (a: Announcement) => a.isPinned && a.isDeleted);
    assert forall a :: (multiset(PinnedSection(anns)) + multiset(UnpinnedSection(anns)) + multiset(hidden))[a]
                       == multiset(anns)[a];
  }

  // ---------------------------------------------------------------- attachments

  const ImageLimit: nat := 10 * MiB
  const VideoLimit: nat := 50 * MiB

  /** An image attachment must have an `image/` type and at most 10 MiB. */
  predicate ImageAcceptable(f: FileInfo) {
    StartsWith(f.mime, "image/") && f.size <= ImageLimit
  }

  /** A video attachment must have a `video/` type and at most 50 MiB. */
  predicate VideoAcceptable(f: FileInfo) {
    StartsWith(f.mime, "video/") && f.size <= VideoLimit
  }

  /** No file is acceptable both as image and as video. */
  lemma NoFileIsBoth(f: FileInfo)
    ensures !(ImageAcceptable(f) && VideoAcceptable(f))
  {
  }

  /**
   * The toast a selected image gets, the type being checked before the
   * size; none when the image is accepted.
   */
  function ImageRejection(f: FileInfo): (r: Option<string>)
    ensures r.None? <==> ImageAcceptable(f)
    ensures !StartsWith(f.mime, "image/") ==> r == Some("Please select an image file")
    ensures StartsWith(f.mime, "image/") && f.size > ImageLimit ==> r == Some("Image must be less than 10MB")
  {
    if !StartsWith(f.mime, "image/") then Some("Please select an image file")
    else if f.size > 10 * 1024 * 1024 then Some("Image must be less than 10MB")
    else None
  }

  /**
   * The toast a selected video gets, the type being checked before the
   * size; none when the video is accepted.
   */
  function VideoRejection(f: FileInfo): (r: Option<string>)
    ensures r.None? <==> VideoAcceptable(f)
    ensures !StartsWith(f.mime, "video/") ==> r == Some("Please select a video file")
    ensures StartsWith(f.mime, "video/") && f.size > VideoLimit ==> r == Some("Video must be less than 50MB")
  {
    if !StartsWith(f.mime, "video/") then Some("Please select a video file")
    else if f.size > 50 * 1024 * 1024 then Some("Video must be less than 50MB")
    else None
  }

  /** A toast that may or may not be shown, as log entries. */
  function Shown(toast: Option<string>): (r: seq<string>)
    ensures |r| <= 1 && (toast.Some? ==> r == [toast.value])
  {
    if toast.Some? then [toast.value] else []
  }

  // ---------------------------------------------------------------- emoji

  /** The textarea's selection. */
  datatype Selection = Selection(start: nat, end: nat)

  /** `content.slice(0, start) + emoji + content.slice(end)`. */
  function Splice(content: string, sel: Selection, emoji: string): string {
    Slice(content, 0, sel.start) + emoji + Slice(content, sel.end, |content|)
  }

  /**
   * For a selection inside the text, the emoji replaces exactly the selected
   * range: the text before and after is kept and the caret lands right
   * after the emoji.
   */
  lemma SpliceReplacesSelection(content: string, sel: Selection, emoji: string)
    requires sel.start <= sel.end <= |content|
    ensures Splice(content, sel, emoji) == content[..sel.start] + emoji + content[sel.end..]
    ensures |Splice(content, sel, emoji)| == |content| - (sel.end - sel.start) + |emoji|
    ensures Splice(content, sel, emoji)[..sel.start + |emoji|] == content[..sel.start] + emoji
    ensures Splice(content, sel, emoji)[sel.start + |emoji|..] == content[sel.end..]
  {
    var r := Splice(content, sel, emoji);
    assert r == (content[..sel.start] + emoji) + content[sel.end..];
  }

  // ---------------------------------------------------------------- composer

  /** A post request: the text sent and the attached files. */
  datatype Post = Post(content: string, image: Option<FileInfo>, video: Option<FileInfo>)

  /** A post never carries both an image and a video. */
  predicate AtMostOneAttachment(p: Post) {
    !(p.image.Some? && p.video.Some?)
  }

  const EmptyPost := "Please enter a message or attach media"

  /** The composer at the bottom of the thread. */
  class Composer {
    var content: string
    var imageFile: Option<FileInfo>
    var videoFile: Option<FileInfo>
    /** The file each preview shows. */
    var imagePreview: Option<FileInfo>
    var videoPreview: Option<FileInfo>
    var uploadProgress: nat
    var caret: Option<nat>
    /** Every post request sent, oldest first. */
    var posted: seq<Post>
    /** Every error toast shown, oldest first. */
    var reported: seq<string>

    /**
     * Every held attachment passed its check and is the one previewed; an
     * image and a video are never held together, since each attach button
     * is disabled while the other kind is held, so no post carries both.
     */
    predicate Valid()
      reads this
    {
      && (imageFile.Some? ==> ImageAcceptable(imageFile.value))
      && (videoFile.Some? ==> VideoAcceptable(videoFile.value))
      && !(imageFile.Some? && videoFile.Some?)
      && imagePreview == imageFile && videoPreview == videoFile
      && forall i :: 0 <= i < |posted| ==> AtMostOneAttachment(posted[i])
    }

    constructor ()
      ensures Valid()
      ensures content == "" && imageFile.None? && videoFile.None? && uploadProgress == 0
      ensures caret.None? && posted == [] && reported == []
    {
      content := "";
      imageFile := None;
      videoFile := None;
      imagePreview := None;
      videoPreview := None;
      uploadProgress := 0;
      caret := None;
      posted := [];
      reported := [];
    }

    /** Typing into the textarea. */
    method Edit(text: string)
      requires Valid()
      modifies this
      ensures Valid() && content == text
      ensures imageFile == old(imageFile) && videoFile == old(videoFile) && posted == old(posted)
      ensures uploadProgress == old(uploadProgress) && caret == old(caret) && reported == old(reported)
    {
      content := text;
    }

    /**
     * `handleImageSelect`, reachable only while no video is held: a rejected
     * file shows its toast and changes nothing else; a missing file changes
     * nothing.
     */
    method SelectImage(file: Option<FileInfo>)
      requires Valid() && videoFile.None?
      modifies this
      ensures Valid()
      ensures file.Some? && ImageAcceptable(file.value) ==> imageFile == file
      ensures file.None? || !ImageAcceptable(file.value) ==> imageFile == old(imageFile)
      ensures file.Some? ==> reported == old(reported) + Shown(ImageRejection(file.value))
      ensures file.None? ==> reported == old(reported)
      ensures content == old(content) && videoFile == old(videoFile) && posted == old(posted)
      ensures uploadProgress == old(uploadProgress) && caret == old(caret)
    {
      if file.Some? {
        var f := file.value;
        if !StartsWith(f.mime, "image/") {
          reported := reported + ["Please select an image file"];
          return;
        }
        if f.size > 10 * 1024 * 1024 {
          reported := reported + ["Image must be less than 10MB"];
          return;
        }
        imageFile := Some(f);
        imagePreview := Some(f);
      }
    }

    /**
     * `handleVideoSelect`, reachable only while no image is held: a rejected
     * file shows its toast and changes nothing else; a missing file changes
     * nothing.
     */
    method SelectVideo(file: Option<FileInfo>)
      requires Valid() && imageFile.None?
      modifies this
      ensures Valid()
      ensures file.Some? && VideoAcceptable(file.value) ==> videoFile == file
      ensures file.None? || !VideoAcceptable(file.value) ==> videoFile == old(videoFile)
      ensures file.Some? ==> reported == old(reported) + Shown(VideoRejection(file.value))
      ensures file.None? ==> reported == old(reported)
      ensures content == old(content) && imageFile == old(imageFile) && posted == old(posted)
      ensures uploadProgress == old(uploadProgress) && caret == old(caret)
    {
      if file.Some? {
        var f := file.value;
        if !StartsWith(f.mime, "video/") {
          reported := reported + ["Please select a video file"];
          return;
        }
        if f.size > 50 * 1024 * 1024 {
          reported := reported + ["Video must be less than 50MB"];
          return;
        }
        videoFile := Some(f);
        videoPreview := Some(f);
      }
    }

    /** `clearAttachments`: no files, no previews, progress back to 0. */
    method ClearAttachments()
      requires Valid()
      modifies this
      ensures Valid()
      ensures imageFile.None? && videoFile.None? && uploadProgress == 0
      ensures content == old(content) && posted == old(posted) && caret == old(caret) && reported == old(reported)
    {
      imageFile := None;
      videoFile := None;
      imagePreview := None;
      videoPreview := None;
      uploadProgress := 0;
    }

    /**
     * `handleSubmit`: refused with a toast when the trimmed text is empty and
     * nothing is attached; otherwise posts the trimmed text with the
     * attachments. `progress` holds the percentages the upload callback
     * reports, in order; it is registered only when a file is attached. On
     * success the composer is cleared; on failure the error toast is shown,
     * the text and files are kept, and the progress bar keeps the last
     * percentage reported.
     */
    method Submit(outcome: Outcome<()>, progress: seq<nat>)
      requires Valid()
      modifies this
      ensures Valid()
      ensures Trim(old(content)) == [] && old(imageFile).None? && old(videoFile).None? ==>
        && posted == old(posted) && content == old(content) && uploadProgress == old(uploadProgress)
        && reported == old(reported) + [EmptyPost]
      ensures !(Trim(old(content)) == [] && old(imageFile).None? && old(videoFile).None?) ==>
        && posted == old(posted) + [Post(Trim(old(content)), old(imageFile), old(videoFile))]
        && AtMostOneAttachment(posted[|posted| - 1])
        && (outcome.Success? ==>
              content == "" && imageFile.None? && videoFile.None? && uploadProgress == 0
              && reported == old(reported))
        && (outcome.Failure? ==>
              content == old(content) && imageFile == old(imageFile) && videoFile == old(videoFile)
              && reported == old(reported) + [Or(outcome.message, "Failed to post announcement")]
              && uploadProgress == (if (old(imageFile).Some? || old(videoFile).Some?) && progress != []
                                    then progress[|progress| - 1] else old(uploadProgress)))
      ensures caret == old(caret)
    {
      var trimmed := Trim(content);
      if trimmed == [] && imageFile.None? && videoFile.None? {
        reported := reported + [EmptyPost];
        return;
      }
      if (imageFile.Some? || videoFile.Some?) && progress != [] {
        uploadProgress := progress[|progress| - 1];
      }
      posted := posted + [Post(trimmed, imageFile, videoFile)];
      if outcome.Success? {
        content := "";
        ClearAttachments();
      } else {
        reported := reported + [Or(outcome.message, "Failed to post announcement")];
      }
    }

    /** `handleEmojiSelect`: without a textarea nothing happens. */
    method InsertEmoji(textarea: Option<Selection>, emoji: string)
      requires Valid()
      modifies this
      ensures Valid()
      ensures textarea.None? ==> content == old(content) && caret == old(caret)
      ensures textarea.Some? ==>
        content == Splice(old(content), textarea.value, emoji)
        && caret == Some(textarea.value.start + |emoji|)
      ensures imageFile == old(imageFile) && videoFile == old(videoFile) && posted == old(posted)
      ensures uploadProgress == old(uploadProgress) && reported == old(reported)
    {
      if textarea.None? {
        return;
      }
      var start := textarea.value.start;
      var end := textarea.value.end;
      content := Slice(content, 0, start) + emoji + Slice(content, end, |content|);
      caret := Some(start + |emoji|);
    }
  }

  /**
   * The composer never holds an image and a video together, and no post it
   * has sent carries both.
   */
  lemma ImageAndVideoExclusive(c: Composer)
    requires c.Valid()
    ensures !(c.imageFile.Some? && c.videoFile.Some?)
    ensures forall i :: 0 <= i < |c.posted| ==> !(c.posted[i].image.Some? && c.posted[i].video.Some?)
  {
  }

  /** A text post never carries padding and, without attachments, is never blank. */
  lemma PostedTextTrimmed(p: Post, raw: string)
    requires p.content == Trim(raw)
    requires p.image.None? && p.video.None? ==> Trim(raw) != []
    ensures IsTrimmed(p.content) && Trim(p.content) == p.content
    ensures p.image.None? && p.video.None? ==> !AllSpace(p.content)
  {
    TrimIdempotent(raw);
  }

  // ---------------------------------------------------------------- one announcement

  /** The requests an announcement's handlers send. */
  datatype Request =
    | EditRequest(id: nat, newContent: string)
    | PinRequest(id: nat, pin: bool)
    | DeleteRequest(id: nat)

  const EmptyEdit := "Announcement cannot be empty"

  /** `AnnouncementMessage`'s state for one announcement. */
  class Message {
    const announcement: Announcement
    var isEditing: bool
    var editContent: string
    var showDeleteDialog: bool
    /** Every request sent, oldest first. */
    var requests: seq<Request>
    /** Every error toast shown, oldest first. */
    var reported: seq<string>

    constructor (a: Announcement)
      ensures announcement == a && !isEditing && editContent == a.content
      ensures !showDeleteDialog && requests == [] && reported == []
    {
      announcement := a;
      isEditing := false;
      editContent := a.content;
      showDeleteDialog := false;
      requests := [];
      reported := [];
    }

    /** `handleEditClick`: edit mode on the current content. */
    method EditClick()
      modifies this
      ensures isEditing && editContent == announcement.content
      ensures requests == old(requests) && showDeleteDialog == old(showDeleteDialog) && reported == old(reported)
    {
      editContent := announcement.content;
      isEditing := true;
    }

    method EditText(text: string)
      modifies this
      ensures editContent == text
      ensures isEditing == old(isEditing) && requests == old(requests) && showDeleteDialog == old(showDeleteDialog)
      ensures reported == old(reported)
    {
      editContent := text;
    }

    /** `handleCancelEdit`: the original content is restored and edit mode ends. */
    method CancelEdit()
      modifies this
      ensures !isEditing && editContent == announcement.content
      ensures requests == old(requests) && showDeleteDialog == old(showDeleteDialog) && reported == old(reported)
    {
      editContent := announcement.content;
      isEditing := false;
    }

    /**
     * `handleSaveEdit`: blank text is refused with a toast; otherwise the
     * trimmed text is sent, and edit mode ends on success while a failure
     * shows the error and stays in edit mode.
     */
    method SaveEdit(outcome: Outcome<()>)
      modifies this
      ensures Trim(old(editContent)) == [] ==>
        requests == old(requests) && isEditing == old(isEditing) && reported == old(reported) + [EmptyEdit]
      ensures Trim(old(editContent)) != [] ==>
        && requests == old(requests) + [EditRequest(announcement.id, Trim(old(editContent)))]
        && (outcome.Success? ==> !isEditing && reported == old(reported))
        && (outcome.Failure? ==>
              isEditing == old(isEditing) && reported == old(reported) + [Or(outcome.message, "Failed to edit announcement")])
      ensures editContent == old(editContent) && showDeleteDialog == old(showDeleteDialog)
    {
      var trimmed := Trim(editContent);
      if trimmed == [] {
        reported := reported + [EmptyEdit];
        return;
      }
      requests := requests + [EditRequest(announcement.id, trimmed)];
      if outcome.Success? {
        isEditing := false;
      } else {
        reported := reported + [Or(outcome.message, "Failed to edit announcement")];
      }
    }

    /** `handleTogglePin`: asks for the opposite of the current pin state; a failure shows the error. */
    method TogglePin(outcome: Outcome<()>)
      modifies this
      ensures requests == old(requests) + [PinRequest(announcement.id, !announcement.isPinned)]
      ensures outcome.Success? ==> reported == old(reported)
      ensures outcome.Failure? ==> reported == old(reported) + [Or(outcome.message, "Failed to pin/unpin announcement")]
      ensures isEditing == old(isEditing) && editContent == old(editContent)
      ensures showDeleteDialog == old(showDeleteDialog)
    {
      requests := requests + [PinRequest(announcement.id, !announcement.isPinned)];
      if outcome.Failure? {
        reported := reported + [Or(outcome.message, "Failed to pin/unpin announcement")];
      }
    }

    method OpenDelete()
      modifies this
      ensures showDeleteDialog
      ensures isEditing == old(isEditing) && editContent == old(editContent) && requests == old(requests)
      ensures reported == old(reported)
    {
      showDeleteDialog := true;
    }

    /** `handleDelete`: the dialog closes only after a successful delete; a failure shows the error. */
    method Delete(outcome: Outcome<()>)
      modifies this
      ensures requests == old(requests) + [DeleteRequest(announcement.id)]
      ensures outcome.Success? ==> !showDeleteDialog && reported == old(reported)
      ensures outcome.Failure? ==>
        showDeleteDialog == old(showDeleteDialog)
        && reported == old(reported) + [Or(outcome.message, "Failed to delete announcement")]
      ensures isEditing == old(isEditing) && editContent == old(editContent)
    {
      requests := requests + [DeleteRequest(announcement.id)];
      if outcome.Success? {
        showDeleteDialog := false;
      } else {
        reported := reported + [Or(outcome.message, "Failed to delete announcement")];
      }
    }
  }

  /** The Save button is disabled while a save is pending or the text is blank. */
  predicate SaveDisabled(pending: bool, editContent: string) {
    pending || Trim(editContent) == []
  }
}
