/**
 * The server page's owner controls: icon and banner uploads with their
 * checks and progress, the bio and accent-colour editors, and invite links.
 * Every mutation's outcome is a parameter; `requests` logs the mutations
 * issued and `reported` the error notices shown.
 */
module ServerView {
  import opened Wrappers
  import opened Text
  import opened Records
  import UriComponent

  // ---------------------------------------------------------------- accent colour

  predicate IsHexDigit(c: char) {
    ('0' <= c <= '9') || ('A' <= c <= 'F') || ('a' <= c <= 'f')
  }

  /** `#` followed by exactly six hexadecimal digits of either case, and nothing else. */
  predicate IsHexColor(s: string) {
    |s| == 7 && s[0] == '#' && forall i :: 1 <= i < 7 ==> IsHexDigit(s[i])
  }

  /**
   * The anchored pattern `^#[0-9A-Fa-f]{6}$` run as an automaton: `state`
   * counts the pattern items already matched, and the input must end exactly
   * when all seven have been.
   */
  function MatchFrom(s: string, state: nat): bool
    requires state <= 7
    decreases |s|
  {
    if s == [] then state == 7
    else if state == 0 then s[0] == '#' && MatchFrom(s[1..], 1)
    else if state < 7 then IsHexDigit(s[0]) && MatchFrom(s[1..], state + 1)
    else false
  }

  /** The accent-colour check. */
  function AccentPatternTest(s: string): bool {
    MatchFrom(s, 0)
  }

  lemma {:induction false} MatchFromDigits(s: string, state: nat)
    requires 1 <= state <= 7
    ensures MatchFrom(s, state) <==> |s| == 7 - state && forall i :: 0 <= i < |s| ==> IsHexDigit(s[i])
    decreases |s|
  {
    if s != [] && state < 7 {
      MatchFromDigits(s[1..], state + 1);
      if forall i :: 0 <= i < |s[1..]| ==> IsHexDigit(s[1..][i]) {
        forall i | 1 <= i < |s| ensures IsHexDigit(s[i]) {
          assert s[i] == s[1..][i - 1];
        }
      }
    }
  }

  /** The pattern accepts exactly the strings `#` plus six hexadecimal digits. */
  lemma AccentPatternIff(s: string)
    ensures AccentPatternTest(s) <==> IsHexColor(s)
  {
    if s != [] {
      MatchFromDigits(s[1..], 1);
      if IsHexColor(s) {
        forall i | 0 <= i < |s[1..]| ensures IsHexDigit(s[1..][i]) {
          assert s[1..][i] == s[i + 1];
        }
      }
      if AccentPatternTest(s) {
        forall i | 1 <= i < 7 ensures IsHexDigit(s[i]) {
          assert s[i] == s[1..][i - 1];
        }
      }
    }
  }

  const DefaultAccent := "#404eed"
  const BioLimit: nat := 500

  /** The default colour passes the check; surrounding text or a missing `#` does not. */
  lemma AccentExamples()
    ensures AccentPatternTest(DefaultAccent)
    ensures AccentPatternTest("#404EED")
    ensures !AccentPatternTest("404eed")
    ensures !AccentPatternTest("#404eed ")
    ensures !AccentPatternTest("#404eeg")
  {
    AccentPatternIff(DefaultAccent);
    AccentPatternIff("#404EED");
    AccentPatternIff("404eed");
    AccentPatternIff("#404eed ");
    AccentPatternIff("#404eeg");
    assert !IsHexDigit("#404eeg"[6]);
  }

  // ---------------------------------------------------------------- uploads

  const IconLimit: nat := 5 * MiB
  const BannerLimit: nat := 10 * MiB
  const NotAnImage := "Please select an image file"
  const IconTooLarge := "Image must be smaller than 5MB"
  const BannerTooLarge := "Banner must be smaller than 10MB"

  /** Why a file is refused before upload, if it is; the type is checked first. */
  function UploadRejection(f: FileInfo, limit: nat, tooLarge: string): (r: Option<string>)
    ensures r.None? <==> StartsWith(f.mime, "image/") && f.size <= limit
    ensures !StartsWith(f.mime, "image/") ==> r == Some(NotAnImage)
    ensures StartsWith(f.mime, "image/") && f.size > limit ==> r == Some(tooLarge)
  {
    if !StartsWith(f.mime, "image/") then Some(NotAnImage)
    else if f.size > limit then Some(tooLarge)
    else None
  }

  function IconRejection(f: FileInfo): Option<string> { UploadRejection(f, IconLimit, IconTooLarge) }
  function BannerRejection(f: FileInfo): Option<string> { UploadRejection(f, BannerLimit, BannerTooLarge) }

  /** A file the banner accepts may still be too large for the icon, never the converse. */
  lemma IconStricterThanBanner(f: FileInfo)
    ensures IconRejection(f).None? ==> BannerRejection(f).None?
    ensures BannerRejection(f).None? && f.size > IconLimit ==> IconRejection(f) == Some(IconTooLarge)
  {
  }

  /** The upload buttons are disabled while a mutation is pending or progress is shown. */
  predicate UploadDisabled(pending: bool, progress: Option<nat>) {
    pending || progress.Some?
  }

  /** `error?.message || fallback`. */
  function ErrorText(message: Option<string>, fallback: string): (r: string)
    ensures Truthy(message) ==> r == message.value
    ensures !Truthy(message) ==> r == fallback
  {
    Or(message, fallback)
  }

  // ---------------------------------------------------------------- invite links

  const InviteQuery := "?invite="

  /** The link copied to the clipboard: the code is percent-encoded. */
  function InviteUrl(origin: string, pathname: string, code: string): (r: string)
    ensures |r| >= |origin + pathname + InviteQuery| + |code|
    ensures r[..|origin + pathname + InviteQuery|] == origin + pathname + InviteQuery
    ensures forall i :: |origin + pathname + InviteQuery| <= i < |r| ==>
              r[i] != '&' && r[i] != '#' && r[i] != '=' && r[i] != '?' && r[i] != ' '
  {
    origin + pathname + InviteQuery + UriComponent.Encode(code)
  }

  /** The link shown in the page: the code is inserted as it is. */
  function DisplayedLink(origin: string, pathname: string, code: string): string {
    origin + pathname + InviteQuery + code
  }

  /** Decoding the query value of the copied link gives back the code. */
  lemma InviteUrlCarriesCode(origin: string, pathname: string, code: string)
    ensures var prefix := origin + pathname + InviteQuery;
            UriComponent.Decode(InviteUrl(origin, pathname, code)[|prefix|..]) == Some(code)
  {
    var prefix := origin + pathname + InviteQuery;
    assert InviteUrl(origin, pathname, code)[|prefix|..] == UriComponent.Encode(code);
    UriComponent.DecodeEncode(code);
  }

  /** The shown and the copied links agree exactly when the code needs no escaping. */
  lemma DisplayedMatchesCopiedIff(origin: string, pathname: string, code: string)
    ensures DisplayedLink(origin, pathname, code) == InviteUrl(origin, pathname, code)
            <==> forall i :: 0 <= i < |code| ==> UriComponent.Unreserved(code[i])
  {
    var prefix := origin + pathname + InviteQuery;
    UriComponent.EncodeIdentityIff(code);
    if DisplayedLink(origin, pathname, code) == InviteUrl(origin, pathname, code) {
      assert DisplayedLink(origin, pathname, code)[|prefix|..] == code;
      assert InviteUrl(origin, pathname, code)[|prefix|..] == UriComponent.Encode(code);
    }
  }

  // ---------------------------------------------------------------- the page

  datatype Request =
    | SetIcon(serverId: string, icon: Option<FileInfo>)
    | SetBanner(serverId: string, banner: Option<FileInfo>)
    | SetBio(serverId: string, bio: string)
    | SetAccentColor(serverId: string, color: string)
    | GenerateInvite(serverId: string)
    | CopyToClipboard(text: string)
    | SaveLink(serverId: string, code: string)

  /**
   * The page's state for one server. `origin` and `pathname` stand for the
   * browser location.
   */
  class ServerPage {
    const server: Server
    const origin: string
    const pathname: string
    var uploadProgress: Option<nat>
    var bannerUploadProgress: Option<nat>
    var editingBio: bool
    var bioText: string
    var editingAccentColor: bool
    var accentColorValue: string
    var inviteCode: Option<string>
    var copied: bool
    var requests: seq<Request>
    var reported: seq<string>

    constructor (server: Server, origin: string, pathname: string)
      ensures this.server == server && this.origin == origin && this.pathname == pathname
      ensures uploadProgress.None? && bannerUploadProgress.None?
      ensures !editingBio && bioText == Or(server.bio, "")
      ensures !editingAccentColor && accentColorValue == Or(server.accentColor, DefaultAccent)
      ensures inviteCode.None? && !copied && requests == [] && reported == []
    {
      this.server := server;
      this.origin := origin;
      this.pathname := pathname;
      uploadProgress := None;
      bannerUploadProgress := None;
      editingBio := false;
      bioText := Or(server.bio, "");
      editingAccentColor := false;
      accentColorValue := Or(server.accentColor, DefaultAccent);
      inviteCode := None;
      copied := false;
      requests := [];
      reported := [];
    }

    /** The icon upload's progress callback. */
    method ReportIconProgress(percentage: nat)
      modifies this
      ensures uploadProgress == Some(percentage)
      ensures bannerUploadProgress == old(bannerUploadProgress) && requests == old(requests) && reported == old(reported)
      ensures editingBio == old(editingBio) && bioText == old(bioText) && inviteCode == old(inviteCode)
      ensures editingAccentColor == old(editingAccentColor) && accentColorValue == old(accentColorValue) && copied == old(copied)
    {
      uploadProgress := Some(percentage);
    }

    /** The banner upload's progress callback. */
    method ReportBannerProgress(percentage: nat)
      modifies this
      ensures bannerUploadProgress == Some(percentage)
      ensures uploadProgress == old(uploadProgress) && requests == old(requests) && reported == old(reported)
      ensures editingBio == old(editingBio) && bioText == old(bioText) && inviteCode == old(inviteCode)
      ensures editingAccentColor == old(editingAccentColor) && accentColorValue == old(accentColorValue) && copied == old(copied)
    {
      bannerUploadProgress := Some(percentage);
    }

    /**
     * A file picked for the icon: no file does nothing, a refused file only
     * reports why, an accepted one is uploaded and the progress is cleared
     * whatever the outcome.
     */
    method SelectIcon(file: Option<FileInfo>, outcome: Outcome<()>)
      modifies this
      ensures file.None? ==> requests == old(requests) && reported == old(reported) && uploadProgress == old(uploadProgress)
      ensures file.Some? && IconRejection(file.value).Some? ==>
                requests == old(requests) && reported == old(reported) + [IconRejection(file.value).value]
                && uploadProgress == old(uploadProgress)
      ensures file.Some? && IconRejection(file.value).None? ==>
                requests == old(requests) + [SetIcon(server.id, file)] && uploadProgress.None?
                && reported == old(reported) + (if outcome.Success? then []
                   else [ErrorText(outcome.message, "Failed to upload server icon. Please try again.")])
      ensures bannerUploadProgress == old(bannerUploadProgress) && inviteCode == old(inviteCode) && copied == old(copied)
      ensures editingBio == old(editingBio) && bioText == old(bioText)
      ensures editingAccentColor == old(editingAccentColor) && accentColorValue == old(accentColorValue)
    {
      if file.None? {
        return;
      }
      var rejection := IconRejection(file.value);
      if rejection.Some? {
        reported := reported + [rejection.value];
        return;
      }
      requests := requests + [SetIcon(server.id, file)];
      uploadProgress := None;
      if outcome.Failure? {
        reported := reported + [ErrorText(outcome.message, "Failed to upload server icon. Please try again.")];
      }
    }

    /** The same for the banner, with its own limit and progress. */
    method SelectBanner(file: Option<FileInfo>, outcome: Outcome<()>)
      modifies this
      ensures file.None? ==> requests == old(requests) && reported == old(reported) && bannerUploadProgress == old(bannerUploadProgress)
      ensures file.Some? && BannerRejection(file.value).Some? ==>
                requests == old(requests) && reported == old(reported) + [BannerRejection(file.value).value]
                && bannerUploadProgress == old(bannerUploadProgress)
      ensures file.Some? && BannerRejection(file.value).None? ==>
                requests == old(requests) + [SetBanner(server.id, file)] && bannerUploadProgress.None?
                && reported == old(reported) + (if outcome.Success? then []
                   else [ErrorText(outcome.message, "Failed to upload server banner. Please try again.")])
      ensures uploadProgress == old(uploadProgress) && inviteCode == old(inviteCode) && copied == old(copied)
      ensures editingBio == old(editingBio) && bioText == old(bioText)
      ensures editingAccentColor == old(editingAccentColor) && accentColorValue == old(accentColorValue)
    {
      if file.None? {
        return;
      }
      var rejection := BannerRejection(file.value);
      if rejection.Some? {
        reported := reported + [rejection.value];
        return;
      }
      requests := requests + [SetBanner(server.id, file)];
      bannerUploadProgress := None;
      if outcome.Failure? {
        reported := reported + [ErrorText(outcome.message, "Failed to upload server banner. Please try again.")];
      }
    }

    method ClearIcon(outcome: Outcome<()>)
      modifies this
      ensures requests == old(requests) + [SetIcon(server.id, None)]
      ensures reported == old(reported) + (if outcome.Success? then []
                else [ErrorText(outcome.message, "Failed to clear server icon. Please try again.")])
      ensures uploadProgress == old(uploadProgress) && bannerUploadProgress == old(bannerUploadProgress)
      ensures inviteCode == old(inviteCode) && copied == old(copied)
      ensures editingBio == old(editingBio) && bioText == old(bioText)
      ensures editingAccentColor == old(editingAccentColor) && accentColorValue == old(accentColorValue)
    {
      requests := requests + [SetIcon(server.id, None)];
      if outcome.Failure? {
        reported := reported + [ErrorText(outcome.message, "Failed to clear server icon. Please try again.")];
      }
    }

    method ClearBanner(outcome: Outcome<()>)
      modifies this
      ensures requests == old(requests) + [SetBanner(server.id, None)]
      ensures reported == old(reported) + (if outcome.Success? then []
                else [ErrorText(outcome.message, "Failed to clear server banner. Please try again.")])
      ensures uploadProgress == old(uploadProgress) && bannerUploadProgress == old(bannerUploadProgress)
      ensures inviteCode == old(inviteCode) && copied == old(copied)
      ensures editingBio == old(editingBio) && bioText == old(bioText)
      ensures editingAccentColor == old(editingAccentColor) && accentColorValue == old(accentColorValue)
    {
      requests := requests + [SetBanner(server.id, None)];
      if outcome.Failure? {
        reported := reported + [ErrorText(outcome.message, "Failed to clear server banner. Please try again.")];
      }
    }

    /** "Edit Bio" starts from the server's bio. */
    method EditBio()
      modifies this
      ensures uploadProgress == old(uploadProgress) && bannerUploadProgress == old(bannerUploadProgress)
      ensures editingBio && bioText == Or(server.bio, "")
      ensures requests == old(requests) && reported == old(reported)
      ensures editingAccentColor == old(editingAccentColor) && accentColorValue == old(accentColorValue)
      ensures inviteCode == old(inviteCode) && copied == old(copied)
    {
      bioText := Or(server.bio, "");
      editingBio := true;
    }

    method TypeBio(text: string)
      modifies this
      ensures uploadProgress == old(uploadProgress) && bannerUploadProgress == old(bannerUploadProgress)
      ensures bioText == text && editingBio == old(editingBio)
      ensures requests == old(requests) && reported == old(reported)
      ensures editingAccentColor == old(editingAccentColor) && accentColorValue == old(accentColorValue)
      ensures inviteCode == old(inviteCode) && copied == old(copied)
    {
      bioText := text;
    }

    /** Cancel discards the draft: the text is the server's bio again. */
    method CancelBio()
      modifies this
      ensures uploadProgress == old(uploadProgress) && bannerUploadProgress == old(bannerUploadProgress)
      ensures !editingBio && bioText == Or(server.bio, "")
      ensures requests == old(requests) && reported == old(reported)
      ensures editingAccentColor == old(editingAccentColor) && accentColorValue == old(accentColorValue)
      ensures inviteCode == old(inviteCode) && copied == old(copied)
    {
      bioText := Or(server.bio, "");
      editingBio := false;
    }

    /**
     * A bio longer than the limit is refused; otherwise it is sent as typed
     * and the editor closes only on success.
     */
    method SaveBio(outcome: Outcome<()>)
      modifies this
      ensures |old(bioText)| > BioLimit ==>
                requests == old(requests) && reported == old(reported) + ["Bio must be 500 characters or less"]
                && editingBio == old(editingBio)
      ensures |old(bioText)| <= BioLimit ==>
                requests == old(requests) + [SetBio(server.id, old(bioText))]
                && editingBio == (old(editingBio) && outcome.Failure?)
                && reported == old(reported) + (if outcome.Success? then []
                   else [ErrorText(outcome.message, "Failed to update server bio. Please try again.")])
      ensures bioText == old(bioText) && uploadProgress == old(uploadProgress) && bannerUploadProgress == old(bannerUploadProgress)
      ensures editingAccentColor == old(editingAccentColor) && accentColorValue == old(accentColorValue)
      ensures inviteCode == old(inviteCode) && copied == old(copied)
    {
      if |bioText| > BioLimit {
        reported := reported + ["Bio must be 500 characters or less"];
        return;
      }
      requests := requests + [SetBio(server.id, bioText)];
      if outcome.Success? {
        editingBio := false;
      } else {
        reported := reported + [ErrorText(outcome.message, "Failed to update server bio. Please try again.")];
      }
    }

    /** "Change Color" starts from the server's colour or the default. */
    method EditAccent()
      modifies this
      ensures uploadProgress == old(uploadProgress) && bannerUploadProgress == old(bannerUploadProgress)
      ensures editingAccentColor && accentColorValue == Or(server.accentColor, DefaultAccent)
      ensures requests == old(requests) && reported == old(reported)
      ensures editingBio == old(editingBio) && bioText == old(bioText)
      ensures inviteCode == old(inviteCode) && copied == old(copied)
    {
      accentColorValue := Or(server.accentColor, DefaultAccent);
      editingAccentColor := true;
    }

    method TypeAccent(text: string)
      modifies this
      ensures uploadProgress == old(uploadProgress) && bannerUploadProgress == old(bannerUploadProgress)
      ensures accentColorValue == text && editingAccentColor == old(editingAccentColor)
      ensures requests == old(requests) && reported == old(reported)
      ensures editingBio == old(editingBio) && bioText == old(bioText)
      ensures inviteCode == old(inviteCode) && copied == old(copied)
    {
      accentColorValue := text;
    }

    /** Cancel discards the draft colour. */
    method CancelAccent()
      modifies this
      ensures uploadProgress == old(uploadProgress) && bannerUploadProgress == old(bannerUploadProgress)
      ensures !editingAccentColor && accentColorValue == Or(server.accentColor, DefaultAccent)
      ensures requests == old(requests) && reported == old(reported)
      ensures editingBio == old(editingBio) && bioText == old(bioText)
      ensures inviteCode == old(inviteCode) && copied == old(copied)
    {
      accentColorValue := Or(server.accentColor, DefaultAccent);
      editingAccentColor := false;
    }

    /** Only a `#rrggbb` colour is sent; the editor closes only on success. */
    method SaveAccent(outcome: Outcome<()>)
      modifies this
      ensures !IsHexColor(old(accentColorValue)) ==>
                requests == old(requests) && editingAccentColor == old(editingAccentColor)
                && reported == old(reported) + ["Please enter a valid hex color (e.g., #404eed)"]
      ensures IsHexColor(old(accentColorValue)) ==>
                requests == old(requests) + [SetAccentColor(server.id, old(accentColorValue))]
                && editingAccentColor == (old(editingAccentColor) && outcome.Failure?)
                && reported == old(reported) + (if outcome.Success? then []
                   else [ErrorText(outcome.message, "Failed to update server accent color. Please try again.")])
      ensures accentColorValue == old(accentColorValue)
      ensures editingBio == old(editingBio) && bioText == old(bioText)
      ensures inviteCode == old(inviteCode) && copied == old(copied)
      ensures uploadProgress == old(uploadProgress) && bannerUploadProgress == old(bannerUploadProgress)
    {
      AccentPatternIff(accentColorValue);
      if !AccentPatternTest(accentColorValue) {
        reported := reported + ["Please enter a valid hex color (e.g., #404eed)"];
        return;
      }
      requests := requests + [SetAccentColor(server.id, accentColorValue)];
      if outcome.Success? {
        editingAccentColor := false;
      } else {
        reported := reported + [ErrorText(outcome.message, "Failed to update server accent color. Please try again.")];
      }
    }

    /** A generated code replaces the current one; a failure keeps it. */
    method Generate(outcome: Outcome<string>)
      modifies this
      ensures uploadProgress == old(uploadProgress) && bannerUploadProgress == old(bannerUploadProgress)
      ensures requests == old(requests) + [GenerateInvite(server.id)]
      ensures outcome.Success? ==> inviteCode == Some(outcome.value) && reported == old(reported)
      ensures outcome.Failure? ==>
                inviteCode == old(inviteCode) && reported == old(reported) + [ErrorText(outcome.message, "Failed to generate invite link")]
      ensures copied == old(copied) && editingBio == old(editingBio) && bioText == old(bioText)
      ensures editingAccentColor == old(editingAccentColor) && accentColorValue == old(accentColorValue)
    {
      requests := requests + [GenerateInvite(server.id)];
      if outcome.Success? {
        inviteCode := Some(outcome.value);
      } else {
        reported := reported + [ErrorText(outcome.message, "Failed to generate invite link")];
      }
    }

    /** Copying needs a non-empty code and writes the encoded link. */
    method CopyInvite(outcome: Outcome<()>)
      modifies this
      ensures uploadProgress == old(uploadProgress) && bannerUploadProgress == old(bannerUploadProgress)
      ensures !Truthy(old(inviteCode)) ==> requests == old(requests) && copied == old(copied) && reported == old(reported)
      ensures Truthy(old(inviteCode)) ==>
                requests == old(requests) + [CopyToClipboard(InviteUrl(origin, pathname, old(inviteCode).value))]
                && copied == (old(copied) || outcome.Success?)
                && reported == old(reported) + (if outcome.Success? then [] else ["Failed to copy invite link"])
      ensures inviteCode == old(inviteCode) && editingBio == old(editingBio) && bioText == old(bioText)
      ensures editingAccentColor == old(editingAccentColor) && accentColorValue == old(accentColorValue)
    {
      if !Truthy(inviteCode) {
        return;
      }
      var url := InviteUrl(origin, pathname, inviteCode.value);
      requests := requests + [CopyToClipboard(url)];
      if outcome.Success? {
        copied := true;
      } else {
        reported := reported + ["Failed to copy invite link"];
      }
    }

    /** Saving needs a non-empty code and saves it for this server. */
    method SaveInviteLink(outcome: Outcome<()>)
      modifies this
      ensures uploadProgress == old(uploadProgress) && bannerUploadProgress == old(bannerUploadProgress)
      ensures !Truthy(old(inviteCode)) ==> requests == old(requests) && reported == old(reported)
      ensures Truthy(old(inviteCode)) ==>
                requests == old(requests) + [SaveLink(server.id, old(inviteCode).value)]
                && reported == old(reported) + (if outcome.Success? then []
                   else [ErrorText(outcome.message, "Failed to save server link")])
      ensures inviteCode == old(inviteCode) && copied == old(copied)
      ensures editingBio == old(editingBio) && bioText == old(bioText)
      ensures editingAccentColor == old(editingAccentColor) && accentColorValue == old(accentColorValue)
    {
      if !Truthy(inviteCode) {
        return;
      }
      requests := requests + [SaveLink(server.id, inviteCode.value)];
      if outcome.Failure? {
        reported := reported + [ErrorText(outcome.message, "Failed to save server link")];
      }
    }
  }
}
