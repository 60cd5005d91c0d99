/**
 * What the two profile dialogs share: a colour swatch, the profile built on
 * submit and the live preview.
 */
module ProfileForm {
  import opened Wrappers
  import opened Text
  import opened Records

  /** A palette entry: background, text colour and its caption. */
  datatype Swatch = Swatch(bg: string, text: string, caption: string)

  predicate DistinctBackgrounds(palette: seq<Swatch>) {
    forall i, j :: 0 <= i < j < |palette| ==> palette[i].bg != palette[j].bg
  }

  const NameRequired := "Please enter your name"

  /**
   * The profile a submit saves, or nothing when the trimmed name is empty.
   * Name and bio are trimmed; the single overlay letter is the upper-cased
   * first non-blank character of the name.
   */
  function Submission(name: string, bio: string, swatch: Swatch, picture: Option<Blob>): (r: Option<UserProfile>)
    ensures r.None? <==> AllSpace(name)
    ensures r.Some? ==>
              && r.value.name == Trim(name) && r.value.name != "" && IsTrimmed(r.value.name)
              && r.value.bio == Trim(bio)
              && r.value.avatarType == "default"
              && r.value.color == swatch.text && r.value.backgroundColor == swatch.bg
              && r.value.textOverlays == [Upper(TrimStart(name)[0])]
              && r.value.profilePicture == picture
  {
    var trimmed := Trim(name);
    if trimmed == "" then None
    else
      assert trimmed[0] == TrimStart(name)[0] by {
        assert trimmed == TrimStart(name)[..|trimmed|];
      }
      Some(UserProfile(trimmed, Trim(bio), "default", swatch.text, swatch.bg, UpperStr(FirstChar(trimmed)), picture))
  }

  /** White space typed around the name or bio never changes what is saved. */
  lemma SubmissionIgnoresPadding(a: string, name: string, b: string, c: string, bio: string, d: string,
                                 swatch: Swatch, picture: Option<Blob>)
    requires AllSpace(a) && AllSpace(b) && AllSpace(c) && AllSpace(d)
    ensures Submission(a + name + b, c + bio + d, swatch, picture) == Submission(name, bio, swatch, picture)
  {
    TrimIgnoresPadding(a, name, b);
    TrimIgnoresPadding(c, bio, d);
  }

  /** A profile as a submit builds it from its own fields. */
  predicate SavedShape(p: UserProfile) {
    && p.name != "" && IsTrimmed(p.name) && IsTrimmed(p.bio)
    && p.avatarType == "default" && p.textOverlays == [Upper(p.name[0])]
  }

  /** Submitting a saved profile's own fields again saves the same profile. */
  lemma ResubmitUnchanged(p: UserProfile, swatch: Swatch)
    requires SavedShape(p) && swatch.bg == p.backgroundColor && swatch.text == p.color
    ensures Submission(p.name, p.bio, swatch, p.profilePicture) == Some(p)
  {
    TrimStartOfTrimmed(p.name);
    TrimEndOfTrimmed(p.name);
    TrimStartOfTrimmed(p.bio);
    TrimEndOfTrimmed(p.bio);
  }

  /** The live preview: placeholders stand in for an empty name; nothing is trimmed. */
  function Preview(name: string, bio: string, swatch: Swatch, picture: Option<Blob>): (r: UserProfile)
    ensures name == "" ==> r.name == "Your Name" && r.textOverlays == "Y"
    ensures name != "" ==> r.name == name && r.textOverlays == [Upper(name[0])]
    ensures r.bio == bio && r.avatarType == "default" && r.color == swatch.text && r.backgroundColor == swatch.bg
    ensures r.profilePicture == picture
  {
    var shown := if name == "" then "Your Name" else name;
    UserProfile(shown, bio, "default", swatch.text, swatch.bg, UpperStr(FirstChar(shown)), picture)
  }

  /** For a name typed without surrounding blanks the preview shows what will be saved. */
  lemma PreviewAgreesWithSubmission(name: string, bio: string, swatch: Swatch, picture: Option<Blob>)
    requires name != "" && IsTrimmed(name) && IsTrimmed(bio)
    ensures Submission(name, bio, swatch, picture) == Some(Preview(name, bio, swatch, picture))
  {
    TrimStartOfTrimmed(name);
    TrimEndOfTrimmed(name);
    TrimStartOfTrimmed(bio);
    TrimEndOfTrimmed(bio);
  }
}
