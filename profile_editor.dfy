/** The profile editor dialog: rehydration from the saved profile, picture handling and submit. */
module ProfileEditor {
  import opened Wrappers
  import opened Text
  import opened Records
  import opened ProfileForm

  const Palette: seq<Swatch> := [
    Swatch("#D97706", "#FFFFFF", "Amber"),
    Swatch("#DC2626", "#FFFFFF", "Red"),
    Swatch("#2563EB", "#FFFFFF", "Blue"),
    Swatch("#16A34A", "#FFFFFF", "Green"),
    Swatch("#9333EA", "#FFFFFF", "Purple"),
    Swatch("#EA580C", "#FFFFFF", "Orange"),
    Swatch("#0891B2", "#FFFFFF", "Cyan"),
    Swatch("#DB2777", "#FFFFFF", "Pink"),
    Swatch("#65A30D", "#FFFFFF", "Lime"),
    Swatch("#7C3AED", "#FFFFFF", "Violet"),
    Swatch("#0D9488", "#FFFFFF", "Teal"),
    Swatch("#C026D3", "#FFFFFF", "Fuchsia")
  ]

  /** No two swatches share a background, and all write white text. */
  lemma PaletteFacts()
    ensures |Palette| == 12 && DistinctBackgrounds(Palette)
    ensures forall i :: 0 <= i < |Palette| ==> Palette[i].text == "#FFFFFF"
  {
    // The second and third characters already tell the twelve backgrounds apart.
    var keys := [('D', '9'), ('D', 'C'), ('2', '5'), ('1', '6'), ('9', '3'), ('E', 'A'),
                 ('0', '8'), ('D', 'B'), ('6', '5'), ('7', 'C'), ('0', 'D'), ('C', '0')];
    assert forall i :: 0 <= i < 12 ==> |Palette[i].bg| == 7 && (Palette[i].bg[1], Palette[i].bg[2]) == keys[i];
    forall i, j | 0 <= i < j < |Palette|
      ensures Palette[i].bg != Palette[j].bg
    {
      assert keys[i] != keys[j];
    }
  }

  /** `palette.find(c => c.bg === bg)`: a swatch with that background, if any. */
  function FindByBackground(palette: seq<Swatch>, bg: string): (r: Option<Swatch>)
    ensures r.None? <==> forall i :: 0 <= i < |palette| ==> palette[i].bg != bg
    ensures r.Some? ==> r.value.bg == bg
  {
    if palette == [] then None
    else if palette[0].bg == bg then Some(palette[0])
    else
      assert forall i :: 1 <= i < |palette| ==> palette[i] == palette[1..][i - 1];
      FindByBackground(palette[1..], bg)
  }

  /** The swatch found is the first one with that background. */
  lemma {:induction false} FindIsFirst(palette: seq<Swatch>, bg: string)
    requires FindByBackground(palette, bg).Some?
    ensures exists i :: 0 <= i < |palette| && palette[i] == FindByBackground(palette, bg).value
                        && forall k :: 0 <= k < i ==> palette[k].bg != bg
  {
    if palette[0].bg != bg {
      FindIsFirst(palette[1..], bg);
      var i :| 0 <= i < |palette[1..]| && palette[1..][i] == FindByBackground(palette[1..], bg).value
               && forall k :: 0 <= k < i ==> palette[1..][k].bg != bg;
      assert palette[i + 1] == FindByBackground(palette, bg).value;
      forall k | 0 <= k < i + 1 ensures palette[k].bg != bg {
        if k > 0 { assert palette[k] == palette[1..][k - 1]; }
      }
    } else {
      assert palette[0] == FindByBackground(palette, bg).value;
    }
  }

  /** With distinct backgrounds the match is the one swatch with that background. */
  lemma FindUnique(palette: seq<Swatch>, i: nat)
    requires DistinctBackgrounds(palette) && i < |palette|
    ensures FindByBackground(palette, palette[i].bg) == Some(palette[i])
  {
    var r := FindByBackground(palette, palette[i].bg);
    FindIsFirst(palette, palette[i].bg);
    var j :| 0 <= j < |palette| && palette[j] == r.value;
    assert palette[j].bg == palette[i].bg;
  }

  /** The dialog's form state; `saved` logs the profiles sent, `reported` the error notices. */
  class Editor {
    var open: bool
    var name: string
    var bio: string
    var selectedColor: Swatch
    var profilePicture: Option<Blob>
    var uploadProgress: nat
    var previewUrl: Option<string>
    var saved: seq<UserProfile>
    var reported: seq<string>

    constructor (open: bool)
      ensures this.open == open && name == "" && bio == "" && selectedColor == Palette[0]
      ensures profilePicture.None? && uploadProgress == 0 && previewUrl.None?
      ensures saved == [] && reported == []
    {
      this.open := open;
      name := "";
      bio := "";
      selectedColor := Palette[0];
      profilePicture := None;
      uploadProgress := 0;
      previewUrl := None;
      saved := [];
      reported := [];
    }

    /**
     * The effect that runs when the dialog opens or the profile changes:
     * copy the saved profile in, or reset to defaults when there is none.
     */
    method Rehydrate(current: Option<UserProfile>)
      modifies this
      ensures !old(open) ==> name == old(name) && bio == old(bio) && selectedColor == old(selectedColor)
                             && profilePicture == old(profilePicture) && previewUrl == old(previewUrl)
      ensures old(open) && current.Some? ==>
                && name == current.value.name && bio == current.value.bio
                && selectedColor == FindByBackground(Palette, current.value.backgroundColor).GetOr(old(selectedColor))
                && profilePicture == current.value.profilePicture
                && previewUrl == (if current.value.profilePicture.Some? then Some(current.value.profilePicture.value.url) else None)
      ensures old(open) && current.None? ==>
                name == "" && bio == "" && selectedColor == Palette[0] && profilePicture.None? && previewUrl.None?
      ensures open == old(open) && uploadProgress == old(uploadProgress) && saved == old(saved) && reported == old(reported)
    {
      if !open {
        return;
      }
      if current.Some? {
        CopyProfile(current.value);
      } else {
        name := "";
        bio := "";
        selectedColor := Palette[0];
        profilePicture := None;
        previewUrl := None;
      }
    }

    /** Rehydration from a saved profile. */
    method CopyProfile(p: UserProfile)
      modifies this
      ensures name == p.name && bio == p.bio
      ensures selectedColor == FindByBackground(Palette, p.backgroundColor).GetOr(old(selectedColor))
      ensures profilePicture == p.profilePicture
      ensures previewUrl == (if p.profilePicture.Some? then Some(p.profilePicture.value.url) else None)
      ensures open == old(open) && uploadProgress == old(uploadProgress) && saved == old(saved) && reported == old(reported)
    {
      name := p.name;
      bio := p.bio;
      var matching := FindByBackground(Palette, p.backgroundColor);
      if matching.Some? {
        selectedColor := matching.value;
      }
      profilePicture := p.profilePicture;
      previewUrl := if p.profilePicture.Some? then Some(p.profilePicture.value.url) else None;
    }

    method TypeName(text: string)
      modifies this
      ensures uploadProgress == old(uploadProgress) && previewUrl == old(previewUrl)
      ensures name == text && bio == old(bio) && selectedColor == old(selectedColor) && profilePicture == old(profilePicture)
      ensures open == old(open) && saved == old(saved) && reported == old(reported)
    {
      name := text;
    }

    method TypeBio(text: string)
      modifies this
      ensures uploadProgress == old(uploadProgress) && previewUrl == old(previewUrl)
      ensures bio == text && name == old(name) && selectedColor == old(selectedColor) && profilePicture == old(profilePicture)
      ensures open == old(open) && saved == old(saved) && reported == old(reported)
    {
      bio := text;
    }

    method PickColor(i: nat)
      requires i < |Palette|
      modifies this
      ensures uploadProgress == old(uploadProgress) && previewUrl == old(previewUrl)
      ensures selectedColor == Palette[i] && name == old(name) && bio == old(bio) && profilePicture == old(profilePicture)
      ensures open == old(open) && saved == old(saved) && reported == old(reported)
    {
      selectedColor := Palette[i];
    }

    /** The picked picture's progress callback. */
    method ReportProgress(percentage: nat)
      modifies this
      ensures uploadProgress == percentage
      ensures name == old(name) && bio == old(bio) && selectedColor == old(selectedColor)
      ensures profilePicture == old(profilePicture) && previewUrl == old(previewUrl)
      ensures open == old(open) && saved == old(saved) && reported == old(reported)
    {
      uploadProgress := percentage;
    }

    /**
     * A picked file: no file does nothing; a non-image or one over 5 MiB is
     * refused with a notice; otherwise reading it either yields `blob`, shown
     * through the local `objectUrl`, or fails. Progress is back at 0
     * whenever the file was read.
     */
    method SelectPicture(file: Option<FileInfo>, read: Outcome<Blob>, objectUrl: string)
      modifies this
      ensures file.None? ==> profilePicture == old(profilePicture) && previewUrl == old(previewUrl)
                             && uploadProgress == old(uploadProgress) && reported == old(reported)
      ensures file.Some? && !StartsWith(file.value.mime, "image/") ==>
                profilePicture == old(profilePicture) && previewUrl == old(previewUrl) && uploadProgress == old(uploadProgress)
                && reported == old(reported) + ["Please select an image file"]
      ensures file.Some? && StartsWith(file.value.mime, "image/") && file.value.size > 5 * MiB ==>
                profilePicture == old(profilePicture) && previewUrl == old(previewUrl) && uploadProgress == old(uploadProgress)
                && reported == old(reported) + ["Image must be smaller than 5MB"]
      ensures file.Some? && StartsWith(file.value.mime, "image/") && file.value.size <= 5 * MiB ==>
                && uploadProgress == 0
                && (read.Success? ==> profilePicture == Some(read.value) && previewUrl == Some(objectUrl) && reported == old(reported))
                && (read.Failure? ==> profilePicture == old(profilePicture) && previewUrl == old(previewUrl)
                                      && reported == old(reported) + ["Failed to process image"])
      ensures name == old(name) && bio == old(bio) && selectedColor == old(selectedColor)
      ensures open == old(open) && saved == old(saved)
    {
      if file.None? {
        return;
      }
      if !StartsWith(file.value.mime, "image/") {
        reported := reported + ["Please select an image file"];
        return;
      }
      if file.value.size > 5 * MiB {
        reported := reported + ["Image must be smaller than 5MB"];
        return;
      }
      if read.Success? {
        profilePicture := Some(read.value);
        previewUrl := Some(objectUrl);
      } else {
        reported := reported + ["Failed to process image"];
      }
      uploadProgress := 0;
    }

    /** Remove clears both the picture and its preview. */
    method RemovePicture()
      modifies this
      ensures profilePicture.None? && previewUrl.None?
      ensures name == old(name) && bio == old(bio) && selectedColor == old(selectedColor) && uploadProgress == old(uploadProgress)
      ensures open == old(open) && saved == old(saved) && reported == old(reported)
    {
      profilePicture := None;
      previewUrl := None;
    }

    /** Submit saves the built profile and closes the dialog on success; a blank name is refused. */
    method Submit(outcome: Outcome<()>)
      modifies this
      ensures AllSpace(old(name)) ==>
                saved == old(saved) && open == old(open) && reported == old(reported) + [NameRequired]
      ensures !AllSpace(old(name)) ==>
                && saved == old(saved) + [Submission(old(name), old(bio), old(selectedColor), old(profilePicture)).value]
                && open == (old(open) && outcome.Failure?)
                && reported == old(reported) + (if outcome.Success? then [] else ["Failed to update profile. Please try again."])
      ensures name == old(name) && bio == old(bio) && selectedColor == old(selectedColor)
      ensures profilePicture == old(profilePicture) && previewUrl == old(previewUrl) && uploadProgress == old(uploadProgress)
    {
      var profile := Submission(name, bio, selectedColor, profilePicture);
      if profile.None? {
        reported := reported + [NameRequired];
        return;
      }
      saved := saved + [profile.value];
      if outcome.Success? {
        open := false;
      } else {
        reported := reported + ["Failed to update profile. Please try again."];
      }
    }

    /** The preview card. */
    function PreviewProfile(): (r: UserProfile)
      reads this
      ensures r == Preview(name, bio, selectedColor, profilePicture)
    {
      Preview(name, bio, selectedColor, profilePicture)
    }
  }

  /**
   * Opening the editor on a profile saved with a palette colour, then
   * submitting at once, saves that same profile again.
   */
  lemma ReopenAndSaveUnchanged(p: UserProfile, i: nat)
    requires SavedShape(p) && i < |Palette| && Palette[i].bg == p.backgroundColor && Palette[i].text == p.color
    ensures FindByBackground(Palette, p.backgroundColor) == Some(Palette[i])
    ensures Submission(p.name, p.bio, Palette[i], p.profilePicture) == Some(p)
  {
    PaletteFacts();
    FindUnique(Palette, i);
    ResubmitUnchanged(p, Palette[i]);
  }
}
