/** The first-run profile dialog. */
module ProfileSetup {
  import opened Wrappers
  import opened Text
  import opened Records
  import opened ProfileForm
  import ProfileEditor

  const Palette: seq<Swatch> := [
    Swatch("#D97706", "#FFFFFF", "Amber"),
    Swatch("#DC2626", "#FFFFFF", "Red"),
    Swatch("#2563EB", "#FFFFFF", "Blue"),
    Swatch("#16A34A", "#FFFFFF", "Green"),
    Swatch("#9333EA", "#FFFFFF", "Purple"),
    Swatch("#EA580C", "#FFFFFF", "Orange")
  ]

  /** The six swatches are the editor's first six, so their backgrounds are distinct too. */
  lemma PaletteIsEditorPrefix()
    ensures Palette == ProfileEditor.Palette[..6]
    ensures DistinctBackgrounds(Palette)
  {
    ProfileEditor.PaletteFacts();
  }

  /** The submit button is disabled while a save is pending or the trimmed name is empty. */
  predicate SubmitDisabled(pending: bool, name: string) {
    pending || Trim(name) == ""
  }

  /** An enabled button never leads to the blank-name refusal. */
  lemma EnabledSubmitSaves(name: string, bio: string, swatch: Swatch)
    requires !SubmitDisabled(false, name)
    ensures Submission(name, bio, swatch, None).Some?
  {
  }

  class SetupDialog {
    var name: string
    var bio: string
    var selectedColor: Swatch
    var saved: seq<UserProfile>
    var reported: seq<string>

    constructor ()
      ensures name == "" && bio == "" && selectedColor == Palette[0] && saved == [] && reported == []
    {
      name := "";
      bio := "";
      selectedColor := Palette[0];
      saved := [];
      reported := [];
    }

    method TypeName(text: string)
      modifies this
      ensures name == text && bio == old(bio) && selectedColor == old(selectedColor)
      ensures saved == old(saved) && reported == old(reported)
    {
      name := text;
    }

    method TypeBio(text: string)
      modifies this
      ensures bio == text && name == old(name) && selectedColor == old(selectedColor)
      ensures saved == old(saved) && reported == old(reported)
    {
      bio := text;
    }

    method PickColor(i: nat)
      requires i < |Palette|
      modifies this
      ensures selectedColor == Palette[i] && name == old(name) && bio == old(bio)
      ensures saved == old(saved) && reported == old(reported)
    {
      selectedColor := Palette[i];
    }

    /** Submit saves the built profile, which has no picture; a blank name is refused. */
    method Submit(outcome: Outcome<()>)
      modifies this
      ensures AllSpace(old(name)) ==> saved == old(saved) && reported == old(reported) + [NameRequired]
      ensures !AllSpace(old(name)) ==>
                && saved == old(saved) + [Submission(old(name), old(bio), old(selectedColor), None).value]
                && saved[|saved| - 1].profilePicture.None?
                && reported == old(reported) + (if outcome.Success? then [] else ["Failed to create profile. Please try again."])
      ensures name == old(name) && bio == old(bio) && selectedColor == old(selectedColor)
    {
      var profile := Submission(name, bio, selectedColor, None);
      if profile.None? {
        reported := reported + [NameRequired];
        return;
      }
      saved := saved + [profile.value];
      if outcome.Failure? {
        reported := reported + ["Failed to create profile. Please try again."];
      }
    }

    function PreviewProfile(): (r: UserProfile)
      reads this
      ensures r == Preview(name, bio, selectedColor, None)
    {
      Preview(name, bio, selectedColor, None)
    }
  }
}
