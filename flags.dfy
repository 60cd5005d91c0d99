/** The allow-list of profile flag badges and its lookup by id. */
module Flags {
  import opened Wrappers
  import opened Text

  datatype FlagOption = FlagOption(id: string, displayLabel: string, assetPath: string)

  const AllowedFlags: seq<FlagOption> := [
    FlagOption("rainbow", "Rainbow", "/assets/generated/flag-rainbow.dim_96x64.png"),
    FlagOption("transgender", "Transgender", "/assets/generated/flag-transgender.dim_96x64.png"),
    FlagOption("non-binary", "Non-Binary", "/assets/generated/flag-non-binary.dim_96x64.png"),
    FlagOption("eu", "European Union", "/assets/generated/flag-eu.dim_96x64.png"),
    FlagOption("african-union", "African Union", "/assets/generated/flag-african-union.dim_96x64.png"),
    FlagOption("asean", "ASEAN", "/assets/generated/flag-asean.dim_96x64.png"),
    FlagOption("ussr", "USSR (Historical)", "/assets/generated/flag-ussr.dim_96x64.png"),
    FlagOption("rhodesia", "Rhodesia (Historical)", "/assets/generated/flag-rhodesia.dim_96x64.png"),
    FlagOption("imperial-japan", "Imperial Japan (Historical)", "/assets/generated/flag-imperial-japan.dim_96x64.png"),
    FlagOption("fascist-italy", "Fascist Italy (Historical)", "/assets/generated/flag-fascist-italy.dim_96x64.png")
  ]

  predicate DistinctIds(flags: seq<FlagOption>) {
    forall i, j :: 0 <= i < j < |flags| ==> flags[i].id != flags[j].id
  }

  /**
   * `new Map(flags.map(f => [f.id, f]))`: entries are inserted in order, so
   * for a repeated id the last entry wins.
   */
  function BuildMap(flags: seq<FlagOption>): (m: map<string, FlagOption>)
    ensures m.Keys == set f | f in flags :: f.id
    ensures forall k :: k in m ==> m[k] in flags && m[k].id == k
  {
    if flags == [] then map[]
    else
      var last := flags[|flags| - 1];
      var init := BuildMap(flags[..|flags| - 1]);
      assert flags == flags[..|flags| - 1] + [last];
      init[last.id := last]
  }

  /** With distinct ids every entry is kept under its own id. */
  lemma {:induction false} BuildMapKeepsAll(flags: seq<FlagOption>)
    requires DistinctIds(flags)
    ensures forall i :: 0 <= i < |flags| ==> BuildMap(flags)[flags[i].id] == flags[i]
  {
    if flags != [] {
      var init := flags[..|flags| - 1];
      BuildMapKeepsAll(init);
      forall i | 0 <= i < |flags| ensures BuildMap(flags)[flags[i].id] == flags[i] {
        if i < |flags| - 1 {
          assert flags[i] == init[i];
        }
      }
    }
  }

  lemma AllowedIdsDistinct()
    ensures DistinctIds(AllowedFlags)
    ensures forall i :: 0 <= i < |AllowedFlags| ==> AllowedFlags[i].id != ""
  {
    // The first letter and the length already tell the ten ids apart.
    var keys := [('r', 7), ('t', 11), ('n', 10), ('e', 2), ('a', 13),
                 ('a', 5), ('u', 4), ('r', 8), ('i', 14), ('f', 13)];
    assert forall i :: 0 <= i < 10 ==> AllowedFlags[i].id != "" && (AllowedFlags[i].id[0], |AllowedFlags[i].id|) == keys[i];
    forall i, j | 0 <= i < j < |AllowedFlags|
      ensures AllowedFlags[i].id != AllowedFlags[j].id
    {
      assert keys[i] != keys[j];
    }
  }

  const FlagMap: map<string, FlagOption> := BuildMap(AllowedFlags)

  /** The map built from the allow-list loses no entry. */
  lemma FlagMapComplete()
    ensures |FlagMap.Keys| == |AllowedFlags|
    ensures forall i :: 0 <= i < |AllowedFlags| ==> FlagMap[AllowedFlags[i].id] == AllowedFlags[i]
  {
    AllowedIdsDistinct();
    BuildMapKeepsAll(AllowedFlags);
    var ids := set i | 0 <= i < |AllowedFlags| :: AllowedFlags[i].id;
    assert FlagMap.Keys == ids;
    DistinctImageSize(AllowedFlags);
  }

  lemma {:induction false} DistinctImageSize(flags: seq<FlagOption>)
    requires DistinctIds(flags)
    ensures |set i | 0 <= i < |flags| :: flags[i].id| == |flags|
  {
    if flags != [] {
      var init := flags[..|flags| - 1];
      DistinctImageSize(init);
      var s := set i | 0 <= i < |init| :: init[i].id;
      var t := set i | 0 <= i < |flags| :: flags[i].id;
      assert t == s + {flags[|flags| - 1].id};
      assert flags[|flags| - 1].id !in s;
    }
  }

  /** `validateFlagId`: an absent or empty id gives nothing, any other id its allowed option if there is one. */
  function ValidateFlagId(flagId: Option<string>): (r: Option<FlagOption>)
    ensures !Truthy(flagId) ==> r.None?
    ensures r.Some? ==> r.value in AllowedFlags && r.value.id == flagId.value
    ensures Truthy(flagId) && (exists f :: f in AllowedFlags && f.id == flagId.value) ==> r.Some?
  {
    if !Truthy(flagId) then None
    else if flagId.value in FlagMap then Some(FlagMap[flagId.value])
    else None
  }

  /** `getFlagById` delegates to `validateFlagId`, with the same guarantees. */
  function GetFlagById(flagId: Option<string>): (r: Option<FlagOption>)
    ensures !Truthy(flagId) ==> r.None?
    ensures r.Some? ==> r.value in AllowedFlags && r.value.id == flagId.value
    ensures Truthy(flagId) && (exists f :: f in AllowedFlags && f.id == flagId.value) ==> r.Some?
  {
    ValidateFlagId(flagId)
  }

  /** Every allowed option validates to itself. */
  lemma AllowedFlagsValidate()
    ensures forall i :: 0 <= i < |AllowedFlags| ==> ValidateFlagId(Some(AllowedFlags[i].id)) == Some(AllowedFlags[i])
  {
    AllowedIdsDistinct();
    FlagMapComplete();
  }

  /** `getAllowedFlags`: the ten options in declared order; each one looks up to itself. */
  function GetAllowedFlags(): (r: seq<FlagOption>)
    ensures r == AllowedFlags
    ensures |r| == 10 && DistinctIds(r)
    ensures forall i :: 0 <= i < |r| ==> ValidateFlagId(Some(r[i].id)) == Some(r[i])
  {
    AllowedIdsDistinct();
    AllowedFlagsValidate();
    AllowedFlags
  }
}
