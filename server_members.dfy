/** Server members with profiles, and the fallback profile for a member without one. */
module ServerMembers {
  import opened Wrappers
  import opened Text
  import opened Records
  import PrincipalDisplay

  datatype MemberWithProfile = MemberWithProfile(principal: string, profile: Option<UserProfile>, isActive: bool, isFetchError: bool)

  /** Every active principal becomes one active entry, in order, with no profile yet. */
  function MembersWithProfiles(active: seq<string>): (r: seq<MemberWithProfile>)
    ensures |r| == |active|
    ensures forall i :: 0 <= i < |r| ==>
              r[i].principal == active[i] && r[i].profile.None? && r[i].isActive && !r[i].isFetchError
  {
    seq(|active|, i requires 0 <= i < |active| => MemberWithProfile(active[i], None, true, false))
  }

  /** The profile shown for a principal whose own cannot be had. */
  function FallbackProfile(principal: string): (p: UserProfile)
    ensures p.name == PrincipalDisplay.DisplayName(principal)
    ensures p.textOverlays == PrincipalDisplay.PrincipalInitials(principal)
    ensures p.bio == "" && p.avatarType == "default" && p.color == "#FFFFFF" && p.backgroundColor == "#9333EA"
    ensures p.profilePicture.None?
    ensures 0 < |p.name| <= 15 && 1 <= |p.textOverlays| <= 2
  {
    PrincipalDisplay.DisplayNameStable(principal);
    UserProfile(PrincipalDisplay.DisplayName(principal), "", "default", "#FFFFFF", "#9333EA",
                PrincipalDisplay.PrincipalInitials(principal), None)
  }

  /** What a profile query reports. */
  datatype ProfileQuery = ProfileQuery(profile: Option<UserProfile>, isLoading: bool, isError: bool)

  /** `useMemberProfile`'s choice between nothing, a fallback and the fetched profile. */
  function MemberProfile(principal: Option<string>, fetched: ProfileQuery): (r: ProfileQuery)
    ensures principal.None? ==> r == ProfileQuery(None, false, false)
    ensures principal.Some? && (fetched.isError || (!fetched.isLoading && fetched.profile.None?)) ==>
              r == ProfileQuery(Some(FallbackProfile(principal.value)), false, fetched.isError)
    ensures principal.Some? && !fetched.isError && (fetched.isLoading || fetched.profile.Some?) ==> r == fetched
  {
    if principal.None? then ProfileQuery(None, false, false)
    else if fetched.isError || (!fetched.isLoading && fetched.profile.None?) then
      ProfileQuery(Some(FallbackProfile(principal.value)), false, fetched.isError)
    else fetched
  }

  /** Once loading is over, a known member always has a profile to show. */
  lemma ProfileOnceLoaded(principal: string, fetched: ProfileQuery)
    ensures !MemberProfile(Some(principal), fetched).isLoading ==> MemberProfile(Some(principal), fetched).profile.Some?
    ensures MemberProfile(Some(principal), fetched).isError == fetched.isError
  {
  }
}
