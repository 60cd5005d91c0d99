/**
 * The application shell: which room or server is selected, the pending
 * invite from the page address, the stored account-switch intent, and the
 * derived flags for profile setup and server ownership.
 */
module App {
  import opened Wrappers
  import opened Text
  import opened Records
  import ServerMembers

  /** The caller's profile query: not yet known, known to be absent, or present. */
  datatype ProfileData = Undefined | Null | Present(profile: UserProfile)

  /** Profile setup is shown once a signed-in user's profile has been fetched and found absent. */
  predicate ShowProfileSetup(identity: Option<string>, loading: bool, fetched: bool, data: ProfileData) {
    identity.Some? && !loading && fetched && data == Null
  }

  /** An undefined result, or one still loading, never opens profile setup. */
  lemma ProfileSetupNeedsAnswer(identity: Option<string>, loading: bool, fetched: bool, data: ProfileData)
    ensures ShowProfileSetup(identity, loading, fetched, data) ==> data == Null && identity.Some?
    ensures data.Undefined? || data.Present? || loading || !fetched ==> !ShowProfileSetup(identity, loading, fetched, data)
  {
  }

  /** `servers.find(s => s.id === id)`: the first server with that id. */
  function FindServer(servers: seq<Server>, id: string): (r: Option<Server>)
    ensures r.None? <==> forall i :: 0 <= i < |servers| ==> servers[i].id != id
    ensures r.Some? ==> r.value in servers && r.value.id == id
  {
    if servers == [] then None
    else if servers[0].id == id then Some(servers[0])
    else
      assert forall i :: 1 <= i < |servers| ==> servers[i] == servers[1..][i - 1];
      FindServer(servers[1..], id)
  }

  /** The selected server as the page resolves it; nothing while the list is loading or nothing is selected. */
  function SelectedServer(servers: Option<seq<Server>>, selected: Option<string>): (r: Option<Server>)
    ensures r.Some? ==> servers.Some? && selected.Some? && r.value in servers.value && r.value.id == selected.value
  {
    if servers.None? || selected.None? then None else FindServer(servers.value, selected.value)
  }

  /** The caller owns the selected server: it exists, there is an identity, and the owner is that principal. */
  function IsServerOwner(servers: Option<seq<Server>>, selected: Option<string>, identity: Option<string>): (r: bool)
    ensures r <==> SelectedServer(servers, selected).Some? && identity.Some?
                   && SelectedServer(servers, selected).value.owner == identity.value
    ensures r ==> exists s :: s in servers.value && s.id == selected.value && s.owner == identity.value
  {
    var s := SelectedServer(servers, selected);
    s.Some? && identity.Some? && s.value.owner == identity.value
  }

  /** With unique server ids, ownership depends on no other server in the list. */
  lemma OwnerWithUniqueIds(servers: seq<Server>, selected: string, identity: string)
    requires forall i, j :: 0 <= i < j < |servers| ==> servers[i].id != servers[j].id
    ensures IsServerOwner(Some(servers), Some(selected), Some(identity))
            <==> exists s :: s in servers && s.id == selected && s.owner == identity
  {
    var r := FindServer(servers, selected);
    if exists s :: s in servers && s.id == selected && s.owner == identity {
      var s :| s in servers && s.id == selected && s.owner == identity;
      var i :| 0 <= i < |servers| && servers[i] == s;
      var j :| 0 <= j < |servers| && servers[j] == r.value;
      assert servers[i].id == servers[j].id;
    }
  }

  /** The header shows the caller's profile, or the member fallback for the caller's principal. */
  function DisplayProfile(data: ProfileData, identity: Option<string>): (p: UserProfile)
    ensures data.Present? ==> p == data.profile
    ensures !data.Present? ==> p == ServerMembers.FallbackProfile(if identity.Some? then identity.value else "")
  {
    if data.Present? then data.profile
    else ServerMembers.FallbackProfile(if identity.Some? then identity.value else "")
  }

  datatype Notice = Info(text: string) | Alert(text: string)

  const SwitchSucceeded := "Successfully switched to alternate account!"
  const SwitchMismatch := "You signed in with a different account. Please sign out and sign in with the intended alternate account to complete the switch."

  /**
   * The shell's state. `persistedInvite` is the `invite` parameter kept in
   * the address and session storage; `switchIntent` the stored target of an
   * account switch.
   */
  class Shell {
    var selectedRoomId: Option<string>
    var selectedServerId: Option<string>
    var pendingInviteCode: Option<string>
    var showInviteDialog: bool
    var persistedInvite: Option<string>
    var switchIntent: Option<string>
    var notices: seq<Notice>

    /** At most one of a room and a server is selected, and the invite dialog always has a code. */
    predicate Valid()
      reads this
    {
      (selectedRoomId.None? || selectedServerId.None?)
      && (showInviteDialog ==> Truthy(pendingInviteCode))
    }

    constructor (persistedInvite: Option<string>, switchIntent: Option<string>)
      ensures Valid()
      ensures selectedRoomId.None? && selectedServerId.None? && pendingInviteCode.None? && !showInviteDialog
      ensures this.persistedInvite == persistedInvite && this.switchIntent == switchIntent && notices == []
    {
      selectedRoomId := None;
      selectedServerId := None;
      pendingInviteCode := None;
      showInviteDialog := false;
      this.persistedInvite := persistedInvite;
      this.switchIntent := switchIntent;
      notices := [];
    }

    /** Selecting a room clears the server. */
    method SelectRoom(roomId: Option<string>)
      requires Valid()
      modifies this
      ensures Valid()
      ensures selectedRoomId == roomId && selectedServerId.None?
      ensures pendingInviteCode == old(pendingInviteCode) && showInviteDialog == old(showInviteDialog)
      ensures persistedInvite == old(persistedInvite) && switchIntent == old(switchIntent) && notices == old(notices)
    {
      selectedRoomId := roomId;
      selectedServerId := None;
    }

    /** Selecting a server clears the room. */
    method SelectServer(serverId: Option<string>)
      requires Valid()
      modifies this
      ensures Valid()
      ensures selectedServerId == serverId && selectedRoomId.None?
      ensures pendingInviteCode == old(pendingInviteCode) && showInviteDialog == old(showInviteDialog)
      ensures persistedInvite == old(persistedInvite) && switchIntent == old(switchIntent) && notices == old(notices)
    {
      selectedServerId := serverId;
      selectedRoomId := None;
    }

    /** Once the server list is loaded, a selected server that is not in it is dropped. */
    method PruneSelectedServer(servers: Option<seq<Server>>)
      requires Valid()
      modifies this
      ensures Valid()
      ensures Truthy(old(selectedServerId)) && servers.Some? && FindServer(servers.value, old(selectedServerId).value).None?
              ==> selectedServerId.None?
      ensures !(Truthy(old(selectedServerId)) && servers.Some? && FindServer(servers.value, old(selectedServerId).value).None?)
              ==> selectedServerId == old(selectedServerId)
      ensures selectedServerId.Some? && servers.Some? && Truthy(selectedServerId) ==>
                exists s :: s in servers.value && s.id == selectedServerId.value
      ensures selectedRoomId == old(selectedRoomId) && pendingInviteCode == old(pendingInviteCode)
      ensures showInviteDialog == old(showInviteDialog) && persistedInvite == old(persistedInvite)
      ensures switchIntent == old(switchIntent) && notices == old(notices)
    {
      if Truthy(selectedServerId) && servers.Some? {
        if FindServer(servers.value, selectedServerId.value).None? {
          selectedServerId := None;
        }
      }
    }

    /**
     * After sign-in a stored switch intent is consumed whatever the
     * outcome; the success notice appears only when the signed-in principal
     * is the intended one.
     */
    method CheckSwitchIntent(identity: Option<string>)
      requires Valid()
      modifies this
      ensures Valid()
      ensures identity.None? || !Truthy(old(switchIntent)) ==> switchIntent == old(switchIntent) && notices == old(notices)
      ensures identity.Some? && Truthy(old(switchIntent)) ==>
                switchIntent.None?
                && notices == old(notices) + [if identity.value == old(switchIntent).value then Info(SwitchSucceeded) else Alert(SwitchMismatch)]
      ensures selectedRoomId == old(selectedRoomId) && selectedServerId == old(selectedServerId)
      ensures pendingInviteCode == old(pendingInviteCode) && showInviteDialog == old(showInviteDialog)
      ensures persistedInvite == old(persistedInvite)
    {
      if identity.None? {
        return;
      }
      if Truthy(switchIntent) {
        if identity.value == switchIntent.value {
          notices := notices + [Info(SwitchSucceeded)];
        } else {
          notices := notices + [Alert(SwitchMismatch)];
        }
        switchIntent := None;
      }
    }

    /** The invite dialog opens for a persisted code only once the user is signed in. */
    method CheckInviteParameter(authenticated: bool)
      requires Valid()
      modifies this
      ensures Valid()
      ensures Truthy(persistedInvite) && authenticated ==> pendingInviteCode == persistedInvite && showInviteDialog
      ensures !(Truthy(persistedInvite) && authenticated) ==>
                pendingInviteCode == old(pendingInviteCode) && showInviteDialog == old(showInviteDialog)
      ensures selectedRoomId == old(selectedRoomId) && selectedServerId == old(selectedServerId)
      ensures persistedInvite == old(persistedInvite) && switchIntent == old(switchIntent) && notices == old(notices)
    {
      if Truthy(persistedInvite) && authenticated {
        pendingInviteCode := persistedInvite;
        showInviteDialog := true;
      }
    }

    /** Joining through the invite forgets the code and selects the joined server. */
    method InviteConfirm(serverId: string)
      requires Valid()
      modifies this
      ensures Valid()
      ensures persistedInvite.None? && pendingInviteCode.None? && !showInviteDialog
      ensures selectedServerId == Some(serverId) && selectedRoomId.None?
      ensures switchIntent == old(switchIntent) && notices == old(notices)
    {
      persistedInvite := None;
      pendingInviteCode := None;
      showInviteDialog := false;
      selectedServerId := Some(serverId);
      selectedRoomId := None;
    }

    /** Declining forgets the code and leaves the selection alone. */
    method InviteCancel()
      requires Valid()
      modifies this
      ensures Valid()
      ensures persistedInvite.None? && pendingInviteCode.None? && !showInviteDialog
      ensures selectedServerId == old(selectedServerId) && selectedRoomId == old(selectedRoomId)
      ensures switchIntent == old(switchIntent) && notices == old(notices)
    {
      persistedInvite := None;
      pendingInviteCode := None;
      showInviteDialog := false;
    }
  }
}
