/**
 * The server member list: who counts as owner, which rows offer the
 * moderation menu, the rows in input order, and the per-row moderation
 * dialogs whose actions the backend does not support.
 */
module ServerMemberList {
  import opened Wrappers

  /** `currentUserIsOwner`: a signed-in viewer whose principal string is the owner's. */
  predicate CurrentUserIsOwner(currentUserId: Option<string>, serverOwnerId: string) {
    currentUserId == Some(serverOwnerId)
  }

  /** The moderation menu is offered to an owner viewer on rows that are not the owner's. */
  predicate ShowModerationMenu(currentUserIsOwner: bool, rowIsOwner: bool) {
    currentUserIsOwner && !rowIsOwner
  }

  /** A presence entry as the list receives it. */
  datatype MemberPresence = MemberPresence(principal: string, isActive: bool)

  /** One rendered `MemberItem`. */
  datatype Row = Row(principal: string, isActive: bool, isOwner: bool, currentUserIsOwner: bool)

  /** The rows: one per member, in input order, flagged owner iff the principal is the owner's. */
  function Rows(members: seq<MemberPresence>, serverOwnerId: string, currentUserId: Option<string>): (r: seq<Row>)
    ensures |r| == |members|
    ensures forall i :: 0 <= i < |r| ==>
      r[i].principal == members[i].principal && r[i].isActive == members[i].isActive
      && (r[i].isOwner <==> members[i].principal == serverOwnerId)
      && (r[i].currentUserIsOwner <==> CurrentUserIsOwner(currentUserId, serverOwnerId))
  {
    seq(|members|, i requires 0 <= i < |members| =>
      Row(members[i].principal, members[i].isActive, members[i].principal == serverOwnerId,
          CurrentUserIsOwner(currentUserId, serverOwnerId)))
  }

  /** A menu row is never the owner's and is seen only by the owner, so never on the viewer's own row. */
  lemma MenuRows(members: seq<MemberPresence>, serverOwnerId: string, currentUserId: Option<string>, i: nat)
    requires i < |members|
    ensures var row := Rows(members, serverOwnerId, currentUserId)[i];
      ShowModerationMenu(row.currentUserIsOwner, row.isOwner) <==>
        currentUserId == Some(serverOwnerId) && members[i].principal != serverOwnerId
    ensures var row := Rows(members, serverOwnerId, currentUserId)[i];
      currentUserId == Some(members[i].principal) ==> !ShowModerationMenu(row.currentUserIsOwner, row.isOwner)
  {
  }

  /** What the list body shows. */
  datatype ListView = LoadingPlaceholders | Empty(message: string) | Listed(rows: seq<Row>)

  function ListBody(isLoading: bool, members: seq<MemberPresence>, serverOwnerId: string,
                    currentUserId: Option<string>): (v: ListView)
    ensures isLoading <==> v.LoadingPlaceholders?
    ensures !isLoading && members == [] ==> v == Empty("No active members")
    ensures v.Listed? ==> members != [] && v.rows == Rows(members, serverOwnerId, currentUserId)
  {
    if isLoading then LoadingPlaceholders
    else if members == [] then Empty("No active members")
    else Listed(Rows(members, serverOwnerId, currentUserId))
  }

  /** The role a "Set Role" item selects. */
  datatype ServerRole = AdminRole | ModRole

  const KickUnsupported := "Kick functionality is not yet supported by the backend"
  const BanUnsupported := "Ban functionality is not yet supported by the backend"
  const RoleUnsupported := "Role management is not yet supported by the backend"

  /**
   * One row's moderation dialogs. `reported` holds the error notices shown;
   * nothing here reaches the backend.
   */
  class MemberItem {
    var kickDialog: bool
    var banDialog: bool
    var banDuration: string
    var roleDialog: bool
    var selectedRole: Option<ServerRole>
    var reported: seq<string>

    constructor ()
      ensures !kickDialog && !banDialog && banDuration == "" && !roleDialog && selectedRole.None?
      ensures reported == []
    {
      kickDialog := false;
      banDialog := false;
      banDuration := "";
      roleDialog := false;
      selectedRole := None;
      reported := [];
    }

    method OpenKick()
      modifies this
      ensures kickDialog
      ensures banDialog == old(banDialog) && banDuration == old(banDuration) && roleDialog == old(roleDialog)
      ensures selectedRole == old(selectedRole) && reported == old(reported)
    {
      kickDialog := true;
    }

    method OpenBan()
      modifies this
      ensures banDialog
      ensures kickDialog == old(kickDialog) && banDuration == old(banDuration) && roleDialog == old(roleDialog)
      ensures selectedRole == old(selectedRole) && reported == old(reported)
    {
      banDialog := true;
    }

    method EditBanDuration(text: string)
      modifies this
      ensures banDuration == text
      ensures kickDialog == old(kickDialog) && banDialog == old(banDialog) && roleDialog == old(roleDialog)
      ensures selectedRole == old(selectedRole) && reported == old(reported)
    {
      banDuration := text;
    }

    /** A "Set Role" item: remembers the role and opens the confirmation. */
    method PickRole(role: ServerRole)
      modifies this
      ensures selectedRole == Some(role) && roleDialog
      ensures kickDialog == old(kickDialog) && banDialog == old(banDialog) && banDuration == old(banDuration)
      ensures reported == old(reported)
    {
      selectedRole := Some(role);
      roleDialog := true;
    }

    /** `handleKick`: reports the kick unsupported and closes its dialog. */
    method HandleKick()
      modifies this
      ensures !kickDialog && reported == old(reported) + [KickUnsupported]
      ensures banDialog == old(banDialog) && banDuration == old(banDuration) && roleDialog == old(roleDialog)
      ensures selectedRole == old(selectedRole)
    {
      reported := reported + [KickUnsupported];
      kickDialog := false;
    }

    /** The ban dialog's Cancel: closes it and clears the duration. */
    method CancelBan()
      modifies this
      ensures !banDialog && banDuration == ""
      ensures kickDialog == old(kickDialog) && roleDialog == old(roleDialog)
      ensures selectedRole == old(selectedRole) && reported == old(reported)
    {
      banDialog := false;
      banDuration := "";
    }

    /** `handleBan`: reports the ban unsupported, closes its dialog and clears the duration. */
    method HandleBan()
      modifies this
      ensures !banDialog && banDuration == "" && reported == old(reported) + [BanUnsupported]
      ensures kickDialog == old(kickDialog) && roleDialog == old(roleDialog)
      ensures selectedRole == old(selectedRole)
    {
      reported := reported + [BanUnsupported];
      banDialog := false;
      banDuration := "";
    }

    /** `handleSetRole`: reports role management unsupported, closes its dialog and clears the role. */
    method HandleSetRole()
      modifies this
      ensures !roleDialog && selectedRole.None? && reported == old(reported) + [RoleUnsupported]
      ensures kickDialog == old(kickDialog) && banDialog == old(banDialog) && banDuration == old(banDuration)
    {
      reported := reported + [RoleUnsupported];
      roleDialog := false;
      selectedRole := None;
    }
  }
}
