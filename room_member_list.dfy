/**
 * The room member list: role labels and colours, the merge of the presence
 * list with the role list, the three-key ordering, who sees role controls,
 * and the kick confirmation.
 */
module RoomMemberList {
  import opened Wrappers
  import opened Text
  import opened LexOrder

  /** `RoomMemberRole`. */
  datatype Role = Owner | Admin | Moderator | Member

  /** An entry of the room's role list. */
  datatype RoomMember = RoomMember(user: string, role: Role)

  /** An entry of the presence list: a principal and whether it is active. */
  datatype Presence = Presence(userId: string, isActive: bool)

  /** A merged entry, as the list renders it. */
  datatype Entry = Entry(userId: string, isActive: bool, role: Role)

  /** `getRoleLabel`. */
  function RoleLabel(r: Role): (s: string)
    ensures s in ["Owner", "Admin", "Moderator", "Member"]
    ensures s == "Owner" <==> r == Owner
    ensures s == "Member" <==> r == Member
  {
    match r
    case Owner => "Owner"
    case Admin => "Admin"
    case Moderator => "Moderator"
    case Member => "Member"
  }

  /** `getRoleColor`: a text colour per role, the muted one for plain members. */
  function RoleColor(r: Role): (s: string)
    ensures s == "text-muted-foreground" <==> r == Member
  {
    match r
    case Owner => "text-amber-500"
    case Admin => "text-red-500"
    case Moderator => "text-blue-500"
    case Member => "text-muted-foreground"
  }

  /** Distinct roles get distinct labels and distinct colours. */
  lemma LabelsAndColoursDistinct(a: Role, b: Role)
    requires a != b
    ensures RoleLabel(a) != RoleLabel(b) && RoleColor(a) != RoleColor(b)
  {
  }

  /** `roleOrder`: owner 0, admin 1, moderator 2, member 3. */
  function RoleRank(r: Role): (n: nat)
    ensures n <= 3
    ensures n == 0 <==> r == Owner
    ensures n == 3 <==> r == Member
  {
    match r
    case Owner => 0
    case Admin => 1
    case Moderator => 2
    case Member => 3
  }

  lemma RankInjective(a: Role, b: Role)
    requires RoleRank(a) == RoleRank(b)
    ensures a == b
  {
  }

  /** `roomMembers.find(m => m.user.toString() === u)?.role`: the role of the first entry for `u`. */
  function FindRole(roles: seq<RoomMember>, u: string): (r: Option<Role>)
    ensures r.None? <==> forall i :: 0 <= i < |roles| ==> roles[i].user != u
    ensures r.Some? ==> exists i :: 0 <= i < |roles| && roles[i] == RoomMember(u, r.value)
                                    && forall j :: 0 <= j < i ==> roles[j].user != u
  {
    if roles == [] then None
    else if roles[0].user == u then Some(roles[0].role)
    else
      var rest := FindRole(roles[1..], u);
      assert rest.Some? ==> exists i :: 0 <= i < |roles[1..]| && roles[1..][i] == RoomMember(u, rest.value)
                                         && forall j :: 0 <= j < i ==> roles[1..][j].user != u;
      if rest.Some? then
        ghost var i :| 0 <= i < |roles[1..]| && roles[1..][i] == RoomMember(u, rest.value)
                       && forall j :: 0 <= j < i ==> roles[1..][j].user != u;
        assert roles[i + 1] == RoomMember(u, rest.value);
        assert forall j :: 0 <= j < i + 1 ==> roles[j].user != u by {
          forall j | 0 <= j < i + 1 ensures roles[j].user != u {
            if j > 0 { assert roles[j] == roles[1..][j - 1]; }
          }
        }
        rest
      else rest
  }

  /** `currentUserRole`: the viewer's role, or none when nobody is signed in or the viewer has no entry. */
  function ViewerRole(principal: Option<string>, roles: seq<RoomMember>): (r: Option<Role>)
    ensures !Truthy(principal) ==> r.None?
    ensures Truthy(principal) ==> r == FindRole(roles, principal.value)
  {
    if !Truthy(principal) then None else FindRole(roles, principal.value)
  }

  /** `isOwner`. */
  predicate ViewerIsOwner(principal: Option<string>, roles: seq<RoomMember>) {
    ViewerRole(principal, roles) == Some(Owner)
  }

  /** A signed-in viewer is owner iff the first role-list entry for the viewer says owner. */
  lemma ViewerIsOwnerIff(principal: Option<string>, roles: seq<RoomMember>)
    ensures ViewerIsOwner(principal, roles) <==>
      Truthy(principal) &&
        (exists i :: 0 <= i < |roles| && roles[i] == RoomMember(principal.value, Owner)
                     && forall j :: 0 <= j < i ==> roles[j].user != principal.value)
  {
    if Truthy(principal) {
      var u := principal.value;
      var r := FindRole(roles, u);
      if exists i :: 0 <= i < |roles| && roles[i] == RoomMember(u, Owner)
                     && forall j :: 0 <= j < i ==> roles[j].user != u {
        var i :| 0 <= i < |roles| && roles[i] == RoomMember(u, Owner)
                 && forall j :: 0 <= j < i ==> roles[j].user != u;
        assert r.Some?;
        var k :| 0 <= k < |roles| && roles[k] == RoomMember(u, r.value)
                 && forall j :: 0 <= j < k ==> roles[j].user != u;
        assert !(k < i) && !(i < k);
      }
    }
  }

  /** `membersWithRoles`: each presence entry with the role from the role list, `member` when it has none. */
  function Merge(presence: seq<Presence>, roles: seq<RoomMember>): (r: seq<Entry>)
    ensures |r| == |presence|
    ensures forall i :: 0 <= i < |r| ==>
      r[i].userId == presence[i].userId && r[i].isActive == presence[i].isActive
      && r[i].role == FindRole(roles, presence[i].userId).GetOr(Member)
  {
    seq(|presence|, i requires 0 <= i < |presence| =>
      Entry(presence[i].userId, presence[i].isActive, FindRole(roles, presence[i].userId).GetOr(Member)))
  }

  /** A presence entry with no role-list entry merges as a plain member. */
  lemma UnlistedIsMember(presence: seq<Presence>, roles: seq<RoomMember>, i: nat)
    requires i < |presence|
    requires forall j :: 0 <= j < |roles| ==> roles[j].user != presence[i].userId
    ensures Merge(presence, roles)[i].role == Member
  {
  }

  // ---------------------------------------------------------------- ordering

  /** The comparator's order: role rank, then active before inactive, then principal. */
  predicate MemberLe(a: Entry, b: Entry) {
    || RoleRank(a.role) < RoleRank(b.role)
    || (RoleRank(a.role) == RoleRank(b.role)
        && ((a.isActive && !b.isActive) || (a.isActive == b.isActive && LexLe(a.userId, b.userId))))
  }

  lemma MemberLeTotal(a: Entry, b: Entry)
    ensures MemberLe(a, b) || MemberLe(b, a)
  {
    LexLeTotal(a.userId, b.userId);
  }

  lemma MemberLeTransitive(a: Entry, b: Entry, c: Entry)
    requires MemberLe(a, b) && MemberLe(b, c)
    ensures MemberLe(a, c)
  {
    if RoleRank(a.role) == RoleRank(b.role) == RoleRank(c.role) && a.isActive == b.isActive == c.isActive {
      LexLeTransitive(a.userId, b.userId, c.userId);
    }
  }

  /** Entries that tie both ways are equal, so the comparator leaves nothing to the sort's stability. */
  lemma MemberLeAntisymmetric(a: Entry, b: Entry)
    requires MemberLe(a, b) && MemberLe(b, a)
    ensures a == b
  {
    LexLeAntisymmetric(a.userId, b.userId);
    RankInjective(a.role, b.role);
  }

  predicate Sorted(s: seq<Entry>) {
    forall i, j :: 0 <= i < j < |s| ==> MemberLe(s[i], s[j])
  }

  /** Inserts `x` into a sorted list before the first entry it sorts at or before. */
  function Insert(x: Entry, s: seq<Entry>): (r: seq<Entry>)
    requires Sorted(s)
    ensures Sorted(r)
    ensures multiset(r) == multiset(s) + multiset{x}
  {
    if s == [] then [x]
    else if MemberLe(x, s[0]) then
      assert forall j :: 0 <= j < |s| ==> MemberLe(x, s[j]) by {
        forall j | 0 <= j < |s| ensures MemberLe(x, s[j]) {
          if j > 0 { MemberLeTransitive(x, s[0], s[j]); }
        }
      }
      [x] + s
    else
      MemberLeTotal(x, s[0]);
      var rest := Insert(x, s[1..]);
      assert s == [s[0]] + s[1..];
      assert forall j :: 0 <= j < |rest| ==> MemberLe(s[0], rest[j]) by {
        forall j | 0 <= j < |rest| ensures MemberLe(s[0], rest[j]) {
          assert rest[j] in multiset(rest);
          if rest[j] != x {
            assert rest[j] in multiset(s[1..]);
            var k :| 0 <= k < |s[1..]| && s[1..][k] == rest[j];
            assert s[k + 1] == rest[j];
          }
        }
      }
      [s[0]] + rest
  }

  /** `sortedMembers`: a sorted permutation of the merged list. */
  function SortMembers(s: seq<Entry>): (r: seq<Entry>)
    ensures Sorted(r)
    ensures multiset(r) == multiset(s)
    ensures |r| == |s|
  {
    if s == [] then []
    else
      assert s == [s[0]] + s[1..];
      Insert(s[0], SortMembers(s[1..]))
  }

  lemma SortedTail(a: seq<Entry>)
    requires Sorted(a) && a != []
    ensures Sorted(a[1..])
  {
    forall i, j | 0 <= i < j < |a[1..]| ensures MemberLe(a[1..][i], a[1..][j]) {
      assert a[1..][i] == a[i + 1] && a[1..][j] == a[j + 1];
    }
  }

  /** Two sorted arrangements of one multiset start with the same entry. */
  lemma SortedHeadsAgree(a: seq<Entry>, b: seq<Entry>)
    requires Sorted(a) && Sorted(b) && multiset(a) == multiset(b) && a != []
    ensures b != [] && a[0] == b[0]
  {
    assert a[0] in multiset(b);
    var i :| 0 <= i < |b| && b[i] == a[0];
    assert b[0] in multiset(a);
    var k :| 0 <= k < |a| && a[k] == b[0];
    assert MemberLe(b[0], a[0]) by {
      if i > 0 { assert MemberLe(b[0], b[i]); } else { MemberLeTotal(a[0], a[0]); }
    }
    assert MemberLe(a[0], b[0]) by {
      if k > 0 { assert MemberLe(a[0], a[k]); } else { MemberLeTotal(b[0], b[0]); }
    }
    MemberLeAntisymmetric(a[0], b[0]);
  }

  /**
   * A list has exactly one sorted arrangement: any sorting algorithm with
   * this comparator, stable or not, yields `SortMembers`' result.
   */
  lemma {:induction false} SortedPermutationUnique(a: seq<Entry>, b: seq<Entry>)
    requires Sorted(a) && Sorted(b) && multiset(a) == multiset(b)
    ensures a == b
    decreases |a|
  {
    if a != [] {
      SortedHeadsAgree(a, b);
      SortedTail(a);
      SortedTail(b);
      assert a == [a[0]] + a[1..] && b == [b[0]] + b[1..];
      assert multiset(a[1..]) == multiset(a) - multiset{a[0]};
      assert multiset(b[1..]) == multiset(b) - multiset{b[0]};
      SortedPermutationUnique(a[1..], b[1..]);
    } else {
      assert |b| == |multiset(b)| == 0;
    }
  }

  /** The rendered order of the member list: the merged list, sorted. */
  function SortedMembers(presence: seq<Presence>, roles: seq<RoomMember>): (r: seq<Entry>)
    ensures |r| == |presence|
    ensures Sorted(r) && multiset(r) == multiset(Merge(presence, roles))
  {
    SortMembers(Merge(presence, roles))
  }

  /** Owners come first, and among entries of one role the active ones come first. */
  lemma SortedOrderKeys(s: seq<Entry>, i: nat, j: nat)
    requires Sorted(s) && i < j < |s|
    ensures RoleRank(s[i].role) <= RoleRank(s[j].role)
    ensures s[i].role == s[j].role && s[j].isActive ==> s[i].isActive
    ensures s[j].role == Owner ==> s[i].role == Owner
  {
    assert MemberLe(s[i], s[j]);
  }

  // ---------------------------------------------------------------- controls

  /** The row belongs to the viewer. */
  predicate IsCurrentUser(userId: string, principal: Option<string>) {
    principal == Some(userId)
  }

  /** `showRoleControls`. */
  predicate ShowRoleControls(viewerIsOwner: bool, isCurrentUser: bool, role: Role) {
    viewerIsOwner && !isCurrentUser && role != Owner
  }

  /** Role controls appear on a row iff the viewer is owner and the row is another, non-owner member. */
  lemma RoleControlsIff(principal: Option<string>, roles: seq<RoomMember>, e: Entry)
    ensures ShowRoleControls(ViewerIsOwner(principal, roles), IsCurrentUser(e.userId, principal), e.role)
      <==> ViewerRole(principal, roles) == Some(Owner) && principal != Some(e.userId) && e.role != Owner
    ensures ShowRoleControls(ViewerIsOwner(principal, roles), IsCurrentUser(e.userId, principal), e.role)
      ==> Truthy(principal)
  {
  }

  /** The three "Set as" targets, in menu order. */
  const SetAsTargets: seq<Role> := [Admin, Moderator, Member]

  /** A "Set as" item is disabled when the row already has that role. */
  predicate SetAsDisabled(rowRole: Role, target: Role) {
    rowRole == target
  }

  /** On a row that shows controls exactly one "Set as" item is disabled. */
  lemma ExactlyOneDisabled(rowRole: Role)
    requires rowRole != Owner
    ensures exists k :: 0 <= k < |SetAsTargets| && SetAsDisabled(rowRole, SetAsTargets[k])
    ensures forall k, l :: 0 <= k < l < |SetAsTargets| ==>
      !(SetAsDisabled(rowRole, SetAsTargets[k]) && SetAsDisabled(rowRole, SetAsTargets[l]))
  {
    var k := RoleRank(rowRole) - 1;
    assert SetAsTargets[k] == rowRole;
  }

  /** The header's noun. */
  function MemberCountLabel(n: nat): (s: string)
    ensures s == "member" <==> n == 1
    ensures s == "member" || s == "members"
  {
    if n == 1 then "member" else "members"
  }

  // ---------------------------------------------------------------- row handlers

  /**
   * One member row's role menu. `roleRequests` logs the roles sent to the
   * backend for this member.
   */
  class MemberRow {
    const userId: string
    var roleRequests: seq<Role>
    var reported: seq<string>

    constructor (user: string)
      ensures userId == user && roleRequests == [] && reported == []
    {
      userId := user;
      roleRequests := [];
      reported := [];
    }

    /** `handleRoleChange`: the role is requested whatever the outcome; a failure shows the error. */
    method ChangeRole(newRole: Role, outcome: Outcome<()>)
      modifies this
      ensures roleRequests == old(roleRequests) + [newRole]
      ensures outcome.Success? ==> reported == old(reported)
      ensures outcome.Failure? ==> reported == old(reported) + [Or(outcome.message, "Failed to update role")]
    {
      roleRequests := roleRequests + [newRole];
      if outcome.Failure? {
        reported := reported + [Or(outcome.message, "Failed to update role")];
      }
    }
  }

  /** The kick confirmation: a target picked from a row's menu, and the kicks requested so far. */
  class KickDialog {
    var kickTarget: Option<string>
    var requested: seq<string>
    var reported: seq<string>

    constructor ()
      ensures kickTarget.None? && requested == [] && reported == []
    {
      kickTarget := None;
      requested := [];
      reported := [];
    }

    /** The row's "Kick from Room" item opens the dialog for that member. */
    method Pick(user: string)
      modifies this
      ensures kickTarget == Some(user) && requested == old(requested) && reported == old(reported)
    {
      kickTarget := Some(user);
    }

    /** Closing the dialog clears the target. */
    method Dismiss()
      modifies this
      ensures kickTarget.None? && requested == old(requested) && reported == old(reported)
    {
      kickTarget := None;
    }

    /**
     * `handleKickConfirm`: nothing without a target; the target is cleared
     * only after a successful kick, and a failure shows the error.
     */
    method Confirm(outcome: Outcome<()>)
      modifies this
      ensures old(kickTarget).None? ==> kickTarget.None? && requested == old(requested) && reported == old(reported)
      ensures old(kickTarget).Some? ==> requested == old(requested) + [old(kickTarget).value]
      ensures old(kickTarget).Some? && outcome.Success? ==> kickTarget.None? && reported == old(reported)
      ensures old(kickTarget).Some? && outcome.Failure? ==>
        kickTarget == old(kickTarget) && reported == old(reported) + [Or(outcome.message, "Failed to kick member")]
    {
      if kickTarget.None? {
        return;
      }
      requested := requested + [kickTarget.value];
      if outcome.Success? {
        kickTarget := None;
      } else {
        reported := reported + [Or(outcome.message, "Failed to kick member")];
      }
    }
  }
}
