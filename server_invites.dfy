/**
 * The invite mutations: generating a code and joining with one, the
 * messages their failures carry, and the cached queries a join refreshes.
 * The backend call's outcome is a parameter; `actorAvailable` says whether
 * a backend connection exists.
 */
module ServerInvites {
  import opened Wrappers
  import opened Text

  const ActorUnavailable := "Actor not available"

  /** What a failed generate call carries: its own message, or a default. */
  function GenerateErrorMessage(message: Option<string>): (r: string)
    ensures Truthy(message) ==> r == message.value
    ensures !Truthy(message) ==> r == "Failed to generate invite code"
    ensures r != ""
  {
    Or(message, "Failed to generate invite code")
  }

  /** Generating a code: the code itself, or the failure's message. */
  function GenerateInvite(actorAvailable: bool, call: Outcome<string>): (r: Outcome<string>)
    ensures !actorAvailable ==> r == Failure(Some(ActorUnavailable))
    ensures actorAvailable && call.Success? ==> r == call
    ensures actorAvailable && call.Failure? ==> r == Failure(Some(GenerateErrorMessage(call.message)))
    ensures r.Failure? ==> Truthy(r.message)
  {
    if !actorAvailable then Failure(Some(ActorUnavailable))
    else if call.Success? then call
    else Failure(Some(GenerateErrorMessage(call.message)))
  }

  const InvalidInvite := "Invalid or expired invite code"
  const AlreadyMember := "You are already a member of this server"

  /** A failed join's message: an unknown code, then membership, then the raw message or a default. */
  function JoinErrorMessage(message: Option<string>): (r: string)
    ensures Contains(Or(message, "Failed to join server"), "not found") ==> r == InvalidInvite
    ensures (!Contains(Or(message, "Failed to join server"), "not found")
             && Contains(Or(message, "Failed to join server"), "already a member")) ==> r == AlreadyMember
    ensures (!Contains(Or(message, "Failed to join server"), "not found")
             && !Contains(Or(message, "Failed to join server"), "already a member")) ==> r == Or(message, "Failed to join server")
    ensures r != ""
  {
    var m := Or(message, "Failed to join server");
    if Contains(m, "not found") then InvalidInvite
    else if Contains(m, "already a member") then AlreadyMember
    else m
  }

  /** A message naming both causes is read as an unknown code. */
  lemma NotFoundWins(m: string)
    requires Contains(m, "not found") && Contains(m, "already a member")
    ensures JoinErrorMessage(Some(m)) == InvalidInvite
  {
    var k :| 0 <= k <= |m| - |"not found"| && OccursAt(m, "not found", k);
    assert m != "";
  }

  /** Joining with a code: the joined server's id, or the failure's normalised message. */
  function JoinWithInvite(actorAvailable: bool, call: Outcome<string>): (r: Outcome<string>)
    ensures !actorAvailable ==> r == Failure(Some(ActorUnavailable))
    ensures actorAvailable && call.Success? ==> r == call
    ensures actorAvailable && call.Failure? ==> r == Failure(Some(JoinErrorMessage(call.message)))
    ensures r.Failure? ==> Truthy(r.message)
  {
    if !actorAvailable then Failure(Some(ActorUnavailable))
    else if call.Success? then call
    else Failure(Some(JoinErrorMessage(call.message)))
  }

  /** A query key: its parts are strings or other values. */
  datatype KeyPart = Str(s: string) | Other
  type QueryKey = seq<KeyPart>

  /**
   * The queries a successful join marks stale: those whose key starts with
   * `'servers'` (the cache matches keys by prefix), and every query whose
   * first key part is a string containing `activeMembers`.
   */
  predicate InvalidatedByJoin(key: QueryKey) {
    (|key| >= 1 && key[0] == Str("servers"))
    || (|key| >= 1 && key[0].Str? && Contains(key[0].s, "activeMembers"))
  }

  /** The server list and every server's active-member list are refreshed; a key with a non-string head is not. */
  lemma JoinRefreshes(serverId: KeyPart, rest: QueryKey)
    ensures InvalidatedByJoin([Str("servers")] + rest)
    ensures InvalidatedByJoin([Str("activeMembers"), serverId] + rest)
    ensures !InvalidatedByJoin([Other] + rest)
    ensures !InvalidatedByJoin([])
  {
    ContainsSelf("activeMembers");
  }
}
