/**
 * The settings dialog's account handlers: linking an alternate account,
 * unlinking one, switching to one, and claiming admin access.
 */
module SettingsDialog {
  import opened Wrappers
  import opened Text

  /** What a failed link request shows, checked in this order. */
  function LinkErrorMessage(message: Option<string>): (r: string)
    ensures message.Some? && Contains(message.value, "Invalid principal") ==> r == "Invalid principal ID format"
    ensures message.Some? && !Contains(message.value, "Invalid principal") && Contains(message.value, "link to self") ==>
              r == "Cannot link to your own account"
    ensures (message.Some? && !Contains(message.value, "Invalid principal") && !Contains(message.value, "link to self")
             && Contains(message.value, "already linked")) ==> r == "Accounts are already linked"
    ensures (message.None? || (!Contains(message.value, "Invalid principal") && !Contains(message.value, "link to self")
             && !Contains(message.value, "already linked"))) ==> r == Or(message, "Failed to send link request")
    ensures r != ""
  {
    if message.Some? && Contains(message.value, "Invalid principal") then "Invalid principal ID format"
    else if message.Some? && Contains(message.value, "link to self") then "Cannot link to your own account"
    else if message.Some? && Contains(message.value, "already linked") then "Accounts are already linked"
    else Or(message, "Failed to send link request")
  }

  /** What a failed admin claim shows. */
  function ClaimAdminMessage(message: Option<string>): (r: string)
    ensures message.Some? && Contains(message.value, "already exists") ==> r == "An admin already exists for this application"
    ensures !(message.Some? && Contains(message.value, "already exists")) ==> r == Or(message, "Failed to claim admin access")
    ensures r != ""
  {
    if message.Some? && Contains(message.value, "already exists") then "An admin already exists for this application"
    else Or(message, "Failed to claim admin access")
  }

  /** The section for alternate accounts is shown when anything is linked or waiting. */
  predicate HasAltAccounts(linked: seq<string>, incoming: Option<seq<string>>) {
    |linked| > 0 || (incoming.Some? && |incoming.value| > 0)
  }

  /**
   * Missing pending requests count as none (`?? 0`): without them the section
   * shows iff an account is linked, and with nothing linked it shows iff an
   * incoming request is pending.
   */
  lemma AltAccountsShownIff(linked: seq<string>, incoming: Option<seq<string>>)
    ensures HasAltAccounts(linked, None) <==> linked != []
    ensures HasAltAccounts([], incoming) <==> incoming.Some? && incoming.value != []
    ensures HasAltAccounts(linked, incoming) <==> HasAltAccounts(linked, None) || HasAltAccounts([], incoming)
  {
  }

  /** The calls the dialog makes, in order. */
  datatype Step =
    | LinkRequest(principal: string)
    | UnlinkRequest(principal: string)
    | RecordSwitchIntent(principal: string)
    | SignOut
    | ClearCache

  class Settings {
    var open: bool
    var newAltPrincipal: string
    var unlinkTarget: Option<string>
    var steps: seq<Step>
    var reported: seq<string>

    constructor ()
      ensures open && newAltPrincipal == "" && unlinkTarget.None? && steps == [] && reported == []
    {
      open := true;
      newAltPrincipal := "";
      unlinkTarget := None;
      steps := [];
      reported := [];
    }

    method TypePrincipal(text: string)
      modifies this
      ensures newAltPrincipal == text
      ensures open == old(open) && unlinkTarget == old(unlinkTarget) && steps == old(steps) && reported == old(reported)
    {
      newAltPrincipal := text;
    }

    /**
     * Link: blank input is refused; the trimmed text is parsed as a
     * principal (`parse`), the request sent, and the input cleared only when
     * both succeed.
     */
    method LinkAltAccount(parse: Outcome<string>, outcome: Outcome<()>)
      modifies this
      ensures AllSpace(old(newAltPrincipal)) ==>
                steps == old(steps) && newAltPrincipal == old(newAltPrincipal)
                && reported == old(reported) + ["Please enter a principal ID"]
      ensures !AllSpace(old(newAltPrincipal)) && parse.Failure? ==>
                steps == old(steps) && newAltPrincipal == old(newAltPrincipal)
                && reported == old(reported) + [LinkErrorMessage(parse.message)]
      ensures !AllSpace(old(newAltPrincipal)) && parse.Success? ==>
                && steps == old(steps) + [LinkRequest(parse.value)]
                && newAltPrincipal == (if outcome.Success? then "" else old(newAltPrincipal))
                && reported == old(reported) + (if outcome.Success? then [] else [LinkErrorMessage(outcome.message)])
      ensures open == old(open) && unlinkTarget == old(unlinkTarget)
    {
      if Trim(newAltPrincipal) == "" {
        reported := reported + ["Please enter a principal ID"];
        return;
      }
      if parse.Failure? {
        reported := reported + [LinkErrorMessage(parse.message)];
        return;
      }
      steps := steps + [LinkRequest(parse.value)];
      if outcome.Success? {
        newAltPrincipal := "";
      } else {
        reported := reported + [LinkErrorMessage(outcome.message)];
      }
    }

    /** Choosing "Unlink" on a row opens the confirmation for that account. */
    method ChooseUnlink(principal: string)
      modifies this
      ensures unlinkTarget == Some(principal)
      ensures open == old(open) && newAltPrincipal == old(newAltPrincipal) && steps == old(steps) && reported == old(reported)
    {
      unlinkTarget := Some(principal);
    }

    /** Closing the confirmation forgets the target. */
    method DismissUnlink()
      modifies this
      ensures unlinkTarget.None?
      ensures open == old(open) && newAltPrincipal == old(newAltPrincipal) && steps == old(steps) && reported == old(reported)
    {
      unlinkTarget := None;
    }

    /** Unlink: nothing without a target; the target is cleared only on success. */
    method Unlink(outcome: Outcome<()>)
      modifies this
      ensures old(unlinkTarget).None? ==> steps == old(steps) && unlinkTarget.None? && reported == old(reported)
      ensures old(unlinkTarget).Some? ==>
                && steps == old(steps) + [UnlinkRequest(old(unlinkTarget).value)]
                && unlinkTarget == (if outcome.Success? then None else old(unlinkTarget))
                && reported == old(reported) + (if outcome.Success? then [] else [Or(outcome.message, "Failed to unlink account")])
      ensures open == old(open) && newAltPrincipal == old(newAltPrincipal)
    {
      if unlinkTarget.None? {
        return;
      }
      steps := steps + [UnlinkRequest(unlinkTarget.value)];
      if outcome.Success? {
        unlinkTarget := None;
      } else {
        reported := reported + [Or(outcome.message, "Failed to unlink account")];
      }
    }

    /**
     * Switch: the target is recorded before signing out; the cache is
     * cleared and the dialog closed only once sign-out has succeeded.
     */
    method SwitchAccount(target: string, signOut: Outcome<()>)
      modifies this
      ensures steps == old(steps) + [RecordSwitchIntent(target), SignOut] + (if signOut.Success? then [ClearCache] else [])
      ensures open == (old(open) && signOut.Failure?)
      ensures reported == old(reported) + (if signOut.Success? then [] else ["Failed to switch account. Please try again."])
      ensures newAltPrincipal == old(newAltPrincipal) && unlinkTarget == old(unlinkTarget)
    {
      steps := steps + [RecordSwitchIntent(target)];
      steps := steps + [SignOut];
      if signOut.Success? {
        steps := steps + [ClearCache];
        open := false;
      } else {
        reported := reported + ["Failed to switch account. Please try again."];
      }
    }
  }
}
