/** Fallback display strings for a principal without a profile. */
module PrincipalDisplay {
  import opened Text

  const Anonymous := "Anonymous"

  /** `getPrincipalDisplayName`: a long principal is shortened to its head and tail. */
  function DisplayName(principal: string): (r: string)
    ensures principal == "" ==> r == Anonymous
    ensures 0 < |principal| <= 15 ==> r == principal
    ensures |principal| > 15 ==>
              |r| == 15 && r[..8] == principal[..8] && r[8..11] == "..." && r[11..] == principal[|principal| - 4..]
  {
    if principal == "" then Anonymous
    else if |principal| > 15 then principal[..8] + "..." + principal[|principal| - 4..]
    else principal
  }

  /** Display names are never longer than 15 characters, and shortening a shown name again changes nothing. */
  lemma DisplayNameStable(principal: string)
    ensures 0 < |DisplayName(principal)| <= 15
    ensures DisplayName(DisplayName(principal)) == DisplayName(principal)
  {
  }

  /** Two long principals that agree on their first 8 and last 4 characters display alike. */
  lemma DisplayNameSharedEnds(p: string, q: string)
    requires |p| > 15 && |q| > 15
    requires p[..8] == q[..8] && p[|p| - 4..] == q[|q| - 4..]
    ensures DisplayName(p) == DisplayName(q)
  {
  }

  /** `getPrincipalInitials`: '?' for the empty principal, else its first two characters upper-cased. */
  function PrincipalInitials(principal: string): (r: string)
    ensures principal == "" ==> r == "?"
    ensures principal != "" ==> 1 <= |r| <= 2 && r == UpperStr(Take(principal, 2))
  {
    if principal == "" then "?" else UpperStr(Take(principal, 2))
  }
}
