// Discord role lists as stored on a user row.
module Roles {
  import opened Text

  /** Stored role lists are trimmed, without blanks or repeats. */
  function CleanRoles(roles: seq<string>): (r: seq<string>) {
    if roles == [] then []
    else
      var before, role := CleanRoles(roles[..|roles| - 1]), Trim(roles[|roles| - 1]);
      if role == "" || role in before then before else before + [role]
  }

  /** The loop in SetUserRoles that computes the list it stores. */
  method Cleaned(roles: seq<string>) returns (out: seq<string>)
    ensures out == CleanRoles(roles)
  {
    var seen: set<string> := {};
    out := [];
    for i := 0 to |roles|
      invariant out == CleanRoles(roles[..i])
      invariant forall r :: r in seen <==> r in out
    {
      assert roles[..i + 1][..i] == roles[..i];
      var r := Trim(roles[i]);
      if r == "" || r in seen {
        continue;
      }
      seen := seen + {r};
      out := out + [r];
    }
    assert roles[..|roles|] == roles;
  }

  /** Clean lists are what cleaning leaves alone. */
  predicate IsClean(roles: seq<string>) {
    && (forall i :: 0 <= i < |roles| ==> roles[i] != "" && IsTrimmed(roles[i]))
    && forall i, j :: 0 <= i < j < |roles| ==> roles[i] != roles[j]
  }

  lemma {:induction false} CleanRolesIsClean(roles: seq<string>)
    ensures IsClean(CleanRoles(roles))
    ensures forall r :: r in CleanRoles(roles) <==> r != "" && exists q :: q in roles && r == Trim(q)
  {
    if roles != [] {
      var last := |roles| - 1;
      CleanRolesIsClean(roles[..last]);
      TrimTrims(roles[last]);
      assert roles == roles[..last] + [roles[last]];
      assert forall q :: q in roles <==> q in roles[..last] || q == roles[last];
    }
  }

  lemma {:induction false} CleanRolesFixed(roles: seq<string>)
    requires IsClean(roles)
    ensures CleanRoles(roles) == roles
  {
    if roles != [] {
      var last := |roles| - 1;
      CleanRolesFixed(roles[..last]);
      TrimOfTrimmed(roles[last]);
      assert roles == roles[..last] + [roles[last]];
      assert roles[last] !in roles[..last];
    }
  }
}
