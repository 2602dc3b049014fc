// What the loops of the store methods compute so far, item by item.
module StoreLoops {
  import opened Roles
  import opened StoreOps
  import opened Tables
  import opened Text
  import opened Wrappers

  lemma PrefixStep<T>(xs: seq<T>, i: nat)
    requires i < |xs|
    ensures |xs[..i + 1]| == i + 1 && xs[..i + 1][..i] == xs[..i] && xs[..i + 1][i] == xs[i]
  {
  }

  lemma PutNone<V>(rows: set<(nat, V)>, key: nat)
    ensures Put(rows, key, {}) == set p | p in rows && p.0 != key
  {
  }

  lemma PutOne<V>(rows: set<(nat, V)>, key: nat, values: set<V>, v: V)
    ensures Put(rows, key, values) + {(key, v)} == Put(rows, key, values + {v})
  {
  }

  lemma PutForNone(rows: set<(nat, nat)>, value: nat)
    ensures PutFor(rows, value, {}) == set p | p in rows && p.1 != value
  {
  }

  lemma PutForOne(rows: set<(nat, nat)>, value: nat, keys: set<nat>, k: nat)
    ensures PutFor(rows, value, keys) + {(k, value)} == PutFor(rows, value, keys + {k})
  {
  }

  lemma ElemsAppend<T>(xs: seq<T>, x: T)
    ensures Elems(xs + [x]) == Elems(xs) + {x}
  {
  }

  lemma CleanRolesStep(roles: seq<string>, i: nat)
    requires i < |roles|
    ensures var before, role := CleanRoles(roles[..i]), Trim(roles[i]);
      CleanRoles(roles[..i + 1]) == if role == "" || role in before then before else before + [role]
  {
    hide Trim;
    PrefixStep(roles, i);
  }

  lemma {:induction false} CleanRolesGrow(roles: seq<string>, i: nat)
    requires i <= |roles|
    ensures CleanRoles(roles[..i]) <= CleanRoles(roles)
    decreases |roles| - i
  {
    hide Trim;
    if i == |roles| {
      assert roles[..i] == roles;
    } else {
      CleanRolesGrow(roles, i + 1);
      CleanRolesStep(roles, i);
    }
  }

  lemma CleanIdsStep(ids: seq<int>, i: nat)
    requires i < |ids|
    ensures var before, id := CleanIds(ids[..i]), ids[i];
      CleanIds(ids[..i + 1]) == if id <= 0 || id in before then before else before + [id]
  {
    PrefixStep(ids, i);
  }

  lemma {:induction false} CleanIdsGrow(ids: seq<int>, i: nat)
    requires i <= |ids|
    ensures CleanIds(ids[..i]) <= CleanIds(ids)
    decreases |ids| - i
  {
    if i == |ids| {
      assert ids[..i] == ids;
    } else {
      CleanIdsGrow(ids, i + 1);
      CleanIdsStep(ids, i);
    }
  }

  /** Inserting stops at the first id that is not known. */
  lemma {:induction false} AcceptedStops(ids: seq<nat>, n: nat, known: set<nat>)
    requires n < |ids| && Elems(ids[..n]) <= known && ids[n] !in known
    ensures Accepted(ids, known) == ids[..n]
  {
    if n > 0 {
      assert ids[0] in Elems(ids[..n]);
      assert ids[1..][..n - 1] == ids[..n][1..];
      assert Elems(ids[1..][..n - 1]) <= Elems(ids[..n]);
      AcceptedStops(ids[1..], n - 1, known);
      assert ids[..n] == [ids[0]] + ids[1..][..n - 1];
    }
  }

  lemma {:induction false} AcceptedAll(ids: seq<nat>, known: set<nat>)
    requires Elems(ids) <= known
    ensures Accepted(ids, known) == ids
  {
    if ids != [] {
      assert ids[0] in Elems(ids);
      assert Elems(ids[1..]) <= Elems(ids);
      AcceptedAll(ids[1..], known);
    }
  }

  /** The loop stopped at item i, which is new and unknown: what it inserted before is what the
      whole list manages. */
  lemma StoppedAt(ids: seq<int>, i: nat, known: set<nat>)
    requires i < |ids| && ids[i] > 0 && ids[i] !in CleanIds(ids[..i]) && ids[i] !in known
    requires Elems(CleanIds(ids[..i])) <= known
    ensures Accepted(CleanIds(ids), known) == CleanIds(ids[..i]) != CleanIds(ids)
  {
    CleanIdsStep(ids, i);
    CleanIdsGrow(ids, i + 1);
    var before, clean := CleanIds(ids[..i]), CleanIds(ids);
    assert clean[..|before|] == before && clean[|before|] == ids[i];
    AcceptedStops(clean, |before|, known);
  }

  lemma NotEmptyFrom(ids: seq<int>, i: nat)
    requires i < |ids| && ids[i] > 0 && ids[i] !in CleanIds(ids[..i])
    ensures CleanIds(ids) != [] && ids[i] in CleanIds(ids)
  {
    CleanIdsStep(ids, i);
    CleanIdsGrow(ids, i + 1);
  }

  lemma WithoutOwnerStep(owner: nat, users: seq<int>, i: nat)
    requires i < |users|
    ensures WithoutOwner(owner, users[..i + 1])
      == if users[i] == owner then WithoutOwner(owner, users[..i]) else WithoutOwner(owner, users[..i]) + [users[i]]
  {
    PrefixStep(users, i);
  }

  /** The recipients so far, with item i. */
  lemma RecipientsStep(owner: nat, users: seq<int>, i: nat)
    requires i < |users|
    ensures var before, u := Recipients(owner, users[..i]), users[i];
      Recipients(owner, users[..i + 1]) == if u <= 0 || u == owner || u in before then before else before + [u]
  {
    WithoutOwnerStep(owner, users, i);
    var before := WithoutOwner(owner, users[..i]);
    if users[i] != owner {
      assert (before + [users[i]])[..|before|] == before;
    }
  }

  lemma NewRecipientsStep(previous: set<nat>, incoming: seq<nat>, i: nat)
    requires i < |incoming|
    ensures var before, u := NewRecipients(previous, incoming[..i]), incoming[i];
      NewRecipients(previous, incoming[..i + 1]) == if u in previous then before else before + [u]
  {
    PrefixStep(incoming, i);
  }

  lemma AddAliasesStepTo(t: Tables, username: string, aliases: seq<string>, account: nat, i: nat)
    requires i < |aliases|
    ensures var before, al := AddAliases(t, username, aliases[..i], account), Trim(aliases[i]);
      AddAliases(t, username, aliases[..i + 1], account)
      == if al == "" || EqualFold(al, username) then before else AddAlias(before, al, account).0
  {
    hide Trim, AddAlias, EqualFold;
    PrefixStep(aliases, i);
  }

  lemma NormalizeStep(commands: seq<string>, i: nat)
    requires i < |commands|
    ensures match NormalizeCommands(commands[..i])
      case None => NormalizeCommands(commands[..i + 1]) == None
      case Some(before) =>
        var c := Lower(Trim(commands[i]));
        NormalizeCommands(commands[..i + 1])
        == if c == "" then Some(before) else if c !in KNOWN_COMMANDS then None else Some(before + {c})
  {
    hide Trim, Lower;
    PrefixStep(commands, i);
  }

  lemma {:induction false} UnknownCommand(commands: seq<string>, i: nat)
    requires i <= |commands| && NormalizeCommands(commands[..i]).None?
    ensures NormalizeCommands(commands).None?
    decreases |commands| - i
  {
    hide Trim, Lower;
    if i == |commands| {
      assert commands[..i] == commands;
    } else {
      NormalizeStep(commands, i);
      UnknownCommand(commands, i + 1);
    }
  }

  /** The lookup scans ids upwards. */
  lemma GroupFromStep(groups: map<nat, Group>, key: string, from: nat, upTo: nat)
    requires from < upTo && !(from in groups && Lower(groups[from].name) == key)
    ensures GroupFrom(groups, key, from, upTo) == GroupFrom(groups, key, from + 1, upTo)
  {
  }
}
