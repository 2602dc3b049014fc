// What the loops of export and import compute so far.
module BackupLoops {
  import opened BackupOps
  import opened StoreLoops
  import opened StoreOps
  import opened Tables
  import opened Text
  import opened Wrappers

  lemma AddNamesStepTo(names: map<string, Named>, texts: seq<string>, account: nat, known: bool, username: Option<string>, i: nat)
    requires i < |texts|
    ensures var (before, ok) := AddNames(names, texts[..i], account, known, username);
      var text := Trim(texts[i]);
      AddNames(names, texts[..i + 1], account, known, username)
      == if !ok then (before, false)
         else if username.Some? && (text == "" || EqualFold(text, username.value)) then (before, true)
         else AddName(before, text, account, known)
  {
    hide Trim, EqualFold, AddName;
    PrefixStep(texts, i);
  }

  /** After the first conflict nothing more is added. */
  lemma {:induction false} AddNamesStop(names: map<string, Named>, texts: seq<string>, account: nat, known: bool, username: Option<string>, i: nat)
    requires i <= |texts| && !AddNames(names, texts[..i], account, known, username).1
    ensures AddNames(names, texts, account, known, username) == AddNames(names, texts[..i], account, known, username)
    decreases |texts| - i
  {
    hide Trim, EqualFold, AddName;
    if i == |texts| {
      assert texts[..i] == texts;
    } else {
      AddNamesStepTo(names, texts, account, known, username, i);
      AddNamesStop(names, texts, account, known, username, i + 1);
    }
  }

  lemma AddTagsStepTo(tags: map<(string, nat), string>, texts: seq<string>, account: nat, known: bool, i: nat)
    requires i < |texts|
    ensures var (before, ok) := AddTags(tags, texts[..i], account, known);
      AddTags(tags, texts[..i + 1], account, known) == if !ok then (before, false) else AddTagTo(before, texts[i], account, known)
  {
    hide AddTagTo;
    PrefixStep(texts, i);
  }

  lemma {:induction false} AddTagsStop(tags: map<(string, nat), string>, texts: seq<string>, account: nat, known: bool, i: nat)
    requires i <= |texts| && !AddTags(tags, texts[..i], account, known).1
    ensures AddTags(tags, texts, account, known) == AddTags(tags, texts[..i], account, known)
    decreases |texts| - i
  {
    hide AddTagTo;
    if i == |texts| {
      assert texts[..i] == texts;
    } else {
      AddTagsStepTo(tags, texts, account, known, i);
      AddTagsStop(tags, texts, account, known, i + 1);
    }
  }

  // ----- Removing an account's names one by one -----

  /** The names left when the account's names in `done` are gone, its username spared. */
  function Left(names: map<string, Named>, account: nat, username: Option<string>, done: set<string>): map<string, Named> {
    map k | k in names
      && !(names[k].account == account && names[k].text in done && !(username.Some? && EqualFold(names[k].text, username.value)))
      :: names[k]
  }

  lemma RemoveStep(names: map<string, Named>, account: nat, username: Option<string>, done: set<string>, text: string)
    requires NamesFiled(names) && text in NamesOf(names, account) && text !in done
    ensures var now := Left(names, account, username, done);
      Left(names, account, username, done + {text})
      == if username.Some? && EqualFold(text, username.value) then now else RemoveName(now, text, account).0
  {
    InNamesOf(names, account, text);
    TrimOfTrimmed(text);
    var now, next := Left(names, account, username, done), Left(names, account, username, done + {text});
    forall k | k in names && names[k].account == account && names[k].text == text
      ensures k == Lower(text)
    {
    }
  }

  lemma RemoveEnds(names: map<string, Named>, account: nat, username: string)
    ensures Left(names, account, Some(username), {}) == names && Left(names, account, None, {}) == names
    ensures Left(names, account, Some(username), NamesOf(names, account)) == AliasesKept(names, account, username)
    ensures Left(names, account, None, NamesOf(names, account)) == NamesNotOf(names, account)
  {
    forall k | k in names && names[k].account == account
      ensures names[k].text in NamesOf(names, account)
    {
    }
  }

  function TagsLeft(tags: map<(string, nat), string>, account: nat, done: set<string>): map<(string, nat), string> {
    map k | k in tags && !(k.1 == account && tags[k] in done) :: tags[k]
  }

  lemma RemoveTagStep(tags: map<(string, nat), string>, account: nat, done: set<string>, text: string)
    requires TagsFiled(tags) && text in TagsOf(tags, account) && text !in done
    ensures RemoveTagFrom(TagsLeft(tags, account, done), text, account).0 == TagsLeft(tags, account, done + {text})
  {
    InTagsOf(tags, account, text);
    TrimOfTrimmed(text);
    forall k | k in tags && k.1 == account && tags[k] == text
      ensures k == (Lower(text), account)
    {
    }
  }

  lemma RemoveTagEnds(tags: map<(string, nat), string>, account: nat)
    ensures TagsLeft(tags, account, {}) == tags && TagsLeft(tags, account, TagsOf(tags, account)) == TagsNotOf(tags, account)
  {
    forall k | k in tags && k.1 == account
      ensures tags[k] in TagsOf(tags, account)
    {
    }
  }

  // ----- Lookups -----

  lemma LookupStep(dir: map<string, nat>, ids: seq<string>, i: nat)
    requires i < |ids|
    ensures Lookup(dir, ids[..i + 1])
      == if Trim(ids[i]) in dir then Lookup(dir, ids[..i]) + [dir[Trim(ids[i])]] else Lookup(dir, ids[..i])
  {
    hide Trim;
    PrefixStep(ids, i);
  }

  lemma LookupAccountsStep(t: Tables, usernames: seq<string>, i: nat)
    requires i < |usernames|
    ensures LookupAccounts(t, usernames[..i + 1])
      == match FindAccount(t, usernames[i])
         case None => LookupAccounts(t, usernames[..i])
         case Some(id) => LookupAccounts(t, usernames[..i]) + [id]
  {
    hide FindAccount;
    PrefixStep(usernames, i);
  }

  lemma LookupGroupsStep(ids: map<string, nat>, names: seq<string>, i: nat)
    requires i < |names|
    ensures LookupGroups(ids, names[..i + 1])
      == if Lower(Trim(names[i])) in ids then LookupGroups(ids, names[..i]) + [ids[Lower(Trim(names[i]))]]
         else LookupGroups(ids, names[..i])
  {
    hide Trim, Lower;
    PrefixStep(names, i);
  }

  // ----- Passes -----

  lemma ImportUsersStep(t: Tables, rows: seq<UserRow>, i: nat)
    requires i < |rows|
    ensures ImportUsers(t, rows[..i + 1]) == ImportUser(ImportUsers(t, rows[..i]), rows[i])
  {
    hide ImportUser;
    PrefixStep(rows, i);
  }

  lemma ImportAccountsStep(t: Tables, dir: map<string, nat>, rows: seq<AccountRow>, i: nat)
    requires i < |rows|
    ensures ImportAccounts(t, dir, rows[..i + 1]) == ImportAccount(ImportAccounts(t, dir, rows[..i]), dir, rows[i])
  {
    hide ImportAccount;
    PrefixStep(rows, i);
  }

  lemma ImportGroupsStep(t: Tables, dir: map<string, nat>, rows: seq<GroupRow>, i: nat)
    requires i < |rows|
    ensures ImportGroups(t, dir, rows[..i + 1]) == ImportGroup(ImportGroups(t, dir, rows[..i]), dir, rows[i])
  {
    hide ImportGroup;
    PrefixStep(rows, i);
  }

  lemma ImportGrantsStep(t: Tables, dir: map<string, nat>, ids: map<string, nat>, rows: seq<AccountRow>, i: nat)
    requires i < |rows|
    ensures ImportGrants(t, dir, ids, rows[..i + 1]) == ImportGrant(ImportGrants(t, dir, ids, rows[..i]), dir, ids, rows[i])
  {
    hide ImportGrant;
    PrefixStep(rows, i);
  }
}
