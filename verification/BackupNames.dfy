// Replacing an account's aliases, tags and characters: all of them go, then the listed ones
// come back.
module BackupNames {
  import opened Access
  import opened BackupOps
  import opened StoreOps
  import opened Tables
  import opened Text
  import opened Wrappers

  /** Nonempty, trimmed, and distinct in any case. */
  ghost predicate TextsGood(texts: seq<string>) {
    && (forall i :: 0 <= i < |texts| ==> texts[i] != "" && IsTrimmed(texts[i]))
    && (forall i, j :: 0 <= i < j < |texts| ==> Lower(texts[i]) != Lower(texts[j]))
  }

  ghost predicate NoneIs(texts: seq<string>, username: Option<string>) {
    username.Some? ==> forall i :: 0 <= i < |texts| ==> !EqualFold(texts[i], username.value)
  }

  ghost predicate NoneIn(texts: seq<string>, names: map<string, Named>) {
    forall i :: 0 <= i < |texts| ==> Lower(texts[i]) !in names
  }

  /** A listed name is free or already the account's. */
  ghost predicate FreeFor(texts: seq<string>, names: map<string, Named>, a: nat) {
    forall i :: 0 <= i < |texts| && Lower(texts[i]) in names ==> names[Lower(texts[i])].account == a
  }

  /** Account a's names become `own`; nobody else's change. */
  ghost predicate NamesBecome(names: map<string, Named>, names': map<string, Named>, a: nat, own: set<string>) {
    && NamesFiled(names')
    && (forall ids: set<nat> :: NamesRefer(names, ids) && a in ids ==> NamesRefer(names', ids))
    && NamesOf(names', a) == own
    && forall b: nat :: b != a ==> NamesOf(names', b) == NamesOf(names, b)
  }

  lemma ElemsLast<T>(xs: seq<T>)
    requires xs != []
    ensures Elems(xs) == Elems(xs[..|xs| - 1]) + {xs[|xs| - 1]}
  {
    assert xs == xs[..|xs| - 1] + [xs[|xs| - 1]];
  }

  lemma BecomeThen(names: map<string, Named>, n1: map<string, Named>, n2: map<string, Named>, a: nat, own1: set<string>, own2: set<string>)
    requires NamesBecome(names, n1, a, own1) && NamesBecome(n1, n2, a, own2)
    ensures NamesBecome(names, n2, a, own2)
  {
    hide NamesOf, NamesFiled, NamesRefer;
  }

  lemma AddOne(names: map<string, Named>, text: string, a: nat)
    requires NamesFiled(names) && IsTrimmed(text) && text != "" && Lower(text) !in names
    ensures AddName(names, text, a, true) == (names[Lower(text) := Named(text, a)], true)
    ensures NamesBecome(names, names[Lower(text) := Named(text, a)], a, NamesOf(names, a) + {text})
  {
    TrimOfTrimmed(text);
    AddNameStep(names, text, a);
  }

  /** Exactly the keys of `texts` are new. */
  ghost predicate KeysAdded(before: set<string>, after: set<string>, texts: seq<string>) {
    forall k :: k in after <==> k in before || exists i :: 0 <= i < |texts| && k == Lower(texts[i])
  }

  lemma KeysAddedLast(before: set<string>, mid: set<string>, texts: seq<string>)
    requires texts != [] && KeysAdded(before, mid, texts[..|texts| - 1])
    ensures KeysAdded(before, mid + {Lower(texts[|texts| - 1])}, texts)
    ensures TextsGood(texts) && (forall i :: 0 <= i < |texts| ==> Lower(texts[i]) !in before) ==> Lower(texts[|texts| - 1]) !in mid
  {
    hide Lower, IsTrimmed;
  }

  /** Free names are all added. */
  lemma {:induction false} AddNamesAll(names: map<string, Named>, texts: seq<string>, a: nat, username: Option<string>)
    requires NamesFiled(names) && TextsGood(texts) && NoneIs(texts, username) && NoneIn(texts, names)
    ensures var (names', ok) := AddNames(names, texts, a, true, username);
      ok && NamesBecome(names, names', a, NamesOf(names, a) + Elems(texts)) && KeysAdded(names.Keys, names'.Keys, texts)
  {
    hide NamesBecome, NamesOf, NamesFiled, NamesRefer, Lower, IsTrimmed, Trim, KeysAdded, AddName, Elems;
    if texts == [] {
      NothingAdded(names, a);
    } else {
      var last := |texts| - 1;
      AddNamesAll(names, texts[..last], a, username);
      var before := AddNames(names, texts[..last], a, true, username).0;
      TrimOfTrimmed(texts[last]);
      KeysAddedLast(names.Keys, before.Keys, texts);
      StaysFiled(names, before, a, NamesOf(names, a) + Elems(texts[..last]));
      AddOne(before, texts[last], a);
      var after := before[Lower(texts[last]) := Named(texts[last], a)];
      assert after.Keys == before.Keys + {Lower(texts[last])};
      ElemsLast(texts);
      assert NamesOf(names, a) + Elems(texts) == NamesOf(names, a) + Elems(texts[..last]) + {texts[last]};
      BecomeThen(names, before, after, a, NamesOf(names, a) + Elems(texts[..last]), NamesOf(names, a) + Elems(texts));
    }
  }

  lemma StaysFiled(names: map<string, Named>, names': map<string, Named>, a: nat, own: set<string>)
    requires NamesBecome(names, names', a, own)
    ensures NamesFiled(names') && NamesOf(names', a) == own
  {
  }

  lemma NothingAdded(names: map<string, Named>, a: nat)
    requires NamesFiled(names)
    ensures NamesBecome(names, names, a, NamesOf(names, a) + Elems([])) && KeysAdded(names.Keys, names.Keys, [])
  {
    assert NamesOf(names, a) + Elems([]) == NamesOf(names, a);
  }

  /** The aliases that are the username itself. */
  function OwnName(aliases: set<string>, username: string): set<string> {
    set x | x in aliases && EqualFold(x, username)
  }

  lemma KeptAre(names: map<string, Named>, a: nat, username: string)
    requires NamesFiled(names)
    ensures NamesBecome(names, AliasesKept(names, a, username), a, OwnName(NamesOf(names, a), username))
  {
    var kept := AliasesKept(names, a, username);
    forall x: string
      ensures x in NamesOf(kept, a) <==> x in OwnName(NamesOf(names, a), username)
    {
      InNamesOf(kept, a, x);
      InNamesOf(names, a, x);
    }
    forall b: nat | b != a
      ensures NamesOf(kept, b) == NamesOf(names, b)
    {
      forall x: string
        ensures x in NamesOf(kept, b) <==> x in NamesOf(names, b)
      {
        InNamesOf(kept, b, x);
        InNamesOf(names, b, x);
      }
    }
  }

  lemma DroppedAre(names: map<string, Named>, a: nat)
    requires NamesFiled(names)
    ensures NamesBecome(names, NamesNotOf(names, a), a, {})
  {
    var kept := NamesNotOf(names, a);
    forall b: nat, x: string
      ensures x in NamesOf(kept, b) <==> x in NamesOf(names, b) && b != a
    {
      InNamesOf(kept, b, x);
      InNamesOf(names, b, x);
    }
  }

  lemma ReplaceAliasesStep(t: Tables, a: nat, username: string, aliases: seq<string>)
    requires Valid(t) && a in t.accounts
    requires TextsGood(aliases) && NoneIs(aliases, Some(username)) && FreeFor(aliases, t.aliases, a)
    ensures var t' := ReplaceAliases(t, a, username, aliases);
      && Valid(t')
      && Changes(t, t', a, RowOf(t, a).(aliases := OwnName(RowOf(t, a).aliases, username) + Elems(aliases)))
  {
    hide UsersIndexed, AccountsIndexed, OwnersIn, GroupsNumbered, KeysIn, ValuesIn, NamesFiled, TagsFiled, NamesOf, TagsOf, Of, AddNames;
    KeptAre(t.aliases, a, username);
    KeptKeys(t.aliases, a, username, aliases);
    AddNamesAll(AliasesKept(t.aliases, a, username), aliases, a, Some(username));
  }

  lemma KeptKeys(names: map<string, Named>, a: nat, username: string, aliases: seq<string>)
    requires NamesFiled(names) && NoneIs(aliases, Some(username)) && FreeFor(aliases, names, a)
    ensures NoneIn(aliases, AliasesKept(names, a, username))
  {
  }

  lemma ReplaceCharactersStep(t: Tables, a: nat, characters: seq<string>)
    requires Valid(t) && a in t.accounts
    requires TextsGood(characters) && FreeFor(characters, t.characters, a)
    ensures var t' := ReplaceCharacters(t, a, characters);
      Valid(t') && Changes(t, t', a, RowOf(t, a).(characters := Elems(characters)))
  {
    hide UsersIndexed, AccountsIndexed, OwnersIn, GroupsNumbered, KeysIn, ValuesIn, NamesFiled, TagsFiled, NamesOf, TagsOf, Of, AddNames;
    DroppedAre(t.characters, a);
    AddNamesAll(NamesNotOf(t.characters, a), characters, a, None);
    assert {} + Elems(characters) == Elems(characters);
  }

  // ----- Tags -----

  ghost predicate TagsBecome(tags: map<(string, nat), string>, tags': map<(string, nat), string>, a: nat, own: set<string>) {
    && TagsFiled(tags')
    && (forall ids: set<nat> :: TagsRefer(tags, ids) && a in ids ==> TagsRefer(tags', ids))
    && TagsOf(tags', a) == own
    && forall b: nat :: b != a ==> TagsOf(tags', b) == TagsOf(tags, b)
  }

  lemma AddTagStep(tags: map<(string, nat), string>, text: string, a: nat)
    requires TagsFiled(tags) && text != "" && IsTrimmed(text) && (Lower(text), a) !in tags
    ensures AddTagTo(tags, text, a, true) == (tags[(Lower(text), a) := text], true)
    ensures TagsBecome(tags, tags[(Lower(text), a) := text], a, TagsOf(tags, a) + {text})
  {
    TrimOfTrimmed(text);
    var tags' := tags[(Lower(text), a) := text];
    forall b: nat, x: string
      ensures x in TagsOf(tags', b) <==> x in TagsOf(tags, b) || (b == a && x == text)
    {
      InTagsOf(tags', b, x);
      InTagsOf(tags, b, x);
    }
  }

  lemma TagsBecomeThen(tags: map<(string, nat), string>, t1: map<(string, nat), string>, t2: map<(string, nat), string>,
                       a: nat, own1: set<string>, own2: set<string>)
    requires TagsBecome(tags, t1, a, own1) && TagsBecome(t1, t2, a, own2)
    ensures TagsBecome(tags, t2, a, own2) && TagsFiled(t1) && TagsOf(t1, a) == own1
  {
    hide TagsOf, TagsFiled, TagsRefer;
  }

  lemma {:induction false} AddTagsAll(tags: map<(string, nat), string>, texts: seq<string>, a: nat)
    requires TagsFiled(tags) && TextsGood(texts)
    requires forall i :: 0 <= i < |texts| ==> (Lower(texts[i]), a) !in tags
    ensures var (tags', ok) := AddTags(tags, texts, a, true);
      && ok && TagsBecome(tags, tags', a, TagsOf(tags, a) + Elems(texts))
      && forall k :: k in tags' && k !in tags ==> exists i :: 0 <= i < |texts| && k == (Lower(texts[i]), a)
  {
    hide TagsBecome, TagsOf, TagsFiled, TagsRefer, Lower, IsTrimmed, AddTagTo, Elems;
    if texts == [] {
      NoTagAdded(tags, a);
    } else {
      var last := |texts| - 1;
      AddTagsAll(tags, texts[..last], a);
      var before := AddTags(tags, texts[..last], a, true).0;
      assert (Lower(texts[last]), a) !in before;
      TagsStayFiled(tags, before, a, TagsOf(tags, a) + Elems(texts[..last]));
      AddTagStep(before, texts[last], a);
      ElemsLast(texts);
      assert TagsOf(tags, a) + Elems(texts) == TagsOf(tags, a) + Elems(texts[..last]) + {texts[last]};
      TagsBecomeThen(tags, before, before[(Lower(texts[last]), a) := texts[last]], a,
                     TagsOf(tags, a) + Elems(texts[..last]), TagsOf(tags, a) + Elems(texts));
    }
  }

  lemma TagsStayFiled(tags: map<(string, nat), string>, tags': map<(string, nat), string>, a: nat, own: set<string>)
    requires TagsBecome(tags, tags', a, own)
    ensures TagsFiled(tags') && TagsOf(tags', a) == own
  {
  }

  lemma NoTagAdded(tags: map<(string, nat), string>, a: nat)
    requires TagsFiled(tags)
    ensures TagsBecome(tags, tags, a, TagsOf(tags, a) + Elems([]))
  {
    assert TagsOf(tags, a) + Elems([]) == TagsOf(tags, a);
  }

  lemma TagsDropped(tags: map<(string, nat), string>, a: nat)
    requires TagsFiled(tags)
    ensures TagsBecome(tags, TagsNotOf(tags, a), a, {})
  {
    var kept := TagsNotOf(tags, a);
    forall b: nat, x: string
      ensures x in TagsOf(kept, b) <==> x in TagsOf(tags, b) && b != a
    {
      InTagsOf(kept, b, x);
      InTagsOf(tags, b, x);
    }
  }

  lemma ReplaceTagsStep(t: Tables, a: nat, tags: seq<string>)
    requires Valid(t) && a in t.accounts && TextsGood(tags)
    ensures var t' := ReplaceTags(t, a, tags);
      Valid(t') && Changes(t, t', a, RowOf(t, a).(tags := Elems(tags)))
  {
    hide UsersIndexed, AccountsIndexed, OwnersIn, GroupsNumbered, KeysIn, ValuesIn, NamesFiled, TagsFiled, NamesOf, TagsOf, Of, AddTags;
    TagsDropped(t.tags, a);
    AddTagsAll(TagsNotOf(t.tags, a), tags, a);
    assert {} + Elems(tags) == Elems(tags);
  }

  // ----- Aliases added by a share -----

  /** Only rows for the account were added, none of them its username. */
  ghost predicate OnlyAdded(names: map<string, Named>, names': map<string, Named>, a: nat, username: string) {
    && (forall k :: k in names ==> k in names' && names'[k] == names[k])
    && (forall k :: k in names' && k !in names ==> names'[k].account == a && k != Lower(username))
  }

  lemma {:induction false} SharedAliases(t: Tables, username: string, aliases: seq<string>, a: nat)
    ensures OnlyAdded(t.aliases, AddAliases(t, username, aliases, a).aliases, a, username)
    ensures AddAliases(t, username, aliases, a) == t.(aliases := AddAliases(t, username, aliases, a).aliases)
    decreases |aliases|
  {
    hide Lower, Trim;
    if aliases != [] {
      var last := |aliases| - 1;
      SharedAliases(t, username, aliases[..last], a);
      TrimTrims(aliases[last]);
      TrimOfTrimmed(Trim(aliases[last]));
    }
  }

  /** After a share the listed aliases are still free for its account, and the alias that is
      the username is as it was. */
  lemma SharedAliasesFree(names: map<string, Named>, names': map<string, Named>, a: nat, username: string, aliases: seq<string>)
    requires NamesFiled(names) && NamesFiled(names') && OnlyAdded(names, names', a, username)
    requires FreeFor(aliases, names, a)
    ensures FreeFor(aliases, names', a)
    ensures OwnName(NamesOf(names', a), username) == OwnName(NamesOf(names, a), username)
  {
    forall x: string
      ensures x in OwnName(NamesOf(names', a), username) <==> x in OwnName(NamesOf(names, a), username)
    {
      InNamesOf(names', a, x);
      InNamesOf(names, a, x);
    }
  }

  /** The held names and those listed ones that differ from all of them in more than case. */
  function Merged(held: set<string>, texts: set<string>): set<string> {
    held + set x | x in texts && !Folds(held, x)
  }

  predicate Folds(held: set<string>, x: string) {
    exists y :: y in held && Lower(y) == Lower(x)
  }

  /** A share adds every listed alias its account does not have in some case. */
  lemma {:induction false} SharedAliasesAll(t: Tables, username: string, aliases: seq<string>, a: nat)
    requires NamesFiled(t.aliases) && a in t.accounts
    requires TextsGood(aliases) && NoneIs(aliases, Some(username)) && FreeFor(aliases, t.aliases, a)
    ensures var names := AddAliases(t, username, aliases, a).aliases;
      && NamesFiled(names) && NamesOf(names, a) == Merged(NamesOf(t.aliases, a), Elems(aliases))
      && forall k :: k in names && k !in t.aliases ==> exists i :: 0 <= i < |aliases| && k == Lower(aliases[i])
    decreases |aliases|
  {
    hide NamesOf, NamesFiled, NamesRefer, Lower, IsTrimmed, Trim, AddName, Folds;
    if aliases == [] {
      assert Merged(NamesOf(t.aliases, a), Elems(aliases)) == NamesOf(t.aliases, a);
    } else {
      var last := |aliases| - 1;
      var x := aliases[last];
      SharedAliasesAll(t, username, aliases[..last], a);
      var before := AddAliases(t, username, aliases[..last], a);
      SharedAliases(t, username, aliases[..last], a);
      TrimOfTrimmed(x);
      assert aliases == aliases[..last] + [x];
      assert Lower(x) in before.aliases ==> Lower(x) in t.aliases;
      FoldsHeld(t.aliases, a, x);
      if Lower(x) in before.aliases {
        AddsNothing(before.aliases, x, a);
      } else {
        AddOne(before.aliases, x, a);
      }
      MergedLast(NamesOf(t.aliases, a), aliases);
    }
  }

  lemma FoldsHeld(names: map<string, Named>, a: nat, x: string)
    requires NamesFiled(names) && (Lower(x) in names ==> names[Lower(x)].account == a)
    ensures Folds(NamesOf(names, a), x) <==> Lower(x) in names
  {
    if Lower(x) in names {
      InNamesOf(names, a, names[Lower(x)].text);
    }
    if Folds(NamesOf(names, a), x) {
      var y :| y in NamesOf(names, a) && Lower(y) == Lower(x);
      InNamesOf(names, a, y);
    }
  }

  lemma AddsNothing(names: map<string, Named>, x: string, a: nat)
    requires Trim(x) == x && Lower(x) in names
    ensures AddName(names, x, a, true).0 == names
  {
  }

  lemma MergedLast(held: set<string>, texts: seq<string>)
    requires texts != []
    ensures var x, before := texts[|texts| - 1], Merged(held, Elems(texts[..|texts| - 1]));
      Merged(held, Elems(texts)) == if Folds(held, x) then before else before + {x}
  {
    hide Folds, Elems;
    ElemsLast(texts);
  }
}
