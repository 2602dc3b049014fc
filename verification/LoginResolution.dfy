// From a typed name to an account: the candidates the query finds, and the one chosen.
module LoginResolution {
  import opened Access
  import opened Presence
  import opened Tables
  import opened Text

  datatype LoginCandidate = LoginCandidate(id: nat, byUser: bool, byTag: bool, byAlias: bool, byCharacter: bool) {
    predicate Direct() {
      byUser || byAlias || byCharacter
    }
  }

  /** How account a matches a folded, nonempty name. */
  function Match(t: Tables, a: nat, key: string): LoginCandidate {
    LoginCandidate(a,
      a in t.accounts && AccountKey(t.accounts[a].username) == key,
      (key, a) in t.tags,
      key in t.aliases && t.aliases[key].account == a,
      key in t.characters && t.characters[key].account == a)
  }

  predicate Matches(t: Tables, a: nat, key: string) {
    Match(t, a, key).Direct() || Match(t, a, key).byTag
  }

  /** An account the user may log in to under this name. */
  predicate Eligible(t: Tables, u: nat, key: string, a: nat) {
    Allowed(t, u, a) && Matches(t, a, key)
  }

  /** The eligible accounts with ids below n, in id order. */
  function Scan(t: Tables, u: nat, key: string, n: nat): seq<LoginCandidate> {
    if n == 0 then []
    else
      var before := Scan(t, u, key, n - 1);
      if Eligible(t, u, key, n - 1) then before + [Match(t, n - 1, key)] else before
  }

  function ResolveLoginCandidates(t: Tables, u: nat, name: string): seq<LoginCandidate> {
    var key := Lower(Trim(name));
    if key == "" then [] else Scan(t, u, key, t.nextAccount)
  }

  /** What it is for an account to match a typed name, by its username, aliases, characters and
      tags as they were written: ignoring case, and space around the name. */
  lemma MatchMeans(t: Tables, a: nat, name: string)
    requires Valid(t)
    ensures var m, typed := Match(t, a, Lower(Trim(name))), Trim(name);
      && (m.byUser <==> a in t.accounts && EqualFold(Trim(t.accounts[a].username), typed))
      && (m.byAlias <==> exists x :: x in NamesOf(t.aliases, a) && EqualFold(x, typed))
      && (m.byCharacter <==> exists x :: x in NamesOf(t.characters, a) && EqualFold(x, typed))
      && (m.byTag <==> exists x :: x in TagsOf(t.tags, a) && EqualFold(x, typed))
  {
    hide Trim, Lower, NamesOf, TagsOf, NamesFiled, TagsFiled, AccountsIndexed, UsersIndexed;
    HasName(t.aliases, Trim(name), a);
    HasName(t.characters, Trim(name), a);
    HasTag(t.tags, Trim(name), a);
  }

  /** The scan lists each eligible account once, lowest id first. */
  lemma {:induction false} ScanLists(t: Tables, u: nat, key: string, n: nat)
    ensures forall c :: c in Scan(t, u, key, n) <==> c.id < n && Eligible(t, u, key, c.id) && c == Match(t, c.id, key)
    ensures forall i, j :: 0 <= i < j < |Scan(t, u, key, n)| ==> Scan(t, u, key, n)[i].id < Scan(t, u, key, n)[j].id
  {
    hide Eligible, Match;
    if n > 0 {
      ScanLists(t, u, key, n - 1);
      assert Match(t, n - 1, key).id == n - 1 by { MatchId(t, n - 1, key); }
    }
  }

  lemma {:induction false} ScanFits(t: Tables, u: nat, key: string, n: nat)
    ensures |Scan(t, u, key, n)| <= n
  {
    hide Eligible;
    if n > 0 {
      ScanFits(t, u, key, n - 1);
    }
  }

  lemma MatchId(t: Tables, a: nat, key: string)
    ensures Match(t, a, key).id == a
  {
  }

  /** An allowed account exists and is enabled. */
  lemma AllowedExists(t: Tables, u: nat, a: nat)
    requires Valid(t) && Allowed(t, u, a)
    ensures a in t.accounts && !t.accounts[a].disabled && 0 < a < t.nextAccount
  {
    hide Of, NamesOf, TagsOf, ByRole, ByGroup;
  }

  lemma CandidatesAre(t: Tables, u: nat, name: string)
    requires Valid(t)
    ensures var key, cands := Lower(Trim(name)), ResolveLoginCandidates(t, u, name);
      && (key != "" ==> forall a: nat :: Eligible(t, u, key, a) ==> Match(t, a, key) in cands)
      && (forall c :: c in cands ==> key != "" && 0 < c.id && Eligible(t, u, key, c.id) && c == Match(t, c.id, key))
      && (forall i, j :: 0 <= i < j < |cands| ==> cands[i].id < cands[j].id)
  {
    hide Valid, Allowed, Match, Matches, Scan;
    var key := Lower(Trim(name));
    ScanLists(t, u, key, t.nextAccount);
    forall a: nat | Eligible(t, u, key, a)
      ensures 0 < a < t.nextAccount && Match(t, a, key).id == a
    {
      AllowedExists(t, u, a);
      MatchId(t, a, key);
    }
  }

  // ----- Choosing -----

  function Directs(cands: seq<LoginCandidate>): seq<LoginCandidate> {
    if cands == [] then []
    else
      var before, c := Directs(cands[..|cands| - 1]), cands[|cands| - 1];
      if c.Direct() then before + [c] else before
  }

  function TagPool(cands: seq<LoginCandidate>): seq<LoginCandidate> {
    if cands == [] then []
    else
      var before, c := TagPool(cands[..|cands| - 1]), cands[|cands| - 1];
      if !c.Direct() && c.byTag then before + [c] else before
  }

  function FirstFree(pool: seq<LoginCandidate>, busy: set<nat>): nat {
    if pool == [] then 0 else if pool[0].id !in busy then pool[0].id else FirstFree(pool[1..], busy)
  }

  function Picked(cands: seq<LoginCandidate>, busy: set<nat>): nat {
    if Directs(cands) != [] then Directs(cands)[0].id
    else if |TagPool(cands)| == 1 then TagPool(cands)[0].id
    else FirstFree(TagPool(cands), busy)
  }

  ghost predicate Ascending(cands: seq<LoginCandidate>) {
    forall i, j :: 0 <= i < j < |cands| ==> cands[i].id < cands[j].id
  }

  /** Non-decreasing clock readings, none before the tracker's last. */
  ghost predicate Readings(pres: Tracker?, times: seq<int>)
    reads pres
  {
    && (forall i, j :: 0 <= i < j < |times| ==> times[i] <= times[j])
    && (pres != null ==> pres.Valid() && forall i :: 0 <= i < |times| ==> pres.clock <= times[i])
  }

  /** The tag accounts seen busy, each at its own reading of the clock; none without a tracker. */
  ghost function BusySeen(pres: Tracker?, pool: seq<LoginCandidate>, times: seq<int>): set<nat>
    requires |pool| <= |times|
    reads pres
  {
    if pres == null then {}
    else set i | 0 <= i < |pool| && pool[i].id in Live(Recorded(pres.log), times[i], pres.ttl) :: pool[i].id
  }

  lemma OncePerAccount(pool: seq<LoginCandidate>, i: nat)
    requires Ascending(pool) && i < |pool|
    ensures forall j :: 0 <= j < |pool| && pool[j].id == pool[i].id ==> j == i
  {
  }

  /** The k-th candidate of the tag is looked up at the k-th reading. */
  method PickLoginCandidate(cands: seq<LoginCandidate>, pres: Tracker?, times: seq<int>) returns (chosen: nat)
    requires Ascending(cands) && |cands| <= |times| && Readings(pres, times)
    modifies pres
    ensures |TagPool(cands)| <= |times| && chosen == Picked(cands, old(BusySeen(pres, TagPool(cands), times)))
    ensures pres != null ==> pres.Valid() && pres.log == old(pres.log)
    ensures pres != null ==> pres.clock == old(pres.clock) || (times != [] && pres.clock <= times[|times| - 1])
  {
    PoolFits(cands);
    TagPoolIs(cands);
    if |cands| == 0 {
      return 0;
    }
    var direct, tagPool := [], [];
    for i := 0 to |cands|
      invariant direct == Directs(cands[..i]) && tagPool == TagPool(cands[..i])
      modifies {}
    {
      assert cands[..i + 1][..i] == cands[..i];
      if cands[i].Direct() {
        direct := direct + [cands[i]];
      } else if cands[i].byTag {
        tagPool := tagPool + [cands[i]];
      }
    }
    assert cands[..|cands|] == cands;
    if |direct| > 0 {
      return direct[0].id;
    }
    if |tagPool| == 1 {
      return tagPool[0].id;
    }
    chosen := PickFree(tagPool, pres, times);
  }

  /** The scan of the tag for a free account. */
  method PickFree(pool: seq<LoginCandidate>, pres: Tracker?, times: seq<int>) returns (chosen: nat)
    requires Ascending(pool) && |pool| <= |times| && Readings(pres, times)
    modifies pres
    ensures chosen == FirstFree(pool, old(BusySeen(pres, pool, times)))
    ensures pres != null ==> pres.Valid() && pres.log == old(pres.log)
    ensures pres != null ==> pres.clock == old(pres.clock) || (times != [] && pres.clock <= times[|times| - 1])
  {
    hide Live, Recorded, FirstFree;
    ghost var busy := BusySeen(pres, pool, times);
    for i := 0 to |pool|
      invariant pres != null ==> pres.Valid() && pres.log == old(pres.log)
      invariant pres != null ==> if i == 0 then pres.clock == old(pres.clock) else pres.clock == times[i - 1]
      invariant FirstFree(pool, busy) == FirstFree(pool[i..], busy)
    {
      FreeStep(pool, busy, i);
      if pres == null {
        return pool[i].id;
      }
      OncePerAccount(pool, i);
      var isBusy := pres.IsBusy(pool[i].id, times[i]);
      if !isBusy {
        return pool[i].id;
      }
    }
    NoneFree(pool, busy);
    return 0;
  }

  lemma FreeStep(pool: seq<LoginCandidate>, busy: set<nat>, i: nat)
    requires i < |pool|
    ensures FirstFree(pool[i..], busy) == if pool[i].id !in busy then pool[i].id else FirstFree(pool[i + 1..], busy)
  {
    assert pool[i..][1..] == pool[i + 1..];
  }

  lemma NoneFree(pool: seq<LoginCandidate>, busy: set<nat>)
    ensures FirstFree(pool[|pool|..], busy) == 0
  {
  }

  lemma {:induction false} PoolFits(cands: seq<LoginCandidate>)
    ensures |TagPool(cands)| <= |cands|
  {
    if cands != [] {
      PoolFits(cands[..|cands| - 1]);
    }
  }

  lemma {:induction false} DirectsAre(cands: seq<LoginCandidate>)
    requires Ascending(cands)
    ensures Ascending(Directs(cands)) && forall c :: c in Directs(cands) <==> c in cands && c.Direct()
  {
    if cands != [] {
      var last := |cands| - 1;
      DirectsAre(cands[..last]);
      assert cands == cands[..last] + [cands[last]];
      var before := Directs(cands[..last]);
      forall i | 0 <= i < |before|
        ensures before[i].id < cands[last].id
      {
        assert before[i] in cands[..last];
      }
    }
  }

  lemma {:induction false} TagPoolIs(cands: seq<LoginCandidate>)
    requires Ascending(cands)
    ensures Ascending(TagPool(cands)) && forall c :: c in TagPool(cands) <==> c in cands && !c.Direct() && c.byTag
  {
    if cands != [] {
      var last := |cands| - 1;
      TagPoolIs(cands[..last]);
      assert cands == cands[..last] + [cands[last]];
      var before := TagPool(cands[..last]);
      forall i | 0 <= i < |before|
        ensures before[i].id < cands[last].id
      {
        assert before[i] in cands[..last];
      }
    }
  }

  lemma {:induction false} FirstFreeIs(pool: seq<LoginCandidate>, busy: set<nat>)
    requires Ascending(pool) && forall c :: c in pool ==> c.id > 0
    ensures var chosen := FirstFree(pool, busy);
      if forall c :: c in pool ==> c.id in busy then chosen == 0
      else && (exists c :: c in pool && c.id == chosen) && chosen !in busy
           && forall c :: c in pool && c.id !in busy ==> chosen <= c.id
  {
    if pool != [] {
      assert pool == [pool[0]] + pool[1..];
      assert forall c :: c in pool <==> c == pool[0] || c in pool[1..];
      if pool[0].id in busy {
        FirstFreeIs(pool[1..], busy);
      } else {
        assert forall c :: c in pool[1..] ==> pool[0].id < c.id;
      }
    }
  }

  // ----- What a login resolves to -----

  ghost predicate DirectMatch(t: Tables, u: nat, key: string, a: nat) {
    Eligible(t, u, key, a) && Match(t, a, key).Direct()
  }

  ghost predicate TagMatch(t: Tables, u: nat, key: string, a: nat) {
    Eligible(t, u, key, a) && !Match(t, a, key).Direct()
  }

  /** At most three candidates are direct: the account of that username, of that alias and
      of that character. */
  lemma AtMostThreeDirect(t: Tables, u: nat, name: string)
    requires Valid(t)
    ensures |Directs(ResolveLoginCandidates(t, u, name))| <= 3
  {
    hide Valid, ResolveLoginCandidates, Directs, Allowed;
    var key, cands := Lower(Trim(name)), ResolveLoginCandidates(t, u, name);
    CandidatesAre(t, u, name);
    DirectsAre(cands);
    var ds := Directs(cands);
    if |ds| > 3 {
      assert ds[0] in ds && ds[1] in ds && ds[2] in ds && ds[3] in ds;
      OneUsername(t, u, key, ds[0].id);
      OneUsername(t, u, key, ds[1].id);
      OneUsername(t, u, key, ds[2].id);
      OneUsername(t, u, key, ds[3].id);
      assert false;
    }
  }

  lemma OneUsername(t: Tables, u: nat, key: string, a: nat)
    requires Valid(t) && Eligible(t, u, key, a)
    ensures Match(t, a, key).byUser ==> key in t.accountIds && t.accountIds[key] == a
  {
    hide Allowed;
  }

  /** The account chosen is one the user may use, enabled, and of that name. The lowest direct
      match wins whatever the tracker says; without one, the lowest free account of the tag,
      or the tag's only account. */
  lemma LoginResolves(t: Tables, u: nat, name: string, busy: set<nat>)
    requires Valid(t)
    ensures var key := Lower(Trim(name));
      var chosen := Picked(ResolveLoginCandidates(t, u, name), busy);
      && (chosen != 0 ==> key != "" && chosen in t.accounts && !t.accounts[chosen].disabled && Eligible(t, u, key, chosen))
      && (forall a: nat :: key != "" && DirectMatch(t, u, key, a) ==>
            chosen != 0 && chosen <= a && DirectMatch(t, u, key, chosen))
      && (chosen != 0 && TagMatch(t, u, key, chosen) ==>
            forall a: nat :: TagMatch(t, u, key, a) && (a !in busy || chosen in busy) ==> chosen <= a)
      && (chosen != 0 && TagMatch(t, u, key, chosen) && chosen in busy ==>
            forall a: nat :: TagMatch(t, u, key, a) ==> a == chosen)
  {
    hide Valid, ResolveLoginCandidates, Directs, TagPool, FirstFree, Allowed, Match, Eligible, Matches;
    var cands := ResolveLoginCandidates(t, u, name);
    var key := Lower(Trim(name));
    CandidatesAre(t, u, name);
    DirectsAre(cands);
    TagPoolIs(cands);
    FirstFreeIs(TagPool(cands), busy);
    var chosen := Picked(cands, busy);
    PickedIsCandidate(cands, busy);
    if chosen != 0 {
      assert Allowed(t, u, chosen) by { EligibleAllowed(t, u, key, chosen); }
      AllowedExists(t, u, chosen);
    }
    forall a: nat | key != "" && Eligible(t, u, key, a)
      ensures Match(t, a, key) in cands && Match(t, a, key).id == a
      ensures !Match(t, a, key).Direct() ==> Match(t, a, key) in TagPool(cands)
    {
      MatchId(t, a, key);
      EligibleAllowed(t, u, key, a);
    }
  }

  lemma EligibleAllowed(t: Tables, u: nat, key: string, a: nat)
    requires Eligible(t, u, key, a)
    ensures Allowed(t, u, a) && (Match(t, a, key).Direct() || Match(t, a, key).byTag)
  {
  }

  lemma PickedIsCandidate(cands: seq<LoginCandidate>, busy: set<nat>)
    requires Ascending(cands) && forall c :: c in cands ==> c.id > 0
    ensures var chosen := Picked(cands, busy);
      chosen != 0 ==> exists c :: c in cands && c.id == chosen
  {
    DirectsAre(cands);
    TagPoolIs(cands);
    FirstFreeIs(TagPool(cands), busy);
    if Directs(cands) != [] {
      assert Directs(cands)[0] in Directs(cands);
    } else if |TagPool(cands)| == 1 {
      assert TagPool(cands)[0] in TagPool(cands);
    }
  }

  /** No account is chosen exactly when there is no candidate, or there are at least two, all
      matching by tag only and all busy. */
  lemma NoneChosen(t: Tables, u: nat, name: string, busy: set<nat>)
    requires Valid(t)
    ensures var cands := ResolveLoginCandidates(t, u, name);
      Picked(cands, busy) == 0 <==>
        || cands == []
        || (|cands| >= 2 && forall c :: c in cands ==> !c.Direct() && c.id in busy)
  {
    hide Valid, ResolveLoginCandidates, Allowed, FirstFree, Directs, TagPool;
    var cands := ResolveLoginCandidates(t, u, name);
    CandidatesAre(t, u, name);
    DirectsAre(cands);
    TagPoolIs(cands);
    FirstFreeIs(TagPool(cands), busy);
    if Directs(cands) != [] {
      assert Directs(cands)[0] in Directs(cands);
    } else {
      PoolIsAll(cands);
    }
    if cands != [] {
      assert cands[0] in cands;
    }
  }

  lemma {:induction false} PoolIsAll(cands: seq<LoginCandidate>)
    requires forall c :: c in cands ==> !c.Direct() && c.byTag
    ensures TagPool(cands) == cands
  {
    if cands != [] {
      var last := |cands| - 1;
      assert cands == cands[..last] + [cands[last]];
      PoolIsAll(cands[..last]);
    }
  }
}
