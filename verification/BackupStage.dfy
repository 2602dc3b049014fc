// The accounts stage as a whole: rows for different accounts do not disturb each other, so
// each account ends as its own row says, in any order of rows.
module BackupStage {
  import opened Access
  import opened BackupAccounts
  import opened BackupNames
  import opened BackupOps
  import opened Roles
  import opened StoreOps
  import opened Tables
  import opened Text
  import opened Wrappers

  ghost predicate Apart(xs: seq<string>, ys: seq<string>) {
    forall i, j :: 0 <= i < |xs| && 0 <= j < |ys| ==> Lower(xs[i]) != Lower(ys[j])
  }

  /** Rows name different accounts and give them different aliases and characters. */
  ghost predicate RowsApart(rows: seq<AccountRow>) {
    forall i, j :: 0 <= i < |rows| && 0 <= j < |rows| && i != j ==>
      && AccountKey(rows[i].username) != AccountKey(rows[j].username)
      && Apart(rows[i].aliases, rows[j].aliases) && Apart(rows[i].characters, rows[j].characters)
  }

  ghost predicate RowsUsable(t: Tables, dir: map<string, nat>, rows: seq<AccountRow>) {
    forall i :: 0 <= i < |rows| ==> RowUsable(t, dir, rows[i])
  }

  ghost predicate RowDone(t: Tables, t': Tables, dir: map<string, nat>, row: AccountRow) {
    var key := AccountKey(row.username);
    && key in t'.accountIds
    && RowOf(t', t'.accountIds[key]) == RowAfter(t, dir, row)
  }

  /** Account b of t is named by one of the rows. */
  ghost predicate RowFor(t: Tables, rows: seq<AccountRow>, b: nat) {
    exists i :: 0 <= i < |rows| && AccountKey(rows[i].username) in t.accountIds && t.accountIds[AccountKey(rows[i].username)] == b
  }

  function RowKeys(rows: seq<AccountRow>): set<string> {
    set i | 0 <= i < |rows| :: AccountKey(rows[i].username)
  }

  /** From t, these rows have been imported and nothing else has happened. */
  ghost predicate Imported(t: Tables, t': Tables, dir: map<string, nat>, rows: seq<AccountRow>) {
    && Valid(t') && WorldOf(t') == WorldOf(t)
    && t'.accountIds.Keys == t.accountIds.Keys + RowKeys(rows)
    && (forall k :: k in t.accountIds ==> t'.accountIds[k] == t.accountIds[k])
    && (forall i :: 0 <= i < |rows| ==> RowDone(t, t', dir, rows[i]))
    && (forall b: nat :: !RowFor(t', rows, b) ==> RowOf(t', b) == RowOf(t, b))
  }

  lemma KeyIndexed(t: Tables, username: string)
    requires Valid(t) && username != "" && IsTrimmed(username)
    ensures FindAccount(t, username) == if AccountKey(username) in t.accountIds then Some(t.accountIds[AccountKey(username)]) else None
    ensures AccountKey(username) in t.accountIds ==>
      t.accountIds[AccountKey(username)] in t.accounts
      && AccountKey(t.accounts[t.accountIds[AccountKey(username)]].username) == AccountKey(username)
    ensures AccountFor(t, username) == if AccountKey(username) in t.accountIds then t.accountIds[AccountKey(username)] else t.nextAccount
    ensures t.nextAccount !in t.accounts
  {
    TrimOfTrimmed(username);
    KeyNotBlank(username);
    hide AccountKey;
  }

  /** Accounts indexed under different keys are different. */
  lemma KeysApart(t: Tables, k1: string, k2: string)
    requires Valid(t) && k1 in t.accountIds && k2 in t.accountIds && k1 != k2
    ensures t.accountIds[k1] != t.accountIds[k2]
  {
  }

  /** Before its turn a row's account is as it was in t. */
  lemma Untouched(t: Tables, t': Tables, dir: map<string, nat>, rows: seq<AccountRow>, n: nat)
    requires Valid(t) && n < |rows| && RowsUsable(t, dir, rows) && RowsApart(rows)
    requires Imported(t, t', dir, rows[..n])
    ensures var row := rows[n];
      && FindAccount(t', row.username) == FindAccount(t, row.username)
      && RowOf(t', AccountFor(t', row.username)) == RowOf(t, AccountFor(t, row.username))
      && !RowFor(t', rows[..n], AccountFor(t', row.username))
  {
    hide RowOf, RowAfter, AccountKey, AccountFor, FindAccount, NamesUsable, ShareUsable, OpenUsable, Valid, Apart, IsTrimmed;
    var row, key := rows[n], AccountKey(rows[n].username);
    KeyIndexed(t, row.username);
    KeyIndexed(t', row.username);
    NotAmong(rows, n);
    forall i | 0 <= i < n && AccountKey(rows[..n][i].username) in t'.accountIds
      ensures t'.accountIds[AccountKey(rows[..n][i].username)] != AccountFor(t', row.username)
    {
      var k := AccountKey(rows[i].username);
      IndexedExists(t', k);
      if key in t'.accountIds {
        KeysApart(t', k, key);
      }
    }
    if key !in t.accountIds {
      BareRow(t, t.nextAccount);
      BareRow(t', t'.nextAccount);
    }
  }

  lemma NotAmong(rows: seq<AccountRow>, n: nat)
    requires n < |rows| && RowsApart(rows)
    ensures AccountKey(rows[n].username) !in RowKeys(rows[..n])
  {
    hide AccountKey, Apart;
  }

  lemma IndexedExists(t: Tables, k: string)
    requires Valid(t) && k in t.accountIds
    ensures t.accountIds[k] in t.accounts
  {
  }

  /** The rows before do not take the names of the row whose turn it is. */
  lemma NamesStayFree(t: Tables, t': Tables, dir: map<string, nat>, rows: seq<AccountRow>, n: nat)
    requires Valid(t) && n < |rows| && RowsUsable(t, dir, rows) && RowsApart(rows)
    requires Imported(t, t', dir, rows[..n])
    ensures FreeFor(rows[n].aliases, t'.aliases, AccountFor(t', rows[n].username))
    ensures FreeFor(rows[n].characters, t'.characters, AccountFor(t', rows[n].username))
  {
    hide RowOf, AccountKey, AccountFor, FindAccount, NamesUsable, ShareUsable, OpenUsable, Valid, Apart, IsTrimmed, Imported, FreeFor;
    ImportedValid(t, t', dir, rows[..n]);
    Filed(t');
    var a := AccountFor(t', rows[n].username);
    forall i | 0 <= i < |rows[n].aliases| && Lower(rows[n].aliases[i]) in t'.aliases
      ensures t'.aliases[Lower(rows[n].aliases[i])].account == a
    {
      AliasHeld(t, t', dir, rows, n, i);
    }
    forall i | 0 <= i < |rows[n].characters| && Lower(rows[n].characters[i]) in t'.characters
      ensures t'.characters[Lower(rows[n].characters[i])].account == a
    {
      CharacterHeld(t, t', dir, rows, n, i);
    }
    FreeForIs(rows[n].aliases, t'.aliases, a);
    FreeForIs(rows[n].characters, t'.characters, a);
  }

  lemma FreeForIs(texts: seq<string>, names: map<string, Named>, a: nat)
    ensures FreeFor(texts, names, a) <==>
      forall i :: 0 <= i < |texts| && Lower(texts[i]) in names ==> names[Lower(texts[i])].account == a
  {
  }

  lemma Filed(t: Tables)
    requires Valid(t)
    ensures NamesFiled(t.aliases) && NamesFiled(t.characters)
  {
  }

  /** Who holds a name: a row imported before, or the account of old. */
  lemma Holder(t: Tables, t': Tables, dir: map<string, nat>, rows: seq<AccountRow>, b: nat)
    requires Imported(t, t', dir, rows)
    ensures RowOf(t', b) == RowOf(t, b) || exists i :: 0 <= i < |rows| && RowOf(t', b) == RowAfter(t, dir, rows[i])
  {
    hide Valid, RowOf, RowAfter, AccountKey;
    if RowFor(t', rows, b) {
      var i :| 0 <= i < |rows| && AccountKey(rows[i].username) in t'.accountIds && t'.accountIds[AccountKey(rows[i].username)] == b;
      assert RowDone(t, t', dir, rows[i]);
    }
  }

  /** An account of t that holds a name a row wants is the row's own. */
  lemma HeldInT(t: Tables, row: AccountRow, other: AccountRow, b: nat)
    requires Valid(t) && row.username != "" && IsTrimmed(row.username) && other.username != "" && IsTrimmed(other.username)
    requires AccountKey(row.username) != AccountKey(other.username)
    requires AccountFor(t, row.username) in t.accounts
    ensures AccountFor(t, row.username) != AccountFor(t, other.username)
  {
    hide AccountKey, FindAccount, Valid, IsTrimmed;
    KeyIndexed(t, row.username);
    KeyIndexed(t, other.username);
  }

  lemma AfterNames(t: Tables, dir: map<string, nat>, row: AccountRow)
    ensures var after := RowAfter(t, dir, row);
      && after.aliases <= RowOf(t, AccountFor(t, row.username)).aliases + Elems(row.aliases)
      && after.characters <= RowOf(t, AccountFor(t, row.username)).characters + Elems(row.characters)
  {
    hide AccountFor, FindAccount, Lookup, Recipients, CleanRoles, CleanIds, SharedAccount, OpenAccount, Live, Folds, RowOf, Accepted;
  }

  lemma InRowAliases(t: Tables, b: nat, text: string)
    requires Valid(t)
    ensures text in RowOf(t, b).aliases <==> Lower(text) in t.aliases && t.aliases[Lower(text)] == Named(text, b)
    ensures text in RowOf(t, b).characters <==> Lower(text) in t.characters && t.characters[Lower(text)] == Named(text, b)
    ensures text in RowOf(t, b).aliases || text in RowOf(t, b).characters ==> b in t.accounts
  {
    Filed(t);
    InNamesOf(t.aliases, b, text);
    InNamesOf(t.characters, b, text);
  }

  /** A name that an account of t holds and row n may use is held by row n's account. */
  lemma OldHolder(t: Tables, t': Tables, dir: map<string, nat>, rows: seq<AccountRow>, n: nat, b: nat)
    requires Valid(t) && n < |rows| && RowsUsable(t, dir, rows) && RowsApart(rows)
    requires Imported(t, t', dir, rows[..n])
    requires b in t.accounts && b == AccountFor(t, rows[n].username)
    ensures b == AccountFor(t', rows[n].username)
    ensures forall i :: 0 <= i < n ==> AccountFor(t, rows[i].username) != b
  {
    hide RowOf, AccountKey, AccountFor, FindAccount, NamesUsable, ShareUsable, OpenUsable, Valid, Apart, IsTrimmed, RowDone, RowAfter;
    KeyIndexed(t, rows[n].username);
    KeyIndexed(t', rows[n].username);
    forall i | 0 <= i < n
      ensures AccountFor(t, rows[i].username) != b
    {
      HeldInT(t, rows[n], rows[i], b);
    }
  }

  lemma ApartTexts(xs: seq<string>, ys: seq<string>, x: string, y: string)
    requires Apart(xs, ys) && x in xs && y in Elems(ys)
    ensures Lower(x) != Lower(y)
  {
  }

  lemma AliasHeld(t: Tables, t': Tables, dir: map<string, nat>, rows: seq<AccountRow>, n: nat, i: nat)
    requires Valid(t) && n < |rows| && RowsUsable(t, dir, rows) && RowsApart(rows)
    requires Imported(t, t', dir, rows[..n])
    requires i < |rows[n].aliases| && Lower(rows[n].aliases[i]) in t'.aliases
    requires NamesFiled(t'.aliases)
    ensures t'.aliases[Lower(rows[n].aliases[i])].account == AccountFor(t', rows[n].username)
  {
    hide RowOf, AccountKey, AccountFor, FindAccount, ShareUsable, OpenUsable, Valid, IsTrimmed, Imported, RowAfter, Lower;
    var x := rows[n].aliases[i];
    var b, y := t'.aliases[Lower(x)].account, t'.aliases[Lower(x)].text;
    ImportedValid(t, t', dir, rows[..n]);
    InRowAliases(t', b, y);
    Holder(t, t', dir, rows[..n], b);
    if RowOf(t', b) == RowOf(t, b) {
      InRowAliases(t, b, y);
      OldHolder(t, t', dir, rows, n, b);
    } else {
      var j :| 0 <= j < n && RowOf(t', b) == RowAfter(t, dir, rows[..n][j]);
      AfterNames(t, dir, rows[j]);
      var c := AccountFor(t, rows[j].username);
      InRowAliases(t, c, y);
      if y in Elems(rows[j].aliases) {
        ApartTexts(rows[n].aliases, rows[j].aliases, x, y);
      } else {
        OldHolder(t, t', dir, rows, n, c);
      }
    }
  }

  lemma CharacterHeld(t: Tables, t': Tables, dir: map<string, nat>, rows: seq<AccountRow>, n: nat, i: nat)
    requires Valid(t) && n < |rows| && RowsUsable(t, dir, rows) && RowsApart(rows)
    requires Imported(t, t', dir, rows[..n])
    requires i < |rows[n].characters| && Lower(rows[n].characters[i]) in t'.characters
    requires NamesFiled(t'.characters)
    ensures t'.characters[Lower(rows[n].characters[i])].account == AccountFor(t', rows[n].username)
  {
    hide RowOf, AccountKey, AccountFor, FindAccount, ShareUsable, OpenUsable, Valid, IsTrimmed, Imported, RowAfter, Lower;
    var x := rows[n].characters[i];
    var b, y := t'.characters[Lower(x)].account, t'.characters[Lower(x)].text;
    ImportedValid(t, t', dir, rows[..n]);
    InRowAliases(t', b, y);
    Holder(t, t', dir, rows[..n], b);
    if RowOf(t', b) == RowOf(t, b) {
      InRowAliases(t, b, y);
      OldHolder(t, t', dir, rows, n, b);
    } else {
      var j :| 0 <= j < n && RowOf(t', b) == RowAfter(t, dir, rows[..n][j]);
      AfterNames(t, dir, rows[j]);
      var c := AccountFor(t, rows[j].username);
      InRowAliases(t, c, y);
      if y in Elems(rows[j].characters) {
        ApartTexts(rows[n].characters, rows[j].characters, x, y);
      } else {
        OldHolder(t, t', dir, rows, n, c);
      }
    }
  }

  lemma ImportedValid(t: Tables, t': Tables, dir: map<string, nat>, rows: seq<AccountRow>)
    requires Imported(t, t', dir, rows)
    ensures Valid(t') && WorldOf(t') == WorldOf(t)
  {
    hide Valid;
  }

  lemma SameSharableIn(t: Tables, t': Tables, dir: map<string, nat>, rows: seq<AccountRow>)
    requires Imported(t, t', dir, rows)
    ensures Sharable(t') == Sharable(t)
  {
    ImportedValid(t, t', dir, rows);
    assert t'.users == WorldOf(t').users == WorldOf(t).users == t.users;
  }

  /** A row usable at the start is usable at its turn, and leaves the same account. */
  lemma StillUsable(t: Tables, t': Tables, dir: map<string, nat>, rows: seq<AccountRow>, n: nat)
    requires Valid(t) && n < |rows| && RowsUsable(t, dir, rows) && RowsApart(rows)
    requires Imported(t, t', dir, rows[..n])
    ensures RowUsable(t', dir, rows[n]) && RowAfter(t', dir, rows[n]) == RowAfter(t, dir, rows[n])
  {
    hide RowOf, AccountKey, FindAccount, Valid, IsTrimmed, Imported, Lower, Lookup, Recipients, CleanIds, CleanRoles, Elems, FreeFor, TextsGood, NoneIs, OwnName, Apart, Trim, Sharable, Accepted, Folds;
    var row := rows[n];
    SameSharableIn(t, t', dir, rows[..n]);
    Untouched(t, t', dir, rows, n);
    NamesStayFree(t, t', dir, rows, n);
    ImportedValid(t, t', dir, rows[..n]);
    assert RowUsable(t, dir, row);
    AccountInRow(t, AccountFor(t, row.username));
    AccountInRow(t', AccountFor(t', row.username));
  }

  lemma StillDone(t: Tables, t': Tables, t2: Tables, dir: map<string, nat>, rows: seq<AccountRow>, row: AccountRow, a: nat, key: string)
    requires OneRow(t', t2, a, key) && !RowFor(t', rows, a) && row in rows && AccountKey(row.username) != key
    requires RowDone(t, t', dir, row)
    ensures RowDone(t, t2, dir, row)
  {
    hide RowOf, RowAfter, AccountKey, Valid;
  }

  lemma OthersStay(t: Tables, t': Tables, t2: Tables, dir: map<string, nat>, rows: seq<AccountRow>, last: AccountRow, a: nat)
    requires Imported(t, t', dir, rows) && OneRow(t', t2, a, AccountKey(last.username))
    requires AccountKey(last.username) !in RowKeys(rows)
    ensures forall b: nat :: !RowFor(t2, rows + [last], b) ==> RowOf(t2, b) == RowOf(t, b)
  {
    hide RowOf, RowDone, AccountKey, Valid;
    forall b: nat | !RowFor(t2, rows + [last], b)
      ensures RowOf(t2, b) == RowOf(t, b)
    {
      var all := rows + [last];
      assert all[|rows|] == last;
      assert b != a;
      forall i | 0 <= i < |rows| && AccountKey(rows[i].username) in t'.accountIds
        ensures t'.accountIds[AccountKey(rows[i].username)] != b
      {
        assert all[i] == rows[i] && AccountKey(rows[i].username) in RowKeys(rows);
      }
      assert !RowFor(t', rows, b);
    }
  }

  /** One more row. */
  lemma ImportOne(t: Tables, t': Tables, dir: map<string, nat>, rows: seq<AccountRow>, n: nat)
    requires Valid(t) && n < |rows| && DirectoryOf(dir, t) && RowsUsable(t, dir, rows) && RowsApart(rows)
    requires Imported(t, t', dir, rows[..n])
    ensures Imported(t, ImportAccount(t', dir, rows[n]), dir, rows[..n + 1])
  {
    hide RowOf, AccountKey, AccountFor, FindAccount, Valid, RowUsable, RowAfter, ImportAccount, Apart, OneRow, RowDone, RowFor, RowKeys;
    StillUsable(t, t', dir, rows, n);
    Untouched(t, t', dir, rows, n);
    ImportAccountStep(t', dir, rows[n]);
    var t2, a, key := ImportAccount(t', dir, rows[n]), AccountFor(t', rows[n].username), AccountKey(rows[n].username);
    NotAmong(rows, n);
    assert rows[..n + 1] == rows[..n] + [rows[n]];
    KeysLast(rows[..n], rows[n]);
    OthersStay(t, t', t2, dir, rows[..n], rows[n], a);
    LastDone(t, t', t2, dir, rows[n], a);
    forall i | 0 <= i < n
      ensures RowDone(t, t2, dir, rows[i])
    {
      assert rows[..n][i] == rows[i];
      StillDone(t, t', t2, dir, rows[..n], rows[i], a, key);
    }
    IdsStay(t', t2, a, dir, rows[n]);
  }

  lemma KeysLast(rows: seq<AccountRow>, last: AccountRow)
    ensures RowKeys(rows + [last]) == RowKeys(rows) + {AccountKey(last.username)}
  {
    hide AccountKey;
    assert (rows + [last])[|rows|] == last;
    forall i | 0 <= i < |rows|
      ensures (rows + [last])[i] == rows[i]
    {
    }
  }

  lemma LastDone(t: Tables, t': Tables, t2: Tables, dir: map<string, nat>, row: AccountRow, a: nat)
    requires OneRow(t', t2, a, AccountKey(row.username)) && RowOf(t2, a) == RowAfter(t, dir, row)
    ensures RowDone(t, t2, dir, row)
  {
    hide RowOf, RowAfter, AccountKey, Valid;
  }

  lemma IdsStay(t': Tables, t2: Tables, a: nat, dir: map<string, nat>, row: AccountRow)
    requires Valid(t') && RowUsable(t', dir, row)
    requires a == AccountFor(t', row.username) && OneRow(t', t2, a, AccountKey(row.username))
    ensures Valid(t2) && WorldOf(t2) == WorldOf(t') && t2.accountIds.Keys == t'.accountIds.Keys + {AccountKey(row.username)}
    ensures forall k :: k in t'.accountIds ==> t2.accountIds[k] == t'.accountIds[k]
  {
    hide Valid, RowOf, AccountKey, AccountFor, NamesUsable, ShareUsable, OpenUsable;
    KeyIndexed(t', row.username);
  }

  /** The stage: every row's account ends as its row says; all others as they were. */
  lemma {:induction false} ImportAccountsAre(t: Tables, dir: map<string, nat>, rows: seq<AccountRow>)
    requires Valid(t) && DirectoryOf(dir, t) && RowsUsable(t, dir, rows) && RowsApart(rows)
    ensures Imported(t, ImportAccounts(t, dir, rows), dir, rows)
  {
    hide Valid, Imported, RowUsable, ImportAccount, AccountKey, Apart;
    if rows == [] {
      NothingImported(t, dir);
    } else {
      var last := |rows| - 1;
      ImportAccountsAre(t, dir, rows[..last]);
      ImportOne(t, ImportAccounts(t, dir, rows[..last]), dir, rows, last);
      assert rows[..last + 1] == rows;
    }
  }

  lemma NothingImported(t: Tables, dir: map<string, nat>)
    requires Valid(t)
    ensures Imported(t, t, dir, [])
  {
    hide Valid, RowOf;
    assert RowKeys([]) == {};
  }
}
