// List cells of the account CSV: several names in one cell. Joining writes commas; splitting
// accepts commas, semicolons, and bars where there is no comma, drops blanks and keeps the
// first of names that differ only in case.
module Csv {
  import opened Text
  import opened Wrappers

  // ----- What splitting computes -----

  function Separator(cell: string): char {
    if '|' in cell && ',' !in cell then '|' else ','
  }

  predicate Splits(c: char, sep: char) {
    c == sep || c == ';'
  }

  /** The pieces between separators, empty ones included. */
  function Pieces(cell: string, sep: char): (r: seq<string>)
    ensures |r| >= 1
  {
    if cell == [] then [""]
    else
      var rest := Pieces(cell[1..], sep);
      if Splits(cell[0], sep) then [""] + rest else [[cell[0]] + rest[0]] + rest[1..]
  }

  function Contains(out: seq<string>, name: string): bool {
    exists k :: 0 <= k < |out| && EqualFold(out[k], name)
  }

  /** Go's strings.FieldsFunc: the nonempty pieces. */
  function Fields(cell: string, sep: char): seq<string> {
    NonEmpty(Pieces(cell, sep))
  }

  function NonEmpty(pieces: seq<string>): seq<string> {
    if pieces == [] then [] else (if pieces[0] == "" then [] else [pieces[0]]) + NonEmpty(pieces[1..])
  }

  /** The trimmed fields, without blanks and repeats. */
  function Kept(fields: seq<string>): seq<string> {
    if fields == [] then []
    else
      var before, p := Kept(fields[..|fields| - 1]), Trim(fields[|fields| - 1]);
      if p == "" || Contains(before, p) then before else before + [p]
  }

  function Split(cell: string): seq<string> {
    var s := Trim(cell);
    if s == "" then [] else Kept(Fields(s, Separator(s)))
  }

  function Join(parts: seq<string>): string {
    if parts == [] then ""
    else if |parts| == 1 then parts[0]
    else parts[0] + "," + Join(parts[1..])
  }

  method SplitMulti(cell: string) returns (out: seq<string>)
    ensures out == Split(cell)
  {
    hide Trim, Lower, Fields;
    var s := Trim(cell);
    if s == "" {
      return [];
    }
    var sep := ',';
    if '|' in s && ',' !in s {
      sep := '|';
    }
    var parts := Fields(s, sep);
    var seen: set<string> := {};
    out := [];
    for i := 0 to |parts|
      invariant out == Kept(parts[..i])
      invariant forall name: string :: Lower(name) in seen <==> Contains(out, name)
    {
      assert parts[..i + 1][..i] == parts[..i];
      var p := Trim(parts[i]);
      if p == "" || Lower(p) in seen {
        continue;
      }
      seen := seen + {Lower(p)};
      ContainsOneMore(out, p);
      out := out + [p];
    }
    assert parts[..|parts|] == parts;
  }

  lemma ContainsOneMore(out: seq<string>, p: string)
    ensures forall name: string :: Contains(out + [p], name) <==> Contains(out, name) || EqualFold(p, name)
  {
    hide EqualFold;
    forall name: string
      ensures Contains(out + [p], name) <==> Contains(out, name) || EqualFold(p, name)
    {
      assert (out + [p])[|out|] == p;
      assert forall k :: 0 <= k < |out| ==> (out + [p])[k] == out[k];
      if Contains(out, name) {
        var k :| 0 <= k < |out| && EqualFold(out[k], name);
        assert EqualFold((out + [p])[k], name);
      }
    }
  }

  // ----- When a list survives its cell -----

  predicate Distinct(names: seq<string>) {
    forall i, j :: 0 <= i < j < |names| ==> !EqualFold(names[i], names[j])
  }

  predicate Clean(name: string) {
    IsTrimmed(name) && name != "" && ',' !in name && ';' !in name
  }

  /** What a list must be to survive: clean names, distinct ignoring case, and no bar in a
      list of one, where it would be taken for the separator. */
  predicate Survives(names: seq<string>) {
    && (forall i :: 0 <= i < |names| ==> Clean(names[i]))
    && Distinct(names)
    && (|names| == 1 ==> '|' !in names[0])
  }

  lemma {:induction false} TrimmedPart(s: string)
    ensures forall c :: c in Trim(s) ==> c in s
  {
    TrimLeftPart(s);
    TrimRightPart(TrimLeft(s));
  }

  lemma {:induction false} TrimLeftPart(s: string)
    ensures forall c :: c in TrimLeft(s) ==> c in s
  {
    if s != [] {
      TrimLeftPart(s[1..]);
    }
  }

  lemma {:induction false} TrimRightPart(s: string)
    ensures forall c :: c in TrimRight(s) ==> c in s
  {
    if s != [] {
      TrimRightPart(s[..|s| - 1]);
    }
  }

  lemma {:induction false} PiecesAvoid(cell: string, sep: char)
    ensures forall k, c :: 0 <= k < |Pieces(cell, sep)| && c in Pieces(cell, sep)[k] ==> c in cell && !Splits(c, sep)
  {
    if cell != [] {
      PiecesAvoid(cell[1..], sep);
      var pieces, rest := Pieces(cell, sep), Pieces(cell[1..], sep);
      assert forall x :: x in cell[1..] ==> x in cell;
      forall k, c | 0 <= k < |pieces| && c in pieces[k]
        ensures c in cell && !Splits(c, sep)
      {
        if Splits(cell[0], sep) {
          assert k > 0 && c in rest[k - 1];
        } else if k > 0 {
          assert c in rest[k];
        } else {
          assert c == cell[0] || c in rest[0];
        }
      }
    }
  }

  lemma {:induction false} NonEmptyFrom(pieces: seq<string>)
    ensures forall f :: f in NonEmpty(pieces) ==> f in pieces
  {
    if pieces != [] {
      NonEmptyFrom(pieces[1..]);
    }
  }

  /** Every kept name is the trimmed form of a field, and no two agree ignoring case. */
  lemma {:induction false} KeptAre(fields: seq<string>)
    ensures var kept := Kept(fields);
      && (forall k :: 0 <= k < |kept| ==> kept[k] != "" && exists f :: f in fields && kept[k] == Trim(f))
      && Distinct(kept)
  {
    if fields != [] {
      var last := |fields| - 1;
      KeptAre(fields[..last]);
      assert forall f :: f in fields[..last] ==> f in fields;
      assert fields[last] in fields;
    }
  }

  lemma KeptField(fields: seq<string>, i: nat) returns (f: string)
    requires i < |Kept(fields)|
    ensures f in fields && Kept(fields)[i] == Trim(f) != ""
  {
    KeptAre(fields);
    var kept := Kept(fields);
    assert kept[i] != "";
    f :| f in fields && kept[i] == Trim(f);
  }

  /** A trimmed field has none of the separators, and only characters of the cell. */
  lemma FieldIsClean(s: string, sep: char, f: string)
    requires f in Fields(s, sep) && Trim(f) != ""
    requires sep == ',' || sep == '|'
    requires sep == '|' ==> ',' !in s
    ensures Clean(Trim(f)) && (sep == '|' ==> '|' !in Trim(f))
  {
    hide Trim, IsTrimmed;
    PiecesAvoid(s, sep);
    NonEmptyFrom(Pieces(s, sep));
    var k :| 0 <= k < |Pieces(s, sep)| && Pieces(s, sep)[k] == f;
    TrimTrims(f);
    TrimmedPart(f);
    assert forall c :: c in Trim(f) ==> c in s && !Splits(c, sep);
    assert Splits(';', sep) && Splits(sep, sep);
  }

  lemma SplitIsClean(cell: string)
    ensures var out := Split(cell);
      && (forall i :: 0 <= i < |out| ==> Clean(out[i]))
      && Distinct(out)
      && ('|' in Trim(cell) && ',' !in Trim(cell) ==> forall i :: 0 <= i < |out| ==> '|' !in out[i])
  {
    hide Trim, Clean, Fields, Kept, EqualFold;
    var s := Trim(cell);
    var sep := Separator(s);
    if s != "" {
      var out := Kept(Fields(s, sep));
      KeptAre(Fields(s, sep));
      forall i | 0 <= i < |out|
        ensures Clean(out[i]) && (sep == '|' ==> '|' !in out[i])
      {
        var f := KeptField(Fields(s, sep), i);
        FieldIsClean(s, sep, f);
      }
    }
  }

  lemma {:induction false} PiecesOfJoin(names: seq<string>)
    requires names != [] && forall i :: 0 <= i < |names| ==> Clean(names[i])
    ensures Pieces(Join(names), ',') == names
  {
    if |names| == 1 {
      PiecesOfOne(names[0], "");
      assert names[0] + "" == names[0];
    } else {
      PiecesOfJoin(names[1..]);
      PiecesOfOne(names[0], "," + Join(names[1..]));
      assert names[0] + "," + Join(names[1..]) == names[0] + ("," + Join(names[1..]));
      assert ("," + Join(names[1..]))[1..] == Join(names[1..]);
      assert Pieces("," + Join(names[1..]), ',') == [""] + names[1..];
      assert names[0] + "" == names[0];
    }
  }

  lemma {:induction false} PiecesOfOne(name: string, rest: string)
    requires ',' !in name && ';' !in name
    ensures Pieces(name + rest, ',') == [name + Pieces(rest, ',')[0]] + Pieces(rest, ',')[1..]
  {
    if name == "" {
      assert name + rest == rest;
      assert name + Pieces(rest, ',')[0] == Pieces(rest, ',')[0];
    } else {
      assert (name + rest)[1..] == name[1..] + rest;
      PiecesOfOne(name[1..], rest);
      assert name[0] in name;
      var first := Pieces(rest, ',')[0];
      assert [name[0]] + (name[1..] + first) == name + first;
    }
  }

  lemma {:induction false} KeepAll(names: seq<string>)
    requires forall i :: 0 <= i < |names| ==> Clean(names[i])
    requires Distinct(names)
    ensures Kept(names) == names
  {
    if names != [] {
      var last := |names| - 1;
      KeepAll(names[..last]);
      TrimOfTrimmed(names[last]);
      assert names[..last] + [names[last]] == names;
    }
  }

  lemma {:induction false} NonEmptyAll(names: seq<string>)
    requires forall i :: 0 <= i < |names| ==> names[i] != ""
    ensures NonEmpty(names) == names
  {
    if names != [] {
      NonEmptyAll(names[1..]);
    }
  }

  lemma {:induction false} JoinEnds(names: seq<string>)
    requires names != [] && forall i :: 0 <= i < |names| ==> Clean(names[i])
    ensures IsTrimmed(Join(names)) && Join(names) != ""
    ensures |names| > 1 ==> ',' in Join(names)
  {
    if |names| > 1 {
      JoinEnds(names[1..]);
      var j := Join(names);
      assert j[|names[0]|] == ',';
      assert j[|j| - 1] == Join(names[1..])[|Join(names[1..])| - 1];
    }
  }

  /** A list of names comes back from its cell exactly when it is one that survives. */
  lemma SplitJoin(names: seq<string>)
    ensures Split(Join(names)) == names <==> Survives(names)
  {
    if names == [] {
      assert Split(Join(names)) == [];
    } else if Survives(names) {
      JoinEnds(names);
      TrimOfTrimmed(Join(names));
      assert Separator(Join(names)) == ',';
      PiecesOfJoin(names);
      NonEmptyAll(names);
      KeepAll(names);
    } else if Split(Join(names)) == names {
      SplitIsClean(Join(names));
      if |names| == 1 {
        TrimOfTrimmed(names[0]);
      }
      assert false;
    }
  }

  // ----- Nothing is lost, and nothing added -----

  /** The text from i to j is what lies between two separators, or an end of the cell. */
  predicate IsPiece(s: string, sep: char, i: nat, j: nat) {
    && i <= j <= |s|
    && (i == 0 || Splits(s[i - 1], sep)) && (j == |s| || Splits(s[j], sep))
    && forall k :: i <= k < j ==> !Splits(s[k], sep)
  }

  lemma LaterPiece(s: string, sep: char, i: nat, j: nat)
    requires 0 < i <= j && |s| > 0
    ensures IsPiece(s, sep, i, j) ==> IsPiece(s[1..], sep, i - 1, j - 1)
    ensures j <= |s| ==> s[1..][i - 1..j - 1] == s[i..j]
  {
    assert forall k :: 0 <= k < |s| - 1 ==> s[1..][k] == s[k + 1];
  }

  /** Every piece is found, the first one in front. */
  lemma {:induction false} PieceFound(s: string, sep: char, i: nat, j: nat)
    requires IsPiece(s, sep, i, j)
    ensures if i == 0 then s[..j] == Pieces(s, sep)[0] else s[i..j] in Pieces(s, sep)[1..]
    decreases |s|
  {
    if s != [] {
      if i > 0 {
        LaterPiece(s, sep, i, j);
        PieceFound(s[1..], sep, i - 1, j - 1);
      } else if j > 0 {
        assert forall k :: 0 <= k < |s| - 1 ==> s[1..][k] == s[k + 1];
        PieceFound(s[1..], sep, 0, j - 1);
        assert s[..j] == [s[0]] + s[1..][..j - 1];
      }
    }
  }

  lemma EarlierPiece(s: string, sep: char, i: nat, j: nat)
    requires s != [] && IsPiece(s[1..], sep, i, j)
    ensures s[1..][i..j] == s[i + 1..j + 1]
    ensures i > 0 || Splits(s[0], sep) ==> IsPiece(s, sep, i + 1, j + 1)
    ensures i == 0 && !Splits(s[0], sep) ==> IsPiece(s, sep, 0, j + 1) && s[0..j + 1] == [s[0]] + s[1..][..j]
  {
    hide Splits;
    assert forall k :: 0 < k < |s| ==> s[k] == s[1..][k - 1];
  }

  /** And nothing else is. */
  lemma {:induction false} PieceFrom(s: string, sep: char, p: nat) returns (i: nat, j: nat)
    requires p < |Pieces(s, sep)|
    ensures IsPiece(s, sep, i, j) && Pieces(s, sep)[p] == s[i..j] && (p == 0 <==> i == 0)
    decreases |s|
  {
    if s == [] || (p == 0 && Splits(s[0], sep)) {
      return 0, 0;
    }
    i, j := PieceFrom(s[1..], sep, if Splits(s[0], sep) then p - 1 else p);
    EarlierPiece(s, sep, i, j);
    i, j := if p == 0 then 0 else i + 1, j + 1;
  }

  lemma {:induction false} NonEmptyHas(pieces: seq<string>)
    ensures forall p :: p in pieces && p != "" ==> p in NonEmpty(pieces)
  {
    if pieces != [] {
      NonEmptyHas(pieces[1..]);
      assert pieces == [pieces[0]] + pieces[1..];
    }
  }

  lemma {:induction false} KeptAll(fields: seq<string>)
    ensures forall f :: f in fields && Trim(f) != "" ==> Contains(Kept(fields), Trim(f))
    decreases |fields|
  {
    hide Trim, EqualFold;
    if fields != [] {
      var last := |fields| - 1;
      KeptAll(fields[..last]);
      assert fields == fields[..last] + [fields[last]];
      assert forall f :: f in fields <==> f in fields[..last] || f == fields[last];
      var before, p := Kept(fields[..last]), Trim(fields[last]);
      ContainsOneMore(before, p);
      assert EqualFold(p, p) by { FoldSame(p); }
    }
  }

  lemma FoldSame(p: string)
    ensures EqualFold(p, p)
  {
  }

  lemma PieceFoundIn(s: string, sep: char, i: nat, j: nat)
    requires IsPiece(s, sep, i, j)
    ensures s[i..j] in Pieces(s, sep)
  {
    hide Pieces;
    PieceFound(s, sep, i, j);
    if i > 0 {
      var k :| 0 <= k < |Pieces(s, sep)[1..]| && Pieces(s, sep)[1..][k] == s[i..j];
      assert Pieces(s, sep)[k + 1] == s[i..j];
    }
  }

  lemma BlankPieces(s: string, i: nat, j: nat)
    requires i <= j <= |s| && Trim(s[i..j]) != ""
    ensures s != "" && s[i..j] != ""
  {
  }

  /** Every piece of a cell that is not blank is in the list, in one spelling, and the list holds
      nothing else. The pieces lie between commas or semicolons, or between bars or semicolons
      where the cell has bars and no comma. */
  lemma SplitIsComplete(cell: string)
    ensures var s := Trim(cell);
      var sep := if '|' in s && ',' !in s then '|' else ',';
      && (forall i: nat, j: nat :: IsPiece(s, sep, i, j) && Trim(s[i..j]) != "" ==> Contains(Split(cell), Trim(s[i..j])))
      && (forall p :: p in Split(cell) ==> exists i: nat, j: nat :: IsPiece(s, sep, i, j) && p == Trim(s[i..j]))
  {
    hide Trim, Splits, Contains, Kept, Pieces, NonEmpty;
    var s := Trim(cell);
    var sep := Separator(s);
    var pieces := Pieces(s, sep);
    NonEmptyHas(pieces);
    NonEmptyFrom(pieces);
    KeptAll(Fields(s, sep));
    KeptAre(Fields(s, sep));
    forall i: nat, j: nat | IsPiece(s, sep, i, j) && Trim(s[i..j]) != ""
      ensures Contains(Split(cell), Trim(s[i..j]))
    {
      PieceFoundIn(s, sep, i, j);
      BlankPieces(s, i, j);
    }
    forall p | p in Split(cell)
      ensures exists i: nat, j: nat :: IsPiece(s, sep, i, j) && p == Trim(s[i..j])
    {
      var f :| f in Fields(s, sep) && p == Trim(f);
      var k :| 0 <= k < |pieces| && pieces[k] == f;
      var i, j := PieceFrom(s, sep, k);
    }
  }

  // ----- Role cells -----

  datatype DiscordRole = DiscordRole(id: string, name: string)

  predicate IsSnowflake(s: string) {
    17 <= |s| <= 20 && forall i :: 0 <= i < |s| ==> '0' <= s[i] <= '9'
  }

  function FindById(roles: seq<DiscordRole>, id: string): Option<DiscordRole> {
    if roles == [] then None
    else if roles[0].id == id then Some(roles[0])
    else FindById(roles[1..], id)
  }

  function FindByName(roles: seq<DiscordRole>, name: string): Option<DiscordRole> {
    if roles == [] then None
    else if EqualFold(roles[0].name, name) then Some(roles[0])
    else FindByName(roles[1..], name)
  }

  function ResolveRoleID(role: string, roles: seq<DiscordRole>): Result<string, string> {
    var r := Trim(role);
    if r == "" then Ok("")
    else if FindById(roles, r).Some? then Ok(r)
    else
      match FindByName(roles, r)
      case Some(found) => Ok(found.id)
      case None => if IsSnowflake(r) then Ok(r) else Err("unknown role")
  }

  function RoleLabel(roleID: string, roles: seq<DiscordRole>): string {
    var id := Trim(roleID);
    if id == "" then ""
    else
      match FindById(roles, id)
      case None => id
      case Some(r) => if Trim(r.name) != "" then Trim(r.name) else id
  }

  lemma {:induction false} FindByIdAt(roles: seq<DiscordRole>, k: nat)
    requires k < |roles| && forall i :: 0 <= i < k ==> roles[i].id != roles[k].id
    ensures FindById(roles, roles[k].id) == Some(roles[k])
  {
    if k > 0 {
      FindByIdAt(roles[1..], k - 1);
    }
  }

  lemma {:induction false} FindByIdNone(roles: seq<DiscordRole>, id: string)
    ensures FindById(roles, id).None? <==> forall i :: 0 <= i < |roles| ==> roles[i].id != id
  {
    if roles != [] {
      FindByIdNone(roles[1..], id);
    }
  }

  lemma {:induction false} FindByNameFirst(roles: seq<DiscordRole>, name: string) returns (k: nat)
    requires exists i :: 0 <= i < |roles| && EqualFold(roles[i].name, name)
    ensures k < |roles| && EqualFold(roles[k].name, name) && FindByName(roles, name) == Some(roles[k])
    ensures forall i :: 0 <= i < k ==> !EqualFold(roles[i].name, name)
  {
    if EqualFold(roles[0].name, name) {
      k := 0;
    } else {
      var i :| 0 <= i < |roles| && EqualFold(roles[i].name, name);
      assert roles[1..][i - 1] == roles[i];
      k := FindByNameFirst(roles[1..], name);
      k := k + 1;
    }
  }

  /** A cached role with a proper name survives its label exactly when no role id equals the
      label and no role earlier in the cache has that name ignoring case. */
  lemma LabelResolves(roles: seq<DiscordRole>, k: nat)
    requires k < |roles|
    requires forall i, j :: 0 <= i < j < |roles| ==> roles[i].id != roles[j].id
    requires IsTrimmed(roles[k].id) && roles[k].id != ""
    requires IsTrimmed(roles[k].name) && roles[k].name != ""
    ensures ResolveRoleID(RoleLabel(roles[k].id, roles), roles) == Ok(roles[k].id)
       <==> || roles[k].name == roles[k].id
            || ((forall i :: 0 <= i < |roles| ==> roles[i].id != roles[k].name)
                && forall i :: 0 <= i < k ==> !EqualFold(roles[i].name, roles[k].name))
  {
    var id, name := roles[k].id, roles[k].name;
    TrimOfTrimmed(id);
    TrimOfTrimmed(name);
    FindByIdAt(roles, k);
    assert RoleLabel(id, roles) == name;
    FindByIdNone(roles, name);
    if FindById(roles, name).None? {
      assert EqualFold(roles[k].name, name);
      var first := FindByNameFirst(roles, name);
      assert ResolveRoleID(name, roles) == Ok(roles[first].id);
    }
  }

  /** What a role cell resolves to: the id it spells, or else the first role of that name, or
      else itself if it could be an id; and nothing when it is none of these. */
  lemma RoleResolves(role: string, roles: seq<DiscordRole>)
    ensures var r, answer := Trim(role), ResolveRoleID(role, roles);
      if r == "" then answer == Ok("")
      else if exists i :: 0 <= i < |roles| && roles[i].id == r then answer == Ok(r)
      else if exists i :: 0 <= i < |roles| && EqualFold(roles[i].name, r) then
        exists i :: 0 <= i < |roles| && EqualFold(roles[i].name, r) && answer == Ok(roles[i].id)
                    && forall j :: 0 <= j < i ==> !EqualFold(roles[j].name, r)
      else if 17 <= |r| <= 20 && forall i :: 0 <= i < |r| ==> '0' <= r[i] <= '9' then answer == Ok(r)
      else answer.Err?
  {
    hide Trim, EqualFold;
    var r := Trim(role);
    FindByIdNone(roles, r);
    if exists i :: 0 <= i < |roles| && EqualFold(roles[i].name, r) {
      var k := FindByNameFirst(roles, r);
    } else {
      FindByNameNone(roles, r);
    }
  }

  lemma {:induction false} FindByNameNone(roles: seq<DiscordRole>, name: string)
    requires forall i :: 0 <= i < |roles| ==> !EqualFold(roles[i].name, name)
    ensures FindByName(roles, name).None?
  {
    if roles != [] {
      FindByNameNone(roles[1..], name);
    }
  }

  /** What an export writes for a role id: the name of the first role with that id, unless it is
      blank or there is none; then the id itself. */
  lemma LabelMeans(roleID: string, roles: seq<DiscordRole>, k: nat)
    ensures (forall i :: 0 <= i < |roles| ==> roles[i].id != Trim(roleID)) ==> RoleLabel(roleID, roles) == Trim(roleID)
    ensures k < |roles| && roles[k].id == Trim(roleID) != "" && (forall i :: 0 <= i < k ==> roles[i].id != Trim(roleID)) ==>
      RoleLabel(roleID, roles) == if Trim(roles[k].name) != "" then Trim(roles[k].name) else Trim(roleID)
  {
    hide Trim;
    FindByIdNone(roles, Trim(roleID));
    if k < |roles| && roles[k].id == Trim(roleID) && forall i :: 0 <= i < k ==> roles[i].id != Trim(roleID) {
      FindByIdAt(roles, k);
    }
  }
}
