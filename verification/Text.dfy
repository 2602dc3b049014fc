// Trimming and case folding, on ASCII.
module Text {
  predicate IsSpace(c: char) {
    c == ' ' || c == '\t' || c == '\n' || c == '\r' || c as int == 0x0B || c as int == 0x0C
  }

  function LowerChar(c: char): char {
    if 'A' <= c <= 'Z' then (c as int + 32) as char else c
  }

  function Lower(s: string): (r: string)
    ensures |r| == |s|
  {
    seq(|s|, i requires 0 <= i < |s| => LowerChar(s[i]))
  }

  /** Go's strings.EqualFold. */
  predicate EqualFold(a: string, b: string) {
    Lower(a) == Lower(b)
  }

  function TrimLeft(s: string): string {
    if s != [] && IsSpace(s[0]) then TrimLeft(s[1..]) else s
  }

  function TrimRight(s: string): string {
    if s != [] && IsSpace(s[|s| - 1]) then TrimRight(s[..|s| - 1]) else s
  }

  /** Go's strings.TrimSpace. */
  function Trim(s: string): string {
    TrimRight(TrimLeft(s))
  }

  predicate IsTrimmed(s: string) {
    s == [] || (!IsSpace(s[0]) && !IsSpace(s[|s| - 1]))
  }

  lemma {:induction false} TrimLeftStarts(s: string)
    ensures var r := TrimLeft(s); r == [] || !IsSpace(r[0])
  {
    if s != [] && IsSpace(s[0]) {
      TrimLeftStarts(s[1..]);
    }
  }

  lemma {:induction false} TrimRightEnds(s: string)
    requires s == [] || !IsSpace(s[0])
    ensures IsTrimmed(TrimRight(s))
  {
    if s != [] && IsSpace(s[|s| - 1]) {
      TrimRightEnds(s[..|s| - 1]);
    }
  }

  lemma TrimTrims(s: string)
    ensures IsTrimmed(Trim(s))
  {
    TrimLeftStarts(s);
    TrimRightEnds(TrimLeft(s));
  }

  lemma TrimOfTrimmed(s: string)
    requires IsTrimmed(s)
    ensures Trim(s) == s
  {
  }

  lemma TrimFixed(s: string)
    ensures Trim(s) == s <==> IsTrimmed(s)
  {
    TrimTrims(s);
  }

  lemma {:induction false} TrimLeftMeans(s: string) returns (i: nat)
    ensures i <= |s| && TrimLeft(s) == s[i..] && forall k :: 0 <= k < i ==> IsSpace(s[k])
  {
    i := 0;
    if s != [] && IsSpace(s[0]) {
      i := TrimLeftMeans(s[1..]);
      i := i + 1;
    }
  }

  lemma {:induction false} TrimRightMeans(s: string) returns (j: nat)
    ensures j <= |s| && TrimRight(s) == s[..j] && forall k :: j <= k < |s| ==> IsSpace(s[k])
  {
    j := |s|;
    if s != [] && IsSpace(s[|s| - 1]) {
      j := TrimRightMeans(s[..|s| - 1]);
    }
  }

  /** Trimming takes away the space at both ends, all of it and nothing else. */
  lemma TrimMeans(s: string) returns (i: nat, j: nat)
    ensures i <= j <= |s| && Trim(s) == s[i..j] && IsTrimmed(s[i..j])
    ensures forall k :: 0 <= k < i || j <= k < |s| ==> IsSpace(s[k])
  {
    TrimTrims(s);
    i := TrimLeftMeans(s);
    j := TrimRightMeans(s[i..]);
    assert s[i..][..j] == s[i..i + j];
    forall k | i + j <= k < |s|
      ensures IsSpace(s[k])
    {
      assert s[k] == s[i..][k - i];
    }
    j := i + j;
  }

  /** A capital letter and its small one. */
  predicate IsCase(capital: char, small: char) {
    'A' <= capital <= 'Z' && small as int == capital as int + 32
  }

  /** Ignoring case means letter by letter. */
  lemma FoldMeans(a: string, b: string)
    ensures EqualFold(a, b) <==>
      |a| == |b| && forall i :: 0 <= i < |a| ==> a[i] == b[i] || IsCase(a[i], b[i]) || IsCase(b[i], a[i])
  {
    hide LowerChar, IsCase;
    forall c: char, d: char
      ensures LowerChar(c) == LowerChar(d) <==> c == d || IsCase(c, d) || IsCase(d, c)
    {
      CaseMeans(c, d);
    }
    if Lower(a) == Lower(b) {
      assert forall i :: 0 <= i < |a| ==> Lower(a)[i] == LowerChar(a[i]) && Lower(b)[i] == LowerChar(b[i]);
    }
  }

  lemma CaseMeans(c: char, d: char)
    ensures LowerChar(c) == LowerChar(d) <==> c == d || IsCase(c, d) || IsCase(d, c)
  {
  }
}
