/** The user search query: an absent phrase gives no users; a present one
    keeps the users whose email, first name or last name contains it,
    ignoring case. Case folding is ASCII-only here. */
module Search {
  import opened Types

  /** ASCII lower-casing of one character. */
  function LowerChar(c: char): char
  {
    if 'A' <= c <= 'Z' then (c as int + 32) as char else c
  }

  /** Lower-cases every character of `s`. */
  function Lower(s: string): (r: string)
    ensures |r| == |s|
    ensures forall i :: 0 <= i < |s| ==> r[i] == LowerChar(s[i])
    ensures forall i :: 0 <= i < |s| ==> !('A' <= r[i] <= 'Z')
  {
    seq(|s|, i requires 0 <= i < |s| => LowerChar(s[i]))
  }

  /** Lower-casing twice is lower-casing once. */
  lemma LowerIdempotent(s: string)
    ensures Lower(Lower(s)) == Lower(s)
  {
  }

  /** `needle` occurs in `hay` starting at index `i`. */
  ghost predicate OccursAt(needle: string, hay: string, i: int)
  {
    0 <= i && i + |needle| <= |hay| && hay[i..i + |needle|] == needle
  }

  /** Substring search. */
  function Contains(hay: string, needle: string): (b: bool)
    ensures b <==> exists i :: OccursAt(needle, hay, i)
    decreases |hay|
  {
    if |needle| > |hay| then
      assert forall i :: !OccursAt(needle, hay, i);
      false
    else if hay[..|needle|] == needle then
      assert OccursAt(needle, hay, 0);
      true
    else
      var b := Contains(hay[1..], needle);
      ShiftOccurrence(needle, hay);
      b
  }

  /** Occurrences in `hay` past its first index are the occurrences in `hay[1..]`, shifted. */
  lemma ShiftOccurrence(needle: string, hay: string)
    requires hay != [] && !OccursAt(needle, hay, 0)
    ensures (exists i :: OccursAt(needle, hay, i)) <==> (exists i :: OccursAt(needle, hay[1..], i))
  {
    forall i | OccursAt(needle, hay[1..], i)
      ensures OccursAt(needle, hay, i + 1)
    {
      assert hay[i + 1..i + 1 + |needle|] == hay[1..][i..i + |needle|];
    }
    forall i | OccursAt(needle, hay, i)
      ensures OccursAt(needle, hay[1..], i - 1)
    {
      assert i != 0;
      assert hay[1..][i - 1..i - 1 + |needle|] == hay[i..i + |needle|];
    }
  }

  /** The `icontains` lookup. */
  predicate IContains(hay: string, needle: string)
  {
    Contains(Lower(hay), Lower(needle))
  }

  /** The OR of the three `icontains` filters. */
  predicate Matches(u: User, phrase: string)
  {
    IContains(u.email, phrase) || IContains(u.firstName, phrase) || IContains(u.lastName, phrase)
  }

  /** SearchView's query: `q` is the optional `q` parameter of the request;
      the users keep the table's order. */
  function SearchUsers(users: seq<User>, q: Option<string>): (r: seq<User>)
    ensures q.None? ==> r == []
    ensures q.Some? ==> forall u :: u in r <==> u in users && Matches(u, q.value)
    ensures q.Some? ==> forall u :: multiset(r)[u] == if Matches(u, q.value) then multiset(users)[u] else 0
    ensures |r| <= |users|
  {
    match q
    case None => []
    case Some(phrase) => Filter(users, phrase)
  }

  /** The users of `users` that match `phrase`, in order. */
  function Filter(users: seq<User>, phrase: string): (r: seq<User>)
    ensures forall u :: u in r <==> u in users && Matches(u, phrase)
    ensures forall u :: multiset(r)[u] == if Matches(u, phrase) then multiset(users)[u] else 0
    ensures |r| <= |users|
  {
    if users == [] then []
    else
      var rest := Filter(users[1..], phrase);
      assert users == [users[0]] + users[1..];
      if Matches(users[0], phrase) then [users[0]] + rest else rest
  }

  /** The empty string occurs in every string. */
  lemma ContainsEmpty(hay: string)
    ensures Contains(hay, "")
  {
  }

  /** A present but empty phrase matches every user: only an absent `q` is
      special-cased. */
  lemma {:induction false} EmptyPhraseKeepsEveryone(users: seq<User>)
    ensures SearchUsers(users, Some("")) == users
  {
    if users != [] {
      EmptyPhraseKeepsEveryone(users[1..]);
      ContainsEmpty(Lower(users[0].email));
      assert Lower("") == "";
      assert Matches(users[0], "");
    }
  }

  /** Matching ignores the case of the phrase: phrases equal up to ASCII case
      find the same users. */
  lemma {:induction false} SearchIgnoresCase(users: seq<User>, p1: string, p2: string)
    requires Lower(p1) == Lower(p2)
    ensures SearchUsers(users, Some(p1)) == SearchUsers(users, Some(p2))
  {
    if users != [] {
      SearchIgnoresCase(users[1..], p1, p2);
      assert Matches(users[0], p1) == Matches(users[0], p2);
    }
  }

  /** Matching ignores the case of the user's fields too. */
  lemma FieldCaseIgnored(hay: string, needle: string)
    ensures IContains(Lower(hay), needle) == IContains(hay, needle)
  {
    LowerIdempotent(hay);
  }
}
