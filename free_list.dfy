/**
 * The intrusive free list of the memory pool. Every unit starts with a
 * one-pointer header; while the unit is free that header holds the address
 * of the next free unit. Addresses are integers and `Null` (0) stands for
 * `nullptr`; `links` maps a unit's address to the contents of its header.
 */
module FreeList {

  const Null: int := 0

  /**
   * Following the headers from `head` visits exactly the units of `s`, in
   * order, and then reaches `Null`.
   */
  ghost predicate IsList(links: map<int, int>, head: int, s: seq<int>)
    decreases |s|
  {
    if s == [] then head == Null
    else head == s[0] && head in links && IsList(links, links[head], s[1..])
  }

  ghost predicate Distinct(s: seq<int>)
  {
    forall i, j :: 0 <= i < j < |s| ==> s[i] != s[j]
  }

  /** An empty list is exactly a null head (units are never at address 0). */
  lemma IsListEmpty(links: map<int, int>, head: int, s: seq<int>)
    requires IsList(links, head, s) && Null !in s
    ensures head == Null <==> s == []
  {
  }

  /** Rewriting the header of a unit that is not on the list leaves the list alone. */
  lemma {:induction false} IsListFrame(links: map<int, int>, head: int, s: seq<int>, unit: int, next: int)
    requires IsList(links, head, s) && unit !in s
    ensures IsList(links[unit := next], head, s)
    decreases |s|
  {
    if s != [] {
      IsListFrame(links, links[head], s[1..], unit, next);
    }
  }

  /**
   * Pushing `unit` (its header set to the old head, which `insertToHead`
   * does in both of its branches) yields the list `[unit] + s`; popping it
   * again returns `unit` and leaves the old head and the old list behind.
   */
  lemma InsertThenRemove(links: map<int, int>, head: int, s: seq<int>, unit: int)
    requires IsList(links, head, s) && unit !in s && unit != Null
    ensures IsList(links[unit := head], unit, [unit] + s)
    ensures links[unit := head][unit] == head && IsList(links[unit := head], head, s)
  {
    IsListFrame(links, head, s, unit, head);
    assert ([unit] + s)[1..] == s;
  }

  /** The headers in memory determine the list: there is only one `s`. */
  lemma {:induction false} IsListUnique(links: map<int, int>, head: int, s: seq<int>, t: seq<int>)
    requires IsList(links, head, s) && IsList(links, head, t)
    requires Null !in s && Null !in t
    ensures s == t
    decreases |s|
  {
    if s != [] && t != [] {
      IsListUnique(links, links[head], s[1..], t[1..]);
      assert s == [s[0]] + s[1..] && t == [t[0]] + t[1..];
    }
  }

  /** Each suffix of a list is the list that starts at its first unit. */
  lemma {:induction false} IsListSuffix(links: map<int, int>, head: int, s: seq<int>, k: nat)
    requires IsList(links, head, s) && k <= |s|
    ensures IsList(links, if k < |s| then s[k] else Null, s[k..])
    decreases k
  {
    if k > 0 {
      IsListSuffix(links, links[head], s[1..], k - 1);
      assert s[1..][k - 1..] == s[k..];
    }
  }

  /**
   * A list that reaches `Null` never visits a unit twice: a repeated unit
   * would make the list cycle forever.
   */
  lemma IsListDistinct(links: map<int, int>, head: int, s: seq<int>)
    requires IsList(links, head, s) && Null !in s
    ensures Distinct(s)
  {
    forall i, j | 0 <= i < j < |s|
      ensures s[i] != s[j]
    {
      if s[i] == s[j] {
        IsListSuffix(links, head, s, i);
        IsListSuffix(links, head, s, j);
        assert Null !in s[i..] && Null !in s[j..];
        IsListUnique(links, s[i], s[i..], s[j..]);
        assert false;
      }
    }
  }
}
