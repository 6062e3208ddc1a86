/** Facts about sequences that several modules use. */
module Sequences {
  lemma Regroup<T>(a: seq<T>, b: seq<T>, c: seq<T>)
    ensures a + b + c == a + (b + c)
  {
  }

  lemma FirstIsMember<T>(items: seq<T>)
    ensures items == [] || items[0] in items
  {
  }

  lemma DropCommonPrefix<T>(p: seq<T>, x: seq<T>, y: seq<T>)
    requires p + x == p + y
    ensures x == y
  {
    assert x == (p + x)[|p|..] && y == (p + y)[|p|..];
  }

  /** A prefix and the page after it are a prefix. */
  lemma LongerPrefix<T>(all: seq<T>, prefix: seq<T>, page: seq<T>)
    requires prefix <= all && |prefix| + |page| <= |all| && page == all[|prefix|..|prefix| + |page|]
    ensures prefix + page <= all
  {
  }

  lemma SplitAt<T>(items: seq<T>, offset: nat, end: nat)
    requires offset <= end <= |items|
    ensures items[..offset] + items[offset..end] == items[..end]
  {
  }

  lemma MultisetOfInit<T>(items: seq<T>)
    requires items != []
    ensures multiset(items[..|items| - 1]) == multiset(items) - multiset{items[|items| - 1]}
  {
    assert items == items[..|items| - 1] + [items[|items| - 1]];
  }
}
