/** Sorting by a text key: `sorted(items, key=...)`, `sorted(set(...))`, and why two ascending lists with
    the same members are equal. */
module Sorting {
  import opened Text

  /** Strictly ascending keys. */
  predicate Ascending<T>(key: T -> string, items: seq<T>) {
    forall i, j :: 0 <= i < j < |items| ==> Less(key(items[i]), key(items[j]))
  }

  /** Before the first item whose key is not below this one's. */
  function Insert<T(!new)>(key: T -> string, item: T, sorted: seq<T>): (r: seq<T>)
    ensures multiset(r) == multiset([item] + sorted)
    ensures forall x :: x in r <==> x == item || x in sorted
  {
    if sorted == [] || !Less(key(sorted[0]), key(item)) then [item] + sorted
    else
      var rest := Insert(key, item, sorted[1..]);
      assert [item] + sorted == [item] + ([sorted[0]] + sorted[1..]) && sorted == [sorted[0]] + sorted[1..];
      [sorted[0]] + rest
  }

  /** `sorted(items, key=key)`, a stable sort. */
  function SortBy<T(!new)>(key: T -> string, items: seq<T>): (r: seq<T>)
    ensures multiset(r) == multiset(items) && |r| == |items|
    ensures forall x :: x in r <==> x in items
  {
    if items == [] then []
    else
      assert items == [items[0]] + items[1..];
      var r := Insert(key, items[0], SortBy(key, items[1..]));
      assert |multiset(r)| == |multiset(items)|;
      r
  }

  lemma {:induction false} InsertAscending<T(!new)>(key: T -> string, item: T, sorted: seq<T>)
    requires Ascending(key, sorted) && forall x :: x in sorted ==> key(x) != key(item)
    ensures Ascending(key, Insert(key, item, sorted))
  {
    hide Less;
    if sorted != [] {
      LessTrichotomy(key(sorted[0]), key(item));
      if Less(key(sorted[0]), key(item)) {
        InsertAscending(key, item, sorted[1..]);
        forall x | x in Insert(key, item, sorted[1..]) ensures Less(key(sorted[0]), key(x)) {
        }
      } else {
        forall x | x in sorted ensures Less(key(item), key(x)) {
          if x != sorted[0] {
            LessTransitive(key(item), key(sorted[0]), key(x));
          }
        }
      }
    }
  }

  ghost predicate DistinctKeys<T(!new)>(key: T -> string, items: seq<T>) {
    forall i, j :: 0 <= i < j < |items| ==> key(items[i]) != key(items[j])
  }

  lemma {:induction false} SortByAscending<T(!new)>(key: T -> string, items: seq<T>)
    requires DistinctKeys(key, items)
    ensures Ascending(key, SortBy(key, items))
  {
    hide Less;
    if items != [] {
      SortByAscending(key, items[1..]);
      InsertAscending(key, items[0], SortBy(key, items[1..]));
    }
  }

  /** Of any two keys in ascending order the earlier precedes the later, character by character. */
  lemma AscendingMeaning<T(!new)>(key: T -> string, items: seq<T>, i: nat, j: nat)
    requires Ascending(key, items) && i < j < |items|
    ensures Precedes(key(items[i]), key(items[j]))
  {
    hide Less, Precedes;
    LessMeaning(key(items[i]), key(items[j]));
  }

  lemma SameHead<T(!new)>(key: T -> string, a: seq<T>, b: seq<T>)
    requires Ascending(key, a) && Ascending(key, b) && a != [] && b != [] && a[0] in b && b[0] in a
    ensures a[0] == b[0]
  {
    hide Less;
    var j :| 0 <= j < |b| && b[j] == a[0];
    var i :| 0 <= i < |a| && a[i] == b[0];
    LessTrichotomy(key(a[0]), key(b[0]));
  }

  lemma TailMembers<T(!new)>(key: T -> string, s: seq<T>)
    requires Ascending(key, s) && s != []
    ensures Ascending(key, s[1..]) && forall x :: x in s[1..] <==> x in s && x != s[0]
  {
    hide Less;
    forall x | x in s[1..] ensures x != s[0] {
      LessTrichotomy(key(s[0]), key(x));
    }
    assert s == [s[0]] + s[1..];
  }

  /** Two ascending lists with the same members are one list. */
  lemma {:induction false} AscendingUnique<T(!new)>(key: T -> string, a: seq<T>, b: seq<T>)
    requires Ascending(key, a) && Ascending(key, b) && forall x :: x in a <==> x in b
    ensures a == b
  {
    hide Less, Ascending;
    if a == [] || b == [] {
      HeadIn(a);
      HeadIn(b);
    } else {
      SameHead(key, a, b);
      TailMembers(key, a);
      TailMembers(key, b);
      AscendingUnique(key, a[1..], b[1..]);
      assert a == [a[0]] + a[1..] && b == [b[0]] + b[1..];
    }
  }

  lemma HeadIn<T>(s: seq<T>)
    ensures s != [] ==> s[0] in s
  {
  }

  /** Lists with one multiset have the same members. */
  lemma SameMembers<T(!new)>(a: seq<T>, b: seq<T>)
    requires multiset(a) == multiset(b)
    ensures forall x :: x in a <==> x in b
  {
    assert forall x :: x in a <==> x in multiset(a);
    assert forall x :: x in b <==> x in multiset(b);
  }

  // ---------------------------------------------------------------- sets of texts

  /** A text is its own key. */
  function Self(s: string): string { s }

  function AsSet(s: seq<string>): set<string> {
    set x | x in s
  }

  /** A text added to an ascending list, once. */
  function Add(x: string, s: seq<string>): (r: seq<string>)
    ensures AsSet(r) == AsSet(s) + {x}
  {
    if x in s then s else Insert(Self, x, s)
  }

  lemma AddAscending(x: string, s: seq<string>)
    requires Ascending(Self, s)
    ensures Ascending(Self, Add(x, s))
  {
    hide Less;
    if x !in s {
      InsertAscending(Self, x, s);
    }
  }

  lemma SetUnique(a: seq<string>, b: seq<string>)
    requires Ascending(Self, a) && Ascending(Self, b) && AsSet(a) == AsSet(b)
    ensures a == b
  {
    hide Ascending;
    forall x ensures x in a <==> x in b {
      assert x in a <==> x in AsSet(a);
      assert x in b <==> x in AsSet(b);
    }
    AscendingUnique(Self, a, b);
  }

  /** `sorted(s)` of a set: its elements, least first. */
  method SortSet(s: set<string>) returns (r: seq<string>)
    ensures Ascending(Self, r) && AsSet(r) == s
  {
    hide Ascending, Add;
    r := [];
    EmptyAscending();
    var rest := s;
    while rest != {}
      invariant Ascending(Self, r) && rest <= s && AsSet(r) == s - rest
      decreases |rest|
    {
      var x :| x in rest;
      AddAscending(x, r);
      r := Add(x, r);
      rest := rest - {x};
    }
  }

  lemma EmptyAscending() ensures Ascending(Self, []) {}
}
