/** `ORDER BY key ASC, id ASC` over a table of rows identified by their ids. */
module Ordering {
  import opened Prelude

  /** The row order: by key, ties broken by id. */
  predicate Less(keys: map<Id, int>, a: Id, b: Id)
    requires a in keys && b in keys
  {
    keys[a] < keys[b] || (keys[a] == keys[b] && a < b)
  }

  /** `s` lists every row of `keys` exactly once, in row order. */
  ghost predicate Enumerates(keys: map<Id, int>, s: seq<Id>) {
    && (forall i :: 0 <= i < |s| ==> s[i] in keys)
    && (forall id :: id in keys ==> id in s)
    && (forall i, j :: 0 <= i < j < |s| ==> Less(keys, s[i], s[j]))
  }

  /** The table without row `x`. */
  function Without(keys: map<Id, int>, x: Id): (rest: map<Id, int>)
    requires x in keys
    ensures |rest| == |keys| - 1 && keys == rest[x := keys[x]]
    ensures forall y :: y in rest <==> y in keys && y != x
    ensures forall y :: y in rest ==> rest[y] == keys[y]
  {
    var rest := keys - {x};
    assert rest.Keys == keys.Keys - {x};
    assert |rest| == |rest.Keys| && |keys| == |keys.Keys|;
    rest
  }

  /** `x` comes before every other row. */
  ghost predicate IsFirst(keys: map<Id, int>, x: Id) {
    x in keys && forall y :: y in keys && y != x ==> Less(keys, x, y)
  }

  lemma {:induction false} FirstExists(keys: map<Id, int>)
    requires keys != map[]
    ensures exists x: Id :: IsFirst(keys, x)
    decreases |keys|
  {
    var z :| z in keys;
    if keys == map[z := keys[z]] {
      assert IsFirst(keys, z);
    } else {
      var rest := Without(keys, z);
      FirstExists(rest);
      var x: Id :| IsFirst(rest, x);
      assert IsFirst(keys, if Less(keys, z, x) then z else x);
    }
  }

  /** The row that comes first. */
  function First(keys: map<Id, int>): (x: Id)
    requires keys != map[]
    ensures IsFirst(keys, x)
  {
    FirstExists(keys);
    assert exists x :: x in keys && forall y :: y in keys && y != x ==> Less(keys, x, y) by {
      var w: Id :| IsFirst(keys, w);
    }
    var x :| x in keys && forall y :: y in keys && y != x ==> Less(keys, x, y);
    x
  }

  /** The rows in order. */
  function Sorted(keys: map<Id, int>): (s: seq<Id>)
    ensures Enumerates(keys, s)
    decreases |keys|
  {
    if keys == map[] then [] else
      var x := First(keys);
      var s := Sorted(Without(keys, x));
      ConsEnumerates(keys, x, s);
      [x] + s
  }

  lemma ConsEnumerates(keys: map<Id, int>, x: Id, tail: seq<Id>)
    requires IsFirst(keys, x) && Enumerates(Without(keys, x), tail)
    ensures Enumerates(keys, [x] + tail)
  {
    var rest, s := Without(keys, x), [x] + tail;
    forall id | id in keys ensures id in s {
      if id == x {
        assert s[0] == x;
      } else {
        assert id in rest;
        var i :| 0 <= i < |tail| && tail[i] == id;
        assert s[i + 1] == id;
      }
    }
    ConsOrdered(keys, x, tail);
  }

  lemma ConsOrdered(keys: map<Id, int>, x: Id, tail: seq<Id>)
    requires IsFirst(keys, x) && Enumerates(Without(keys, x), tail)
    ensures var s := [x] + tail;
      (forall i :: 0 <= i < |s| ==> s[i] in keys) && forall i, j :: 0 <= i < j < |s| ==> Less(keys, s[i], s[j])
  {
    var rest, s := Without(keys, x), [x] + tail;
    assert forall i :: 0 <= i < |tail| ==> tail[i] in rest;
    forall i, j | 0 <= i < j < |s| ensures Less(keys, s[i], s[j]) {
      assert s[j] == tail[j - 1] && tail[j - 1] in rest;
      if i > 0 {
        assert Less(rest, tail[i - 1], tail[j - 1]);
      }
    }
  }

  /** The order leaves no choice: two listings of the same rows are the same listing. */
  lemma {:induction false} SortedUnique(keys: map<Id, int>, s: seq<Id>, t: seq<Id>)
    requires Enumerates(keys, s) && Enumerates(keys, t)
    ensures s == t
    decreases |keys|
  {
    if keys == map[] {
      HeadListed(keys, s);
      HeadListed(keys, t);
    } else {
      HeadIsFirst(keys, s);
      HeadIsFirst(keys, t);
      TailEnumerates(keys, s);
      TailEnumerates(keys, t);
      SortedUnique(Without(keys, s[0]), s[1..], t[1..]);
      SameHeadAndTail(s, t);
    }
  }

  lemma HeadListed(keys: map<Id, int>, s: seq<Id>)
    requires Enumerates(keys, s)
    ensures s == [] || s[0] in keys
  {
  }

  lemma SameHeadAndTail(s: seq<Id>, t: seq<Id>)
    requires |s| > 0 && |t| > 0 && s[0] == t[0] && s[1..] == t[1..]
    ensures s == t
  {
    assert s == [s[0]] + s[1..];
    assert t == [t[0]] + t[1..];
  }

  lemma HeadIsFirst(keys: map<Id, int>, s: seq<Id>)
    requires Enumerates(keys, s) && keys != map[]
    ensures |s| > 0 && s[0] == First(keys)
  {
    var x := First(keys);
    assert x in s;
    var i :| 0 <= i < |s| && s[i] == x;
    if i > 0 {
      assert Less(keys, s[0], s[i]);
      assert Less(keys, x, s[0]);
    }
  }

  lemma TailEnumerates(keys: map<Id, int>, s: seq<Id>)
    requires Enumerates(keys, s) && |s| > 0
    ensures Enumerates(Without(keys, s[0]), s[1..])
  {
    var rest, t := Without(keys, s[0]), s[1..];
    forall i | 0 <= i < |t| ensures t[i] in rest {
      assert Less(keys, s[0], s[i + 1]);
    }
    forall id | id in rest ensures id in t {
      var i :| 0 <= i < |s| && s[i] == id;
      assert t[i - 1] == id;
    }
    forall i, j | 0 <= i < j < |t| ensures Less(rest, t[i], t[j]) {
      assert Less(keys, s[i + 1], s[j + 1]);
    }
  }

  /** A listing has one position per row. */
  lemma {:induction false} SortedLength(keys: map<Id, int>)
    ensures |Sorted(keys)| == |keys|
    decreases |keys|
  {
    if keys != map[] {
      SortedLength(Without(keys, First(keys)));
    }
  }

  /** The rows of the table that sort before a new one. */
  function Before(keys: map<Id, int>, id: Id, key: int): set<Id> {
    set x | x in keys && (keys[x] < key || (keys[x] == key && x < id))
  }

  /** In a listing the rows before a new one come first. */
  lemma SplitPoint(keys: map<Id, int>, s: seq<Id>, id: Id, key: int) returns (p: nat)
    requires Enumerates(keys, s)
    ensures p <= |s|
    ensures forall i :: 0 <= i < p ==> s[i] in Before(keys, id, key)
    ensures forall i :: p <= i < |s| ==> s[i] !in Before(keys, id, key)
  {
    p := 0;
    while p < |s| && s[p] in Before(keys, id, key)
      invariant p <= |s|
      invariant forall i :: 0 <= i < p ==> s[i] in Before(keys, id, key)
    {
      p := p + 1;
    }
    forall i | p <= i < |s| ensures s[i] !in Before(keys, id, key) {
      assert i > p ==> Less(keys, s[p], s[i]);
    }
  }

  function Elements(s: seq<Id>): set<Id> {
    set x | x in s
  }

  lemma {:induction false} PrefixSize(s: seq<Id>, p: nat)
    requires p <= |s| && forall i, j :: 0 <= i < j < |s| ==> s[i] != s[j]
    ensures |Elements(s[..p])| == p
  {
    if p > 0 {
      PrefixSize(s, p - 1);
      assert s[..p] == s[..p - 1] + [s[p - 1]];
      assert s[p - 1] !in s[..p - 1];
      assert Elements(s[..p]) == Elements(s[..p - 1]) + {s[p - 1]};
    }
  }

  lemma CountBefore(keys: map<Id, int>, s: seq<Id>, id: Id, key: int, p: nat)
    requires Enumerates(keys, s) && p <= |s|
    requires forall i :: 0 <= i < p ==> s[i] in Before(keys, id, key)
    requires forall i :: p <= i < |s| ==> s[i] !in Before(keys, id, key)
    ensures |Before(keys, id, key)| == p
  {
    forall x | x in Before(keys, id, key) ensures x in s[..p] {
      assert x in s;
      var i :| 0 <= i < |s| && s[i] == x;
      assert s[..p][i] == x;
    }
    assert Before(keys, id, key) == Elements(s[..p]);
    forall i, j | 0 <= i < j < |s| ensures s[i] != s[j] {
      assert Less(keys, s[i], s[j]);
    }
    PrefixSize(s, p);
  }

  /** A new row is listed after the rows before it, and moves the others up by one. */
  lemma SortedInsert(keys: map<Id, int>, id: Id, key: int)
    requires id !in keys
    ensures var s, p := Sorted(keys), |Before(keys, id, key)|;
      p <= |s| && Sorted(keys[id := key]) == Inserted(s, id, p)
  {
    var s := Sorted(keys);
    var p := SplitPoint(keys, s, id, key);
    CountBefore(keys, s, id, key, p);
    InsertEnumerates(keys, s, id, key, p);
    SortedUnique(keys[id := key], Sorted(keys[id := key]), Inserted(s, id, p));
  }

  /** A sequence with a row put in at `p`. */
  function Inserted(s: seq<Id>, id: Id, p: nat): (t: seq<Id>)
    requires p <= |s|
    ensures |t| == |s| + 1
    ensures forall i :: 0 <= i < |t| ==> t[i] == if i < p then s[i] else if i == p then id else s[i - 1]
  {
    s[..p] + [id] + s[p..]
  }

  lemma InsertEnumerates(keys: map<Id, int>, s: seq<Id>, id: Id, key: int, p: nat)
    requires id !in keys && Enumerates(keys, s) && p <= |s|
    requires forall i :: 0 <= i < p ==> s[i] in Before(keys, id, key)
    requires forall i :: p <= i < |s| ==> s[i] !in Before(keys, id, key)
    ensures Enumerates(keys[id := key], Inserted(s, id, p))
  {
    var more, t := keys[id := key], Inserted(s, id, p);
    InsertOrdered(keys, s, id, key, p);
    forall x | x in more ensures x in t {
      if x == id {
        assert t[p] == id;
      } else {
        assert x in s;
        var i :| 0 <= i < |s| && s[i] == x;
        assert t[if i < p then i else i + 1] == x;
      }
    }
  }

  lemma InsertOrdered(keys: map<Id, int>, s: seq<Id>, id: Id, key: int, p: nat)
    requires id !in keys && Enumerates(keys, s) && p <= |s|
    requires forall i :: 0 <= i < p ==> s[i] in Before(keys, id, key)
    requires forall i :: p <= i < |s| ==> s[i] !in Before(keys, id, key)
    ensures forall i :: 0 <= i < |s| + 1 ==> Inserted(s, id, p)[i] in keys[id := key]
    ensures forall i, j :: 0 <= i < j < |s| + 1 ==> Less(keys[id := key], Inserted(s, id, p)[i], Inserted(s, id, p)[j])
  {
    var more, t := keys[id := key], Inserted(s, id, p);
    forall i, j | 0 <= i < j < |t| ensures Less(more, t[i], t[j]) {
      if i != p && j != p {
        assert Less(keys, s[if i < p then i else i - 1], s[if j < p then j else j - 1]);
      }
    }
  }

  /** The listing with the rows outside `keep` crossed out. */
  function Keep(s: seq<Id>, keep: set<Id>): (r: seq<Id>)
    ensures forall x :: x in r <==> x in s && x in keep
  {
    if s == [] then [] else
      (if s[0] in keep then [s[0]] else []) + Keep(s[1..], keep)
  }

  lemma {:induction false} KeepSnoc(s: seq<Id>, x: Id, keep: set<Id>)
    ensures Keep(s + [x], keep) == Keep(s, keep) + (if x in keep then [x] else [])
  {
    if s != [] {
      assert (s + [x])[1..] == s[1..] + [x];
      KeepSnoc(s[1..], x, keep);
    }
  }

  lemma KeepNext(s: seq<Id>, i: nat, keep: set<Id>)
    requires i < |s|
    ensures Keep(s[..i + 1], keep) == Keep(s[..i], keep) + (if s[i] in keep then [s[i]] else [])
  {
    assert s[..i + 1] == s[..i] + [s[i]];
    KeepSnoc(s[..i], s[i], keep);
  }

  lemma {:induction false} KeepOrdered(keys: map<Id, int>, s: seq<Id>, keep: set<Id>)
    requires forall i :: 0 <= i < |s| ==> s[i] in keys
    requires forall i, j :: 0 <= i < j < |s| ==> Less(keys, s[i], s[j])
    ensures forall i :: 0 <= i < |Keep(s, keep)| ==> Keep(s, keep)[i] in keys
    ensures forall i, j :: 0 <= i < j < |Keep(s, keep)| ==> Less(keys, Keep(s, keep)[i], Keep(s, keep)[j])
  {
    if s != [] {
      KeepOrdered(keys, s[1..], keep);
      var tail := Keep(s[1..], keep);
      forall i | 0 <= i < |tail| ensures Less(keys, s[0], tail[i]) {
        assert tail[i] in s[1..];
        var k :| 0 <= k < |s[1..]| && s[1..][k] == tail[i];
        assert Less(keys, s[0], s[k + 1]);
      }
    }
  }

  function Restrict(keys: map<Id, int>, keep: set<Id>): map<Id, int> {
    map id | id in keys && id in keep :: keys[id]
  }

  /** Listing a part of the table is listing the table and crossing out the rest. */
  lemma SortedKeep(keys: map<Id, int>, keep: set<Id>)
    ensures Sorted(Restrict(keys, keep)) == Keep(Sorted(keys), keep)
  {
    var part := Restrict(keys, keep);
    var s := Keep(Sorted(keys), keep);
    KeepOrdered(keys, Sorted(keys), keep);
    forall i, j | 0 <= i < j < |s| ensures Less(part, s[i], s[j]) {
      assert s[i] in s && s[j] in s;
      assert Less(keys, s[i], s[j]);
    }
    forall i | 0 <= i < |s| ensures s[i] in part {
      assert s[i] in s;
    }
    SortedUnique(part, Sorted(part), s);
  }
}
