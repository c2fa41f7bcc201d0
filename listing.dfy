/** The folder manager's file list: a contents response normalised into
    entries, and the order it displays them in (folders first, then by name). */
module Listing {
  import opened Common
  import opened Api

  /** What the folder manager keeps of one item. */
  datatype Entry = Entry(
    name: string,
    kind: Kind,
    path: string,
    size: nat,
    downloadUrl: Option<string>,
    sha: string)

  /** Entry `e` carries exactly the six fields the list keeps of item `it`. */
  predicate Copies(e: Entry, it: Item)
  {
    e.name == it.name && e.kind == it.kind && e.path == it.path &&
    e.size == it.size && e.downloadUrl == it.downloadUrl && e.sha == it.sha
  }

  function ToEntry(it: Item): Entry
  {
    Entry(it.name, it.kind, it.path, it.size, it.downloadUrl, it.sha)
  }

  /** `data.map(item => ({ name, type, path, size, download_url, sha }))`. */
  function NormaliseItems(items: seq<Item>): (r: seq<Entry>)
    ensures |r| == |items|
    ensures forall i :: 0 <= i < |items| ==> Copies(r[i], items[i])
  {
    if items == [] then [] else [ToEntry(items[0])] + NormaliseItems(items[1..])
  }

  /** An array response gives one entry per item, in the same order; a single
      object gives a list of exactly one entry. */
  function Normalise(data: Contents): (r: seq<Entry>)
    ensures data.Directory? ==>
              |r| == |data.items| && forall i :: 0 <= i < |r| ==> Copies(r[i], data.items[i])
    ensures data.Single? ==> |r| == 1 && Copies(r[0], data.item)
  {
    match data
    case Directory(items) => NormaliseItems(items)
    case Single(item) => [ToEntry(item)]
  }

  // ----- names -----

  /** The order on names. `localeCompare` depends on the user's locale; the
      model uses plain lexicographic order on code points. */
  predicate NameLe(a: string, b: string)
    decreases |a|
  {
    if a == [] then true
    else if b == [] then false
    else if a[0] != b[0] then a[0] < b[0]
    else NameLe(a[1..], b[1..])
  }

  lemma {:induction false} NameLeTotal(a: string, b: string)
    ensures NameLe(a, b) || NameLe(b, a)
    decreases |a|
  {
    if a != [] && b != [] && a[0] == b[0] {
      NameLeTotal(a[1..], b[1..]);
    }
  }

  lemma {:induction false} NameLeTransitive(a: string, b: string, c: string)
    requires NameLe(a, b) && NameLe(b, c)
    ensures NameLe(a, c)
    decreases |a|
  {
    if a != [] && b != [] && c != [] && a[0] == b[0] == c[0] {
      NameLeTransitive(a[1..], b[1..], c[1..]);
    }
  }

  lemma {:induction false} NameLeAntisymmetric(a: string, b: string)
    requires NameLe(a, b) && NameLe(b, a)
    ensures a == b
    decreases |a|
  {
    if a != [] && b != [] {
      NameLeAntisymmetric(a[1..], b[1..]);
      assert a == [a[0]] + a[1..] && b == [b[0]] + b[1..];
    }
  }

  /** `a.localeCompare(b)` under the model's order: negative, zero or
      positive as `a` sorts before, equal to, or after `b`. */
  function NameCompare(a: string, b: string): (r: int)
    ensures r <= 0 <==> NameLe(a, b)
    ensures r == 0 <==> a == b
    ensures r >= 0 <==> NameLe(b, a)
  {
    NameLeTotal(a, b);
    if a == b then 0
    else if NameLe(a, b) then
      assert !NameLe(b, a) by {
        if NameLe(b, a) { NameLeAntisymmetric(a, b); }
      }
      -1
    else 1
  }

  // ----- entry order -----

  /** The comparator handed to `fileList.sort`: entries of one type by name,
      otherwise the one whose type is `dir` first. */
  function Compare(x: Entry, y: Entry): (r: int)
    ensures r == 0 <==> x.kind == y.kind && x.name == y.name
    ensures x.kind == y.kind ==> (r <= 0 <==> NameLe(x.name, y.name))
    ensures x.kind != y.kind ==> (r < 0 <==> x.kind == Dir)
  {
    if x.kind == y.kind then NameCompare(x.name, y.name)
    else if x.kind == Dir then -1
    else 1
  }

  function Rank(k: Kind): nat
  {
    if k == Dir then 0 else 1
  }

  /** The order the list is kept in: folders before everything else, then by
      name. */
  predicate EntryLe(x: Entry, y: Entry)
  {
    Rank(x.kind) < Rank(y.kind) || (Rank(x.kind) == Rank(y.kind) && NameLe(x.name, y.name))
  }

  /** Wherever the source comparator is consistent (two entries of one type,
      or one of them a folder) it agrees with the model's order. */
  lemma CompareAgrees(x: Entry, y: Entry)
    requires x.kind == y.kind || x.kind == Dir || y.kind == Dir
    ensures Compare(x, y) <= 0 <==> EntryLe(x, y)
  {
  }

  /** For two entries of distinct types neither of which is a folder (say a
      `file` and a `symlink`), the source comparator calls each greater than
      the other, so it fixes no order between them; the model orders them by
      name. */
  lemma CompareInconsistent(x: Entry, y: Entry)
    requires x.kind != y.kind && x.kind != Dir && y.kind != Dir
    ensures Compare(x, y) > 0 && Compare(y, x) > 0
  {
  }

  lemma EntryLeTotal(x: Entry, y: Entry)
    ensures EntryLe(x, y) || EntryLe(y, x)
  {
    NameLeTotal(x.name, y.name);
  }

  lemma EntryLeTransitive(x: Entry, y: Entry, z: Entry)
    requires EntryLe(x, y) && EntryLe(y, z)
    ensures EntryLe(x, z)
  {
    if Rank(x.kind) == Rank(y.kind) == Rank(z.kind) {
      NameLeTransitive(x.name, y.name, z.name);
    }
  }

  /** Each entry is in order with its successor. */
  predicate Sorted(s: seq<Entry>)
  {
    forall i :: 0 < i < |s| ==> EntryLe(s[i - 1], s[i])
  }

  /** A sorted list is in order pairwise, not just between neighbours. */
  lemma {:induction false} SortedPairwise(s: seq<Entry>, i: nat, j: nat)
    requires Sorted(s) && i < j < |s|
    ensures EntryLe(s[i], s[j])
    decreases j - i
  {
    if i + 1 < j {
      SortedPairwise(s, i + 1, j);
      EntryLeTransitive(s[i], s[i + 1], s[j]);
    }
  }

  /** In a sorted list no entry that is not a folder comes before a folder. */
  lemma FoldersFirst(s: seq<Entry>, i: nat, j: nat)
    requires Sorted(s) && i < j < |s| && s[j].kind == Dir
    ensures s[i].kind == Dir
  {
    SortedPairwise(s, i, j);
  }

  /** In a sorted list any two entries of one type are in name order. */
  lemma SameKindByName(s: seq<Entry>, i: nat, j: nat)
    requires Sorted(s) && i < j < |s| && s[i].kind == s[j].kind
    ensures NameLe(s[i].name, s[j].name)
  {
    SortedPairwise(s, i, j);
  }

  /** Exchanges two neighbouring entries. */
  method SwapDown(a: array<Entry>, j: int)
    requires 0 < j < a.Length
    modifies a
    ensures a[j - 1] == old(a[j]) && a[j] == old(a[j - 1])
    ensures forall k :: 0 <= k < a.Length && k != j - 1 && k != j ==> a[k] == old(a[k])
    ensures multiset(a[..]) == multiset(old(a[..]))
  {
    a[j - 1], a[j] := a[j], a[j - 1];
  }

  /** Moves `a[i]` down into the sorted prefix `a[..i]`, leaving `a[..i + 1]`
      sorted. */
  method InsertDown(a: array<Entry>, i: int)
    requires 0 <= i < a.Length
    requires forall k :: 0 < k < i ==> EntryLe(a[k - 1], a[k])
    modifies a
    ensures forall k :: 0 < k <= i ==> EntryLe(a[k - 1], a[k])
    ensures forall k :: i < k < a.Length ==> a[k] == old(a[k])
    ensures multiset(a[..]) == multiset(old(a[..]))
  {
    var j := i;
    while j > 0 && !EntryLe(a[j - 1], a[j])
      invariant 0 <= j <= i
      invariant forall k :: 0 < k < j ==> EntryLe(a[k - 1], a[k])
      invariant forall k :: j < k <= i ==> EntryLe(a[k - 1], a[k])
      invariant 0 < j < i ==> EntryLe(a[j - 1], a[j + 1])
      invariant forall k :: i < k < a.Length ==> a[k] == old(a[k])
      invariant multiset(a[..]) == multiset(old(a[..]))
    {
      EntryLeTotal(a[j - 1], a[j]);
      SwapDown(a, j);
      j := j - 1;
    }
  }

  /** `fileList.sort(...)`: sorts the array in place, by insertion. The
      result is in the list's order and holds the same entries. */
  method SortEntries(a: array<Entry>)
    modifies a
    ensures Sorted(a[..])
    ensures multiset(a[..]) == multiset(old(a[..]))
  {
    var i := 0;
    while i < a.Length
      invariant 0 <= i <= a.Length
      invariant forall k :: 0 < k < i ==> EntryLe(a[k - 1], a[k])
      invariant multiset(a[..]) == multiset(old(a[..]))
    {
      InsertDown(a, i);
      i := i + 1;
    }
  }

  /** The list the folder manager shows for a response: normalised, then
      sorted in an array. */
  method SortedListing(data: Contents) returns (files: seq<Entry>)
    ensures Sorted(files)
    ensures multiset(files) == multiset(Normalise(data))
  {
    var list := Normalise(data);
    var a := new Entry[|list|](i requires 0 <= i < |list| => list[i]);
    assert a[..] == list;
    SortEntries(a);
    files := a[..];
  }
}
