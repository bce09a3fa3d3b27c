/**
 `blob`: the tables laid end to end in one array, identical ones once.
 */
module UnicodeBlob {
  import opened Common
  import opened UnicodeRuns
  import opened UnicodeWords

  /** The runs of a table, which is what two tables are compared by. */
  datatype Key = Key(r16: seq<Run>, r32: seq<Run>)

  function KeyOf(codes: seq<int>): Key { Key(TableOf(codes).r16, TableOf(codes).r32) }

  function KeyWords(k: Key): seq<int> { Words(k.r16 + k.r32) }

  /** The array that holds the tables of `keys`, in order. */
  function Laid(keys: seq<Key>): seq<int> {
    if keys == [] then [] else Laid(keys[..|keys| - 1]) + KeyWords(keys[|keys| - 1])
  }

  /** The words at an entry are these runs. */
  ghost predicate KeyLies(words: seq<int>, e: Entry, k: Key) {
    && e.at + e.n16 + e.n32 <= |words|
    && RunsAt(words, e.at, e.n16) == k.r16 && RunsAt(words, e.at + e.n16, e.n32) == k.r32
    && e.latin == Leading(k.r16)
  }

  ghost predicate KeyFits(k: Key) {
    && (forall i :: 0 <= i < |k.r16| ==> Fits(k.r16[i]))
    && (forall i :: 0 <= i < |k.r32| ==> Fits(k.r32[i]))
  }

  /** A table put at the end of an array is found there. */
  lemma {:induction false} KeyLaid(words: seq<int>, k: Key)
    requires KeyFits(k)
    ensures KeyLies(words + KeyWords(k), Entry(|words|, |k.r16|, |k.r32|, Leading(k.r16)), k)
  {
    var at, all := |words|, words + KeyWords(k);
    WordsAt(k.r16 + k.r32);
    forall i | 0 <= i < |k.r16| ensures Unpack(all[at + i]) == k.r16[i] {
      assert all[at + i] == Word((k.r16 + k.r32)[i]);
      UnpackWord(k.r16[i]);
    }
    forall i | 0 <= i < |k.r32| ensures Unpack(all[at + |k.r16| + i]) == k.r32[i] {
      assert all[at + |k.r16| + i] == Word((k.r16 + k.r32)[|k.r16| + i]);
      UnpackWord(k.r32[i]);
    }
  }

  lemma {:induction false} KeyLiesLonger(words: seq<int>, more: seq<int>, e: Entry, k: Key)
    requires KeyLies(words, e, k)
    ensures KeyLies(words + more, e, k)
  {
    assert RunsAt(words + more, e.at, e.n16) == RunsAt(words, e.at, e.n16);
    assert RunsAt(words + more, e.at + e.n16, e.n32) == RunsAt(words, e.at + e.n16, e.n32);
  }

  // --- what the maps and the array say of each other -----------------------------------

  /** Every table that has been seen is where its entry says. */
  ghost predicate Placed(words: seq<int>, seen: map<Key, Entry>) {
    forall k :: k in seen ==> KeyLies(words, seen[k], k)
  }

  predicate Has(seen: map<Key, Entry>, k: Key, e: Entry) { k in seen && seen[k] == e }

  /** Every name has the entry of the table it was added with. */
  ghost predicate Named(where_: map<string, Entry>, tables: map<string, Key>, seen: map<Key, Entry>) {
    where_.Keys == tables.Keys && forall n :: n in tables ==> Has(seen, tables[n], where_[n])
  }

  /** The array is the tables seen, each once, and nothing else. */
  ghost predicate Packed(words: seq<int>, seen: map<Key, Entry>, keys: seq<Key>) {
    words == Laid(keys) && Distinct(keys) && forall k :: k in keys <==> k in seen
  }

  lemma {:induction false} PlacedNext(words: seq<int>, seen: map<Key, Entry>, k: Key)
    requires Placed(words, seen) && KeyFits(k)
    ensures Placed(words + KeyWords(k), seen[k := Entry(|words|, |k.r16|, |k.r32|, Leading(k.r16))])
  {
    KeyLaid(words, k);
    forall o | o in seen ensures KeyLies(words + KeyWords(k), seen[o], o) {
      KeyLiesLonger(words, KeyWords(k), seen[o], o);
    }
  }

  lemma {:induction false} NamedSeen(where_: map<string, Entry>, tables: map<string, Key>, seen: map<Key, Entry>,
                                     k: Key, e: Entry)
    requires Named(where_, tables, seen) && k !in seen
    ensures Named(where_, tables, seen[k := e])
  {
    forall n | n in tables ensures Has(seen[k := e], tables[n], where_[n]) {
      assert Has(seen, tables[n], where_[n]);
    }
  }

  lemma {:induction false} NamedNext(where_: map<string, Entry>, tables: map<string, Key>, seen: map<Key, Entry>,
                                     n: string, k: Key,
                  e: Entry)
    requires Named(where_, tables, seen) && Has(seen, k, e)
    ensures Named(where_[n := e], tables[n := k], seen)
  {
  }

  lemma {:induction false} PackedNext(words: seq<int>, seen: map<Key, Entry>, keys: seq<Key>, k: Key, e: Entry)
    requires Packed(words, seen, keys) && k !in seen
    ensures Packed(words + KeyWords(k), seen[k := e], keys + [k])
  {
    assert (keys + [k])[..|keys|] == keys;
  }

  /** Two names share an entry exactly when they have the same table. */
  lemma {:induction false} SharedExactly(words: seq<int>, where_: map<string, Entry>, tables: map<string, Key>,
                                         seen: map<Key, Entry>,
                      a: string, b: string)
    requires Placed(words, seen) && Named(where_, tables, seen) && a in where_ && b in where_
    ensures where_[a] == where_[b] <==> tables[a] == tables[b]
  {
    assert Has(seen, tables[a], where_[a]) && Has(seen, tables[b], where_[b]);
    assert KeyLies(words, where_[a], tables[a]) && KeyLies(words, where_[b], tables[b]);
  }

  // --- the generator's state -----------------------------------------------------------------

  class Blob {
    var words: seq<int>
    var where_: map<string, Entry>
    var seen: map<Key, Entry>
    /** The table each name was added with, and the distinct tables in the order they came. */
    ghost var tables: map<string, Key>
    ghost var keys: seq<Key>

    ghost predicate Valid()
      reads this
    {
      Placed(words, seen) && Named(where_, tables, seen) && Packed(words, seen, keys)
    }

    constructor ()
      ensures Valid() && tables == map[] && words == []
    {
      words, where_, seen, tables, keys := [], map[], map[], map[], [];
    }

    /** The loop of `add`: a table's rows onto the end of the array. */
    method Lay(rows: seq<Run>)
      modifies this`words
      ensures words == old(words) + Words(rows)
    {
      WordsAt(rows);
      for i := 0 to |rows|
        invariant words == old(words) + Words(rows)[..i]
      {
        words := words + [Word(rows[i])];
      }
    }

    /** A table that is new, laid down. */
    method AddRows(key: Key, latin: nat)
      requires Valid() && KeyFits(key) && latin == Leading(key.r16) && key !in seen
      modifies this`words, this`seen, this`keys
      ensures Valid() && keys == old(keys) + [key] && key in seen
    {
      hide Placed, Named, Packed, Leading, Words, KeyFits;
      var e := Entry(|words|, |key.r16|, |key.r32|, latin);
      PlacedNext(words, seen, key);
      NamedSeen(where_, tables, seen, key, e);
      PackedNext(words, seen, keys, key, e);
      Lay(key.r16 + key.r32);
      seen := seen[key := e];
      keys := keys + [key];
    }

    /** `add` once the runs are known: the table is shared if it has been seen, and laid down if not. */
    method AddTable(name: string, key: Key, latin: nat)
      requires Valid() && KeyFits(key) && latin == Leading(key.r16)
      modifies this
      ensures Valid() && tables == old(tables)[name := key]
      ensures forall n :: n in old(where_) && n != name ==> n in where_ && where_[n] == old(where_)[n]
      ensures keys == if key in old(keys) then old(keys) else old(keys) + [key]
    {
      hide Leading, KeyFits, Laid, KeyWords;
      if key !in seen { AddRows(key, latin); }
      NamedNext(where_, tables, seen, name, key, seen[key]);
      where_ := where_[name := seen[key]];
      tables := tables[name := key];
    }

    /** `add` */
    method Add(name: string, codes: seq<int>)
      requires Valid() && CodeList(codes)
      modifies this
      ensures Valid() && tables == old(tables)[name := KeyOf(codes)]
      ensures forall n :: n in old(where_) && n != name ==> n in where_ && where_[n] == old(where_)[n]
      ensures keys == if KeyOf(codes) in old(keys) then old(keys) else old(keys) + [KeyOf(codes)]
    {
      var t := Runs(codes);
      TableFits(codes);
      AddTable(name, Key(t.r16, t.r32), t.latin);
    }

    /** A second name for a table that is there, which is what a deprecated alias is. */
    method Alias(short: string, long: string)
      requires Valid() && long in where_
      modifies this`where_, this`tables
      ensures Valid() && tables == old(tables)[short := old(tables)[long]]
      ensures where_ == old(where_)[short := old(where_)[long]]
    {
      assert Has(seen, tables[long], where_[long]);
      NamedNext(where_, tables, seen, short, tables[long], where_[long]);
      where_ := where_[short := where_[long]];
      tables := tables[short := tables[long]];
    }

    /** Looking a code point up under a name says whether it is in the list added under it. */
    method Contains(n: string, r: int, ghost codes: seq<int>) returns (found: bool)
      requires Valid() && n in where_ && CodeList(codes) && tables[n] == KeyOf(codes) && Int32(r)
      ensures found <==> r in codes
    {
      assert Has(seen, tables[n], where_[n]);
      assert KeyLies(words, where_[n], tables[n]);
      found := IsIn(words, where_[n], r, codes);
    }
  }
}
