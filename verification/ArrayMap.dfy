/** The map over an array of entries, its iterator, and copying by iteration. */
module ArrayMap {
  import opened Common

  datatype Entry<K, V> = Entry(key: K, value: V)

  /** No key is stored twice. */
  ghost predicate Distinct<K, V>(es: seq<Entry<K, V>>) {
    forall i, j :: 0 <= i < j < |es| ==> es[i].key != es[j].key
  }

  /** The map that a list of entries stands for. */
  ghost function ToMap<K, V>(es: seq<Entry<K, V>>): (m: map<K, V>)
    requires Distinct(es)
    ensures forall i :: 0 <= i < |es| ==> es[i].key in m && m[es[i].key] == es[i].value
    ensures forall k :: k in m ==> HasKey(es, k)
  {
    map i | 0 <= i < |es| :: es[i].key := es[i].value
  }

  ghost predicate HasKey<K, V>(es: seq<Entry<K, V>>, k: K) {
    exists i :: 0 <= i < |es| && es[i].key == k
  }

  lemma {:induction false} SizeOfMap<K, V>(es: seq<Entry<K, V>>)
    requires Distinct(es)
    ensures |ToMap(es)| == |es|
  {
    hide ToMap;
    if es == [] {
    } else {
      var n := |es| - 1;
      SizeOfMap(es[..n]);
      AppendEntry(es[..n], es[n]);
      assert es[..n] + [es[n]] == es;
    }
  }

  lemma {:induction false} AppendEntry<K, V>(es: seq<Entry<K, V>>, e: Entry<K, V>)
    requires Distinct(es) && forall i :: 0 <= i < |es| ==> es[i].key != e.key
    ensures Distinct(es + [e]) && ToMap(es + [e]) == ToMap(es)[e.key := e.value] && e.key !in ToMap(es)
  {
    var a := es + [e];
    assert forall i :: 0 <= i < |es| ==> a[i] == es[i];
    assert a[|es|] == e;
    forall k | k in ToMap(es)[e.key := e.value] ensures HasKey(a, k) {
      if k != e.key {
        var i :| 0 <= i < |es| && es[i].key == k;
        assert a[i].key == k;
      }
    }
    SameEntries(a, ToMap(es)[e.key := e.value]);
  }

  /** Two lists with the same entries stand for the same map. */
  lemma SameEntries<K, V>(a: seq<Entry<K, V>>, m: map<K, V>)
    requires Distinct(a)
    requires forall i :: 0 <= i < |a| ==> a[i].key in m && m[a[i].key] == a[i].value
    requires forall k :: k in m ==> HasKey(a, k)
    ensures ToMap(a) == m
  {
    hide ToMap;
    forall k | k in m ensures k in ToMap(a) && ToMap(a)[k] == m[k] {
      var i :| 0 <= i < |a| && a[i].key == k;
    }
    forall k | k in ToMap(a) ensures k in m {
      var i :| 0 <= i < |a| && a[i].key == k;
    }
  }

  lemma ReplaceValue<K, V>(es: seq<Entry<K, V>>, i: nat, v: V)
    requires Distinct(es) && i < |es|
    ensures Distinct(es[i := Entry(es[i].key, v)])
    ensures ToMap(es[i := Entry(es[i].key, v)]) == ToMap(es)[es[i].key := v]
  {
    var a, m := es[i := Entry(es[i].key, v)], ToMap(es)[es[i].key := v];
    hide ToMap;
    assert forall j :: 0 <= j < |a| ==> a[j].key == es[j].key;
    forall k | k in m ensures HasKey(a, k) {
      if k == es[i].key {
        assert a[i].key == k;
      } else {
        assert HasKey(es, k);
        var j :| 0 <= j < |es| && es[j].key == k;
        assert a[j].key == k;
      }
    }
    SameEntries(a, m);
  }

  /** Entry i taken out, the last entry in its place. */
  function SwapOut<K, V>(es: seq<Entry<K, V>>, i: nat): seq<Entry<K, V>>
    requires i < |es|
  {
    var n := |es| - 1;
    if i < n then es[i := es[n]][..n] else es[..n]
  }

  /** Place j of the result holds the entry that was here. */
  function Origin(n: nat, i: nat, j: nat): nat {
    if j == i then n else j
  }

  lemma SwapOutEntries<K, V>(es: seq<Entry<K, V>>, i: nat)
    requires i < |es|
    ensures |SwapOut(es, i)| == |es| - 1
    ensures forall j :: 0 <= j < |es| - 1 ==> SwapOut(es, i)[j] == es[Origin(|es| - 1, i, j)]
  {
  }

  /** Every key but the one taken out is still there. */
  lemma SwapOutKeeps<K, V>(es: seq<Entry<K, V>>, i: nat, k: K)
    requires i < |es| && HasKey(es, k) && k != es[i].key
    ensures HasKey(SwapOut(es, i), k)
  {
    SwapOutEntries(es, i);
    hide SwapOut;
    var n := |es| - 1;
    var j :| 0 <= j < |es| && es[j].key == k;
    var o := if j == n then i else j;
    assert es[Origin(n, i, o)] == es[j];
    assert SwapOut(es, i)[o].key == k;
  }

  lemma SwapOutRemoves<K, V>(es: seq<Entry<K, V>>, i: nat)
    requires Distinct(es) && i < |es|
    ensures Distinct(SwapOut(es, i)) && ToMap(SwapOut(es, i)) == ToMap(es) - {es[i].key}
  {
    var a, m := SwapOut(es, i), ToMap(es) - {es[i].key};
    SwapOutEntries(es, i);
    hide ToMap, SwapOut, Distinct;
    forall j | 0 <= j < |a| ensures a[j].key in m && m[a[j].key] == a[j].value {
      assert a[j] == es[Origin(|es| - 1, i, j)];
    }
    forall k | k in m ensures HasKey(a, k) {
      SwapOutKeeps(es, i, k);
    }
    SameEntries(a, m);
  }

  class ArrayMap<K(==), V(0)> {
    var entries: array<Entry<K, V>>
    var size: nat

    ghost predicate Valid()
      reads this, entries
    {
      size <= entries.Length && Distinct(entries[..size])
    }

    /** The finite map this object stands for. */
    ghost function Contents(): map<K, V>
      reads this, entries
      requires Valid()
    {
      ToMap(entries[..size])
    }

    constructor (entries: array<Entry<K, V>>)
      ensures Valid() && Contents() == map[] && this.entries == entries
    {
      this.entries, size := entries, 0;
    }

    method Clear()
      modifies this`size
      ensures Valid() && Contents() == map[] && size == 0
    {
      size := 0;
    }

    /** Position of a key, or the size. */
    method IndexOf(key: K) returns (i: nat)
      requires Valid()
      ensures i <= size && (i < size ==> entries[i].key == key)
      ensures i < size <==> key in Contents()
    {
      hide ToMap;
      i := 0;
      while i < size
        invariant i <= size && forall j :: 0 <= j < i ==> entries[j].key != key
      {
        if entries[i].key == key {
          assert entries[..size][i].key == key;
          return;
        }
        i := i + 1;
      }
      assert forall j :: 0 <= j < size ==> entries[..size][j].key != key;
    }

    method FindValue(key: K) returns (r: Option<V>)
      requires Valid()
      ensures r == if key in Contents() then Some(Contents()[key]) else None
    {
      hide ToMap;
      var i := IndexOf(key);
      if i < size {
        assert entries[..size][i] == entries[i];
        r := Some(entries[i].value);
      } else {
        r := None;
      }
    }

    /** Succeeds if the key was there or there is room. */
    method Insert(key: K, value: V) returns (ok: bool)
      requires Valid()
      modifies this`size, entries
      ensures Valid() && ok == (key in old(Contents()) || old(size) < entries.Length)
      ensures Contents() == if ok then old(Contents())[key := value] else old(Contents())
      ensures size == if ok && key !in old(Contents()) then old(size) + 1 else old(size)
      ensures ok && key !in old(Contents()) ==> entries[..] == old(entries[..])[old(size) := Entry(key, value)]
    {
      hide ToMap;
      ok := false;
      ghost var es := entries[..size];
      var i := IndexOf(key);
      if i < size {
        ReplaceValue(es, i, value);
        entries[i] := Entry(key, value);
        assert entries[..size] == es[i := Entry(es[i].key, value)];
        ok := true;
      } else if size < entries.Length {
        assert forall j :: 0 <= j < |es| ==> es[j].key != key;
        AppendEntry(es, Entry(key, value));
        entries[size] := Entry(key, value);
        size := size + 1;
        assert entries[..size] == es + [Entry(key, value)];
        ok := true;
      }
    }

    /** The last entry moves to the freed place. */
    method Remove(key: K) returns (r: Option<V>)
      requires Valid()
      modifies this`size, entries
      ensures Valid()
      ensures r == if key in old(Contents()) then Some(old(Contents())[key]) else None
      ensures Contents() == old(Contents()) - {key}
    {
      hide ToMap;
      r := None;
      ghost var es := entries[..size];
      var i := IndexOf(key);
      if i < size {
        assert es[i] == entries[i];
        r := Some(entries[i].value);
        SwapOutRemoves(es, i);
        if i < size - 1 {
          entries[i] := entries[size - 1];
        }
        size := size - 1;
        assert entries[..size] == SwapOut(es, i);
      }
    }
  }

  /** A const iterator: the map and an index. */
  class ConstIterator<K(==), V(0)> {
    const impl: ArrayMap<K, V>
    var index: nat

    constructor (impl: ArrayMap<K, V>)
      ensures this.impl == impl && index == 0
    {
      this.impl, index := impl, 0;
    }

    predicate IsInRange()
      reads this, impl
    {
      index < impl.size
    }

    method GetEntry() returns (e: Entry<K, V>)
      requires impl.Valid() && IsInRange()
      ensures e == impl.entries[index]
    {
      e := impl.entries[index];
    }

    /** Stays at the end. */
    method Increment()
      modifies this
      ensures index == if old(IsInRange()) then old(index) + 1 else old(index)
    {
      if IsInRange() {
        index := index + 1;
      }
    }
  }

  /** Iterating from begin to end visits every key exactly once, with its value. */
  method Iterate<K(==), V(0)>(m: ArrayMap<K, V>) returns (visited: seq<Entry<K, V>>)
    requires m.Valid()
    ensures Distinct(visited) && ToMap(visited) == m.Contents() && |visited| == |m.Contents()|
  {
    visited := [];
    var it := new ConstIterator(m);
    while it.IsInRange()
      invariant it.impl == m && it.index <= m.size && visited == m.entries[..it.index]
      decreases m.size - it.index
    {
      var e := it.GetEntry();
      visited := visited + [e];
      it.Increment();
    }
    SizeOfMap(visited);
  }

  /** copyDataFrom: an equal map if there is room, and otherwise a part of it that fills the room.  Two maps
      over the same storage are accepted too, since each entry is written to the place it is read from. */
  method CopyDataFrom<K(==), V(0)>(target: ArrayMap<K, V>, source: ArrayMap<K, V>)
    requires target.Valid() && source.Valid()
    modifies target, target.entries
    ensures target.Valid() && source.Valid() && source.Contents() == old(source.Contents())
    ensures target != source ==>
      && target.entries == old(target.entries)
      && target.size == (if source.size <= target.entries.Length then source.size else target.entries.Length)
      && (forall k :: k in target.Contents() ==> k in source.Contents() && target.Contents()[k] == source.Contents()[k])
      && |target.Contents()| == target.size
      && (source.size <= target.entries.Length ==> target.Contents() == source.Contents())
  {
    hide ToMap, Distinct;
    if target != source {
      target.Clear();
      var n := if source.size <= target.entries.Length then source.size else target.entries.Length;
      Refill(target, source, n);
      SizeOfMap(target.entries[..target.size]);
      assert source.entries[..source.size][..n] == source.entries[..n];
    }
  }

  lemma NextPrefix<K, V>(es: seq<Entry<K, V>>, i: nat)
    requires Distinct(es) && i < |es|
    ensures Distinct(es[..i]) && Distinct(es[..i + 1]) && es[i].key !in ToMap(es[..i])
    ensures ToMap(es[..i + 1]) == ToMap(es[..i])[es[i].key := es[i].value]
  {
    AppendEntry(es[..i], es[i]);
    hide ToMap;
    assert es[..i + 1] == es[..i] + [es[i]];
  }

  /** One round of the loop: entry i of es goes to the end of the target. */
  method InsertNext<K(==), V(0)>(target: ArrayMap<K, V>, ghost es: seq<Entry<K, V>>, ghost i: nat, e: Entry<K, V>)
    requires target.Valid() && target.size == i < target.entries.Length && i < |es| && e == es[i]
    requires Distinct(es) && Distinct(es[..i]) && target.Contents() == ToMap(es[..i])
    modifies target`size, target.entries
    ensures target.Valid() && target.size == i + 1 && Distinct(es[..i + 1])
    ensures target.Contents() == ToMap(es[..i + 1])
    ensures target.entries[..] == old(target.entries[..])[i := e]
  {
    hide ToMap, Distinct, ArrayMap.Valid, ArrayMap.Contents;
    NextPrefix(es, i);
    var ok := target.Insert(e.key, e.value);
  }

  /** The loop of copyDataFrom. */
  method Refill<K(==), V(0)>(target: ArrayMap<K, V>, source: ArrayMap<K, V>, n: nat)
    requires target.Valid() && source.Valid() && target != source
    requires target.size == 0 && n <= source.size && n <= target.entries.Length
    modifies target`size, target.entries
    ensures target.Valid() && target.size == n && source.entries[..source.size] == old(source.entries[..source.size])
    ensures Distinct(source.entries[..n]) && target.Contents() == ToMap(source.entries[..n])
  {
    ghost var es := source.entries[..source.size];
    assert Distinct(es) && Distinct(es[..0]) && target.entries[..0] == es[..0];
    hide ToMap, Distinct;
    var it := new ConstIterator(source);
    for i := 0 to n
      invariant target.Valid() && it.impl == source && it.index == i == target.size
      invariant source.entries[..source.size] == es
      invariant Distinct(es[..i]) && target.Contents() == ToMap(es[..i])
    {
      ghost var was := source.entries[..];
      var e := it.GetEntry();
      assert e == es[i] == was[i];
      InsertNext(target, es, i, e);
      assert source.entries[..] == was;
      assert source.entries[..source.size] == source.entries[..][..source.size];
      it.Increment();
    }
    assert es[..n] == source.entries[..n];
  }
}
