/** The dictionary behind the INI parser: three parallel arrays that grow by doubling. */
module IniDictionaries {
  import opened Common
  import opened IniHash

  const MINSIZE: nat := 128

  // ---------- The table as a value ----------

  datatype Table = Table(keys: seq<Option<Str>>, vals: seq<Option<Str>>, hashes: seq<bv32>, n: nat)

  /** Slot i is in use and tells the truth about one key. */
  ghost predicate SlotOk(t: Table, m: map<Str, Str>, hashOf: Str -> bv32, i: nat) {
    && i < |t.keys| == |t.vals| == |t.hashes|
    && t.keys[i].Some? && t.vals[i].Some?
    && t.hashes[i] == hashOf(t.keys[i].value)
    && t.keys[i].value in m && m[t.keys[i].value] == t.vals[i].value
  }

  ghost predicate Stored(t: Table, k: Str) {
    exists i :: 0 <= i < t.n <= |t.keys| && t.keys[i] == Some(k)
  }

  /** The first n slots are in use, with distinct keys; together they are the map m. */
  ghost predicate Refines(t: Table, m: map<Str, Str>, hashOf: Str -> bv32) {
    && t.n <= |t.keys| == |t.vals| == |t.hashes|
    && (forall i :: 0 <= i < t.n ==> SlotOk(t, m, hashOf, i))
    && (forall i :: t.n <= i < |t.keys| ==> t.keys[i].None?)
    && (forall i, j :: 0 <= i < j < t.n ==> t.keys[i] != t.keys[j])
    && (forall k :: k in m ==> Stored(t, k))
  }

  /** A search that compares hashes first finds exactly what is stored. */
  lemma SearchIsExact(t: Table, m: map<Str, Str>, hashOf: Str -> bv32, k: Str, i: nat)
    requires Refines(t, m, hashOf) && i < |t.keys| && t.keys[i].Some?
    ensures t.hashes[i] == hashOf(k) && t.keys[i] == Some(k) <==> t.keys[i] == Some(k)
    ensures t.keys[i] == Some(k) ==> i < t.n && k in m && t.vals[i] == Some(m[k])
  {
    assert i < t.n ==> SlotOk(t, m, hashOf, i);
  }

  lemma NotFoundMeansAbsent(t: Table, m: map<Str, Str>, hashOf: Str -> bv32, k: Str)
    requires Refines(t, m, hashOf) && forall i :: 0 <= i < |t.keys| ==> t.keys[i] != Some(k)
    ensures k !in m
  {}

  lemma SizesAgree(t: Table, m: map<Str, Str>, hashOf: Str -> bv32)
    requires Refines(t, m, hashOf)
    ensures t.n <= |t.keys| == |t.vals| == |t.hashes|
  {}

  lemma OverwriteRefines(t: Table, m: map<Str, Str>, hashOf: Str -> bv32, i: nat, v: Str)
    requires Refines(t, m, hashOf) && i < t.n && t.keys[i].Some?
    ensures Refines(t.(vals := t.vals[i := Some(v)]), m[t.keys[i].value := v], hashOf)
  {
    var k := t.keys[i].value;
    var t', m' := t.(vals := t.vals[i := Some(v)]), m[k := v];
    assert SlotOk(t, m, hashOf, i);
    forall j | 0 <= j < t.n
      ensures SlotOk(t', m', hashOf, j)
    {
      assert SlotOk(t, m, hashOf, j);
      assert j != i ==> t.keys[j] != t.keys[i];
    }
    forall x | x in m'
      ensures Stored(t', x)
    {
      assert x != k ==> Stored(t, x);
      assert t'.keys[i] == Some(k);
    }
  }

  lemma AppendRefines(t: Table, m: map<Str, Str>, hashOf: Str -> bv32, k: Str, v: Str)
    requires Refines(t, m, hashOf) && k !in m && t.n < |t.keys|
    ensures Refines(
      Table(t.keys[t.n := Some(k)], t.vals[t.n := Some(v)], t.hashes[t.n := hashOf(k)], t.n + 1), m[k := v], hashOf)
  {
    var t' := Table(t.keys[t.n := Some(k)], t.vals[t.n := Some(v)], t.hashes[t.n := hashOf(k)], t.n + 1);
    var m' := m[k := v];
    forall j | 0 <= j < t'.n
      ensures SlotOk(t', m', hashOf, j) && (j < t.n ==> t'.keys[j] != Some(k))
    {
      assert j < t.n ==> SlotOk(t, m, hashOf, j);
    }
    forall x | x in m'
      ensures Stored(t', x)
    {
      if x == k {
        assert t'.keys[t.n] == Some(x);
      } else {
        assert Stored(t, x);
        var i :| 0 <= i < t.n && t.keys[i] == Some(x);
        assert t'.keys[i] == Some(x);
      }
    }
  }

  /** Doubling keeps every slot where it is, so it preserves all entries. */
  lemma GrowthRefines(t: Table, t': Table, m: map<Str, Str>, hashOf: Str -> bv32)
    requires Refines(t, m, hashOf) && t'.n == t.n
    requires |t.keys| <= |t'.keys| == |t'.vals| == |t'.hashes|
    requires t'.keys[..|t.keys|] == t.keys && t'.vals[..|t.keys|] == t.vals && t'.hashes[..|t.keys|] == t.hashes
    requires forall i :: |t.keys| <= i < |t'.keys| ==> t'.keys[i].None?
    ensures Refines(t', m, hashOf)
  {
    forall i | 0 <= i < |t.keys|
      ensures t'.keys[i] == t.keys[i] && t'.vals[i] == t.vals[i] && t'.hashes[i] == t.hashes[i]
    {
      assert t'.keys[..|t.keys|][i] == t.keys[i];
      assert t'.vals[..|t.keys|][i] == t.vals[i];
      assert t'.hashes[..|t.keys|][i] == t.hashes[i];
    }
    forall i | 0 <= i < t'.n
      ensures SlotOk(t', m, hashOf, i)
    {
      assert SlotOk(t, m, hashOf, i);
    }
    forall x | x in m
      ensures Stored(t', x)
    {
      assert Stored(t, x);
      var i :| 0 <= i < t.n && t.keys[i] == Some(x);
      assert t'.keys[i] == Some(x);
    }
  }

  // ---------- The dictionary as an object ----------

  class IniDictionary {
    const hashOf: Str -> bv32
    var n: nat
    var size: nat
    var key: array<Option<Str>>
    var val: array<Option<Str>>
    var hash: array<bv32>
    ghost var contents: map<Str, Str>

    ghost function View(): Table
      reads this, key, val, hash
    {
      Table(key[..], val[..], hash[..], n)
    }

    ghost predicate Valid()
      reads this, key, val, hash
    {
      && 0 < size == key.Length && key != val && hash as object != key && hash as object != val
      && Refines(View(), contents, hashOf)
    }

    /** For any hash function, so also for one that maps all keys to the same value. */
    constructor (hashOf: Str -> bv32)
      ensures Valid() && fresh(key) && fresh(val) && fresh(hash)
      ensures this.hashOf == hashOf && contents == map[] && n == 0 && size == MINSIZE
    {
      this.hashOf := hashOf;
      n, size, contents := 0, MINSIZE, map[];
      key := new Option<Str>[MINSIZE](_ => None);
      val := new Option<Str>[MINSIZE](_ => None);
      hash := new bv32[MINSIZE](_ => 0);
    }

    method GetVal(k: Option<Str>, notFound: Option<Str>) returns (r: Option<Str>)
      requires Valid()
      ensures r == if k.Some? && k.value in contents then Some(contents[k.value]) else notFound
    {
      if k.None? {
        return notFound;
      }
      var h := hashOf(k.value);
      for i := 0 to size
        invariant forall j :: 0 <= j < i ==> key[j] != k
      {
        if key[i].None? {
          continue;
        }
        SearchIsExact(View(), contents, hashOf, k.value, i);
        if h == hash[i] && key[i] == k {
          return val[i];
        }
      }
      NotFoundMeansAbsent(View(), contents, hashOf, k.value);
      return notFound;
    }

    /** 0 when the key was there under this hash and its value has been replaced, -1 otherwise. */
    method ModifyVal(k: Option<Str>, h: bv32, v: Option<Str>) returns (ret: int)
      requires Valid()
      modifies this`contents, val
      ensures Valid()
      ensures ret == if k.Some? && v.Some? && k.value in old(contents) && h == hashOf(k.value) then 0 else -1
      ensures contents == if ret == 0 then old(contents)[k.value := v.value] else old(contents)
    {
      if k.None? || v.None? {
        return -1;
      }
      for i := 0 to size
        invariant unchanged(this) && unchanged(val)
        invariant forall j :: 0 <= j < i && h == hashOf(k.value) ==> key[j] != k
      {
        if key[i].None? {
          continue;
        }
        SearchIsExact(View(), contents, hashOf, k.value, i);
        if h == hash[i] && key[i] == k {
          WriteVal(i, k.value, v.value);
          return 0;
        }
      }
      if h == hashOf(k.value) {
        NotFoundMeansAbsent(View(), contents, hashOf, k.value);
      }
      return -1;
    }

    method WriteVal(i: nat, k: Str, v: Str)
      requires Valid() && i < n && i < key.Length && key[i] == Some(k)
      modifies this`contents, val
      ensures Valid() && contents == old(contents)[k := v]
    {
      hide Refines;
      OverwriteRefines(View(), contents, hashOf, i, v);
      SizesAgree(View(), contents, hashOf);
      val[i] := Some(v);
      contents := contents[k := v];
      assert View() == old(View()).(vals := old(View()).vals[i := Some(v)]);
    }

    /** `memory` says whether the allocations succeed; if they do not, the old arrays stay. */
    method ExpandSpace(memory: bool) returns (ret: int)
      requires Valid()
      modifies this`size, this`key, this`val, this`hash
      ensures Valid() && ret == if memory then 0 else -1
      ensures size == if memory then 2 * old(size) else old(size)
      ensures if memory then fresh(key) && fresh(val) && fresh(hash)
        else key == old(key) && val == old(val) && hash == old(hash)
    {
      if !memory {
        return -1;
      }
      ghost var before := View();
      var newVal := Doubled(val, None);
      var newKey := Doubled(key, None);
      var newHash := Doubled(hash, 0);
      size := 2 * size;
      val, key, hash := newVal, newKey, newHash;
      GrowthRefines(before, View(), contents, hashOf);
      return 0;
    }

    /** How far the first free slot is from i, going round. */
    ghost function Distance(i: nat, free: nat): nat
      requires i < size && free < size
      reads this`size
    {
      if i <= free then free - i else size - i + free
    }

    /** The probe: it ends at a free slot whenever there is one, wherever it starts. */
    method FindFree(start: nat, ghost free: nat) returns (position: nat)
      requires key.Length == size && start < size && free < size && key[free].None?
      ensures position < size && key[position].None?
      ensures key[start].None? ==> position == start
    {
      position := start;
      while key[position].Some?
        invariant position < size
        invariant key[start].None? ==> position == start
        decreases Distance(position, free)
      {
        position := position + 1;
        if position == size {
          position := 0;
        }
      }
    }

    /** For a key that is not there yet; -1 and no change for a null argument or without memory. */
    method AddVal(k: Option<Str>, h: bv32, v: Option<Str>, memory: bool) returns (ret: int)
      requires Valid() && (k.Some? && v.Some? ==> h == hashOf(k.value) && k.value !in contents)
      modifies this`n, this`size, this`key, this`val, this`hash, this`contents, key, val, hash
      ensures Valid()
      ensures ret == if k.Some? && v.Some? && (old(n) < old(size) || memory) then 0 else -1
      ensures n == (if ret == 0 then old(n) + 1 else old(n))
      ensures contents == if ret == 0 then old(contents)[k.value := v.value] else old(contents)
      ensures size == if ret == 0 && old(n) == old(size) then 2 * old(size) else old(size)
      ensures (key == old(key) && val == old(val) && hash == old(hash)) || (fresh(key) && fresh(val) && fresh(hash))
    {
      if k.None? || v.None? {
        return -1;
      }
      var position := n;
      if position >= size {
        ret := ExpandSpace(memory);
        if ret != 0 {
          return -1;
        }
      }
      position := FindFree(position, n);
      FillSlot(position, k.value, h, v.value);
      return 0;
    }

    method FillSlot(position: nat, k: Str, h: bv32, v: Str)
      requires Valid() && h == hashOf(k) && k !in contents && position == n < size
      modifies this`n, this`contents, key, val, hash
      ensures Valid() && n == old(n) + 1 && contents == old(contents)[k := v]
    {
      hide Refines;
      AppendRefines(View(), contents, hashOf, k, v);
      SizesAgree(View(), contents, hashOf);
      ghost var t := View();
      key[position] := Some(k);
      val[position] := Some(v);
      hash[position] := h;
      n := n + 1;
      contents := contents[k := v];
      assert View() == Table(t.keys[t.n := Some(k)], t.vals[t.n := Some(v)], t.hashes[t.n := h], t.n + 1);
    }

    /**
      Sets or adds a value. A null value changes nothing, whether or not the key is there, and
      still counts as a success. Only a new key in a full dictionary needs memory.
    */
    method SetVal(k: Option<Str>, v: Option<Str>, memory: bool) returns (ret: int)
      requires Valid()
      modifies this`n, this`size, this`key, this`val, this`hash, this`contents, key, val, hash
      ensures Valid()
      ensures ret == 0 <==>
        k.Some? && (v.Some? && k.value !in old(contents) && old(n) == old(size) ==> memory)
      ensures ret == 0 || ret == -1
      ensures contents == if ret == 0 && v.Some? then old(contents)[k.value := v.value] else old(contents)
      ensures n == old(n) + (if ret == 0 && v.Some? && k.value !in old(contents) then 1 else 0)
      ensures (key == old(key) && val == old(val) && hash == old(hash)) || (fresh(key) && fresh(val) && fresh(hash))
    {
      if k.None? {
        return -1;
      }
      var h := hashOf(k.value);
      if n > 0 {
        ret := ModifyVal(k, h, v);
        if ret == 0 {
          return 0;
        }
      } else {
        NotFoundMeansAbsent(View(), contents, hashOf, k.value);
      }
      if v.Some? {
        ret := AddVal(k, h, v, memory);
        if ret != 0 {
          return -1;
        }
      }
      return 0;
    }
  }

  /** calloc of twice the size, then memcpy. */
  method Doubled<T>(a: array<T>, zero: T) returns (b: array<T>)
    ensures fresh(b) && b.Length == 2 * a.Length
    ensures b[..a.Length] == a[..] && forall i :: a.Length <= i < b.Length ==> b[i] == zero
  {
    b := new T[2 * a.Length](_ => zero);
    for i := 0 to a.Length
      invariant forall j :: 0 <= j < i ==> b[j] == a[j]
      invariant forall j :: a.Length <= j < b.Length ==> b[j] == zero
    {
      b[i] := a[i];
    }
  }
}
