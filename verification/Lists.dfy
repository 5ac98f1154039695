/** The array lists of src/core/sis_list.c: a list of records whose start slides along its buffer, and the
    list sorted by key that stands on two of them. */
module Lists {

  const STEP := 256

  // n records moved from one place to another
  function Moved<T>(b: seq<T>, to: nat, from: nat, n: nat): (r: seq<T>)
    requires to + n <= |b| && from + n <= |b|
    ensures |r| == |b|
    ensures forall i :: 0 <= i < |b| ==> r[i] == if to <= i < to + n then b[from + (i - to)] else b[i]
  {
    seq(|b|, i requires 0 <= i < |b| => if to <= i < to + n then b[from + (i - to)] else b[i])
  }

  lemma MovedToFront<T>(b: seq<T>, start: nat, count: nat)
    requires start + count <= |b|
    ensures Moved(b, 0, start, count)[0..count] == b[start..start + count]
  {}

  lemma MadeRoom<T>(b: seq<T>, start: nat, count: nat, index: nat, x: T)
    requires index < count && start + count < |b|
    ensures var s, at := b[start..start + count], start + index;
      Moved(b, at + 1, at, count - index)[at := x][start..start + count + 1] == s[..index] + [x] + s[index..]
  {
    var s, at := b[start..start + count], start + index;
    var l, r := Moved(b, at + 1, at, count - index)[at := x][start..start + count + 1], s[..index] + [x] + s[index..];
    forall i | 0 <= i < count + 1 ensures l[i] == r[i] {
      if i > index {
        assert r[i] == s[index..][i - index - 1] == s[i - 1];
      }
    }
  }

  lemma ClosedGap<T>(b: seq<T>, count: nat, from: nat, n: nat)
    requires from + n <= count <= |b|
    ensures var s := b[0..count];
      Moved(b, from, from + n, count - n - from)[0..count - n] == s[..from] + s[from + n..]
  {
    var s := b[0..count];
    var l, r := Moved(b, from, from + n, count - n - from)[0..count - n], s[..from] + s[from + n..];
    forall i | 0 <= i < count - n ensures l[i] == r[i] {
      if i >= from {
        assert r[i] == s[from + n..][i - from] == s[i + n];
      }
    }
  }

  lemma Appended<T>(b: seq<T>, start: nat, count: nat, xs: seq<T>, b': seq<T>)
    requires start + count + |xs| <= |b| == |b'|
    requires forall i :: 0 <= i < |b| ==> b'[i] == if start + count <= i < start + count + |xs| then
      xs[i - start - count] else b[i]
    ensures b'[start..start + count + |xs|] == b[start..start + count] + xs
  {}

  class StructList<T(0)> {
    var buffer: array<T>
    var count: nat
    var start: nat

    ghost predicate Valid()
      reads this
    {
      start + count <= buffer.Length
    }

    ghost function Contents(): (s: seq<T>)
      requires Valid()
      reads this, buffer
      ensures |s| == count
    {
      buffer[..][start..start + count]
    }

    constructor ()
      ensures Valid() && Contents() == [] && start == 0 && fresh(buffer)
    {
      buffer := new T[0];
      count, start := 0, 0;
    }

    method Clear()
      modifies this`count, this`start
      ensures Valid() && Contents() == [] && start == 0 && buffer == old(buffer)
    {
      count, start := 0, 0;
    }

    // memmove within the buffer, n records from one place to another
    method Move(to: nat, from: nat, n: nat)
      requires to + n <= buffer.Length && from + n <= buffer.Length
      modifies buffer
      ensures buffer[..] == Moved(old(buffer[..]), to, from, n)
    {
      if to < from {
        var i := 0;
        while i < n
          invariant 0 <= i <= n
          invariant forall j :: 0 <= j < buffer.Length ==>
            buffer[j] == old(if to <= j < to + i then buffer[from + (j - to)] else buffer[j])
        {
          buffer[to + i] := buffer[from + i];
          i := i + 1;
        }
      } else {
        var i := n;
        while i > 0
          invariant 0 <= i <= n
          invariant forall j :: 0 <= j < buffer.Length ==>
            buffer[j] == old(if to + i <= j < to + n then buffer[from + (j - to)] else buffer[j])
        {
          i := i - 1;
          buffer[to + i] := buffer[from + i];
        }
      }
    }

    // The capacity a buffer grows to.
    static function Capacity(n: nat): (r: nat)
      ensures r >= n
    {
      if n < 16 then 16 else if n < 64 then 64 else if n < 256 then 256 else n + STEP
    }

    method ToFront()
      requires Valid()
      modifies this`start, buffer
      ensures Valid() && Contents() == old(Contents()) && start == 0
    {
      MovedToFront(buffer[..], start, count);
      Move(0, start, count);
      start := 0;
    }

    /** _struct_list_grow: room behind the records, by moving them to the front or to a larger buffer. */
    method Grow(more: nat)
      requires Valid()
      modifies this`buffer, this`start, buffer
      ensures Valid() && Contents() == old(Contents()) && start + count + more <= buffer.Length
      ensures buffer == old(buffer) || fresh(buffer)
      ensures start == old(start) || start == 0
    {
      if start + count + more > buffer.Length && start > 0 {
        ToFront();
      }
      if start + count + more <= buffer.Length {
        return;
      }
      ghost var was := Contents();
      var bigger := new T[Capacity(start + count + more)];
      forall i | 0 <= i < buffer.Length {
        bigger[i] := buffer[i];
      }
      assert bigger[start..start + count] == was;
      buffer := bigger;
    }

    method PushAll(xs: seq<T>) returns (last: int)
      requires Valid()
      modifies this, buffer
      ensures Valid() && Contents() == old(Contents()) + xs && last == count - 1
      ensures buffer == old(buffer) || fresh(buffer)
      ensures start == old(start) || start == 0
    {
      Grow(|xs|);
      var offset := count + start;
      ghost var b := buffer[..];
      forall i | 0 <= i < |xs| {
        buffer[offset + i] := xs[i];
      }
      Appended(b, start, count, xs, buffer[..]);
      count := count + |xs|;
      last := count - 1;
    }

    method Push(x: T) returns (last: int)
      requires Valid()
      modifies this, buffer
      ensures Valid() && Contents() == old(Contents()) + [x] && last == count - 1
      ensures buffer == old(buffer) || fresh(buffer)
      ensures start == old(start) || start == 0
    {
      last := PushAll([x]);
    }

    method Update(index: int, x: T) returns (r: int)
      requires Valid()
      modifies buffer
      ensures if 0 <= index < count then r == index && Contents() == old(Contents())[index := x]
        else r == -1 && Contents() == old(Contents())
    {
      if 0 <= index < count {
        buffer[start + index] := x;
        assert Contents() == old(Contents())[index := x];
        return index;
      }
      return -1;
    }

    // The records from a place on move up by one, and the new one takes the place.
    method MakeRoom(index: nat, x: T)
      requires Valid() && index < count && start + count < buffer.Length
      modifies this`count, buffer
      ensures Valid()
      ensures Contents() == old(Contents())[..index] + [x] + old(Contents())[index..]
    {
      MadeRoom(buffer[..], start, count, index, x);
      ghost var b := buffer[..];
      var offset := index + start;
      Move(offset + 1, offset, count - index);
      buffer[offset] := x;
      count := count + 1;
      assert buffer[..] == Moved(b, offset + 1, offset, count - 1 - index)[offset := x];
    }

    method Insert(index0: int, x: T) returns (r: int)
      requires Valid()
      modifies this, buffer
      ensures Valid()
      ensures var s, i := old(Contents()), if index0 > old(count) - 1 then old(count) else if index0 < 0 then 0
        else index0;
        r == i && Contents() == s[..i] + [x] + s[i..]
      ensures buffer == old(buffer) || fresh(buffer)
      ensures start == old(start) || start == 0
    {
      if count < 1 || index0 > count - 1 {
        r := Push(x);
        return;
      }
      var index: nat := if index0 < 0 then 0 else index0;
      Grow(1);
      MakeRoom(index, x);
      r := index;
    }

    method Get(index: int) returns (ok: bool, x: T)
      requires Valid()
      ensures ok <==> 0 <= index < count
      ensures ok ==> x == Contents()[index]
    {
      if 0 <= index < count {
        return true, buffer[start + index];
      }
      ok := false;
      x := *;
    }

    // A record past the end, what lies between left as the buffer has it
    method WriteBehind(index: nat, x: T)
      requires Valid() && count <= index && start + index < buffer.Length
      modifies this`count, buffer
      ensures Valid() && count == index + 1 && Contents()[..old(count)] == old(Contents()) && Contents()[index] == x
    {
      buffer[start + index] := x;
      count := index + 1;
    }

    /** sis_struct_list_setone: past the end the list is made longer, with whatever the buffer holds between. */
    method SetOne(index: int, x: T) returns (r: int)
      requires Valid()
      modifies this, buffer
      ensures Valid()
      ensures var s := old(Contents());
        if index < 0 then Contents() == s + [x]
        else if index < |s| then Contents() == s[index := x]
        else |Contents()| == index + 1 && Contents()[..|s|] == s && Contents()[index] == x
      ensures r == if index < 0 then count - 1 else index
    {
      if index < 0 {
        r := Push(x);
        return;
      }
      if index < count {
        r := Update(index, x);
        return;
      }
      Grow(index - count + 1);
      WriteBehind(index, x);
      r := index;
    }

    /** Only the last records stay. */
    method Limit(limit: int)
      requires Valid()
      modifies this`start, this`count
      ensures Valid() && buffer == old(buffer)
      ensures Contents() == if 1 <= limit <= old(count) then old(Contents())[old(count) - limit..] else old(Contents())
    {
      if limit < 1 || limit > count {
        return;
      }
      start := start + count - limit;
      count := limit;
    }

    method Pop() returns (ok: bool, x: T)
      requires Valid()
      modifies this`start, this`count
      ensures Valid() && buffer == old(buffer)
      ensures ok <==> old(Contents()) != []
      ensures if ok then x == old(Contents())[0] && Contents() == old(Contents())[1..] else Contents() == []
    {
      if count > 0 {
        ok, x := true, buffer[start];
        start, count := start + 1, count - 1;
        return;
      }
      ok := false;
      x := *;
    }

    /** A buffer of just the records. */
    method Pack() returns (r: nat)
      requires Valid()
      modifies this`buffer, this`start
      ensures Valid() && Contents() == old(Contents()) && start == 0 && buffer.Length == count && r == count &&
        fresh(buffer)
    {
      var tmp := new T[count];
      forall i | 0 <= i < count {
        tmp[i] := buffer[start + i];
      }
      assert tmp[0..count] == Contents();
      buffer, start := tmp, 0;
      return count;
    }

    // The records behind n others move down over them.
    method CloseGap(from: nat, n: nat)
      requires Valid() && start == 0 && from + n <= count
      modifies this`count, buffer
      ensures Valid()
      ensures Contents() == old(Contents())[..from] + old(Contents())[from + n..]
    {
      ClosedGap(buffer[..], count, from, n);
      Move(from, from + n, count - n - from);
      count := count - n;
    }

    /** n records from a place on, if there are that many, and else nothing. */
    method Delete(from: int, n: int) returns (r: int)
      requires Valid()
      modifies this`start, this`count, buffer
      ensures Valid() && buffer == old(buffer) && (start == old(start) || start == 0)
      ensures var s := old(Contents());
        if from < 0 || n < 1 || from + n > |s| then r == 0 && Contents() == s
        else r == n && Contents() == s[..from] + s[from + n..]
    {
      if from < 0 || n < 1 || from + n > count {
        return 0;
      }
      if start > 0 {
        ToFront();
      }
      CloseGap(from, n);
      return n;
    }
  }

  ghost predicate Descending(ks: seq<int>) {
    forall i, j :: 0 <= i < j < |ks| ==> ks[i] > ks[j]
  }

  // The i-th key goes with the i-th value, and there is no other key.
  ghost predicate Pairs<V>(ks: seq<int>, vs: seq<V>, t: map<int, V>) {
    && |ks| == |vs|
    && (forall i :: 0 <= i < |ks| ==> ks[i] in t && t[ks[i]] == vs[i])
    && (forall k :: k in t ==> exists i :: 0 <= i < |ks| && ks[i] == k)
  }

  // What keys in descending order and the values beside them say
  ghost function Table<V>(ks: seq<int>, vs: seq<V>): (t: map<int, V>)
    requires |ks| == |vs| && Descending(ks)
    ensures Pairs(ks, vs, t)
  {
    var n := |ks| - 1;
    if n < 0 then map[] else Table(ks[..n], vs[..n])[ks[n] := vs[n]]
  }

  lemma OneTable<V>(ks: seq<int>, vs: seq<V>, t: map<int, V>, u: map<int, V>)
    requires Pairs(ks, vs, t) && Pairs(ks, vs, u)
    ensures t == u
  {
    assert forall k :: k in t ==> k in u && t[k] == u[k];
    assert forall k :: k in u ==> k in t;
  }

  // One more before the i-th
  ghost function With<T>(s: seq<T>, i: nat, x: T): (r: seq<T>)
    requires i <= |s|
  {
    seq(|s| + 1, j requires 0 <= j < |s| + 1 => if j < i then s[j] else if j == i then x else s[j - 1])
  }

  ghost function Without<T>(s: seq<T>, i: nat): (r: seq<T>)
    requires i < |s|
  {
    seq(|s| - 1, j requires 0 <= j < |s| - 1 => if j < i then s[j] else s[j + 1])
  }

  lemma JoinedWith<T>(s: seq<T>, i: nat, x: T)
    requires i <= |s|
    ensures s[..i] + [x] + s[i..] == With(s, i, x)
  {}

  lemma JoinedWithout<T>(s: seq<T>, i: nat)
    requires i < |s|
    ensures s[..i] + s[i + 1..] == Without(s, i)
  {}

  lemma AfterGap<T>(s: seq<T>, i: nat)
    requires i < |s|
    ensures |Without(s, i)| == |s| - 1 && (i < |s| - 1 ==> Without(s, i)[i] == s[i + 1])
  {}

  lemma InsertedKeys(ks: seq<int>, i: nat, k: int)
    requires Descending(ks) && i <= |ks| && (i > 0 ==> ks[i - 1] > k) && (i < |ks| ==> ks[i] < k)
    ensures Descending(With(ks, i, k)) && k !in ks
  {
    assert forall j :: 0 <= j < i ==> ks[j] > k;
    assert forall j :: i <= j < |ks| ==> ks[j] < k;
  }

  lemma InsertedTable<V>(ks: seq<int>, vs: seq<V>, t: map<int, V>, i: nat, k: int, x: V)
    requires Pairs(ks, vs, t) && i <= |ks| && k !in ks
    ensures Pairs(With(ks, i, k), With(vs, i, x), t[k := x])
  {
    var ks', u := With(ks, i, k), t[k := x];
    forall c | c in u ensures exists j :: 0 <= j < |ks'| && ks'[j] == c {
      if c == k {
        assert ks'[i] == c;
      } else {
        var j :| 0 <= j < |ks| && ks[j] == c;
        assert ks'[if j < i then j else j + 1] == c;
      }
    }
  }

  lemma UpdatedTable<V>(ks: seq<int>, vs: seq<V>, t: map<int, V>, i: nat, x: V)
    requires Descending(ks) && Pairs(ks, vs, t) && i < |ks|
    ensures Pairs(ks, vs[i := x], t[ks[i] := x])
  {
    assert forall c :: c in t ==> exists j :: 0 <= j < |ks| && ks[j] == c;
  }

  lemma DeletedTable<V>(ks: seq<int>, vs: seq<V>, t: map<int, V>, i: nat)
    requires Descending(ks) && Pairs(ks, vs, t) && i < |ks|
    ensures Descending(Without(ks, i)) && Pairs(Without(ks, i), Without(vs, i), t - {ks[i]})
  {
    var ks', u := Without(ks, i), t - {ks[i]};
    forall c | c in u ensures exists j :: 0 <= j < |ks'| && ks'[j] == c {
      var j :| 0 <= j < |ks| && ks[j] == c;
      assert ks'[if j < i then j else j - 1] == c;
    }
  }

  /** A list sorted by key, from the highest down: the keys in one array list, the values in another. */
  class SortList<V(0)> {
    const key: StructList<int>
    const value: StructList<V>

    ghost predicate Apart()
      reads this, key, value
    {
      key as object != value as object && key.buffer as object != value.buffer as object
    }

    ghost predicate Valid()
      reads this, key, value, key.buffer
    {
      && Apart() && key.Valid() && value.Valid()
      && key.count == value.count && key.start == 0 == value.start
      && Descending(key.Contents())
    }

    ghost function Entries(): map<int, V>
      requires Valid()
      reads this, key, value, key.buffer, value.buffer
    {
      Table(key.Contents(), value.Contents())
    }

    constructor ()
      ensures Valid() && Entries() == map[] && fresh(key) && fresh(value) && fresh(key.buffer) && fresh(value.buffer)
    {
      key := new StructList<int>();
      value := new StructList<V>();
    }

    /** _sort_list_find: halving finds a key whenever a walk over all of them would. */
    method FindIndex(k: int) returns (index: int)
      requires Valid()
      ensures if k in Entries() then 0 <= index < key.count && key.Contents()[index] == k else index == -1
    {
      var first, last := 0, key.count - 1;
      while first <= last
        invariant 0 <= first <= last + 1 <= key.count
        invariant forall i :: 0 <= i < first ==> key.Contents()[i] > k
        invariant forall i :: last < i < key.count ==> key.Contents()[i] < k
      {
        var mid := (last - first) / 2 + first;
        var _, midv := key.Get(mid);
        if midv < k {
          last := mid - 1;
        } else if midv > k {
          first := mid + 1;
        } else {
          return mid;
        }
      }
      return -1;
    }

    method Find(k: int) returns (found: bool, x: V)
      requires Valid()
      ensures found <==> k in Entries()
      ensures found ==> x == Entries()[k]
    {
      var index := FindIndex(k);
      found, x := value.Get(index);
    }

    // The two lists in step, whatever the order of the keys
    ghost predicate InStep()
      reads this, key, value
    {
      Apart() && key.Valid() && value.Valid() && key.count == value.count && key.start == 0 == value.start
    }

    method InsertBoth(i: nat, k: int, x: V)
      requires InStep() && i <= key.count
      modifies key, value, key.buffer, value.buffer
      ensures InStep()
      ensures key.Contents() == With(old(key.Contents()), i, k)
      ensures value.Contents() == With(old(value.Contents()), i, x)
      ensures key.buffer == old(key.buffer) || fresh(key.buffer)
      ensures value.buffer == old(value.buffer) || fresh(value.buffer)
    {
      JoinedWith(key.Contents(), i, k);
      JoinedWith(value.Contents(), i, x);
      var _ := key.Insert(i, k);
      var _ := value.Insert(i, x);
    }

    // A pair joins both lists before the i-th pair, or behind the last.
    method InsertAt(i: nat, k: int, x: V)
      requires Valid() && i <= key.count
      requires (i > 0 ==> key.Contents()[i - 1] > k) && (i < key.count ==> key.Contents()[i] < k)
      modifies key, value, key.buffer, value.buffer
      ensures Valid() && Entries() == old(Entries())[k := x] && i < key.count && key.Contents()[i] == k
      ensures key.buffer == old(key.buffer) || fresh(key.buffer)
      ensures value.buffer == old(value.buffer) || fresh(value.buffer)
    {
      InsertedKeys(key.Contents(), i, k);
      InsertedTable(key.Contents(), value.Contents(), Entries(), i, k, x);
      InsertBoth(i, k, x);
      OneTable(key.Contents(), value.Contents(), Entries(), old(Entries())[k := x]);
    }

    // Where a new key goes: before the first smaller one, or at the end
    method FirstSmaller(k: int) returns (i: nat)
      requires Valid() && k !in key.Contents()
      ensures i <= key.count && (i > 0 ==> key.Contents()[i - 1] > k) && (i < key.count ==> key.Contents()[i] < k)
    {
      i := 0;
      while i < key.count
        invariant 0 <= i <= key.count
        invariant i > 0 ==> key.Contents()[i - 1] > k
      {
        var _, c := key.Get(i);
        if c < k {
          return;
        }
        i := i + 1;
      }
    }

    method Replace(i: nat, x: V)
      requires Valid() && i < key.count
      modifies value.buffer
      ensures Valid() && Entries() == old(Entries())[key.Contents()[i] := x]
      ensures key.Contents() == old(key.Contents())
    {
      UpdatedTable(key.Contents(), value.Contents(), Entries(), i, x);
      var _ := value.Update(i, x);
      OneTable(key.Contents(), value.Contents(), Entries(), old(Entries())[key.Contents()[i] := x]);
    }

    /** sis_sort_list_set: the value of a key there already is replaced; a new key goes before the first
        smaller one. The place of the value is returned. */
    method Set(k: int, x: V) returns (unit: nat)
      requires Valid()
      modifies key, value, key.buffer, value.buffer
      ensures Valid() && Entries() == old(Entries())[k := x]
      ensures unit < key.count && key.Contents()[unit] == k
      ensures key.buffer == old(key.buffer) || fresh(key.buffer)
      ensures value.buffer == old(value.buffer) || fresh(value.buffer)
    {
      var index := FindIndex(k);
      if index >= 0 {
        Replace(index, x);
        return index;
      }
      var i := FirstSmaller(k);
      InsertAt(i, k, x);
      return i;
    }

    /** sis_sort_list_deli: both deletions refuse a place past the end. */
    method DeleteAt(index: int)
      requires Valid()
      modifies key, value, key.buffer, value.buffer
      ensures Valid() && key.buffer == old(key.buffer) && value.buffer == old(value.buffer)
      ensures Entries() == if 0 <= index < old(key.count) then old(Entries()) - {old(key.Contents())[index]}
        else old(Entries())
      ensures value.Contents() == if 0 <= index < old(key.count) then Without(old(value.Contents()), index)
        else old(value.Contents())
    {
      ghost var ks, vs, t := key.Contents(), value.Contents(), Entries();
      DeleteBoth(index);
      if 0 <= index < |ks| {
        DeletedTable(ks, vs, t, index);
        OneTable(key.Contents(), value.Contents(), Entries(), t - {ks[index]});
      }
    }

    method DeleteBoth(index: int)
      requires InStep()
      modifies key, value, key.buffer, value.buffer
      ensures InStep() && key.buffer == old(key.buffer) && value.buffer == old(value.buffer)
      ensures key.Contents() == if 0 <= index < old(key.count) then Without(old(key.Contents()), index)
        else old(key.Contents())
      ensures value.Contents() == if 0 <= index < old(key.count) then Without(old(value.Contents()), index)
        else old(value.Contents())
    {
      if 0 <= index < key.count {
        JoinedWithout(key.Contents(), index);
        JoinedWithout(value.Contents(), index);
      }
      var _ := key.Delete(index, 1);
      var _ := value.Delete(index, 1);
    }

    /** sis_sort_list_del: the value is named by its place in the buffer; what comes after it is returned. */
    method Delete(place: nat) returns (more: bool, x: V)
      requires Valid() && place < value.count
      modifies key, value, key.buffer, value.buffer
      ensures Valid() && key.buffer == old(key.buffer) && value.buffer == old(value.buffer)
      ensures Entries() == old(Entries()) - {old(key.Contents())[place]}
      ensures more <==> place + 1 < old(value.count)
      ensures more ==> x == old(value.Contents())[place + 1]
    {
      AfterGap(value.Contents(), place);
      DeleteAt(place);
      more, x := value.Get(place);
    }
  }
}
