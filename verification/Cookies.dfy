/** Session cookies: values split over numbered chunks, and the order in which cookies are tried. */
module Cookies {
  import opened GoStrings
  import Decimal

  type Jar = map<Bytes, Bytes>

  const DOT: Byte := '.'

  function ChunkKey(name: Bytes, index: nat): Bytes {
    name + [DOT] + Decimal.Itoa(index)
  }

  lemma ChunkKeyInjective(name: Bytes, i: nat, j: nat)
    requires ChunkKey(name, i) == ChunkKey(name, j)
    ensures i == j
  {
    assert ChunkKey(name, i)[|name| + 1..] == Decimal.Itoa(i);
    assert ChunkKey(name, j)[|name| + 1..] == Decimal.Itoa(j);
    Decimal.ItoaInjective(i, j);
  }

  // ------------------------------------------------------------ reassembly

  /** The chunks of `name` from `index` on, up to the first one that is missing. */
  ghost predicate ChunksFrom(values: Jar, name: Bytes, index: nat, chunks: seq<Bytes>) {
    && (forall i :: index <= i < index + |chunks| ==>
         ChunkKey(name, i) in values && values[ChunkKey(name, i)] == chunks[i - index])
    && ChunkKey(name, index + |chunks|) !in values
  }

  /** The keys of the first `n` chunks. */
  ghost function ChunkKeys(name: Bytes, n: nat): set<Bytes> {
    set i | 0 <= i < n :: ChunkKey(name, i)
  }

  lemma {:induction false} ChunkKeysCount(name: Bytes, n: nat)
    ensures |ChunkKeys(name, n)| == n
  {
    hide ChunkKey;
    if n > 0 {
      ChunkKeysCount(name, n - 1);
      var last := ChunkKey(name, n - 1);
      forall i | 0 <= i < n - 1 ensures ChunkKey(name, i) != last {
        if ChunkKey(name, i) == last {
          ChunkKeyInjective(name, i, n - 1);
        }
      }
      assert ChunkKeys(name, n) == ChunkKeys(name, n - 1) + {last};
    }
  }

  lemma SubsetSize<T>(a: set<T>, b: set<T>)
    requires a <= b
    ensures |a| <= |b|
  {
    assert b == a + (b - a);
  }

  /** Collecting stops: the jar is finite and no two chunk numbers are written alike. */
  lemma MoreChunksThanSeen(values: Jar, name: Bytes, n: nat)
    requires forall i :: 0 <= i < n ==> ChunkKey(name, i) in values
    ensures n <= |values|
  {
    ChunkKeysCount(name, n);
    SubsetSize(ChunkKeys(name, n), values.Keys);
  }

  function Chunks(values: Jar, name: Bytes, index: nat): (chunks: seq<Bytes>)
    requires forall i :: 0 <= i < index ==> ChunkKey(name, i) in values
    ensures ChunksFrom(values, name, index, chunks)
    decreases |values| - index
  {
    if ChunkKey(name, index) !in values then [] else
      MoreChunksThanSeen(values, name, index + 1);
      var rest := Chunks(values, name, index + 1);
      [values[ChunkKey(name, index)]] + rest
  }

  /** The value `name` stands for: the whole cookie unless it is missing or empty, otherwise its chunks in order. */
  function Combined(values: Jar, name: Bytes): Bytes {
    if name in values && values[name] != [] then values[name] else Concat(Chunks(values, name, 0))
  }

  method CombineCookieChunks(values: Jar, name: Bytes) returns (combined: Bytes)
    ensures combined == Combined(values, name)
  {
    if name in values && values[name] != [] {
      return values[name];
    }
    combined := [];
    var index := 0;
    while true
      invariant forall i :: 0 <= i < index ==> ChunkKey(name, i) in values
      invariant combined + Concat(Chunks(values, name, index)) == Concat(Chunks(values, name, 0))
      decreases |values| - index
    {
      if ChunkKey(name, index) !in values {
        assert combined + [] == combined;
        break;
      }
      MoreChunksThanSeen(values, name, index + 1);
      ghost var rest := Chunks(values, name, index + 1);
      assert Chunks(values, name, index)[1..] == rest;
      combined := combined + values[ChunkKey(name, index)];
      index := index + 1;
    }
  }

  /** A value stored in any number of numbered chunks, with the next number free, comes back whole and in order. */
  lemma SplitCookieIsReassembled(values: Jar, name: Bytes, chunks: seq<Bytes>)
    requires ChunksFrom(values, name, 0, chunks)
    requires name !in values || values[name] == []
    ensures Combined(values, name) == Concat(chunks)
  {
    var found := Chunks(values, name, 0);
    assert |found| == |chunks|;
    forall i | 0 <= i < |found| ensures found[i] == chunks[i] {
      assert ChunkKey(name, i) in values;
    }
    assert found == chunks;
  }

  /** A whole cookie that is not empty is taken as it is, whatever chunks there are. */
  lemma WholeCookieComesFirst(values: Jar, name: Bytes)
    requires name in values && values[name] != []
    ensures Combined(values, name) == values[name]
  {
  }

  // ------------------------------------------------------------ base names

  /** The position of the last dot, or the length of the name when there is none. */
  function LastDot(name: Bytes, n: nat): (i: nat)
    requires n <= |name|
    ensures i == |name| || (i < n && name[i] == DOT)
    ensures i == |name| ==> forall k :: 0 <= k < n ==> name[k] != DOT
    ensures i < |name| ==> forall k :: i < k < n ==> name[k] != DOT
  {
    if n == 0 then |name| else if name[n - 1] == DOT then n - 1 else LastDot(name, n - 1)
  }

  function ChunkBaseName(name: Bytes): Bytes {
    var dot := LastDot(name, |name|);
    if dot == |name| || dot == |name| - 1 || !Decimal.AllDigits(name[dot + 1..]) then name else name[..dot]
  }

  /** Every chunk leads back to the cookie it is a chunk of. */
  lemma BaseNameOfChunk(name: Bytes, index: nat)
    ensures ChunkBaseName(ChunkKey(name, index)) == name
  {
    var key, digits := ChunkKey(name, index), Decimal.Itoa(index);
    assert key[|name|] == DOT && key[|name| + 1..] == digits && key[..|name|] == name;
    assert forall k :: |name| < k < |key| ==> key[k] == digits[k - |name| - 1];
  }

  /** `key` is a numbered chunk of `name`: the name, a dot, and digits. */
  predicate IsChunk(key: Bytes, name: Bytes, digits: Bytes) {
    digits != [] && Decimal.AllDigits(digits) && key == name + "." + digits
  }

  /** And a name that is no chunk of anything is its own. */
  lemma BaseNameIs(key: Bytes)
    ensures ChunkBaseName(key) == key || exists digits :: IsChunk(key, ChunkBaseName(key), digits)
    ensures forall name, digits :: IsChunk(key, name, digits) ==> ChunkBaseName(key) == name
  {
    var dot := LastDot(key, |key|);
    var base := ChunkBaseName(key);
    if base != key {
      var digits := key[dot + 1..];
      assert key == base + "." + digits;
      assert IsChunk(key, base, digits);
    }
    forall name, digits | IsChunk(key, name, digits) ensures ChunkBaseName(key) == name {
      assert key[|name|] == DOT && key[|name| + 1..] == digits && key[..|name|] == name;
      assert forall k :: |name| < k < |key| ==> key[k] == digits[k - |name| - 1];
    }
  }

  // ------------------------------------------------------------ order of names

  /** `a` sorts no later than `b`, byte by byte. */
  predicate AtMost(a: Bytes, b: Bytes) {
    a == [] || (b != [] && (a[0] < b[0] || (a[0] == b[0] && AtMost(a[1..], b[1..]))))
  }

  /** The order is that of the first byte in which the names differ; a name comes before its continuations. */
  lemma {:induction false} AtMostIsByFirstDifference(common: Bytes, a: Bytes, b: Bytes)
    requires a == [] || b == [] || a[0] != b[0]
    ensures AtMost(common + a, common + b) <==> a == [] || (b != [] && a[0] < b[0])
  {
    if common == [] {
      assert common + a == a && common + b == b;
    } else {
      assert (common + a)[1..] == common[1..] + a && (common + b)[1..] == common[1..] + b;
      AtMostIsByFirstDifference(common[1..], a, b);
    }
  }

  lemma {:induction false} AtMostIsTotal(a: Bytes, b: Bytes)
    ensures AtMost(a, b) || AtMost(b, a)
  {
    if a != [] && b != [] && a[0] == b[0] {
      AtMostIsTotal(a[1..], b[1..]);
    }
  }

  lemma {:induction false} AtMostIsReflexive(a: Bytes)
    ensures AtMost(a, a)
  {
    if a != [] {
      AtMostIsReflexive(a[1..]);
    }
  }

  lemma {:induction false} AtMostIsTransitive(a: Bytes, b: Bytes, c: Bytes)
    requires AtMost(a, b) && AtMost(b, c)
    ensures AtMost(a, c)
  {
    if a != [] && a[0] == b[0] && b[0] == c[0] {
      AtMostIsTransitive(a[1..], b[1..], c[1..]);
    }
  }

  lemma {:induction false} AtMostIsAntisymmetric(a: Bytes, b: Bytes)
    requires AtMost(a, b) && AtMost(b, a)
    ensures a == b
  {
    if a != [] {
      AtMostIsAntisymmetric(a[1..], b[1..]);
    }
  }

  predicate SortedNames(names: seq<Bytes>) {
    forall i, j :: 0 <= i < j < |names| ==> AtMost(names[i], names[j])
  }

  /** `sort.Strings`. */
  method SortNames(names: seq<Bytes>) returns (sorted: seq<Bytes>)
    ensures SortedNames(sorted) && multiset(sorted) == multiset(names)
  {
    sorted := [];
    for i := 0 to |names|
      invariant SortedNames(sorted) && multiset(sorted) == multiset(names[..i])
    {
      sorted := InsertName(sorted, names[i]);
      assert names[..i + 1] == names[..i] + [names[i]];
    }
    assert names[..|names|] == names;
  }

  lemma InsertKeepsSorted(names: seq<Bytes>, name: Bytes, j: nat)
    requires SortedNames(names) && j <= |names|
    requires j > 0 ==> AtMost(names[j - 1], name)
    requires forall k :: j <= k < |names| ==> AtMost(name, names[k])
    ensures SortedNames(names[..j] + [name] + names[j..])
  {
    hide AtMost;
    forall k | 0 <= k < j ensures AtMost(names[k], name) {
      if k < j - 1 {
        AtMostIsTransitive(names[k], names[j - 1], name);
      }
    }
  }

  method InsertName(names: seq<Bytes>, name: Bytes) returns (sorted: seq<Bytes>)
    requires SortedNames(names)
    ensures SortedNames(sorted) && multiset(sorted) == multiset(names + [name])
  {
    hide AtMost, SortedNames;
    var j := |names|;
    while j > 0 && !AtMost(names[j - 1], name)
      invariant 0 <= j <= |names|
      invariant forall k :: j <= k < |names| ==> AtMost(name, names[k])
    {
      AtMostIsTotal(names[j - 1], name);
      j := j - 1;
    }
    sorted := names[..j] + [name] + names[j..];
    InsertKeepsSorted(names, name, j);
    assert names == names[..j] + names[j..];
  }
}
