/** The string pool and the class table: chained buckets that act like maps. */
module Interning {
  import opened Wrappers
  import opened Words

  const HASH_TABLE_SIZE: nat := 359
  const MAX_LENGTH: nat := 0x7ffe

  /** The length field of an array has 15 bits. */
  function ArrayLength(n: nat): nat {
    n % 0x8000
  }

  /** The length later lookups read of a string object for a text of `len` bytes: its array counts the
      final zero byte, which the 16-bit result does not. */
  function RecordedLength(len: nat): nat {
    (ArrayLength(len + 1) + 0xffff) % 0x1_0000
  }

  lemma LengthFits(len: nat)
    ensures ArrayLength(len + 1) == len + 1 <==> len <= MAX_LENGTH
  {
  }

  /** A string object is recorded with its length exactly up to the limit, and at 65535, where the field
      wraps to 0 as well. For a text one byte too long the string's length reads 65535, so no lookup finds
      it again. */
  lemma RecordedLengthIff(len: nat)
    requires len < 0x1_0000
    ensures RecordedLength(len) == len <==> len <= MAX_LENGTH || len == 0xffff
    ensures RecordedLength(MAX_LENGTH + 1) == 0xffff != MAX_LENGTH + 1
  {
    assert len >= 0x7fff && len < 0xffff ==> (len + 1) % 0x8000 == len + 1 - 0x8000;
  }

  function HashKey(t: seq<Byte>, n: nat): (key: nat)
    requires n <= |t|
    ensures key < 0x1_0000
  {
    if n == 0 then 0 else (HashKey(t, n - 1) + t[n - 1]) * 2 % 0x1_0000
  }

  lemma HashLast(t: seq<Byte>)
    requires t != []
    ensures HashKey(t, |t|) == (HashKey(t[..|t| - 1], |t| - 1) + t[|t| - 1]) * 2 % 0x1_0000
  {
    HashPrefix(t, t[..|t| - 1], |t| - 1);
  }

  function Shifted(key: nat, n: nat): nat {
    key * Pow2(n)
  }

  lemma ShiftedOnce(key: nat, n: nat)
    ensures Shifted(key, n + 1) == 2 * Shifted(key, n)
    ensures Shifted(key, 0) == key
  {
    TwiceProduct(Pow2(n), key);
  }

  /** A text counts twice for each byte behind it. */
  lemma {:induction false} HashTail(s: seq<Byte>, t: seq<Byte>)
    ensures HashKey(s + t, |s + t|) == (Shifted(HashKey(s, |s|), |t|) + HashKey(t, |t|)) % 0x1_0000
  {
    hide HashKey, Shifted;
    if t == [] {
      assert s + t == s;
      NoBytes(t);
      ShiftedOnce(HashKey(s, |s|), 0);
    } else {
      var init, b := t[..|t| - 1], t[|t| - 1];
      HashTail(s, init);
      assert (s + t)[..|s + t| - 1] == s + init;
      HashLast(s + t);
      HashLast(t);
      HashStep(Shifted(HashKey(s, |s|), |init|), HashKey(init, |init|), b);
      ShiftedOnce(HashKey(s, |s|), |init|);
    }
  }

  lemma NoBytes(t: seq<Byte>)
    ensures HashKey(t, 0) == 0
  {
  }

  /** Together with `HashTail` this is the whole key. */
  lemma HashOfByte(b: Byte)
    ensures HashKey([b], 1) == 2 * b as int
  {
    assert HashKey([b], 0) == 0;
  }

  lemma HashStep(shifted: nat, key: nat, b: Byte)
    ensures ((shifted + key) % 0x1_0000 + b) * 2 % 0x1_0000 == (2 * shifted + (key + b) * 2 % 0x1_0000) % 0x1_0000
  {
    var x, y := shifted + key, (key + b) * 2;
    assert x == 0x1_0000 * (x / 0x1_0000) + x % 0x1_0000 && y == 0x1_0000 * (y / 0x1_0000) + y % 0x1_0000;
    SameRemainder(2 * x + 2 * b, -2 * (x / 0x1_0000));
    SameRemainder(2 * shifted + y, -(y / 0x1_0000));
  }

  lemma SameRemainder(x: int, q: int)
    ensures (x + 0x1_0000 * q) % 0x1_0000 == x % 0x1_0000
  {
  }

  lemma {:induction false} HashPrefix(t: seq<Byte>, u: seq<Byte>, n: nat)
    requires n <= |u| <= |t| && t[..n] == u[..n]
    ensures HashKey(t, n) == HashKey(u, n)
  {
    if n > 0 {
      assert t[..n][..n - 1] == u[..n][..n - 1] && t[..n][n - 1] == u[..n][n - 1];
      HashPrefix(t, u, n - 1);
    }
  }

  lemma {:induction false} HashEven(t: seq<Byte>, n: nat)
    requires n <= |t|
    ensures HashKey(t, n) % 2 == 0
  {
  }

  function Hash(t: seq<Byte>): (h: nat)
    ensures h < HASH_TABLE_SIZE
  {
    HashKey(t, |t|) % HASH_TABLE_SIZE
  }

  /** Only the last fifteen bytes of a text decide its bucket. */
  lemma LongTextsShareBuckets(s: seq<Byte>, t: seq<Byte>)
    requires |t| >= 15
    ensures Hash(s + t) == Hash(t)
  {
    hide HashKey, Pow2, Shifted;
    var head, tail := t[..|t| - 15], t[|t| - 15..];
    assert t == head + tail && s + t == (s + head) + tail;
    HashTail(s + head, tail);
    HashTail(head, tail);
    ShiftedOut(s + head, HashKey(tail, 15));
    ShiftedOut(head, HashKey(tail, 15));
  }

  lemma ShiftedOut(t: seq<Byte>, key: nat)
    ensures (Shifted(HashKey(t, |t|), 15) + key) % 0x1_0000 == key % 0x1_0000
  {
    assert Pow2(15) == 0x8000 by { assert Pow2(8) == 0x100; }
    HashEven(t, |t|);
    var half := HashKey(t, |t|) / 2;
    assert HashKey(t, |t|) * 0x8000 == 0x1_0000 * half;
    SameRemainder(key, half);
  }

  /** `get_chars_hash`: the bucket and the length cut to 16 bits. */
  method GetCharsHash(t: seq<Byte>) returns (key: nat, len: nat)
    ensures key == Hash(t) && len == |t| % 0x1_0000
  {
    var k := 0;
    for i := 0 to |t|
      invariant k == HashKey(t, i)
    {
      k := (k + t[i]) * 2 % 0x1_0000;
    }
    key, len := k % HASH_TABLE_SIZE, |t| % 0x1_0000;
  }

  // ----- strings -----

  class KString {
    const bytes: seq<Byte>

    constructor (bytes: seq<Byte>)
      ensures this.bytes == bytes
    {
      this.bytes := bytes;
    }
  }

  /** A bucket's chain: strings of that bucket, no text twice, none too long for its array. */
  ghost predicate ChainOk(chain: seq<KString>, b: nat) {
    && (forall i :: 0 <= i < |chain| ==> Hash(chain[i].bytes) == b && |chain[i].bytes| <= MAX_LENGTH)
    && (forall i, j :: 0 <= i < j < |chain| ==> chain[i].bytes != chain[j].bytes)
  }

  lemma Linked(chain: seq<KString>, s: KString, b: nat)
    requires ChainOk(chain, b) && Hash(s.bytes) == b && |s.bytes| <= MAX_LENGTH
    requires forall k :: 0 <= k < |chain| ==> chain[k].bytes != s.bytes
    ensures ChainOk([s] + chain, b)
  {
  }

  lemma Unlinked(chain: seq<KString>, i: nat, b: nat)
    requires ChainOk(chain, b) && i < |chain|
    ensures ChainOk(chain[..i] + chain[i + 1..], b)
    ensures forall x :: x in chain[..i] + chain[i + 1..] <==> x in chain && x.bytes != chain[i].bytes
  {
  }

  /** The walk along a chain: lengths are compared before texts. */
  method FindText(chain: seq<KString>, t: seq<Byte>, len: nat) returns (i: nat)
    requires len == |t| % 0x1_0000 && forall k :: 0 <= k < |chain| ==> |chain[k].bytes| <= MAX_LENGTH
    ensures i <= |chain| && (i < |chain| ==> chain[i].bytes == t)
    ensures forall k :: 0 <= k < i ==> chain[k].bytes != t
  {
    i := 0;
    while i < |chain|
      invariant i <= |chain| && forall k :: 0 <= k < i ==> chain[k].bytes != t
    {
      RecordedLengthIff(|chain[i].bytes|);
      if RecordedLength(|chain[i].bytes|) == len && chain[i].bytes == t {
        return;
      }
      i := i + 1;
    }
  }

  class StringPool {
    const bucket: array<seq<KString>>
    ghost var contents: map<seq<Byte>, KString>

    ghost predicate Valid()
      reads this, bucket
    {
      && bucket.Length == HASH_TABLE_SIZE
      && (forall b :: 0 <= b < HASH_TABLE_SIZE ==> ChainOk(bucket[b], b))
      && (forall b, s :: 0 <= b < HASH_TABLE_SIZE && s in bucket[b] ==> s.bytes in contents && contents[s.bytes] == s)
      && (forall t :: t in contents ==> contents[t].bytes == t && contents[t] in bucket[Hash(t)])
    }

    constructor ()
      ensures Valid() && fresh(bucket) && contents == map[]
    {
      bucket := new seq<KString>[HASH_TABLE_SIZE](_ => []);
      contents := map[];
    }

    /** The string of a text, added if it is not there; None when it is too long for its array. */
    method Lookup(t: seq<Byte>) returns (r: Option<KString>)
      requires Valid()
      modifies this, bucket
      ensures Valid() && (r.Some? <==> |t| <= MAX_LENGTH)
      ensures r.Some? ==> contents == old(contents)[t := r.value]
      ensures r.None? || t in old(contents) ==> contents == old(contents)
      ensures r.Some? && t !in old(contents) ==> fresh(r.value)
    {
      hide Hash, ArrayLength, HashKey, RecordedLength;
      var key, len := GetCharsHash(t);
      var chain := bucket[key];
      assert ChainOk(chain, key);
      var i := FindText(chain, t, len);
      if i < |chain| {
        return Some(chain[i]);
      }
      LengthFits(len);
      if |t| != len || ArrayLength(len + 1) != len + 1 {
        return None;
      }
      var s := new KString(t);
      assert t !in contents;
      Linked(chain, s, key);
      bucket[key] := [s] + chain;
      contents := contents[t := s];
      r := Some(s);
    }

    /** `string_pool_remove`: the string with the text of `s` is unlinked. */
    method Remove(s: KString)
      requires Valid()
      modifies this, bucket
      ensures Valid() && contents == old(contents) - {s.bytes}
    {
      hide Hash;
      var key, len := GetCharsHash(s.bytes);
      var chain := bucket[key];
      assert ChainOk(chain, key);
      var i := FindText(chain, s.bytes, len);
      if i < |chain| {
        Unlinked(chain, i, key);
        bucket[key] := chain[..i] + chain[i + 1..];
        contents := contents - {s.bytes};
      }
    }

    /** Any history of lookups: the same object for equal texts, different objects for different ones. */
    method LookupAll(ts: seq<seq<Byte>>) returns (rs: seq<KString>)
      requires Valid() && forall i :: 0 <= i < |ts| ==> |ts[i]| <= MAX_LENGTH
      modifies this, bucket
      ensures Valid() && |rs| == |ts|
      ensures forall i, j :: 0 <= i < |ts| && 0 <= j < |ts| ==> (rs[i] == rs[j] <==> ts[i] == ts[j])
    {
      rs := [];
      for n := 0 to |ts|
        invariant Valid() && |rs| == n
        invariant forall i :: 0 <= i < n ==> ts[i] in contents && contents[ts[i]] == rs[i]
      {
        var r := Lookup(ts[n]);
        rs := rs + [r.value];
      }
    }
  }

  // ----- classes -----

  class LoadedClass {
    const name: KString

    constructor (name: KString)
      ensures this.name == name
    {
      this.name := name;
    }
  }

  /** Names are compared as references, so a chain has at most one class for each name object. */
  ghost predicate ClassChainOk(chain: seq<LoadedClass>, b: nat) {
    && (forall i :: 0 <= i < |chain| ==> Hash(chain[i].name.bytes) == b)
    && (forall i, j :: 0 <= i < j < |chain| ==> chain[i].name != chain[j].name)
  }

  lemma ClassUnlinked(chain: seq<LoadedClass>, i: nat, b: nat)
    requires ClassChainOk(chain, b) && i < |chain|
    ensures ClassChainOk(chain[..i] + chain[i + 1..], b)
    ensures forall x :: x in chain[..i] + chain[i + 1..] <==> x in chain && x.name != chain[i].name
  {
  }

  class ClassTable {
    const bucket: array<seq<LoadedClass>>
    ghost var contents: map<KString, LoadedClass>

    ghost predicate Valid()
      reads this, bucket
    {
      && bucket.Length == HASH_TABLE_SIZE
      && (forall b :: 0 <= b < HASH_TABLE_SIZE ==> ClassChainOk(bucket[b], b))
      && (forall b, c :: 0 <= b < HASH_TABLE_SIZE && c in bucket[b] ==> c.name in contents && contents[c.name] == c)
      && (forall n :: n in contents ==> contents[n].name == n && contents[n] in bucket[Hash(n.bytes)])
    }

    constructor ()
      ensures Valid() && fresh(bucket) && contents == map[]
    {
      bucket := new seq<LoadedClass>[HASH_TABLE_SIZE](_ => []);
      contents := map[];
    }

    /** The walk along a chain all three operations make. */
    method Find(chain: seq<LoadedClass>, name: KString) returns (i: nat)
      ensures i <= |chain| && (i < |chain| ==> chain[i].name == name)
      ensures forall k :: 0 <= k < i ==> chain[k].name != name
    {
      i := 0;
      while i < |chain| && chain[i].name != name
        invariant i <= |chain| && forall k :: 0 <= k < i ==> chain[k].name != name
      {
        i := i + 1;
      }
    }

    method Search(name: KString) returns (r: Option<LoadedClass>)
      requires Valid()
      ensures r == if name in contents then Some(contents[name]) else None
    {
      hide Hash;
      var key, _ := GetCharsHash(name.bytes);
      var i := Find(bucket[key], name);
      r := if i < |bucket[key]| then Some(bucket[key][i]) else None;
    }

    /** The first class inserted under a name stays. */
    method Insert(c: LoadedClass)
      requires Valid()
      modifies this, bucket
      ensures Valid() && contents == if c.name in old(contents) then old(contents) else old(contents)[c.name := c]
    {
      hide Hash;
      var key, _ := GetCharsHash(c.name.bytes);
      var chain := bucket[key];
      assert ClassChainOk(chain, key);
      var i := Find(chain, c.name);
      if i < |chain| {
        return;
      }
      assert c.name !in contents;
      bucket[key] := [c] + chain;
      contents := contents[c.name := c];
    }

    /** Whatever class is there under the name of `c` is unlinked. */
    method Remove(c: LoadedClass)
      requires Valid()
      modifies this, bucket
      ensures Valid() && contents == old(contents) - {c.name}
    {
      hide Hash;
      var key, _ := GetCharsHash(c.name.bytes);
      var chain := bucket[key];
      assert ClassChainOk(chain, key);
      var i := Find(chain, c.name);
      if i < |chain| {
        ClassUnlinked(chain, i, key);
        bucket[key] := chain[..i] + chain[i + 1..];
        contents := contents - {c.name};
      }
    }
  }
}
