/** The table of interfaces a class implements: collected from its parts, then freed of duplicates. */
module InterfaceTable {
  import opened Wrappers
  import opened Hierarchy

  // ----- the duplicate elimination, on the live part of the table -----

  /** Where the downward search for an entry other than `x` stops; -1 when it runs out of the table. */
  function LastOther<T(==)>(t: seq<T>, x: T): (k: int)
    ensures -1 <= k < |t|
    ensures k >= 0 ==> t[k] != x
    ensures forall i :: k < i < |t| ==> t[i] == x
  {
    if t == [] then -1 else if t[|t| - 1] != x then |t| - 1 else LastOther(t[..|t| - 1], x)
  }

  /** What is left of the live entries when the duplicate at `j` is replaced by the entry at `k`. */
  function Shrink<T>(t: seq<T>, j: nat, k: nat): seq<T>
    requires k < |t|
  {
    if j < k then t[..k][j := t[k]] else t[..k]
  }

  /** The nested loops from indices `i` and `j` on; None when they read before the table. */
  function Dedup<T(==)>(t: seq<T>, i: nat, j: nat): (r: Option<seq<T>>)
    requires i < j
    decreases |t|, |t| - i, |t| - j
  {
    if i >= |t| then Some(t)
    else if j >= |t| then Dedup(t, i + 1, i + 2)
    else if t[i] != t[j] then Dedup(t, i, j + 1)
    else
      var k := LastOther(t, t[j]);
      if k < 0 then None else Dedup(Shrink(t, j, k), i, j + 1)
  }

  /** At every duplicate met, an entry other than it is still above it; or else the search stops between
      `i` and the duplicate, at an entry that occurs once more behind `i`. */
  predicate Keeps<T(==)>(t: seq<T>, i: nat, j: nat)
    requires i < j
    decreases |t|, |t| - i, |t| - j
  {
    if i >= |t| then true
    else if j >= |t| then Keeps(t, i + 1, i + 2)
    else if t[i] != t[j] then Keeps(t, i, j + 1)
    else
      var k := LastOther(t, t[j]);
      k >= 0 && (k > j || (k > i && t[k] in t[i + 1..k])) && Keeps(Shrink(t, j, k), i, j + 1)
  }

  function Elems<T>(t: seq<T>): set<T> {
    set x | x in t
  }

  ghost predicate NoDuplicates<T>(t: seq<T>) {
    forall a, b :: 0 <= a < b < |t| ==> t[a] != t[b]
  }

  /** Entries before `i` occur once, and the entry at `i` does not occur again before `j`. */
  ghost predicate Cleared<T>(t: seq<T>, i: nat, j: nat) {
    && (forall a, b :: 0 <= a < b < |t| && a < i ==> t[a] != t[b])
    && (forall b :: i < b < |t| && b < j ==> t[i] != t[b])
  }

  lemma {:induction false} DedupClears<T>(t: seq<T>, i: nat, j: nat)
    requires i < j && Cleared(t, i, j)
    ensures Dedup(t, i, j).Some? ==> NoDuplicates(Dedup(t, i, j).value)
    decreases |t|, |t| - i, |t| - j
  {
    if i >= |t| {
    } else if j >= |t| {
      DedupClears(t, i + 1, i + 2);
    } else if t[i] != t[j] {
      DedupClears(t, i, j + 1);
    } else {
      var k := LastOther(t, t[j]);
      if k >= 0 {
        DedupClears(Shrink(t, j, k), i, j + 1);
      }
    }
  }

  lemma ShrinkElems<T>(t: seq<T>, i: nat, j: nat)
    requires i < j < |t| && t[i] == t[j] && LastOther(t, t[j]) >= 0 && Cleared(t, i, j)
    ensures var k := LastOther(t, t[j]);
            && Cleared(Shrink(t, j, k), i, j + 1)
            && Elems(Shrink(t, j, k)) <= Elems(t)
            && (Elems(Shrink(t, j, k)) == Elems(t) <==> k > j || (k > i && t[k] in t[i + 1..k]))
  {
    var k := LastOther(t, t[j]);
    var s := Shrink(t, j, k);
    ShrinkCleared(t, i, j);
    if k > j {
      forall x | x in t ensures x in s {
        var n :| 0 <= n < |t| && t[n] == x;
        assert s[j] == t[k] && s[i] == t[i];
        assert n < k && n != j ==> s[n] == x;
      }
      assert forall x :: x in s ==> x in t;
    } else if k > i && t[k] in t[i + 1..k] {
      forall x | x in t ensures x in s {
        var n :| 0 <= n < |t| && t[n] == x;
        assert s[i] == t[i];
        assert n < k ==> s[n] == x;
        assert n == k ==> x in t[i + 1..k];
      }
    } else {
      LostAt(t, i, j);
      assert t[k] in Elems(t) && t[k] !in Elems(s);
    }
  }

  lemma ShrinkCleared<T>(t: seq<T>, i: nat, j: nat)
    requires i < j < |t| && t[i] == t[j] && LastOther(t, t[j]) >= 0 && Cleared(t, i, j)
    ensures Cleared(Shrink(t, j, LastOther(t, t[j])), i, j + 1)
  {
  }

  /** The search stopped at an entry that occurs nowhere below it. */
  lemma LostAt<T>(t: seq<T>, i: nat, j: nat)
    requires i < j < |t| && t[i] == t[j] && Cleared(t, i, j)
    requires var k := LastOther(t, t[j]); 0 <= k <= j && !(k > i && t[k] in t[i + 1..k])
    ensures t[LastOther(t, t[j])] !in t[..LastOther(t, t[j])]
  {
    var k := LastOther(t, t[j]);
    forall n | 0 <= n < k ensures t[n] != t[k] {
      if i < n {
        assert t[i + 1..k][n - i - 1] == t[n];
      }
    }
  }

  lemma {:induction false} DedupElems<T>(t: seq<T>, i: nat, j: nat)
    requires i < j && Cleared(t, i, j)
    ensures Dedup(t, i, j).Some? ==> Elems(Dedup(t, i, j).value) <= Elems(t)
    ensures (Dedup(t, i, j).Some? && Elems(Dedup(t, i, j).value) == Elems(t)) <==> Keeps(t, i, j)
    decreases |t|, |t| - i, |t| - j
  {
    hide Elems;
    if i >= |t| {
    } else if j >= |t| {
      DedupElems(t, i + 1, i + 2);
    } else if t[i] != t[j] {
      DedupElems(t, i, j + 1);
    } else {
      var k := LastOther(t, t[j]);
      if k >= 0 {
        ShrinkElems(t, i, j);
        DedupElems(Shrink(t, j, k), i, j + 1);
      }
    }
  }

  /** The elimination gives a table with the same interfaces and no duplicate exactly when `Keeps`
      holds; whatever it gives has no duplicate. */
  lemma DedupExactIff<T>(t: seq<T>)
    ensures (Dedup(t, 0, 1).Some? && Elems(Dedup(t, 0, 1).value) == Elems(t)) <==> Keeps(t, 0, 1)
    ensures Dedup(t, 0, 1).Some? ==> NoDuplicates(Dedup(t, 0, 1).value)
  {
    DedupElems(t, 0, 1);
    DedupClears(t, 0, 1);
  }

  /** A table without duplicates is left as it is. */
  lemma {:induction false} DedupIdentity<T>(t: seq<T>, i: nat, j: nat)
    requires i < j && NoDuplicates(t)
    ensures Dedup(t, i, j) == Some(t) && Keeps(t, i, j)
    decreases |t| - i, |t| - j
  {
    if i >= |t| {
    } else if j >= |t| {
      DedupIdentity(t, i + 1, i + 2);
    } else {
      DedupIdentity(t, i, j + 1);
    }
  }

  /** Two tables the elimination spoils: one loses all its interfaces, one reads before the table. */
  lemma DedupSpoils<T>(a: T, b: T)
    requires a != b
    ensures Dedup([a, b, b], 0, 1) == Some([]) && Dedup([a, a], 0, 1) == None
  {
    var t := [a, b, b];
    assert t[..2] == [a, b] && [a, b][..1] == [a];
    assert LastOther(t, b) == LastOther([a, b], b) == LastOther([a], b) == 0;
    assert t[..0] == [];
    assert Dedup(t, 0, 1) == Dedup(t, 0, 2) == Dedup(t, 0, 3) == Dedup(t, 1, 2) == Dedup([], 1, 3) == Some([]);
    assert [a, a][..1] == [a] && LastOther([a], a) == -1;
  }

  /** The innermost loop: down from the last entry over the entries equal to `x`. */
  method SearchDown<T(==)>(table: array<T>, last: nat, x: T) returns (k: int)
    requires last <= table.Length
    ensures k == LastOther(table[..last], x)
  {
    k := last - 1;
    ghost var live := table[..last];
    while k >= 0 && table[k] == x
      invariant -1 <= k < last
      invariant LastOther(live[..k + 1], x) == LastOther(live, x)
    {
      assert live[..k + 1][..k] == live[..k];
      k := k - 1;
    }
  }

  method ReplaceDuplicate<T(==)>(table: array<T>, j: nat, last: nat) returns (k: int)
    requires j < last <= table.Length
    modifies table
    ensures k == LastOther(old(table[..last]), old(table[j]))
    ensures k >= 0 ==> table[..k] == Shrink(old(table[..last]), j, k)
  {
    k := SearchDown(table, last, table[j]);
    if k >= 0 && j != k {
      table[j] := table[k];
    }
  }

  /** One turn of the outer loop. */
  method ClearEntry<T(==)>(table: array<T>, i: nat, from: nat) returns (ok: bool, last: nat)
    requires i < from <= table.Length
    modifies table
    ensures ok ==> last <= from && Dedup(table[..last], i + 1, i + 2) == Dedup(old(table[..from]), i, i + 1)
    ensures !ok ==> Dedup(old(table[..from]), i, i + 1) == None
  {
    hide Shrink;
    last := from;
    ghost var want := Dedup(table[..from], i, i + 1);
    var j := i + 1;
    while j < last
      invariant i < j && last <= from && (last == from ==> i < last)
      invariant Dedup(table[..last], i, j) == want
    {
      if table[i] == table[j] {
        var k := ReplaceDuplicate(table, j, last);
        if k < 0 {
          return false, 0;
        }
        last := k;
      }
      j := j + 1;
    }
    ok := true;
  }

  /** The loops in place; `ok` is false when they would read before the table. */
  method EliminateDuplicates<T(==)>(table: array<T>) returns (ok: bool, last: nat)
    modifies table
    ensures last <= table.Length
    ensures (if ok then Some(table[..last]) else None) == Dedup(old(table[..]), 0, 1)
  {
    last := table.Length;
    ghost var all := table[..];
    assert table[..last] == all;
    var i := 0;
    while i < last
      invariant last <= table.Length
      invariant Dedup(table[..last], i, i + 1) == Dedup(all, 0, 1)
      decreases table.Length - i
    {
      ok, last := ClearEntry(table, i, last);
      if !ok {
        return false, 0;
      }
      i := i + 1;
    }
    ok := true;
  }
}
