/**
 Interning: a stable index per distinct item, unseen items appended to what is committed.
 */
module Intern {
  import opened Prelude

  /** Position of the first occurrence of `x`. */
  function FirstIndex<T(==)>(rows: seq<T>, x: T): nat
    requires x in rows
  {
    if rows[0] == x then 0 else 1 + FirstIndex(rows[1..], x)
  }

  /** The items of `items` that neither `rows` nor an earlier item holds, in request order. */
  function Fresh<T(==)>(rows: seq<T>, items: seq<T>): seq<T> {
    if items == [] then []
    else
      var init := Fresh(rows, items[..|items| - 1]); var x := items[|items| - 1];
      if x in rows || x in init then init else init + [x]
  }

  lemma {:induction false} FreshMembers<T>(rows: seq<T>, items: seq<T>)
    ensures forall x :: x in items ==> x in rows + Fresh(rows, items)
    ensures forall x :: x in Fresh(rows, items) ==> x in items && x !in rows
    ensures forall i, j :: 0 <= i < j < |Fresh(rows, items)| ==> Fresh(rows, items)[i] != Fresh(rows, items)[j]
  {
    if items != [] {
      FreshMembers(rows, items[..|items| - 1]);
      assert items == items[..|items| - 1] + [items[|items| - 1]];
    }
  }

  lemma {:induction false} FreshGrows<T>(rows: seq<T>, items: seq<T>, k: nat)
    requires k <= |items|
    ensures Fresh(rows, items[..k]) <= Fresh(rows, items)
    decreases |items|
  {
    if k == |items| {
      assert items[..k] == items;
    } else {
      var init := items[..|items| - 1];
      FreshGrows(rows, init, k);
      assert init[..k] == items[..k];
    }
  }

  lemma {:induction false} FirstIndexPrefix<T>(rows: seq<T>, more: seq<T>, x: T)
    requires x in rows
    ensures x in rows + more && FirstIndex(rows + more, x) == FirstIndex(rows, x)
    ensures FirstIndex(rows, x) < |rows| && rows[FirstIndex(rows, x)] == x
  {
    if rows[0] != x {
      assert (rows + more)[1..] == rows[1..] + more;
      FirstIndexPrefix(rows[1..], more, x);
    }
  }

  lemma {:induction false} FirstIndexNew<T>(rows: seq<T>, x: T)
    requires x !in rows
    ensures FirstIndex(rows + [x], x) == |rows|
  {
    if rows != [] {
      assert (rows + [x])[1..] == rows[1..] + [x];
      FirstIndexNew(rows[1..], x);
    }
  }

  /** The map sends exactly the members of `rows` to their first positions. */
  ghost predicate Indexes<T(!new)>(m: map<T, nat>, rows: seq<T>) {
    && (forall x :: x in m <==> x in rows)
    && forall x :: x in m ==> m[x] == FirstIndex(rows, x)
  }

  lemma {:induction false} IndexesAppended<T(!new)>(m: map<T, nat>, rows: seq<T>, x: T)
    requires Indexes(m, rows)
    ensures Indexes(if x in rows then m else m[x := |rows|], rows + [x])
  {
    forall y | y in rows ensures FirstIndex(rows + [x], y) == FirstIndex(rows, y) {
      FirstIndexPrefix(rows, [x], y);
    }
    if x !in rows { FirstIndexNew(rows, x); }
  }

  /* ---------------------------------------------------------------- Reading the committed items */

  /** The items read, when none of them failed to. */
  function Unwrapped<T>(read: seq<Result<T>>): (rows: seq<T>)
    requires forall i :: 0 <= i < |read| ==> read[i].Ok?
    ensures |rows| == |read|
  {
    seq(|read|, i requires 0 <= i < |read| => read[i].value)
  }

  /** The first `k` items are read; the next has no index, or fails to be read. */
  predicate StopsAt<T(==)>(read: seq<Result<T>>, max: nat, k: nat, e: Error) {
    && k < |read| && k <= max + 1 && (forall i :: 0 <= i < k ==> read[i].Ok?)
    && if k == max + 1 then e == Zero else read[k] == Err(e)
  }

  /**
   Interns every committed item to its earliest position. Fails exactly when some position exceeds the
   greatest index `max` or some item fails to be read, whichever comes first.
   */
  method InternRows<T(==, !new)>(read: seq<Result<T>>, max: nat) returns (r: Result<map<T, nat>>)
    ensures r.Ok? <==> |read| <= max + 1 && forall i :: 0 <= i < |read| ==> read[i].Ok?
    ensures r.Ok? ==> Indexes(r.value, Unwrapped(read))
    ensures r.Err? ==> exists k :: StopsAt(read, max, k, r.error)
  {
    var m: map<T, nat> := map[];
    var next := Some(0);
    for i := 0 to |read|
      invariant forall k :: 0 <= k < i ==> read[k].Ok?
      invariant Indexes(m, Unwrapped(read[..i]))
      invariant next == if i <= max then Some(i) else None
      invariant i <= max + 1
    {
      if next.None? {
        assert StopsAt(read, max, i, Zero);
        return Err(Zero);
      }
      if read[i].Err? {
        assert StopsAt(read, max, i, read[i].error);
        return Err(read[i].error);
      }
      var row := read[i].value;
      IndexesAppended(m, Unwrapped(read[..i]), row);
      assert Unwrapped(read[..i + 1]) == Unwrapped(read[..i]) + [row];
      if row !in m {
        m := m[row := next.value];
      }
      next := if next.value < max then Some(next.value + 1) else None;
    }
    assert read[..|read|] == read;
    return Ok(m);
  }

  /* ---------------------------------------------------------------- Ordering the unseen items */

  predicate Ascending<T>(s: seq<(T, nat)>) {
    forall i, j :: 0 <= i < j < |s| ==> s[i].1 < s[j].1
  }

  /** Entries gathered in any order, sorted by index. */
  method SortByIndex<T(==)>(entries: seq<(T, nat)>) returns (s: seq<(T, nat)>)
    requires forall i, j :: 0 <= i < j < |entries| ==> entries[i].1 != entries[j].1
    ensures Ascending(s) && forall e :: e in s <==> e in entries
  {
    s := [];
    for k := 0 to |entries|
      invariant Ascending(s) && forall e :: e in s <==> e in entries[..k]
    {
      var e := entries[k];
      assert forall i :: 0 <= i < |s| ==> s[i].1 != e.1 by {
        forall i | 0 <= i < |s| ensures s[i].1 != e.1 {
          assert s[i] in entries[..k];
          var j :| 0 <= j < k && entries[j] == s[i];
        }
      }
      s := InsertByIndex(s, e);
      assert entries[..k + 1] == entries[..k] + [e];
    }
    assert entries[..|entries|] == entries;
  }

  method InsertByIndex<T(==)>(s: seq<(T, nat)>, e: (T, nat)) returns (r: seq<(T, nat)>)
    requires Ascending(s) && forall i :: 0 <= i < |s| ==> s[i].1 != e.1
    ensures Ascending(r) && forall x :: x in r <==> x in s || x == e
  {
    var at := 0;
    while at < |s| && s[at].1 < e.1
      invariant at <= |s| && forall i :: 0 <= i < at ==> s[i].1 < e.1
    {
      at := at + 1;
    }
    r := s[..at] + [e] + s[at..];
    Inserted(s, at, e);
  }

  lemma {:induction false} Inserted<T>(s: seq<(T, nat)>, at: nat, e: (T, nat))
    requires Ascending(s) && at <= |s| && (forall i :: 0 <= i < at ==> s[i].1 < e.1) && (at < |s| ==> e.1 < s[at].1)
    ensures Ascending(s[..at] + [e] + s[at..]) && forall x :: x in s[..at] + [e] + s[at..] <==> x in s || x == e
  {
    var r := s[..at] + [e] + s[at..];
    assert s == s[..at] + s[at..];
    forall i, j | 0 <= i < j < |r| ensures r[i].1 < r[j].1 {
      assert r[i] == if i < at then s[i] else if i == at then e else s[i - 1];
      assert r[j] == if j < at then s[j] else if j == at then e else s[j - 1];
    }
  }

  lemma {:induction false} HasMember<T(!new)>(s: seq<T>)
    requires s != []
    ensures exists x :: x in s
  {
    assert s[0] in s;
  }

  lemma {:induction false} TailMembers<T(!new)>(a: seq<(T, nat)>)
    requires a != [] && Ascending(a)
    ensures forall e: (T, nat) :: e in a[1..] <==> e in a && e != a[0]
  {
    forall e: (T, nat) | e in a[1..] ensures e in a && e != a[0] {
      var k :| 0 <= k < |a[1..]| && a[1..][k] == e;
      assert a[k + 1] == e && a[0].1 < a[k + 1].1;
    }
    forall e: (T, nat) | e in a && e != a[0] ensures e in a[1..] {
      var k :| 0 <= k < |a| && a[k] == e;
      assert a[1..][k - 1] == e;
    }
  }

  /** An ascending sequence is determined by its members. */
  lemma {:induction false} AscendingUnique<T(!new)>(a: seq<(T, nat)>, b: seq<(T, nat)>)
    requires Ascending(a) && Ascending(b) && forall e :: e in a <==> e in b
    ensures a == b
  {
    if a == [] {
      if b != [] { HasMember(b); }
    } else {
      assert a[0] in b && b != [];
      assert b[0] in a;
      var i :| 0 <= i < |b| && b[i] == a[0];
      var j :| 0 <= j < |a| && a[j] == b[0];
      assert i == 0;
      TailMembers(a);
      TailMembers(b);
      AscendingUnique(a[1..], b[1..]);
    }
  }

  lemma {:induction false} FirstIndexAt<T>(rows: seq<T>, k: nat)
    requires k < |rows| && forall i :: 0 <= i < k ==> rows[i] != rows[k]
    ensures FirstIndex(rows, rows[k]) == k
  {
    if k > 0 {
      FirstIndexAt(rows[1..], k - 1);
    }
  }

  /** Members of the map beyond the committed rows, paired with their index. */
  ghost predicate Beyond<T>(m: map<T, nat>, count: nat, e: (T, nat)) {
    e.0 in m && m[e.0] == e.1 && e.1 >= count
  }

  /** The map's entries come in no particular order. */
  method Gather<T(==)>(m: map<T, nat>, count: nat) returns (entries: seq<(T, nat)>)
    requires forall x, y :: x in m && y in m && x != y ==> m[x] != m[y]
    ensures forall e :: e in entries <==> Beyond(m, count, e)
    ensures forall i, j :: 0 <= i < j < |entries| ==> entries[i].1 != entries[j].1
  {
    entries := [];
    var keys := m.Keys;
    while keys != {}
      invariant keys <= m.Keys
      invariant forall e :: e in entries <==> Beyond(m, count, e) && e.0 !in keys
      invariant forall i, j :: 0 <= i < j < |entries| ==> entries[i].1 != entries[j].1
      decreases |keys|
    {
      var x :| x in keys;
      keys := keys - {x};
      if m[x] >= count {
        forall i | 0 <= i < |entries| ensures entries[i].1 != m[x] {
          assert entries[i] in entries;
        }
        entries := entries + [(x, m[x])];
      }
    }
  }

  /** The unseen items in index order are the fresh items in request order. */
  method Unseen<T(==, !new)>(m: map<T, nat>, count: nat, ghost rows: seq<T>, ghost added: seq<T>) returns (unseen: seq<T>)
    requires count == |rows| && Indexes(m, rows + added)
    requires forall x :: x in added ==> x !in rows
    requires forall i, j :: 0 <= i < j < |added| ==> added[i] != added[j]
    ensures unseen == added
  {
    ghost var all := rows + added;
    forall x, y | x in m && y in m && x != y ensures m[x] != m[y] {
      FirstIndexPrefix(all, [], x);
      FirstIndexPrefix(all, [], y);
    }
    var entries := Gather(m, count);
    var sorted := SortByIndex(entries);
    ghost var target := seq(|added|, k requires 0 <= k < |added| => (added[k], count + k));
    FreshEntries(m, rows, added, target);
    AscendingUnique(sorted, target);
    unseen := [];
    for k := 0 to |sorted|
      invariant unseen == added[..k]
    {
      unseen := unseen + [sorted[k].0];
    }
  }

  lemma {:induction false} FreshEntries<T(!new)>(m: map<T, nat>, rows: seq<T>, added: seq<T>, target: seq<(T, nat)>)
    requires Indexes(m, rows + added)
    requires forall x :: x in added ==> x !in rows
    requires forall i, j :: 0 <= i < j < |added| ==> added[i] != added[j]
    requires |target| == |added| && forall k :: 0 <= k < |added| ==> target[k] == (added[k], |rows| + k)
    ensures Ascending(target) && forall e :: e in target <==> Beyond(m, |rows|, e)
  {
    var all := rows + added;
    forall k | 0 <= k < |added| ensures added[k] in m && m[added[k]] == |rows| + k {
      assert all[|rows| + k] == added[k] && added[k] in added;
      FirstIndexAt(all, |rows| + k);
    }
    forall e: (T, nat) | Beyond(m, |rows|, e) ensures e in target {
      FirstIndexPrefix(all, [], e.0);
      assert all[e.1] == e.0 && target[e.1 - |rows|] == e;
    }
  }

  /* ---------------------------------------------------------------- Requests */

  /** One request more: the item is known, or it is the next fresh one. */
  lemma {:induction false} OneRequest<T>(rows: seq<T>, items: seq<T>, k: nat)
    requires k < |items|
    ensures var before, after := Fresh(rows, items[..k]), Fresh(rows, items[..k + 1]);
            && after == (if items[k] in rows + before then before else before + [items[k]])
            && |after| <= |Fresh(rows, items)|
  {
    assert items[..k + 1][..k] == items[..k];
    FreshGrows(rows, items, k + 1);
  }

  /** Assigns an index to every requested item, the next free one to an item not seen before. */
  method Assign<T(==, !new)>(ghost rows: seq<T>, count: nat, interned: map<T, nat>, items: seq<T>, max: nat) returns (r: Result<(map<T, nat>, seq<nat>)>)
    requires Indexes(interned, rows) && count == |rows| <= max + 1
    ensures r.Ok? <==> |rows| + |Fresh(rows, items)| <= max + 1
    ensures r.Ok? ==>
              var (m, out) := r.value; var all := rows + Fresh(rows, items);
              && Indexes(m, all) && |out| == |items|
              && forall k :: 0 <= k < |items| ==> items[k] in all && out[k] == FirstIndex(all, items[k])
    ensures r.Err? ==> r.error == Zero
  {
    var m: map<T, nat> := interned;
    var next := if count <= max then Some(count) else None;
    var out: seq<nat> := [];
    ghost var seen := rows;
    assert rows + Fresh(rows, items[..0]) == rows;
    for k := 0 to |items|
      invariant seen == rows + Fresh(rows, items[..k]) && Indexes(m, seen)
      invariant |seen| <= max + 1 && next == if |seen| <= max then Some(|seen|) else None
      invariant |out| == k && forall i :: 0 <= i < k ==> items[i] in m && out[i] == m[items[i]]
    {
      var x := items[k];
      OneRequest(rows, items, k);
      if x in m {
        out := out + [m[x]];
      } else {
        if next.None? {
          return Err(Zero);
        }
        IndexesAppended(m, seen, x);
        seen := seen + [x];
        assert seen == rows + Fresh(rows, items[..k + 1]);
        m, out := m[x := next.value], out + [next.value];
        next := if next.value < max then Some(next.value + 1) else None;
      }
    }
    assert items[..|items|] == items;
    return Ok((m, out));
  }

  /**
   One request over the committed items: one index per requested item, and the unseen items to commit. It
   fails exactly when a committed item fails to be read, or the greatest index cannot name every committed
   and every unseen item.
   */
  method Request<T(==, !new)>(read: seq<Result<T>>, count: nat, items: seq<T>, max: nat) returns (r: Result<(seq<T>, seq<nat>)>)
    requires count == |read|
    ensures r.Ok? <==>
              && (forall i :: 0 <= i < |read| ==> read[i].Ok?)
              && |read| + |Fresh(Unwrapped(read), items)| <= max + 1
    ensures r.Ok? ==>
              var (unseen, out) := r.value; var rows := Unwrapped(read);
              && unseen == Fresh(rows, items) && |out| == |items|
              && forall k :: 0 <= k < |items| ==> items[k] in rows + unseen && out[k] == FirstIndex(rows + unseen, items[k])
    ensures r.Err? ==> r.error == Zero || exists k :: StopsAt(read, max, k, r.error)
  {
    var interned := InternRows(read, max);
    if interned.Err? {
      return Err(interned.error);
    }
    ghost var rows := Unwrapped(read);
    var named := Assign(rows, count, interned.value, items, max);
    if named.Err? {
      return Err(named.error);
    }
    var (m, out) := named.value;
    FreshMembers(rows, items);
    var unseen := Unseen(m, count, rows, Fresh(rows, items));
    return Ok((unseen, out));
  }

  /** Items committed by one call after another. */
  function Grown<T(==)>(rows: seq<T>, calls: seq<seq<T>>): seq<T>
    decreases |calls|
  {
    if calls == [] then rows else Grown(rows + Fresh(rows, calls[0]), calls[1..])
  }

  /** Indices stay valid and unique over any sequence of calls. */
  lemma {:induction false} IndicesAreStable<T>(rows: seq<T>, calls: seq<seq<T>>, x: T)
    requires x in rows
    ensures rows <= Grown(rows, calls) && x in Grown(rows, calls)
    ensures FirstIndex(Grown(rows, calls), x) == FirstIndex(rows, x)
    ensures FirstIndex(rows, x) < |rows| && Grown(rows, calls)[FirstIndex(rows, x)] == x
    decreases |calls|
  {
    FirstIndexPrefix(rows, [], x);
    assert rows + [] == rows;
    if calls != [] {
      FirstIndexPrefix(rows, Fresh(rows, calls[0]), x);
      IndicesAreStable(rows + Fresh(rows, calls[0]), calls[1..], x);
    }
  }

  /** A dictionary that began without repetitions never holds an item twice, so equal items share one index. */
  lemma {:induction false} NoItemTwice<T>(rows: seq<T>, calls: seq<seq<T>>)
    requires forall i, j :: 0 <= i < j < |rows| ==> rows[i] != rows[j]
    ensures forall i, j :: 0 <= i < j < |Grown(rows, calls)| ==> Grown(rows, calls)[i] != Grown(rows, calls)[j]
    decreases |calls|
  {
    if calls != [] {
      var added := Fresh(rows, calls[0]);
      FreshMembers(rows, calls[0]);
      forall i, j | 0 <= i < j < |rows + added| ensures (rows + added)[i] != (rows + added)[j] {
        if i < |rows| <= j { assert added[j - |rows|] in added; }
      }
      NoItemTwice(rows + added, calls[1..]);
    }
  }

  /** Asking again for items already there commits nothing. */
  lemma {:induction false} AskingAgainIsFree<T(!new)>(rows: seq<T>, items: seq<T>)
    ensures Fresh(rows + Fresh(rows, items), items) == []
  {
    FreshMembers(rows, items);
    FreshMembers(rows + Fresh(rows, items), items);
    var again := Fresh(rows + Fresh(rows, items), items);
    assert forall x :: x in again ==> x in items && x !in rows + Fresh(rows, items);
    if again != [] { HasMember(again); }
  }
}
