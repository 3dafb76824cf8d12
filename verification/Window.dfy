/**
 Skip and take over buffers of rows.

 The resolved form of a window is a buffer index and a remainder at either end. It is read against the
 final mask, from which later filters may have cleared further buffers. The rows it selects are those
 rows of the naive window that lie in the buffers still set.
 */
module Window {
  import opened Query

  /* ---------------------------------------------------------------- The naive window */

  function Concat<T>(parts: seq<seq<T>>): seq<T> {
    if parts == [] then [] else parts[0] + Concat(parts[1..])
  }

  function Minus(a: nat, b: nat): nat {
    if a < b then 0 else a - b
  }

  function Least(a: nat, b: nat): nat {
    if a < b then a else b
  }

  /** The rows at positions `lo` up to but excluding `hi`, as far as they exist. */
  function Slice<T>(s: seq<T>, lo: nat, hi: nat): seq<T> {
    s[Least(lo, Least(hi, |s|))..Least(hi, |s|)]
  }

  /** Each buffer's share of the rows at positions `lo` up to `hi`. */
  function Shares<T>(parts: seq<seq<T>>, lo: nat, hi: nat): (r: seq<seq<T>>)
    ensures |r| == |parts|
  {
    if parts == [] then []
    else [Slice(parts[0], lo, hi)] + Shares(parts[1..], Minus(lo, |parts[0]|), Minus(hi, |parts[0]|))
  }

  lemma {:induction false} SliceOfConcat<T>(a: seq<T>, b: seq<T>, lo: nat, hi: nat)
    ensures Slice(a + b, lo, hi) == Slice(a, lo, hi) + Slice(b, Minus(lo, |a|), Minus(hi, |a|))
  {
    if hi <= |a| {
      SliceLeft(a, b, lo, hi);
    } else if lo <= |a| {
      SliceAcross(a, b, lo, hi);
    } else {
      SliceRight(a, b, lo, hi);
    }
  }

  lemma {:induction false} SliceLeft<T>(a: seq<T>, b: seq<T>, lo: nat, hi: nat)
    requires hi <= |a|
    ensures Slice(a + b, lo, hi) == Slice(a, lo, hi) + Slice(b, Minus(lo, |a|), Minus(hi, |a|))
  {
    assert Slice(b, Minus(lo, |a|), 0) == [];
    var start := Least(lo, hi);
    forall k | start <= k < hi ensures (a + b)[k] == a[k] {
    }
  }

  lemma {:induction false} SliceAcross<T>(a: seq<T>, b: seq<T>, lo: nat, hi: nat)
    requires lo <= |a| < hi
    ensures Slice(a + b, lo, hi) == Slice(a, lo, hi) + Slice(b, Minus(lo, |a|), Minus(hi, |a|))
  {
    var end := Least(hi, |a| + |b|);
    var left, right := a[lo..], b[..end - |a|];
    forall k | 0 <= k < end - lo ensures (a + b)[lo + k] == (left + right)[k] {
    }
    assert (a + b)[lo..end] == left + right;
  }

  lemma {:induction false} SliceRight<T>(a: seq<T>, b: seq<T>, lo: nat, hi: nat)
    requires |a| < lo && |a| < hi
    ensures Slice(a + b, lo, hi) == Slice(a, lo, hi) + Slice(b, Minus(lo, |a|), Minus(hi, |a|))
  {
    assert Slice(a, lo, hi) == [];
    var end := Least(hi, |a| + |b|);
    var start := Least(lo, end);
    var left, right := (a + b)[start..end], b[start - |a|..end - |a|];
    forall k | 0 <= k < |left| ensures left[k] == right[k] {
      assert left[k] == (a + b)[start + k] == b[start - |a| + k];
    }
    assert left == right;
  }

  /** The shares add up to the naive window. */
  lemma {:induction false} SharesAddUp<T>(parts: seq<seq<T>>, lo: nat, hi: nat)
    ensures Concat(Shares(parts, lo, hi)) == Slice(Concat(parts), lo, hi)
  {
    if parts != [] {
      SharesAddUp(parts[1..], Minus(lo, |parts[0]|), Minus(hi, |parts[0]|));
      SliceOfConcat(parts[0], Concat(parts[1..]), lo, hi);
      assert Shares(parts, lo, hi)[1..] == Shares(parts[1..], Minus(lo, |parts[0]|), Minus(hi, |parts[0]|));
    }
  }

  /* ---------------------------------------------------------------- Masks */

  predicate Within(m: seq<bool>, m0: seq<bool>) {
    |m| == |m0| && forall i :: 0 <= i < |m| && m[i] ==> m0[i]
  }

  function Lens<T>(parts: seq<seq<T>>): (c: seq<nat>)
    ensures |c| == |parts|
  {
    seq(|parts|, i requires 0 <= i < |parts| => |parts[i]|)
  }

  /** Number of items in the set buffers before position `i`. */
  function Before(counts: seq<nat>, mask: seq<bool>, i: nat): nat
    requires |counts| == |mask| && i <= |mask|
  {
    if i == 0 then 0 else (if mask[0] then counts[0] else 0) + Before(counts[1..], mask[1..], i - 1)
  }

  /** The rows of the parts whose bit is set. */
  function RowsOf<T>(mask: seq<bool>, parts: seq<seq<T>>): seq<T>
    requires |mask| == |parts|
  {
    if mask == [] then [] else (if mask[0] then parts[0] else []) + RowsOf(mask[1..], parts[1..])
  }

  /** Only the set parts matter. */
  lemma {:induction false} RowsAgree<T>(m: seq<bool>, xs: seq<seq<T>>, ys: seq<seq<T>>)
    requires |m| == |xs| == |ys| && forall i :: 0 <= i < |m| && m[i] ==> xs[i] == ys[i]
    ensures RowsOf(m, xs) == RowsOf(m, ys)
  {
    if m != [] {
      RowsAgree(m[1..], xs[1..], ys[1..]);
    }
  }

  lemma {:induction false} NoRows<T>(m: seq<bool>, xs: seq<seq<T>>)
    requires |m| == |xs| && forall i :: 0 <= i < |m| && m[i] ==> xs[i] == []
    ensures RowsOf(m, xs) == []
  {
    if m != [] {
      NoRows(m[1..], xs[1..]);
    }
  }

  /** Clearing buffers without rows changes nothing. */
  lemma {:induction false} AllRows<T>(m: seq<bool>, xs: seq<seq<T>>)
    requires |m| == |xs| && forall i :: 0 <= i < |m| && !m[i] ==> xs[i] == []
    ensures RowsOf(m, xs) == Concat(xs)
  {
    if m != [] {
      AllRows(m[1..], xs[1..]);
    }
  }

  lemma {:induction false} SharesAt<T>(parts: seq<seq<T>>, lo: nat, hi: nat, i: nat)
    requires i < |parts|
    ensures var p := Before(Lens(parts), Trues(|parts|), i);
            Shares(parts, lo, hi)[i] == Slice(parts[i], Minus(lo, p), Minus(hi, p))
  {
    if i > 0 {
      SharesAt(parts[1..], Minus(lo, |parts[0]|), Minus(hi, |parts[0]|), i - 1);
      BeforeTail(parts, i);
    }
  }

  lemma {:induction false} BeforeTail<T>(parts: seq<seq<T>>, i: nat)
    requires 0 < i <= |parts|
    ensures Before(Lens(parts), Trues(|parts|), i) == |parts[0]| + Before(Lens(parts[1..]), Trues(|parts| - 1), i - 1)
  {
    assert Lens(parts)[1..] == Lens(parts[1..]) && Trues(|parts|)[1..] == Trues(|parts| - 1);
  }

  /* ---------------------------------------------------------------- What the two walks find */

  lemma {:induction false} SkipEnds(counts: seq<nat>, mask: seq<bool>, n: nat)
    requires |counts| == |mask|
    ensures var (m, a, o) := SkipFrom(counts, mask, n);
            && (forall i :: 0 <= i < |mask| ==> m[i] == (mask[i] && i >= a))
            && n == Before(counts, mask, a) + o
            && (a < |mask| ==> mask[a] && o < counts[a])
  {
    if mask != [] && (!mask[0] || counts[0] <= n) {
      var rest := if mask[0] then n - counts[0] else n;
      SkipEnds(counts[1..], mask[1..], rest);
      var (m, a, o) := SkipFrom(counts[1..], mask[1..], rest);
      assert SkipFrom(counts, mask, n) == ([false] + m, a + 1, o);
    }
  }

  lemma {:induction false} TakeEnds(counts: seq<nat>, mask: seq<bool>, n: nat)
    requires |counts| == |mask|
    ensures var (m, l, k) := TakeFrom(counts, mask, n);
            && (forall i :: 0 <= i < |mask| ==> m[i] == (mask[i] && i <= l))
            && n == Before(counts, mask, l) + k
            && (l < |mask| ==> mask[l] && k <= counts[l])
  {
    if mask != [] && (!mask[0] || counts[0] < n) {
      var rest := if mask[0] then n - counts[0] else n;
      TakeEnds(counts[1..], mask[1..], rest);
      var (m, l, k) := TakeFrom(counts[1..], mask[1..], rest);
      assert TakeFrom(counts, mask, n) == ([mask[0]] + m, l + 1, k);
    }
  }

  /** Items before `i` when the buffers before `a` have been cleared. */
  lemma {:induction false} BeforeFrom(counts: seq<nat>, mask: seq<bool>, a: nat, i: nat)
    requires |counts| == |mask| && a <= i <= |mask|
    requires forall j :: 0 <= j < |mask| ==> mask[j] == (j >= a)
    ensures Before(counts, Trues(|mask|), i) == Before(counts, Trues(|mask|), a) + Before(counts, mask, i)
  {
    if i > 0 {
      assert Trues(|mask|)[1..] == Trues(|mask| - 1);
      BeforeFrom(counts[1..], mask[1..], Minus(a, 1), i - 1);
    }
  }

  /** Items before `i` do not depend on the buffers from `i` on. */
  lemma {:induction false} BeforeUpTo(counts: seq<nat>, mask: seq<bool>, other: seq<bool>, i: nat)
    requires |counts| == |mask| == |other| && i <= |mask|
    requires forall j :: 0 <= j < i ==> mask[j] == other[j]
    ensures Before(counts, mask, i) == Before(counts, other, i)
  {
    if i > 0 {
      BeforeUpTo(counts[1..], mask[1..], other[1..], i - 1);
    }
  }

  lemma {:induction false} BeforeStep(counts: seq<nat>, mask: seq<bool>, i: nat)
    requires |counts| == |mask| && i < |mask|
    ensures Before(counts, mask, i + 1) == Before(counts, mask, i) + if mask[i] then counts[i] else 0
  {
    if i > 0 {
      BeforeStep(counts[1..], mask[1..], i - 1);
    }
  }

  lemma {:induction false} BeforeGrows(counts: seq<nat>, mask: seq<bool>, i: nat, j: nat)
    requires |counts| == |mask| && i <= j <= |mask|
    ensures Before(counts, mask, i) <= Before(counts, mask, j)
    decreases j
  {
    if i < j {
      BeforeGrows(counts, mask, i, j - 1);
      BeforeStep(counts, mask, j - 1);
    }
  }

  /* ---------------------------------------------------------------- Reading against a smaller mask */

  /**
   The remainders mark the window `lo` up to `hi`: it begins `o` items into buffer `a` and ends after `k`
   items of buffer `l`; an index past the last buffer marks an end beyond all set buffers.
   */
  predicate Marks(counts: seq<nat>, m: seq<bool>, lo: nat, hi: nat, a: nat, o: nat, l: nat, k: nat) {
    |m| == |counts| && forall i :: 0 <= i < |m| ==> MarksAt(counts, m, i, lo, hi, a, o, l, k)
  }

  /** Buffer `i` lies outside the window if cleared, and otherwise is cut where the window ends in it. */
  predicate MarksAt(counts: seq<nat>, m: seq<bool>, i: nat, lo: nat, hi: nat, a: nat, o: nat, l: nat, k: nat)
    requires i < |m| == |counts|
  {
    var p := Before(counts, Trues(|m|), i);
    if m[i] then
      && a <= i <= l
      && (if i == a then p + o == lo && o <= counts[i] else lo <= p)
      && (if i == l then p + k == hi && k <= counts[i] else p + counts[i] <= hi)
    else p + counts[i] <= lo || hi <= p
  }

  /** The quota ends the stream where the last buffer's remainder says. */
  lemma {:induction false} QuotaSelects<T>(m: seq<bool>, parts: seq<seq<T>>, cut: seq<seq<T>>, l: nat, k: nat)
    requires |m| == |parts| == |cut| && forall i :: 0 <= i < |m| && m[i] ==>
               i <= l && cut[i] == (if i == l then First(k, parts[i]) else parts[i])
    requires l < |m| && m[l] ==> k <= |parts[l]|
    ensures First(Quota(Lens(parts), m, l, k), RowsOf(m, parts)) == RowsOf(m, cut)
  {
    if m != [] {
      assert Lens(parts)[1..] == Lens(parts[1..]);
      var rest := RowsOf(m[1..], parts[1..]);
      if l == 0 {
        NoRows(m[1..], parts[1..]);
        NoRows(m[1..], cut[1..]);
        if m[0] {
          assert RowsOf(m, parts) == parts[0] + [] && RowsOf(m, cut) == cut[0] + [];
        }
      } else {
        var quota := Quota(Lens(parts[1..]), m[1..], l - 1, k);
        QuotaSelects(m[1..], parts[1..], cut[1..], l - 1, k);
        if m[0] {
          FirstOfConcat(quota, parts[0], rest);
          assert Quota(Lens(parts), m, l, k) == |parts[0]| + quota;
        } else {
          assert Quota(Lens(parts), m, l, k) == quota;
        }
      }
    }
  }

  lemma {:induction false} FirstOfConcat<T>(q: nat, a: seq<T>, b: seq<T>)
    ensures First(|a| + q, a + b) == a + First(q, b)
  {
  }

  /** The remainder of a skip counts only while the buffer it ends in is set. */
  function At(m: seq<bool>, buffer: nat, origin: nat): nat {
    if buffer < |m| && m[buffer] then origin else 0
  }

  lemma {:induction false} DropOfConcat<T>(n: nat, a: seq<T>, b: seq<T>)
    requires n <= |a|
    ensures Drop(n, a + b) == Drop(n, a) + b
  {
  }

  /** The stream begins where the first buffer's remainder says. */
  lemma {:induction false} OriginSelects<T>(m: seq<bool>, parts: seq<seq<T>>, cut: seq<seq<T>>, a: nat, o: nat)
    requires |m| == |parts| == |cut| && forall i :: 0 <= i < |m| && m[i] ==>
               i >= a && cut[i] == (if i == a then Drop(o, parts[i]) else parts[i])
    requires a < |m| && m[a] && o > |parts[a]| ==> forall i :: a < i < |m| && m[i] ==> parts[i] == []
    ensures Drop(At(m, a, o), RowsOf(m, parts)) == RowsOf(m, cut)
  {
    if m != [] {
      if a == 0 {
        OriginHere(m, parts, cut, o);
      } else {
        OriginSelects(m[1..], parts[1..], cut[1..], a - 1, o);
        assert At(m, a, o) == At(m[1..], a - 1, o);
        assert RowsOf(m, parts) == [] + RowsOf(m[1..], parts[1..]) && RowsOf(m, cut) == [] + RowsOf(m[1..], cut[1..]);
      }
    }
  }

  lemma {:induction false} OriginHere<T>(m: seq<bool>, parts: seq<seq<T>>, cut: seq<seq<T>>, o: nat)
    requires |m| == |parts| == |cut| > 0 && (m[0] ==> cut[0] == Drop(o, parts[0]))
    requires forall i :: 0 < i < |m| && m[i] ==> cut[i] == parts[i]
    requires m[0] && o > |parts[0]| ==> forall i :: 0 < i < |m| && m[i] ==> parts[i] == []
    ensures Drop(At(m, 0, o), RowsOf(m, parts)) == RowsOf(m, cut)
  {
    RowsAgree(m[1..], parts[1..], cut[1..]);
    var rest := RowsOf(m[1..], parts[1..]);
    if m[0] {
      assert RowsOf(m, parts) == parts[0] + rest && RowsOf(m, cut) == Drop(o, parts[0]) + rest;
      if o > |parts[0]| { NoRows(m[1..], parts[1..]); } else { DropOfConcat(o, parts[0], rest); }
    } else {
      assert RowsOf(m, parts) == [] + rest == RowsOf(m, cut);
    }
  }

  /** Marked remainders select, of the naive window, the rows in the buffers still set. */
  lemma {:induction false} MarksSelect<T>(parts: seq<seq<T>>, m0: seq<bool>, m: seq<bool>, lo: nat, hi: nat, a: nat, o: nat, l: nat, k: nat)
    requires |m0| == |parts| && Marks(Lens(parts), m0, lo, hi, a, o, l, k) && Within(m, m0)
    ensures Drop(At(m, a, o), First(Quota(Lens(parts), m, l, k), RowsOf(m, parts))) == RowsOf(m, Shares(parts, lo, hi))
  {
    var ended := seq(|parts|, i requires 0 <= i < |parts| => if i == l then First(k, parts[i]) else parts[i]);
    assert forall i :: 0 <= i < |m| && m[i] ==> MarksAt(Lens(parts), m0, i, lo, hi, a, o, l, k);
    QuotaSelects(m, parts, ended, l, k);
    var cut := seq(|parts|, i requires 0 <= i < |parts| => if i == a then Drop(o, ended[i]) else ended[i]);
    OriginSelects(m, ended, cut, a, o);
    forall i | 0 <= i < |m| && m[i] ensures cut[i] == Shares(parts, lo, hi)[i] {
      SharesAt(parts, lo, hi, i);
      CutIsSlice(parts[i], Before(Lens(parts), Trues(|m|), i), lo, hi, i == a, o, i == l, k);
    }
    RowsAgree(m, cut, Shares(parts, lo, hi));
  }

  /** One buffer whose items stand at positions from `p` on, cut at the ends that fall into it. */
  lemma {:induction false} CutIsSlice<T>(part: seq<T>, p: nat, lo: nat, hi: nat, first: bool, o: nat, last: bool, k: nat)
    requires if first then p + o == lo else lo <= p
    requires if last then p + k == hi && k <= |part| else p + |part| <= hi
    ensures var ended := if last then First(k, part) else part;
            (if first then Drop(o, ended) else ended) == Slice(part, Minus(lo, p), Minus(hi, p))
  {
  }

  /** The buffers cleared by the walks hold no row of the window. */
  lemma {:induction false} MarksLoseNothing<T>(parts: seq<seq<T>>, m: seq<bool>, lo: nat, hi: nat, a: nat, o: nat, l: nat, k: nat)
    requires |m| == |parts| && Marks(Lens(parts), m, lo, hi, a, o, l, k)
    ensures forall i :: 0 <= i < |m| && !m[i] ==> Shares(parts, lo, hi)[i] == []
  {
    forall i | 0 <= i < |m| && !m[i] ensures Shares(parts, lo, hi)[i] == [] {
      assert MarksAt(Lens(parts), m, i, lo, hi, a, o, l, k);
      SharesAt(parts, lo, hi, i);
    }
  }

  /* ---------------------------------------------------------------- What each window leaves */

  /** Number of items in front of buffer `i`. */
  function Position(counts: seq<nat>, i: nat): nat
    requires i <= |counts|
  {
    Before(counts, Trues(|counts|), i)
  }

  function Total(counts: seq<nat>): nat {
    Position(counts, |counts|)
  }

  /** Positions of the buffers `i` and `j` among all items. */
  lemma {:induction false} Around(counts: seq<nat>, i: nat, j: nat)
    requires i < |counts| && j <= |counts|
    ensures Position(counts, i) + counts[i] <= Total(counts)
    ensures i < j ==> Position(counts, i) + counts[i] <= Position(counts, j)
    ensures j < i ==> Position(counts, j) + counts[j] <= Position(counts, i)
  {
    var all := Trues(|counts|);
    BeforeStep(counts, all, i);
    BeforeGrows(counts, all, i + 1, |counts|);
    if i < j { BeforeGrows(counts, all, i + 1, j); }
    if j < i { BeforeStep(counts, all, j); BeforeGrows(counts, all, j + 1, i); }
  }

  /** A skip over all buffers. */
  lemma {:induction false} SkipMarks(counts: seq<nat>, n: nat)
    ensures var (m, a, o) := SkipFrom(counts, Trues(|counts|), n);
            Marks(counts, m, n, Total(counts), a, o, |counts|, 0)
  {
    SkipEnds(counts, Trues(|counts|), n);
    var (m, a, o) := SkipFrom(counts, Trues(|counts|), n);
    forall i | 0 <= i < |m| ensures MarksAt(counts, m, i, n, Total(counts), a, o, |counts|, 0) {
      Around(counts, i, a);
    }
  }

  /** A take over all buffers. */
  lemma {:induction false} TakeMarks(counts: seq<nat>, n: nat)
    ensures var (m, l, k) := TakeFrom(counts, Trues(|counts|), n);
            Marks(counts, m, 0, Least(Total(counts), n), 0, 0, l, k)
  {
    TakeEnds(counts, Trues(|counts|), n);
    var (m, l, k) := TakeFrom(counts, Trues(|counts|), n);
    forall i | 0 <= i < |m| ensures MarksAt(counts, m, i, 0, Least(Total(counts), n), 0, 0, l, k) {
      Around(counts, i, l);
    }
  }

  /** A take over the buffers a skip has left. */
  lemma {:induction false} SkipTakeMarks(counts: seq<nat>, n: nat, t: nat)
    ensures var (m0, a, o) := SkipFrom(counts, Trues(|counts|), n); var (m, l, k) := TakeFrom(counts, m0, At(m0, a, o) + t);
            Marks(counts, m, n, Least(Total(counts), n + t), a, o, l, k)
  {
    SkipEnds(counts, Trues(|counts|), n);
    var (m0, a, o) := SkipFrom(counts, Trues(|counts|), n);
    TakeEnds(counts, m0, At(m0, a, o) + t);
    var (m, l, k) := TakeFrom(counts, m0, At(m0, a, o) + t);
    var hi := Least(Total(counts), n + t);
    forall i | 0 <= i < |m| ensures MarksAt(counts, m, i, n, hi, a, o, l, k) {
      Around(counts, i, a);
      Around(counts, i, l);
      if a < |m| { BeforeFrom(counts, m0, a, l); }
    }
  }

  /** A skip over the buffers a take has left. */
  lemma {:induction false} TakeSkipMarks(counts: seq<nat>, t: nat, n: nat)
    ensures var (m0, l, k) := TakeFrom(counts, Trues(|counts|), t); var (m, a, o) := SkipFrom(counts, m0, n);
            Marks(counts, m, n, Least(Total(counts), t), a, o, l, k)
  {
    TakeEnds(counts, Trues(|counts|), t);
    var (m0, l, k) := TakeFrom(counts, Trues(|counts|), t);
    SkipEnds(counts, m0, n);
    var (m, a, o) := SkipFrom(counts, m0, n);
    BeforeUpTo(counts, m0, Trues(|counts|), Least(a, l));
    if l < |m| && a > l { PassedLimit(counts, m0, l, a); }
    forall i | 0 <= i < |m| ensures MarksAt(counts, m, i, n, Least(Total(counts), t), a, o, l, k) {
      Around(counts, i, a);
      Around(counts, i, l);
    }
  }

  /** A skip that has passed the last buffer of a take has counted all of it. */
  lemma {:induction false} PassedLimit(counts: seq<nat>, m0: seq<bool>, l: nat, a: nat)
    requires |counts| == |m0| && l < a <= |m0| && forall i :: 0 <= i <= l ==> m0[i]
    ensures Position(counts, l) + counts[l] <= Before(counts, m0, a)
  {
    BeforeUpTo(counts, m0, Trues(|counts|), l + 1);
    BeforeGrows(counts, m0, l + 1, a);
    BeforeStep(counts, Trues(|counts|), l);
  }
}
