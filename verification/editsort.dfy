/** Ordering the edit buffer for the merge. The buffer is sorted descending
    with `std::greater`, so that `back()` is the edit with the smallest chunk
    coordinate; popping from the back then consumes the ascending order.
    The sort here is stable: among edits sharing a chunk coordinate the
    ascending order keeps insertion order, so the last inserted edit is
    applied last. */
module EditSort {
  import opened Coords
  import opened ChunkOrder
  import opened Records

  /** Non-decreasing in the canonical order of chunk coordinates. */
  predicate Ascending(es: seq<Edit>) {
    forall i, j :: 0 <= i < j < |es| ==> !Less(es[j].cpos, es[i].cpos)
  }

  /** Places `x` after every element of `s` that is not greater than it. */
  function Insert(s: seq<Edit>, x: Edit): (r: seq<Edit>)
    ensures multiset(r) == multiset(s) + multiset{x}
  {
    if s == [] then [x]
    else if Less(x.cpos, s[|s| - 1].cpos) then
      assert s == s[..|s| - 1] + [s[|s| - 1]];
      Insert(s[..|s| - 1], x) + [s[|s| - 1]]
    else s + [x]
  }

  /** Stable insertion sort into ascending canonical order, taking the
      buffer's elements in insertion order. */
  function SortAsc(b: seq<Edit>): (r: seq<Edit>)
    ensures multiset(r) == multiset(b)
  {
    if b == [] then []
    else
      assert b == b[..|b| - 1] + [b[|b| - 1]];
      Insert(SortAsc(b[..|b| - 1]), b[|b| - 1])
  }

  function Reverse(s: seq<Edit>): (r: seq<Edit>)
    ensures |r| == |s|
    ensures forall k {:trigger r[k]} :: 0 <= k < |s| ==> r[k] == s[|s| - 1 - k]
  {
    if s == [] then [] else Reverse(s[1..]) + [s[0]]
  }

  /** Popping the back of a reversed sequence takes its first element. */
  lemma ReversePop(s: seq<Edit>)
    requires s != []
    ensures Reverse(s)[|s| - 1] == s[0]
    ensures Reverse(s)[..|s| - 1] == Reverse(s[1..])
  {
    assert Reverse(s) == Reverse(s[1..]) + [s[0]];
  }

  /** The buffer after `std::sort(..., std::greater<bufferObject>())`: a
      permutation of the buffer that is sorted with respect to `operator>`. */
  function SortForMerge(b: seq<Edit>): (r: seq<Edit>)
    ensures multiset(r) == multiset(b)
    ensures forall i, j :: 0 <= i < j < |r| ==> !Greater(r[j].cpos, r[i].cpos)
  {
    SortAscAscending(b);
    ReverseDescending(SortAsc(b));
    ReverseMultiset(SortAsc(b));
    Reverse(SortAsc(b))
  }

  /** Reversing an ascending sequence gives one sorted for `operator>`. */
  lemma ReverseDescending(asc: seq<Edit>)
    requires Ascending(asc)
    ensures forall i, j :: 0 <= i < j < |Reverse(asc)| ==> !Greater(Reverse(asc)[j].cpos, Reverse(asc)[i].cpos)
  {
    var r := Reverse(asc);
    forall i, j | 0 <= i < j < |r|
      ensures !Greater(r[j].cpos, r[i].cpos)
    {
      GreaterIsConverse(r[j].cpos, r[i].cpos);
      assert r[j] == asc[|asc| - 1 - j] && r[i] == asc[|asc| - 1 - i];
    }
  }

  lemma {:induction false} ReverseMultiset(s: seq<Edit>)
    ensures multiset(Reverse(s)) == multiset(s)
  {
    if s != [] {
      ReverseMultiset(s[1..]);
      assert s == [s[0]] + s[1..];
    }
  }

  /** An upper bound of `s` and of `x` bounds the result of the insertion. */
  lemma {:induction false} InsertKeepsBound(s: seq<Edit>, x: Edit, u: Vec3)
    requires forall m :: 0 <= m < |s| ==> !Less(u, s[m].cpos)
    requires !Less(u, x.cpos)
    ensures forall k :: 0 <= k < |Insert(s, x)| ==> !Less(u, Insert(s, x)[k].cpos)
  {
    if s != [] && Less(x.cpos, s[|s| - 1].cpos) {
      InsertKeepsBound(s[..|s| - 1], x, u);
    }
  }

  /** Inserting into an ascending sequence gives an ascending sequence. */
  lemma {:induction false} InsertAscending(s: seq<Edit>, x: Edit)
    requires Ascending(s)
    ensures Ascending(Insert(s, x))
  {
    if s != [] {
      var last := s[|s| - 1];
      if Less(x.cpos, last.cpos) {
        var init := s[..|s| - 1];
        InsertAscending(init, x);
        LessIsStrictOrder(x.cpos, last.cpos, last.cpos);
        InsertKeepsBound(init, x, last.cpos);
        var ins := Insert(init, x);
        assert Insert(s, x) == ins + [last];
      } else {
        forall k | 0 <= k < |s|
          ensures !Less(x.cpos, s[k].cpos)
        {
          if Less(x.cpos, s[k].cpos) {
            NotAfterThenBefore(x.cpos, s[k].cpos, last.cpos);
          }
        }
      }
    }
  }

  /** The sorted buffer is in ascending canonical order. */
  lemma {:induction false} SortAscAscending(b: seq<Edit>)
    ensures Ascending(SortAsc(b))
  {
    if b != [] {
      SortAscAscending(b[..|b| - 1]);
      InsertAscending(SortAsc(b[..|b| - 1]), b[|b| - 1]);
    }
  }

  /** The edits of `es` that target chunk `p`, in their order in `es`. */
  function Filter(es: seq<Edit>, p: Vec3): seq<Edit> {
    if es == [] then []
    else (if es[0].cpos == p then [es[0]] else []) + Filter(es[1..], p)
  }

  lemma {:induction false} FilterConcat(a: seq<Edit>, b: seq<Edit>, p: Vec3)
    ensures Filter(a + b, p) == Filter(a, p) + Filter(b, p)
  {
    if a != [] {
      assert (a + b)[1..] == a[1..] + b;
      FilterConcat(a[1..], b, p);
    } else {
      assert a + b == b;
    }
  }

  /** Insertion keeps the relative order of the edits of each chunk and puts
      `x` after those of its own chunk. */
  lemma {:induction false} InsertStable(s: seq<Edit>, x: Edit, p: Vec3)
    ensures Filter(Insert(s, x), p) == Filter(s, p) + Filter([x], p)
  {
    if s == [] {
    } else if Less(x.cpos, s[|s| - 1].cpos) {
      var init, last := s[..|s| - 1], s[|s| - 1];
      assert s == init + [last];
      InsertStable(init, x, p);
      FilterConcat(Insert(init, x), [last], p);
      FilterConcat(init, [last], p);
      LessIsStrictOrder(x.cpos, last.cpos, last.cpos);
      assert Filter([x], p) == [] || Filter([last], p) == [];
    } else {
      FilterConcat(s, [x], p);
    }
  }

  /** The sort is stable: for every chunk coordinate, the edits targeting it
      keep their insertion order. */
  lemma {:induction false} SortAscStable(b: seq<Edit>, p: Vec3)
    ensures Filter(SortAsc(b), p) == Filter(b, p)
  {
    if b != [] {
      var init, last := b[..|b| - 1], b[|b| - 1];
      assert b == init + [last];
      SortAscStable(init, p);
      InsertStable(SortAsc(init), last, p);
      FilterConcat(init, [last], p);
    }
  }
}
