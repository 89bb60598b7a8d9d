/** The `etl::type_list` algebra of the Embedded Template Library, as values.

    A list `etl::type_list<T0, ..., Tn>` is a `seq<T>` whose elements are
    opaque type tokens compared only for identity; each `etl::type_list_*`
    metafunction is a function on such sequences. A `static_assert` inside a
    metafunction becomes a `requires`. A predicate template such as
    `is_type_b<T>` is a `T -> bool`, and a comparator template such as
    `by_ascending_id<T1, T2>` is a `(T, T) -> bool` meaning "T1 goes before T2".
 */
module TypeList {

  /** The value of `type_list_index_of_type`: a position, or `type_list_npos`. */
  datatype Index = At(pos: nat) | NPos

  ghost predicate StrictlyIncreasing(s: seq<nat>) {
    forall i, j :: 0 <= i < j < |s| ==> s[i] < s[j]
  }

  /** A comparator that never orders both `a` before `b` and `b` before `a`. */
  ghost predicate Asymmetric<T(!new)>(less: (T, T) -> bool) {
    forall a, b :: less(a, b) ==> !less(b, a)
  }

  // ---------------------------------------------------------------------------
  // Size, concatenation, indexing and selection
  // ---------------------------------------------------------------------------

  /** `type_list_size`: the number of types in the list. */
  function Size<T>(l: seq<T>): nat {
    |l|
  }

  /** `type_list_is_empty`. */
  predicate IsEmpty<T>(l: seq<T>) {
    l == []
  }

  /** Sum of the sizes of a pack of lists. */
  function SumSizes<T>(ls: seq<seq<T>>): nat {
    if ls == [] then 0 else Size(ls[0]) + SumSizes(ls[1..])
  }

  /** `type_list_cat<TLists...>`: the elements of every list of the pack,
      one list after the other, in argument order. */
  function Cat<T>(ls: seq<seq<T>>): (r: seq<T>)
    ensures Size(r) == SumSizes(ls)
  {
    if ls == [] then [] else ls[0] + Cat(ls[1..])
  }

  /** `type_list_type_at_index<L, i>`: the type at position `i`; the index
      must be in range. */
  function TypeAtIndex<T>(l: seq<T>, i: nat): (r: T)
    requires i < |l|
    ensures r == l[i]
  {
    if i == 0 then l[0] else TypeAtIndex(l[1..], i - 1)
  }

  /** `type_list_select<L, Indices...>`: the types at the given positions, in
      the order the positions are given (repetitions allowed). */
  function Select<T>(l: seq<T>, indices: seq<nat>): (r: seq<T>)
    requires forall k :: 0 <= k < |indices| ==> indices[k] < |l|
    ensures |r| == |indices|
    ensures forall k :: 0 <= k < |r| ==> r[k] == TypeAtIndex(l, indices[k])
  {
    if indices == [] then [] else [TypeAtIndex(l, indices[0])] + Select(l, indices[1..])
  }

  // ---------------------------------------------------------------------------
  // Membership and counting
  // ---------------------------------------------------------------------------

  /** `type_list_contains<L, T>`. */
  function Contains<T(==)>(l: seq<T>, t: T): (b: bool)
    ensures b <==> t in l
  {
    l != [] && (l[0] == t || Contains(l[1..], t))
  }

  /** `type_list_count_of<L, T>`: how many times `t` occurs. */
  function CountOf<T(==)>(l: seq<T>, t: T): (n: nat)
    ensures n <= |l|
    ensures n == multiset(l)[t]
  {
    if l == [] then 0
    else
      assert l == [l[0]] + l[1..];
      (if l[0] == t then 1 else 0) + CountOf(l[1..], t)
  }

  /** `type_list_has_duplicates_of<L, T>`: `t` occurs more than once. */
  function HasDuplicatesOf<T(==)>(l: seq<T>, t: T): bool {
    l != [] && (if l[0] == t then Contains(l[1..], t) else HasDuplicatesOf(l[1..], t))
  }

  /** `type_list_index_of_type<L, T>`: the first position of `t`, or `NPos`. */
  function IndexOf<T(==)>(l: seq<T>, t: T): (r: Index)
    ensures r == NPos <==> t !in l
    ensures r.At? ==> r.pos < |l| && l[r.pos] == t
    ensures r.At? ==> forall j :: 0 <= j < r.pos ==> l[j] != t
  {
    if l == [] then NPos
    else if l[0] == t then At(0)
    else match IndexOf(l[1..], t)
      case NPos => NPos
      case At(p) => At(p + 1)
  }

  /** The positions of `t` in `l` from position `from` on, in increasing order. */
  function IndicesFrom<T(==)>(l: seq<T>, t: T, from: nat): (r: seq<nat>)
    requires from <= |l|
    ensures StrictlyIncreasing(r)
    ensures forall k :: 0 <= k < |r| ==> from <= r[k] < |l| && l[r[k]] == t
    ensures forall k :: from <= k < |l| && l[k] == t ==> k in r
    decreases |l| - from
  {
    if from == |l| then []
    else if l[from] == t then [from] + IndicesFrom(l, t, from + 1)
    else IndicesFrom(l, t, from + 1)
  }

  /** `type_list_indices_of_type<L, T>`: the index sequence of every position
      that holds `t`. */
  function IndicesOf<T(==)>(l: seq<T>, t: T): (r: seq<nat>)
    ensures StrictlyIncreasing(r)
    ensures forall k :: 0 <= k < |r| ==> r[k] < |l| && l[r[k]] == t
    ensures forall k :: 0 <= k < |l| && l[k] == t ==> k in r
  {
    IndicesFrom(l, t, 0)
  }

  // ---------------------------------------------------------------------------
  // Insertion and removal
  // ---------------------------------------------------------------------------

  /** `type_list_insert<L, T, i>`: `t` placed at position `i`, where
      `0 <= i <= size`. */
  function Insert<T>(l: seq<T>, t: T, i: nat): (r: seq<T>)
    requires i <= |l|
    ensures |r| == |l| + 1
    ensures r[i] == t
    ensures r[..i] == l[..i] && r[i + 1..] == l[i..]
  {
    if i == 0 then [t] + l else [l[0]] + Insert(l[1..], t, i - 1)
  }

  /** `type_list_push_front<L, T>`. */
  function PushFront<T>(l: seq<T>, t: T): seq<T> {
    [t] + l
  }

  /** `type_list_push_back<L, T>`. */
  function PushBack<T>(l: seq<T>, t: T): seq<T> {
    l + [t]
  }

  /** `type_list_remove<L, i>`: the list without its element at position `i`;
      an empty list or an index out of range is a compile-time error. */
  function Remove<T>(l: seq<T>, i: nat): (r: seq<T>)
    requires i < |l|
    ensures |r| == |l| - 1
    ensures r[..i] == l[..i] && r[i..] == l[i + 1..]
  {
    if i == 0 then l[1..] else [l[0]] + Remove(l[1..], i - 1)
  }

  /** `type_list_pop_front<L>`; the empty list is a compile-time error. */
  function PopFront<T>(l: seq<T>): seq<T>
    requires l != []
  {
    l[1..]
  }

  /** `type_list_pop_back<L>`; the empty list is a compile-time error. */
  function PopBack<T>(l: seq<T>): seq<T>
    requires l != []
  {
    l[..|l| - 1]
  }

  /** `type_list_remove_if<L, Pred>`: the elements for which `pred` is false. */
  function RemoveIf<T(==)>(l: seq<T>, pred: T -> bool): (r: seq<T>)
    ensures |r| <= |l|
    ensures forall k :: 0 <= k < |r| ==> r[k] in l && !pred(r[k])
    ensures forall k :: 0 <= k < |l| && !pred(l[k]) ==> l[k] in r
  {
    if l == [] then []
    else (if pred(l[0]) then [] else [l[0]]) + RemoveIf(l[1..], pred)
  }

  // ---------------------------------------------------------------------------
  // Quantified predicates
  // ---------------------------------------------------------------------------

  /** `type_list_all_of<L, Pred>`. */
  function AllOf<T>(l: seq<T>, pred: T -> bool): (b: bool)
    ensures b <==> forall k :: 0 <= k < |l| ==> pred(l[k])
  {
    l == [] || (pred(l[0]) && AllOf(l[1..], pred))
  }

  /** `type_list_any_of<L, Pred>`. */
  function AnyOf<T>(l: seq<T>, pred: T -> bool): (b: bool)
    ensures b <==> exists k :: 0 <= k < |l| && pred(l[k])
  {
    l != [] && (pred(l[0]) || AnyOf(l[1..], pred))
  }

  /** `type_list_none_of<L, Pred>`. */
  function NoneOf<T>(l: seq<T>, pred: T -> bool): (b: bool)
    ensures b <==> forall k :: 0 <= k < |l| ==> !pred(l[k])
  {
    l == [] || (!pred(l[0]) && NoneOf(l[1..], pred))
  }

  // ---------------------------------------------------------------------------
  // Sorting
  // ---------------------------------------------------------------------------

  /** `type_list_is_sorted<L, Compare>`: no element goes strictly before the
      element in front of it. */
  function IsSorted<T>(l: seq<T>, less: (T, T) -> bool): (b: bool)
    ensures b <==> forall k :: 0 <= k < |l| - 1 ==> !less(l[k + 1], l[k])
  {
    |l| < 2 || (!less(l[1], l[0]) && IsSorted(l[1..], less))
  }

  /** `type_list_insert_sorted<L, T, Compare>`: `t` goes in front of the first
      element it is ordered before, or at the end. */
  function InsertSorted<T(==)>(l: seq<T>, t: T, less: (T, T) -> bool): (r: seq<T>)
    ensures |r| == |l| + 1
    ensures multiset(r) == multiset(l) + multiset{t}
  {
    if l == [] || less(t, l[0]) then [t] + l
    else
      assert l == [l[0]] + l[1..];
      [l[0]] + InsertSorted(l[1..], t, less)
  }

  /** The position at which `InsertSorted` places `t`. */
  function InsertSortedPosition<T>(l: seq<T>, t: T, less: (T, T) -> bool): (p: nat)
    ensures p <= |l|
    ensures forall k :: 0 <= k < p ==> !less(t, l[k])
    ensures p < |l| ==> less(t, l[p])
  {
    if l == [] || less(t, l[0]) then 0 else 1 + InsertSortedPosition(l[1..], t, less)
  }

  /** `type_list_sort<L, Compare>`: insertion sort, inserting the head into
      the sorted tail. */
  function Sort<T(==)>(l: seq<T>, less: (T, T) -> bool): (r: seq<T>)
    ensures |r| == |l|
    ensures multiset(r) == multiset(l)
    ensures |l| <= 1 ==> r == l
  {
    if l == [] then []
    else
      assert l == [l[0]] + l[1..];
      InsertSorted(Sort(l[1..], less), l[0], less)
  }

  // ---------------------------------------------------------------------------
  // Uniqueness
  // ---------------------------------------------------------------------------

  /** `type_list_is_unique<L>`: no type occurs twice. */
  function IsUnique<T(==)>(l: seq<T>): (b: bool)
    ensures b <==> forall i, j :: 0 <= i < j < |l| ==> l[i] != l[j]
  {
    if l == [] then true
    else
      var b := !Contains(l[1..], l[0]) && IsUnique(l[1..]);
      assert forall j :: 1 <= j < |l| ==> l[j] == l[1..][j - 1];
      b
  }

  /** `type_list_unique<L>`: every type once, at the place of its first
      occurrence. */
  function Unique<T(==)>(l: seq<T>): (r: seq<T>)
    ensures IsUnique(r)
    ensures forall k :: 0 <= k < |r| ==> r[k] in l
    ensures forall k :: 0 <= k < |l| ==> l[k] in r
    ensures |r| <= |l|
  {
    if l == [] then []
    else
      var u := Unique(l[..|l| - 1]);
      var last := l[|l| - 1];
      assert l == l[..|l| - 1] + [last];
      if Contains(u, last) then u else u + [last]
  }

  // ---------------------------------------------------------------------------
  // Properties
  // ---------------------------------------------------------------------------

  /** Concatenating two packs of lists is concatenating their results. */
  lemma {:induction false} CatAppend<T>(ls1: seq<seq<T>>, ls2: seq<seq<T>>)
    ensures Cat(ls1 + ls2) == Cat(ls1) + Cat(ls2)
  {
    if ls1 == [] {
      assert ls1 + ls2 == ls2;
    } else {
      assert (ls1 + ls2)[1..] == ls1[1..] + ls2;
      CatAppend(ls1[1..], ls2);
    }
  }

  /** Every argument of `type_list_cat` appears at its own place, after the
      arguments before it and before the arguments after it. */
  lemma {:induction false} CatInArgumentOrder<T>(ls: seq<seq<T>>, k: nat)
    requires k < |ls|
    ensures Cat(ls) == Cat(ls[..k]) + ls[k] + Cat(ls[k + 1..])
  {
    var front, rest := ls[..k], ls[k..];
    assert ls == front + rest;
    CatAppend(front, rest);
    assert rest[0] == ls[k] && rest[1..] == ls[k + 1..];
  }

  /** An empty list anywhere in the pack does not change the result. */
  lemma CatEmptyIsIdentity<T>(ls1: seq<seq<T>>, ls2: seq<seq<T>>)
    ensures Cat(ls1 + [[]] + ls2) == Cat(ls1 + ls2)
  {
    CatAppend(ls1 + [[]], ls2);
    CatAppend(ls1, [[]]);
    CatAppend(ls1, ls2);
  }

  /** `type_list_contains` holds exactly when the count is at least one. */
  lemma ContainsIffCountPositive<T>(l: seq<T>, t: T)
    ensures Contains(l, t) <==> CountOf(l, t) >= 1
  {
  }

  lemma {:induction false} DuplicatesAreContained<T>(l: seq<T>, t: T)
    ensures HasDuplicatesOf(l, t) ==> Contains(l, t)
  {
    if l != [] && l[0] != t {
      DuplicatesAreContained(l[1..], t);
    }
  }

  /** `type_list_has_duplicates_of` holds exactly when the count is at least two. */
  lemma {:induction false} HasDuplicatesOfIffCountAtLeastTwo<T>(l: seq<T>, t: T)
    ensures HasDuplicatesOf(l, t) <==> CountOf(l, t) >= 2
  {
    if l != [] {
      HasDuplicatesOfIffCountAtLeastTwo(l[1..], t);
      ContainsIffCountPositive(l[1..], t);
    }
  }

  /** The queries on the empty list: size 0, nothing contained or counted,
      `npos`, no indices, and the transformations leave it empty. */
  lemma EmptyListQueries<T>(t: T, pred: T -> bool, less: (T, T) -> bool)
    ensures Size<T>([]) == 0 && IsEmpty<T>([])
    ensures CountOf([], t) == 0 && !Contains([], t) && !HasDuplicatesOf([], t)
    ensures IndexOf([], t) == NPos && IndicesOf([], t) == []
    ensures AllOf([], pred) && !AnyOf([], pred) && NoneOf([], pred)
    ensures Sort([], less) == [] && IsSorted([], less) && Unique<T>([]) == [] && IsUnique<T>([])
    ensures RemoveIf([], pred) == []
  {
  }

  /** `type_list_is_empty` holds exactly when the size is 0, that is when no
      type is contained. */
  lemma IsEmptyIff<T>(l: seq<T>)
    ensures IsEmpty(l) <==> Size(l) == 0
    ensures IsEmpty(l) ==> forall t :: !Contains(l, t)
    ensures !IsEmpty(l) ==> exists t :: Contains(l, t)
  {
    if l != [] {
      assert Contains(l, l[0]);
    }
  }

  /** The type at the index of a contained type is that type. */
  lemma IndexOfThenTypeAtIndex<T>(l: seq<T>, t: T)
    requires Contains(l, t)
    ensures IndexOf(l, t).At? && TypeAtIndex(l, IndexOf(l, t).pos) == t
  {
  }

  /** In a list without repetitions, the index of the type at position `i`
      is `i`. */
  lemma TypeAtIndexThenIndexOf<T>(l: seq<T>, i: nat)
    requires IsUnique(l) && i < |l|
    ensures IndexOf(l, TypeAtIndex(l, i)) == At(i)
  {
    assert l[i] in l;
    var r := IndexOf(l, l[i]);
    assert l[r.pos] == l[i];
    assert !(i < r.pos);
    assert !(r.pos < i);
  }

  lemma {:induction false} IndicesFromCount<T>(l: seq<T>, t: T, from: nat)
    requires from <= |l|
    ensures |IndicesFrom(l, t, from)| == CountOf(l[from..], t)
    decreases |l| - from
  {
    if from < |l| {
      IndicesFromCount(l, t, from + 1);
      assert l[from..][1..] == l[from + 1..];
    }
  }

  /** `type_list_indices_of_type` has one entry per occurrence, and its first
      entry is `type_list_index_of_type`. */
  lemma IndicesOfAgreesWithCountAndIndex<T>(l: seq<T>, t: T)
    ensures |IndicesOf(l, t)| == CountOf(l, t)
    ensures IndicesOf(l, t) == [] <==> IndexOf(l, t) == NPos
    ensures IndicesOf(l, t) != [] ==> IndexOf(l, t) == At(IndicesOf(l, t)[0])
  {
    IndicesFromCount(l, t, 0);
    assert l[0..] == l;
    var r := IndicesOf(l, t);
    if r != [] {
      var p := IndexOf(l, t);
      assert l[r[0]] == t;
      assert p.At? && p.pos in r;
    } else {
      assert forall k :: 0 <= k < |l| ==> l[k] != t;
    }
  }

  /** `type_list_push_front` is insertion at position 0. */
  lemma PushFrontIsInsertFirst<T>(l: seq<T>, t: T)
    ensures PushFront(l, t) == Insert(l, t, 0)
  {
  }

  /** `type_list_push_back` is insertion at position `size`. */
  lemma {:induction false} PushBackIsInsertLast<T>(l: seq<T>, t: T)
    ensures PushBack(l, t) == Insert(l, t, |l|)
  {
    if l != [] {
      PushBackIsInsertLast(l[1..], t);
      assert l == [l[0]] + l[1..];
    }
  }

  /** `type_list_pop_front` is removal at position 0. */
  lemma PopFrontIsRemoveFirst<T>(l: seq<T>)
    requires l != []
    ensures PopFront(l) == Remove(l, 0)
  {
  }

  /** `type_list_pop_back` is removal at position `size - 1`. */
  lemma {:induction false} PopBackIsRemoveLast<T>(l: seq<T>)
    requires l != []
    ensures PopBack(l) == Remove(l, |l| - 1)
  {
    if |l| > 1 {
      PopBackIsRemoveLast(l[1..]);
      assert l[..|l| - 1] == [l[0]] + l[1..][..|l| - 2];
    }
  }

  /** Removing the element just inserted gives the original list back. */
  lemma {:induction false} RemoveUndoesInsert<T>(l: seq<T>, t: T, i: nat)
    requires i <= |l|
    ensures Remove(Insert(l, t, i), i) == l
  {
    if i > 0 {
      RemoveUndoesInsert(l[1..], t, i - 1);
      assert l == [l[0]] + l[1..];
    }
  }

  /** Inserting a removed element at its old place gives the original list back. */
  lemma {:induction false} InsertUndoesRemove<T>(l: seq<T>, i: nat)
    requires i < |l|
    ensures Insert(Remove(l, i), l[i], i) == l
  {
    assert l == [l[0]] + l[1..];
    if i > 0 {
      InsertUndoesRemove(l[1..], i - 1);
    }
  }

  /** `type_list_remove_if` treats the two halves of a list independently, so
      it keeps the surviving elements in their original order. */
  lemma {:induction false} RemoveIfDistributes<T>(a: seq<T>, b: seq<T>, pred: T -> bool)
    ensures RemoveIf(a + b, pred) == RemoveIf(a, pred) + RemoveIf(b, pred)
  {
    if a == [] {
      assert a + b == b;
    } else {
      assert (a + b)[0] == a[0];
      assert (a + b)[1..] == a[1..] + b;
      RemoveIfDistributes(a[1..], b, pred);
    }
  }

  /** `type_list_remove_if` drops every occurrence of a matching type and
      keeps every occurrence of the others. */
  lemma {:induction false} RemoveIfCount<T>(l: seq<T>, pred: T -> bool, x: T)
    ensures CountOf(RemoveIf(l, pred), x) == if pred(x) then 0 else CountOf(l, x)
  {
    if l != [] {
      RemoveIfCount(l[1..], pred, x);
      var head := if pred(l[0]) then [] else [l[0]];
      assert RemoveIf(l, pred) == head + RemoveIf(l[1..], pred);
      assert multiset(head + RemoveIf(l[1..], pred)) == multiset(head) + multiset(RemoveIf(l[1..], pred));
    }
  }

  /** The result of `type_list_remove_if` satisfies `type_list_none_of`, and a
      list that already does is left as it is. */
  lemma {:induction false} RemoveIfNoneOf<T>(l: seq<T>, pred: T -> bool)
    ensures NoneOf(RemoveIf(l, pred), pred)
    ensures NoneOf(l, pred) ==> RemoveIf(l, pred) == l
  {
    var r := RemoveIf(l, pred);
    forall k | 0 <= k < |r| ensures !pred(r[k]) {
      assert r[k] in r;
    }
    if l != [] {
      RemoveIfNoneOf(l[1..], pred);
    }
  }

  /** `type_list_none_of` is the negation of `type_list_any_of`, and
      `type_list_all_of` is `type_list_none_of` of the negated predicate. */
  lemma NoneOfIsNotAnyOf<T>(l: seq<T>, pred: T -> bool)
    ensures NoneOf(l, pred) == !AnyOf(l, pred)
    ensures AllOf(l, pred) == NoneOf(l, x => !pred(x))
  {
  }

  /** `type_list_insert_sorted` is `type_list_insert` at the first position
      whose element `t` is ordered before. */
  lemma {:induction false} InsertSortedIsInsert<T>(l: seq<T>, t: T, less: (T, T) -> bool)
    ensures InsertSorted(l, t, less) == Insert(l, t, InsertSortedPosition(l, t, less))
  {
    if l != [] && !less(t, l[0]) {
      InsertSortedIsInsert(l[1..], t, less);
    }
  }

  /** Inserting into a sorted list keeps it sorted, for any asymmetric
      comparator. */
  lemma {:induction false} InsertSortedKeepsSorted<T(!new)>(l: seq<T>, t: T, less: (T, T) -> bool)
    requires Asymmetric(less)
    requires IsSorted(l, less)
    ensures IsSorted(InsertSorted(l, t, less), less)
  {
    if l == [] || less(t, l[0]) {
      // t goes first; asymmetry gives !less(l[0], t)
    } else {
      var tail := l[1..];
      assert IsSorted(tail, less);
      InsertSortedKeepsSorted(tail, t, less);
      var r := InsertSorted(tail, t, less);
      assert r[0] == t || (tail != [] && r[0] == tail[0]);
    }
  }

  /** `type_list_sort` gives a sorted list, for any asymmetric comparator
      (its permutation and size are in the contract of `Sort`). */
  lemma {:induction false} SortIsSorted<T(!new)>(l: seq<T>, less: (T, T) -> bool)
    requires Asymmetric(less)
    ensures IsSorted(Sort(l, less), less)
  {
    if l != [] {
      SortIsSorted(l[1..], less);
      InsertSortedKeepsSorted(Sort(l[1..], less), l[0], less);
    }
  }

  /** A list in which each element is strictly ordered before the next is
      its own sort. */
  lemma {:induction false} SortOfStrictlyAscending<T>(l: seq<T>, less: (T, T) -> bool)
    requires forall k :: 0 <= k < |l| - 1 ==> less(l[k], l[k + 1])
    ensures Sort(l, less) == l
  {
    if l != [] {
      var tail := l[1..];
      assert forall k :: 0 <= k < |tail| ==> tail[k] == l[k + 1];
      SortOfStrictlyAscending(l[1..], less);
      assert l == [l[0]] + l[1..];
    }
  }

  /** `type_list_is_unique` holds exactly when no type has duplicates. */
  lemma {:induction false} IsUniqueIffNoDuplicates<T>(l: seq<T>)
    ensures IsUnique(l) ==> forall t :: !HasDuplicatesOf(l, t)
    ensures !IsUnique(l) ==> exists t :: HasDuplicatesOf(l, t)
  {
    if l != [] {
      var tail := l[1..];
      IsUniqueIffNoDuplicates(tail);
      assert IsUnique(l) == (!Contains(tail, l[0]) && IsUnique(tail));
      assert HasDuplicatesOf(l, l[0]) == Contains(tail, l[0]);
      assert forall t :: t != l[0] ==> HasDuplicatesOf(l, t) == HasDuplicatesOf(tail, t);
      DuplicatesAreContained(tail, l[0]);
      if IsUnique(l) {
        forall t ensures !HasDuplicatesOf(l, t) {
          if t != l[0] {
            assert !HasDuplicatesOf(tail, t);
          }
        }
      } else if Contains(tail, l[0]) {
        assert HasDuplicatesOf(l, l[0]);
      } else {
        var t :| HasDuplicatesOf(tail, t);
        DuplicatesAreContained(tail, t);
        assert HasDuplicatesOf(l, t);
      }
    }
  }

  lemma IndexOfAppend<T>(a: seq<T>, b: seq<T>, t: T)
    requires t in a
    ensures IndexOf(a + b, t) == IndexOf(a, t)
  {
    var p := IndexOf(a, t);
    assert (a + b)[p.pos] == t;
    var q := IndexOf(a + b, t);
    assert q.pos <= p.pos;
    assert a[q.pos] == (a + b)[q.pos];
  }

  /** The types of `u` occur in `l`, and their first occurrences in `l`
      come in the order of `u`. */
  ghost predicate InFirstOccurrenceOrder<T>(u: seq<T>, l: seq<T>) {
    forall i, j :: 0 <= i < j < |u| ==>
      IndexOf(l, u[i]).At? && IndexOf(l, u[j]).At? &&
      IndexOf(l, u[i]).pos < IndexOf(l, u[j]).pos
  }

  /** Appending a type to the input keeps the order of the first
      occurrences already there, and a new type comes after all of them. */
  lemma FirstOccurrenceOrderExtends<T>(u: seq<T>, p: seq<T>, last: T)
    requires InFirstOccurrenceOrder(u, p)
    requires forall k :: 0 <= k < |u| ==> u[k] in p
    ensures InFirstOccurrenceOrder(u, p + [last])
    ensures last !in p ==> InFirstOccurrenceOrder(u + [last], p + [last])
  {
    var l := p + [last];
    forall k | 0 <= k < |u| ensures IndexOf(l, u[k]) == IndexOf(p, u[k]) {
      IndexOfAppend(p, [last], u[k]);
    }
    if last !in p {
      assert IndexOf(l, last) == At(|p|);
      var r := u + [last];
      forall i, j | 0 <= i < j < |r|
        ensures IndexOf(l, r[i]).At? && IndexOf(l, r[j]).At? && IndexOf(l, r[i]).pos < IndexOf(l, r[j]).pos
      {
        assert r[i] == u[i];
        if j < |u| {
          assert r[j] == u[j];
        } else {
          assert r[j] == last;
        }
      }
    }
  }

  /** `type_list_unique` keeps the types in the order of their first
      occurrences in the input. */
  lemma {:induction false} UniqueKeepsFirstOccurrences<T>(l: seq<T>)
    ensures InFirstOccurrenceOrder(Unique(l), l)
  {
    if l == [] {
      assert Unique(l) == [];
    } else {
      var p := l[..|l| - 1];
      var last := l[|l| - 1];
      assert l == p + [last];
      UniqueKeepsFirstOccurrences(p);
      var u := Unique(p);
      FirstOccurrenceOrderExtends(u, p, last);
      if !Contains(u, last) {
        assert last !in p by {
          forall k | 0 <= k < |p| ensures p[k] != last {
            assert p[k] in u;
          }
        }
      }
    }
  }

  /** Removing the last type of a list without repetitions leaves a list
      without repetitions that does not contain it. */
  lemma UniqueSplitsAtLast<T>(l: seq<T>)
    requires IsUnique(l) && l != []
    ensures IsUnique(l[..|l| - 1]) && !Contains(l[..|l| - 1], l[|l| - 1])
  {
    var p := l[..|l| - 1];
    forall i, j | 0 <= i < j < |p| ensures p[i] != p[j] {
      assert p[i] == l[i] && p[j] == l[j];
    }
    forall i | 0 <= i < |p| ensures p[i] != l[|l| - 1] {
      assert p[i] == l[i];
    }
  }

  /** A list that already has no repetitions is its own `type_list_unique`,
      which makes `type_list_unique` idempotent. */
  lemma {:induction false} UniqueOfUnique<T>(l: seq<T>)
    requires IsUnique(l)
    ensures Unique(l) == l
  {
    if l == [] {
      assert Unique(l) == [];
    } else {
      var p, last := l[..|l| - 1], l[|l| - 1];
      UniqueSplitsAtLast(l);
      UniqueOfUnique(p);
      assert Unique(l) == p + [last];
      assert l == p + [last];
    }
  }

  /** `type_list_unique` is idempotent. */
  lemma UniqueIsIdempotent<T>(l: seq<T>)
    ensures Unique(Unique(l)) == Unique(l)
  {
    UniqueOfUnique(Unique(l));
  }
}
