# ETL type lists and message identity, in Dafny

This project models two compile-time parts of the Embedded Template Library (ETL).

- **The `etl::type_list` algebra.** A type list `etl::type_list<T0, ..., Tn>` is
  a `seq<T>` of opaque type tokens that are compared only for identity. Each
  `etl::type_list_*` metafunction is a function on such sequences. A
  `static_assert` in a metafunction (for example, removing from an empty list)
  becomes a `requires`. A predicate template is a `T -> bool`. A comparator
  template is a `(T, T) -> bool` that reads "the first goes before the second".
  The header `etl/type_list.h` is not part of this model. The behaviour of each
  metafunction is taken from the assertions in `test/test_type_list.cpp`. Where
  the tests leave a choice open, the model picks one recursion:
  - `type_list_sort` is an insertion sort: the head is inserted into the sorted tail.
  - `type_list_insert_sorted` places the new type before the first element it is
    ordered before.
  - `type_list_is_sorted` means that no element is ordered before the element in
    front of it.
  - `type_list_unique` keeps the first occurrence of each type.
  - `type_list_npos` is the value `NPos` of the datatype `TypeList.Index`, which
    differs from every position. Its numeric value is defined in
    `etl/type_list.h`.
- **Message identity (`etl/message.h`).** The C++ class hierarchy is a value of
  the datatype `EtlMessage.CppClass`. `is_base_of` is the reflexive and
  transitive closure of "direct base". The traits `is_imessage`, `is_message`,
  `is_message_type`, `is_message_base`, `is_user_message_base` and
  `has_message_id` are predicates on it. `compare_message_id_less` is modelled
  twice. As a function, it requires that both arguments pass its `static_assert`s.
  As the set of its failing `static_assert`s, it reports which checks fail. It
  is also the comparator of `type_list_sort` on message classes. The non-virtual
  build's object model is split into two classes:
  - `IMessage` stores the id in a field.
  - `Message` is `message<ID>`, with a constant `ID` and its `imessage` base
    sub-object.

  The model proves that `get_message_id() == ID` holds through construction,
  copying and assignment, and that the result agrees with what the virtual build
  returns.

## Model

| member | source | states |
|---|---|---|
| `TypeList.Size` | test/test_type_list.cpp:96-105 | (definition) `type_list_size` is the number of types in the list |
| `TypeList.Cat` | test/test_type_list.cpp:108-124 | the size of `type_list_cat` is the sum of the sizes of its arguments |
| `TypeList.CatAppend` | test/test_type_list.cpp:108-124 | concatenating a pack split in two is concatenating the results of the two parts |
| `TypeList.CatInArgumentOrder` | test/test_type_list.cpp:114-118 | every argument appears in its own place, after the arguments before it and before the ones after it |
| `TypeList.CatEmptyIsIdentity` | test/test_type_list.cpp:112-122 | an empty list anywhere among the arguments does not change the result |
| `TypeList.TypeAtIndex` | test/test_type_list.cpp:243-254 | `type_list_type_at_index<L, i>` is the element at position `i`, for an index in range |
| `TypeList.Select` | test/test_type_list.cpp:86-93 | `type_list_select<L, k...>` has one element per given index: the type at that index, in the order the indices are given |
| `TypeList.Contains` | test/test_type_list.cpp:127-151 | `type_list_contains` holds exactly when the type occurs in the list |
| `TypeList.CountOf` | test/test_type_list.cpp:181-205 | `type_list_count_of` is the multiplicity of the type in the list, at most the size |
| `TypeList.ContainsIffCountPositive` | test/test_type_list.cpp:127-205 | contains holds exactly when the count is at least 1 |
| `TypeList.HasDuplicatesOf` | test/test_type_list.cpp:154-178 | (definition) `type_list_has_duplicates_of`: a first occurrence of the type is followed by another; its meaning is `HasDuplicatesOfIffCountAtLeastTwo` |
| `TypeList.DuplicatesAreContained` | test/test_type_list.cpp:154-178 | a type with duplicates is contained |
| `TypeList.HasDuplicatesOfIffCountAtLeastTwo` | test/test_type_list.cpp:154-205 | `type_list_has_duplicates_of` holds exactly when the count is at least 2 |
| `TypeList.IndexOf` | test/test_type_list.cpp:208-224 | `type_list_index_of_type` is `npos` exactly when the type is absent; otherwise it is a position holding the type with no earlier occurrence |
| `TypeList.IndicesFrom` | test/test_type_list.cpp:227-240 | the positions from a start point on that hold the type: strictly increasing, all in range, and none missing |
| `TypeList.IndicesOf` | test/test_type_list.cpp:227-240 | `type_list_indices_of_type` is strictly increasing and holds exactly the positions that hold the type |
| `TypeList.IndicesFromCount` | test/test_type_list.cpp:227-240 | the number of positions found from a start point is the count of the rest of the list |
| `TypeList.IndicesOfAgreesWithCountAndIndex` | test/test_type_list.cpp:208-240 | the indices have one entry per occurrence; they are empty exactly when the index is `npos`; their first entry is the index |
| `TypeList.IndexOfThenTypeAtIndex` | test/test_type_list.cpp:208-254 | the type at the index of a contained type is that type |
| `TypeList.TypeAtIndexThenIndexOf` | test/test_type_list.cpp:208-254 | in a list without repetitions, the index of the type at position `i` is `i` |
| `TypeList.IndexOfAppend` | test/test_type_list.cpp:208-224 | appending types after a contained type does not change its index |
| `TypeList.EmptyListQueries` | test/test_type_list.cpp:96-836 | on the empty list: size 0, is_empty, count 0, not contained, no duplicates, `npos`, no indices, all_of true, any_of false, none_of true, and sort, is_sorted, unique, is_unique and remove_if all give the empty list or true |
| `TypeList.IsEmpty` | test/test_type_list.cpp:824-836 | (definition) `type_list_is_empty` holds of `type_list<>` only; its relation to the size is `IsEmptyIff` |
| `TypeList.IsEmptyIff` | test/test_type_list.cpp:824-836 | `type_list_is_empty` holds exactly when the size is 0; an empty list contains nothing and a non-empty one contains something |
| `TypeList.Insert` | test/test_type_list.cpp:480-508 | `type_list_insert<L, T, i>` for `i <= size` has size + 1, `T` at position `i`, the elements before `i` unchanged and the rest shifted by one |
| `TypeList.PushFront` | test/test_type_list.cpp:436-455 | (definition) `type_list_push_front` puts the type before the list; `PushFrontIsInsertFirst` relates it to `Insert` |
| `TypeList.PushFrontIsInsertFirst` | test/test_type_list.cpp:436-455 | `type_list_push_front` is insertion at position 0 |
| `TypeList.PushBack` | test/test_type_list.cpp:458-477 | (definition) `type_list_push_back` puts the type after the list; `PushBackIsInsertLast` relates it to `Insert` |
| `TypeList.PushBackIsInsertLast` | test/test_type_list.cpp:458-477 | `type_list_push_back` is insertion at position `size` |
| `TypeList.Remove` | test/test_type_list.cpp:511-549 | `type_list_remove<L, i>` requires a non-empty list and `i < size`; the result has size - 1, the first `i` elements unchanged and the rest shifted back by one |
| `TypeList.PopFront` | test/test_type_list.cpp:593-619 | (definition) `type_list_pop_front` drops the first type and requires a non-empty list (lines 593-600); `PopFrontIsRemoveFirst` relates it to `Remove` |
| `TypeList.PopFrontIsRemoveFirst` | test/test_type_list.cpp:593-619 | `type_list_pop_front` requires a non-empty list and is removal at position 0 |
| `TypeList.PopBack` | test/test_type_list.cpp:622-648 | (definition) `type_list_pop_back` drops the last type and requires a non-empty list (lines 622-629); `PopBackIsRemoveLast` relates it to `Remove` |
| `TypeList.PopBackIsRemoveLast` | test/test_type_list.cpp:622-648 | `type_list_pop_back` requires a non-empty list and is removal at position `size - 1` |
| `TypeList.RemoveUndoesInsert` | test/test_type_list.cpp:480-549 | removing the element just inserted at `i` gives the original list |
| `TypeList.InsertUndoesRemove` | test/test_type_list.cpp:480-549 | inserting a removed element back at its old position gives the original list |
| `TypeList.RemoveIf` | test/test_type_list.cpp:552-590 | `type_list_remove_if` keeps only elements of the input that fail the predicate, keeps every such element, and is no longer than the input |
| `TypeList.RemoveIfDistributes` | test/test_type_list.cpp:581-590 | remove_if on a concatenation is the concatenation of the results, so the survivors keep their original order |
| `TypeList.RemoveIfCount` | test/test_type_list.cpp:552-590 | every occurrence of a matching type is dropped and every occurrence of another type is kept |
| `TypeList.RemoveIfNoneOf` | test/test_type_list.cpp:552-590 | the result satisfies none_of with the predicate; a list that already satisfies it is unchanged |
| `TypeList.AllOf` | test/test_type_list.cpp:674-712 | `type_list_all_of` holds exactly when every element satisfies the predicate (so it holds on the empty list) |
| `TypeList.AnyOf` | test/test_type_list.cpp:715-753 | `type_list_any_of` holds exactly when some element satisfies the predicate (so it fails on the empty list) |
| `TypeList.NoneOf` | test/test_type_list.cpp:756-794 | `type_list_none_of` holds exactly when no element satisfies the predicate |
| `TypeList.NoneOfIsNotAnyOf` | test/test_type_list.cpp:674-794 | none_of is the negation of any_of, and all_of is none_of applied to the negated predicate |
| `TypeList.IsSorted` | test/test_type_list.cpp:360-389 | `type_list_is_sorted` holds exactly when no element is ordered before the element in front of it |
| `TypeList.InsertSorted` | test/test_type_list.cpp:392-433 | `type_list_insert_sorted` has size + 1 and the elements of the list plus the inserted type |
| `TypeList.InsertSortedPosition` | test/test_type_list.cpp:392-433 | the insertion position is the first position whose element the new type is ordered before, or the end |
| `TypeList.InsertSortedIsInsert` | test/test_type_list.cpp:392-433 | insert_sorted is `type_list_insert` at that position |
| `TypeList.InsertSortedKeepsSorted` | test/test_type_list.cpp:392-433 | for an asymmetric comparator, inserting into a sorted list gives a sorted list |
| `TypeList.Sort` | test/test_type_list.cpp:327-357 | `type_list_sort` is a permutation of its input, and the empty and one-element lists are unchanged |
| `TypeList.SortIsSorted` | test/test_type_list.cpp:349-389 | for an asymmetric comparator, the sorted list satisfies `type_list_is_sorted` |
| `TypeList.SortOfStrictlyAscending` | test/test_type_list.cpp:349-357 | a list in strictly ascending order is its own sort |
| `TypeList.IsUnique` | test/test_type_list.cpp:797-821 | `type_list_is_unique` holds exactly when no two positions hold the same type |
| `TypeList.IsUniqueIffNoDuplicates` | test/test_type_list.cpp:797-821 | a list is unique exactly when no type has duplicates in it |
| `TypeList.Unique` | test/test_type_list.cpp:651-671 | `type_list_unique` has no repetitions, contains exactly the types of the input, and is no longer than the input |
| `TypeList.UniqueKeepsFirstOccurrences` | test/test_type_list.cpp:662-671 | the types in the result follow the order of their first occurrences in the input |
| `TypeList.UniqueOfUnique` | test/test_type_list.cpp:651-671 | a list without repetitions is its own unique |
| `TypeList.UniqueIsIdempotent` | test/test_type_list.cpp:651-671 | applying unique twice gives the same list as applying it once |
| `EtlMessage.IsBaseOf` | include/etl/message.h:204-217 | (definition) `is_base_of<B, D>`: `B` is `D` or, directly or through other bases, a base of `D`; a `message<ID, TBase>` has the bases `TBase` and `message_tag`. Transitivity is `IsBaseOfTransitive` |
| `EtlMessage.WellFormed` | include/etl/message.h:157-162 | (definition) the `static_assert` of every `message<ID, TBase>` in the hierarchy holds: `TBase` derives from `imessage` |
| `EtlMessage.IsIMessage` | include/etl/message.h:195-201 | (definition) `is_imessage<T>`: `T` is `imessage` itself |
| `EtlMessage.IsMessage` | include/etl/message.h:203-209 | (definition) `is_message<T>`: `T` is `imessage` or derives from it |
| `EtlMessage.IsMessageType` | include/etl/message.h:211-217 | (definition) `is_message_type<T>`: `T` derives from `message_tag`, that is, it is a `message<>` or derives from one |
| `EtlMessage.IsMessageBase` | include/etl/message.h:219-225 | (definition) `is_message_base<T>`: a message that is not a message type |
| `EtlMessage.IsUserMessageBase` | include/etl/message.h:227-233 | (definition) `is_user_message_base<T>`: a message base other than `imessage` |
| `EtlMessage.StaticId` | include/etl/message.h:279-288 | (definition) what `T::ID` names: the template `ID` of a `message<ID, TBase>`, the recorded member of any other class, nothing for `imessage` and `message_tag` |
| `EtlMessage.HasMessageId` | include/etl/message.h:270-289 | (definition) `has_message_id<T>::value`: `T::ID` names a member |
| `EtlMessage.IsIdentifiedMessage` | include/etl/message.h:309-333 | (definition) a class that passes every assertion of `compare_message_id_less` as either argument: a message, a message type and has an ID |
| `EtlMessage.CompareMessageIdLess` | include/etl/message.h:327-345 | (definition) `compare_message_id_less<TMsg1, TMsg2>::value` is `TMsg1::ID < TMsg2::ID`, for arguments that pass its assertions; its order properties are `CompareMessageIdLessIsStrictOrder` |
| `EtlMessage.Id` | include/etl/message.h:327-333 | (definition) the static `ID` of a class that has one |
| `EtlMessage.IdLess` | include/etl/message.h:336-345 | (definition) `compare_message_id_less` as a comparator over the classes it accepts; it is the comparator `SortByMessageId` sorts with |
| `EtlMessage.Diagnostics` | include/etl/message.h:309-333 | "not an ETL message" is reported once per class that is not a message, and "does not have an ID" and "not derived from `etl::message<>`" are reported for an argument exactly when that argument fails the condition; nothing else is reported, and nothing at all exactly when every condition holds |
| `EtlMessage.CompareMessageIdLessErrors` | include/etl/message.h:270-345 | instantiating `compare_message_id_less<TMsg1, TMsg2>` fails no `static_assert` exactly when both arguments are messages, are message types and have an ID; `has_message_id`'s "not an ETL message" is reported for each class that is not a message, and the four assertions of `compare_message_id_less_impl` for each argument that fails them; no other failure appears |
| `EtlMessage.SameClassReportedOnce` | include/etl/message.h:270-318 | for `compare_message_id_less<X, X>` with a class `X` that fails every check, exactly five assertions fail: `has_message_id<X>`'s once and the specialisation's four |
| `EtlMessage.IsBaseOfTransitive` | include/etl/message.h:204-217 | `is_base_of` is transitive over the hierarchy |
| `EtlMessage.MessageClassTraits` | include/etl/message.h:157-233 | a well-formed `message<ID, TBase>` is a message and a message type, is neither a message base nor a user message base, and has the ID `ID` |
| `EtlMessage.DerivedFromMessageIsMessageType` | include/etl/message.h:204-225 | every class derived from a `message<>` is a message and a message type, and is not a message base |
| `EtlMessage.IMessageTraits` | include/etl/message.h:195-233 | `imessage` is a message and a message base, is not a message type, and is never a user message base |
| `EtlMessage.UserMessageBaseIsMessage` | include/etl/message.h:219-233 | a user message base is a message, not a message type and not `imessage`; a message base is either `imessage` or a user message base |
| `EtlMessage.MessageBaseOfMessage` | include/etl/message.h:157-233 | the base of a well-formed `message<ID, TBase>` that is not a message type is a message base, and a user message base unless it is `imessage` |
| `EtlMessage.CompareMessageIdLessIsStrictOrder` | include/etl/message.h:336-345 | the comparator is irreflexive, asymmetric and transitive, and two classes it does not order either way have equal IDs |
| `EtlMessage.IdLessIsAsymmetric` | include/etl/message.h:327-333 | the comparator satisfies the asymmetry that type-list sorting needs |
| `EtlMessage.SortedIdsAreNonDecreasing` | include/etl/message.h:327-345 | a list that is sorted under the comparator has non-decreasing IDs between any two positions |
| `EtlMessage.SortByMessageId` | include/etl/message.h:336-345 | sorting message classes with `compare_message_id_less` keeps every class and orders them by non-decreasing ID |
| `EtlMessage.IMessage.constructor` | include/etl/message.h:127-130 | `imessage(id_)` stores `id_` |
| `EtlMessage.IMessage.CopyOf` | include/etl/message.h:133-136 | the `imessage` copy constructor copies the id |
| `EtlMessage.IMessage.Assign` | include/etl/message.h:139-143 | `imessage::operator=` copies the id of the right-hand side and returns the target |
| `EtlMessage.IMessage.GetMessageId` | include/etl/message.h:119-122 | (definition) the non-virtual `imessage::get_message_id()` returns the stored id |
| `EtlMessage.Message.constructor` | include/etl/message.h:167-170 | `message()` has a stored id equal to `ID` (the invariant holds) |
| `EtlMessage.Message.CopyOf` | include/etl/message.h:173-176 | the copy has the same `ID`, and its stored id is that `ID` even if the source's stored id is not |
| `EtlMessage.Message.Assign` | include/etl/message.h:179-182 | `message::operator=` takes a right-hand side of the same type, changes nothing and returns the target |
| `EtlMessage.Message.GetMessageId` | include/etl/message.h:119-122 | `get_message_id()` returns `ID` while the invariant holds |
| `EtlMessage.Message.VirtualGetMessageId` | include/etl/message.h:98-105 | (definition) the virtual build's `message<ID>::get_message_id()` returns the static `ID`; `BuildsAgree` relates it to the non-virtual getter |
| `EtlMessage.BuildsAgree` | include/etl/message.h:99-105 | on a valid object, the stored id that the non-virtual build returns equals the static `ID` that the virtual build returns |
| `EtlMessage.MessageLifetime` | include/etl/message.h:157-186 | after default construction, copy construction and assignment, each message still reports its static `ID` |

## Left out

- `etl::is_type_list` (test/test_type_list.cpp:68-83): every list in the model is a type list by construction. Types that are not lists are not modelled.
- `type_list_max_size` and `type_list_max_alignment` (test/test_type_list.cpp:257-296): they depend on the platform's `sizeof` and `alignof`.
- `type_lists_are_convertible` (test/test_type_list.cpp:299-324): it depends on C++ conversion rules.
- The `_v` and `_t` alias forms and the C++11/C++17 compile switches: they restate the same relations.
- The pre-C++11 `compare_message_id_less` (include/etl/message.h:353-359): it computes the same value and only asserts that both arguments are message types.
- `message_exception` and `unhandled_message_exception` (include/etl/message.h:44-63): they only build error text.
- The `sizeof` detection in `has_message_id` (include/etl/message.h:270-289): whether a class has an `ID` is the abstract attribute `staticId` of `CppClass.OtherClass`.
- Virtual dispatch and the destructors of the virtual build: only the value that the overriding `get_message_id` returns is modelled.
- The width of `etl::message_id_t`: `message_types.h` is not part of this model. IDs are unbounded naturals. Only `<` is used on them.
- The numeric value of `type_list_npos`: `etl/type_list.h` is not part of this model.
- The object model composes `Message` with its `imessage` sub-object instead of inheriting from it. A user-defined `TBase` between `message<ID, TBase>` and `imessage` is not represented in that model.
- `EtlMessage.CompareMessageIdLessErrors`: the failed `static_assert`s form a set. Which assertions fail is modelled, but not the order in which a compiler prints them, nor any further errors a compiler reports after a failed assertion.
- `EtlMessage.StaticId`: for an `OtherClass` the member that `T::ID` names is a field set by whoever builds the value. It is not derived from the bases, so a class that inherits `message<5>::ID` must be given `staticId` 5 explicitly. `WellFormed` does not check this, and no proved property depends on it.
- `EtlMessage.Message.Valid`: in C++, `imessage::operator=` and the stored `id` are `protected`, so only `message<>` itself can change a message's stored id. The model does not enforce access control. `IMessage.Assign` and the `base` field are public, and a call such as `a.base.Assign(b.base)` breaks `a.Valid()`. The proved invariant covers construction, copying and `message::operator=`, which are the only updates that C++ code outside the class can make.
- Nothing is promised about `type_list_sort` or `type_list_insert_sorted` for comparators that are not asymmetric. The order of types that compare equal is also not promised, because the tests do not fix it.
