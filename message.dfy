/** Message identity of the Embedded Template Library (`etl/message.h`).

    Three parts:
    - the class hierarchy as a value (`CppClass`), over which the traits
      `is_imessage`, `is_message`, `is_message_type`, `is_message_base`,
      `is_user_message_base` and `has_message_id` are predicates;
    - `compare_message_id_less`, with the `static_assert`s that reject it as a
      set of diagnostics and as a precondition, and its use as a
      `type_list_sort` comparator;
    - the object model of the non-virtual build, where `imessage` stores the
      id in a field (class `IMessage`) and `message<ID>` fixes it to its
      static `ID` (class `Message`), next to the virtual build, where
      `get_message_id` returns the static `ID` directly.
 */
module EtlMessage {
  import TypeList

  /** `etl::message_id_t`. Its width lives in `message_types.h`; only the
      ordering `<` of ids is used here, which the width does not change. */
  type MessageId = nat

  datatype Option<T> = None | Some(value: T)

  // ---------------------------------------------------------------------------
  // The class hierarchy
  // ---------------------------------------------------------------------------

  /** A C++ class type, after `remove_cvref`, with its direct bases. */
  datatype CppClass =
    | IMessageClass                                  // etl::imessage
    | MessageTagClass                                // etl::message_tag
    | MessageClass(id: MessageId, base: CppClass)    // etl::message<ID, TBase>: bases TBase, message_tag
    | OtherClass(name: string, bases: seq<CppClass>, staticId: Option<MessageId>)
      // any other class; `staticId` is what the name lookup `T::ID` finds, if anything

  /** `etl::is_base_of<B, D>`: `b` is `d` itself or a base, direct or
      indirect, of `d`. */
  predicate IsBaseOf(b: CppClass, d: CppClass)
    decreases d
  {
    b == d ||
    match d
    case MessageClass(_, base) => b == MessageTagClass || IsBaseOf(b, base)
    case OtherClass(_, bases, _) => exists i :: 0 <= i < |bases| && IsBaseOf(b, bases[i])
    case _ => false
  }

  /** The `static_assert` of `message<ID, TBase>`: `TBase` derives from
      `imessage`, for every `message<>` in the hierarchy. */
  predicate WellFormed(c: CppClass)
    decreases c
  {
    match c
    case MessageClass(_, base) => IsBaseOf(IMessageClass, base) && WellFormed(base)
    case OtherClass(_, bases, _) => forall i :: 0 <= i < |bases| ==> WellFormed(bases[i])
    case _ => true
  }

  /** `etl::is_imessage<T>`. */
  predicate IsIMessage(c: CppClass) {
    c == IMessageClass
  }

  /** `etl::is_message<T>`: `T` is `imessage` or derives from it. */
  predicate IsMessage(c: CppClass) {
    IsBaseOf(IMessageClass, c)
  }

  /** `etl::is_message_type<T>`: `T` is an `etl::message<>` or derives from one. */
  predicate IsMessageType(c: CppClass) {
    IsBaseOf(MessageTagClass, c)
  }

  /** `etl::is_message_base<T>`. */
  predicate IsMessageBase(c: CppClass) {
    IsMessage(c) && !IsMessageType(c)
  }

  /** `etl::is_user_message_base<T>`. */
  predicate IsUserMessageBase(c: CppClass) {
    IsMessageBase(c) && !IsIMessage(c)
  }

  /** The static `ID` member that `T::ID` names, if there is one. */
  function StaticId(c: CppClass): Option<MessageId> {
    match c
    case MessageClass(id, _) => Some(id)
    case OtherClass(_, _, staticId) => staticId
    case _ => None
  }

  /** `etl::has_message_id<T>::value` (its own `static_assert` that `T` is a
      message is reported by `CompareMessageIdLessErrors`). */
  predicate HasMessageId(c: CppClass) {
    StaticId(c).Some?
  }

  // ---------------------------------------------------------------------------
  // compare_message_id_less
  // ---------------------------------------------------------------------------

  /** The template parameter `TMsg1` or `TMsg2` of `compare_message_id_less`. */
  datatype Argument = TMsg1 | TMsg2

  /** A `static_assert` that fails while instantiating
      `compare_message_id_less<TMsg1, TMsg2>`. The first is made by
      `has_message_id<T>`, which is instantiated once per class, so it is
      keyed by the class; the others are made once per argument by
      `compare_message_id_less_impl`. */
  datatype StaticAssertFailure =
    | NotAnEtlMessage(cls: CppClass)            // "T is not an ETL message"
    | DoesNotHaveAnId(arg: Argument)            // "TMsgN does not have an ID"
    | NotDerivedFromMessage(arg: Argument)      // "TMsgN is not derived from etl::message<>"

  /** The diagnostics of `compare_message_id_less<c1, c2>`, given which
      conditions hold for each argument: "is a message" for each class (from
      `has_message_id`), "has an ID" for both arguments (only in the
      specialisation selected when an id is missing) and "is a message type"
      for both arguments. */
  function Diagnostics(c1: CppClass, c2: CppClass, message1: bool, message2: bool,
                       id1: bool, id2: bool, type1: bool, type2: bool): (errs: set<StaticAssertFailure>)
    requires c1 == c2 ==> message1 == message2
    ensures errs == {} <==> message1 && message2 && id1 && id2 && type1 && type2
    ensures NotAnEtlMessage(c1) in errs <==> !message1
    ensures NotAnEtlMessage(c2) in errs <==> !message2
    ensures DoesNotHaveAnId(TMsg1) in errs <==> !id1
    ensures DoesNotHaveAnId(TMsg2) in errs <==> !id2
    ensures NotDerivedFromMessage(TMsg1) in errs <==> !type1
    ensures NotDerivedFromMessage(TMsg2) in errs <==> !type2
    ensures errs <= {NotAnEtlMessage(c1), NotAnEtlMessage(c2),
                     DoesNotHaveAnId(TMsg1), DoesNotHaveAnId(TMsg2),
                     NotDerivedFromMessage(TMsg1), NotDerivedFromMessage(TMsg2)}
  {
    var messages := (if message1 then {} else {NotAnEtlMessage(c1)}) +
                    (if message2 then {} else {NotAnEtlMessage(c2)});
    var ids := if id1 && id2 then {}
               else (if id1 then {} else {DoesNotHaveAnId(TMsg1)}) +
                    (if id2 then {} else {DoesNotHaveAnId(TMsg2)});
    var types := (if type1 then {} else {NotDerivedFromMessage(TMsg1)}) +
                 (if type2 then {} else {NotDerivedFromMessage(TMsg2)});
    messages + ids + types
  }

  /** The `static_assert`s that fail while instantiating
      `compare_message_id_less<TMsg1, TMsg2>`: those of `has_message_id<TMsgN>`
      and of the selected specialisation of `compare_message_id_less_impl`. */
  function CompareMessageIdLessErrors(m1: CppClass, m2: CppClass): (errs: set<StaticAssertFailure>)
    ensures errs == {} <==> IsIdentifiedMessage(m1) && IsIdentifiedMessage(m2)
    ensures NotAnEtlMessage(m1) in errs <==> !IsMessage(m1)
    ensures NotAnEtlMessage(m2) in errs <==> !IsMessage(m2)
    ensures DoesNotHaveAnId(TMsg1) in errs <==> !HasMessageId(m1)
    ensures DoesNotHaveAnId(TMsg2) in errs <==> !HasMessageId(m2)
    ensures NotDerivedFromMessage(TMsg1) in errs <==> !IsMessageType(m1)
    ensures NotDerivedFromMessage(TMsg2) in errs <==> !IsMessageType(m2)
    ensures errs <= {NotAnEtlMessage(m1), NotAnEtlMessage(m2),
                     DoesNotHaveAnId(TMsg1), DoesNotHaveAnId(TMsg2),
                     NotDerivedFromMessage(TMsg1), NotDerivedFromMessage(TMsg2)}
  {
    Diagnostics(m1, m2, IsMessage(m1), IsMessage(m2), HasMessageId(m1), HasMessageId(m2),
                IsMessageType(m1), IsMessageType(m2))
  }

  /** A class that is no message, has no id and is no message type, given as
      both arguments, fails `has_message_id`'s assertion once (one
      instantiation) and each of the four assertions of the specialisation for
      a missing id. */
  lemma SameClassReportedOnce(m: CppClass)
    requires !IsMessage(m) && !HasMessageId(m) && !IsMessageType(m)
    ensures CompareMessageIdLessErrors(m, m) ==
      {NotAnEtlMessage(m), DoesNotHaveAnId(TMsg1), DoesNotHaveAnId(TMsg2),
       NotDerivedFromMessage(TMsg1), NotDerivedFromMessage(TMsg2)}
    ensures |CompareMessageIdLessErrors(m, m)| == 5
  {
  }

  /** A class that `compare_message_id_less` accepts as either argument. */
  predicate IsIdentifiedMessage(c: CppClass) {
    IsMessage(c) && IsMessageType(c) && HasMessageId(c)
  }

  /** `compare_message_id_less<TMsg1, TMsg2>::value`. */
  function CompareMessageIdLess(m1: CppClass, m2: CppClass): bool
    requires IsIdentifiedMessage(m1) && IsIdentifiedMessage(m2)
  {
    StaticId(m1).value < StaticId(m2).value
  }

  /** The classes that can be sorted by message id. */
  type IdentifiedMessage = c: CppClass | IsIdentifiedMessage(c)
    witness MessageClass(0, IMessageClass)

  function Id(m: IdentifiedMessage): MessageId {
    StaticId(m).value
  }

  /** `compare_message_id_less` as a `type_list_sort` comparator. */
  function IdLess(m1: IdentifiedMessage, m2: IdentifiedMessage): bool {
    CompareMessageIdLess(m1, m2)
  }

  // ---------------------------------------------------------------------------
  // Properties of the traits and the comparator
  // ---------------------------------------------------------------------------

  /** `is_base_of` is transitive. */
  lemma {:induction false} IsBaseOfTransitive(a: CppClass, b: CppClass, c: CppClass)
    requires IsBaseOf(a, b) && IsBaseOf(b, c)
    ensures IsBaseOf(a, c)
    decreases c
  {
    if b != c {
      match c
      case MessageClass(_, base) =>
        if b != MessageTagClass {
          IsBaseOfTransitive(a, b, base);
        }
      case OtherClass(_, bases, _) =>
        var i :| 0 <= i < |bases| && IsBaseOf(b, bases[i]);
        IsBaseOfTransitive(a, b, bases[i]);
    }
  }

  /** An `etl::message<ID, TBase>` is a message and a message type, so it is
      neither a message base nor a user message base; it has the id `ID`. */
  lemma MessageClassTraits(id: MessageId, base: CppClass)
    requires WellFormed(MessageClass(id, base))
    ensures var m := MessageClass(id, base);
      IsMessage(m) && IsMessageType(m) && !IsIMessage(m) &&
      !IsMessageBase(m) && !IsUserMessageBase(m) &&
      IsIdentifiedMessage(m) && StaticId(m) == Some(id)
  {
  }

  /** Every class derived from an `etl::message<>` is a message and a
      message type. */
  lemma DerivedFromMessageIsMessageType(m: CppClass, d: CppClass)
    requires m.MessageClass? && WellFormed(m) && IsBaseOf(m, d)
    ensures IsMessage(d) && IsMessageType(d) && !IsMessageBase(d)
  {
    IsBaseOfTransitive(IMessageClass, m, d);
    IsBaseOfTransitive(MessageTagClass, m, d);
  }

  /** `imessage` is a message base but never a user message base. */
  lemma IMessageTraits()
    ensures IsIMessage(IMessageClass) && IsMessage(IMessageClass)
    ensures !IsMessageType(IMessageClass) && IsMessageBase(IMessageClass)
    ensures !IsUserMessageBase(IMessageClass)
  {
  }

  /** A user message base is a message, is not a message type and is not
      `imessage`; a message base is either `imessage` or a user message base. */
  lemma UserMessageBaseIsMessage(c: CppClass)
    ensures IsUserMessageBase(c) ==> IsMessage(c) && !IsMessageType(c) && !IsIMessage(c)
    ensures IsMessageBase(c) <==> IsIMessage(c) || IsUserMessageBase(c)
  {
  }

  /** The base class of a well-formed `message<ID, TBase>` that is not itself
      a message type is a message base; it is a user message base unless it
      is `imessage`. */
  lemma MessageBaseOfMessage(id: MessageId, base: CppClass)
    requires WellFormed(MessageClass(id, base)) && !IsMessageType(base)
    ensures IsMessageBase(base)
    ensures IsUserMessageBase(base) <==> base != IMessageClass
  {
  }

  /** `compare_message_id_less` is a strict order on message classes: it is
      irreflexive, asymmetric and transitive, and two classes it does not
      order either way have the same id. */
  lemma CompareMessageIdLessIsStrictOrder(a: IdentifiedMessage, b: IdentifiedMessage, c: IdentifiedMessage)
    ensures !IdLess(a, a)
    ensures IdLess(a, b) ==> !IdLess(b, a)
    ensures IdLess(a, b) && IdLess(b, c) ==> IdLess(a, c)
    ensures !IdLess(a, b) && !IdLess(b, a) ==> Id(a) == Id(b)
  {
  }

  lemma IdLessIsAsymmetric()
    ensures TypeList.Asymmetric(IdLess)
  {
  }

  /** A list that `type_list_is_sorted` accepts under `compare_message_id_less`
      has non-decreasing ids between any two positions, not only neighbours. */
  lemma {:induction false} SortedIdsAreNonDecreasing(l: seq<IdentifiedMessage>)
    requires TypeList.IsSorted(l, IdLess)
    ensures forall i, j :: 0 <= i < j < |l| ==> Id(l[i]) <= Id(l[j])
  {
    if |l| > 1 {
      var tail := l[1..];
      assert TypeList.IsSorted(tail, IdLess);
      SortedIdsAreNonDecreasing(tail);
      forall i, j | 0 <= i < j < |l| ensures Id(l[i]) <= Id(l[j]) {
        if i > 0 {
          assert l[i] == tail[i - 1] && l[j] == tail[j - 1];
        } else {
          assert Id(l[0]) <= Id(l[1]);
          if j > 1 {
            assert l[1] == tail[0] && l[j] == tail[j - 1];
          }
        }
      }
    }
  }

  /** `type_list_sort` with `compare_message_id_less` orders a list of
      messages by id, and keeps every message. */
  lemma SortByMessageId(l: seq<IdentifiedMessage>)
    ensures multiset(TypeList.Sort(l, IdLess)) == multiset(l)
    ensures var r := TypeList.Sort(l, IdLess);
      forall i, j :: 0 <= i < j < |r| ==> Id(r[i]) <= Id(r[j])
  {
    IdLessIsAsymmetric();
    TypeList.SortIsSorted(l, IdLess);
    SortedIdsAreNonDecreasing(TypeList.Sort(l, IdLess));
  }

  // ---------------------------------------------------------------------------
  // The non-virtual object model
  // ---------------------------------------------------------------------------

  /** `etl::imessage` of the non-virtual build: the id is a field. Its
      default constructor is deleted, so every constructor takes an id. */
  class IMessage {
    var id: MessageId

    /** `imessage(id_)`. */
    constructor (id0: MessageId)
      ensures id == id0
    {
      id := id0;
    }

    /** `imessage(const imessage& other)`: copies the id. */
    constructor CopyOf(other: IMessage)
      ensures id == other.id
    {
      id := other.id;
    }

    /** `imessage::operator=`: copies the id of `rhs` and returns the target. */
    method Assign(rhs: IMessage) returns (self: IMessage)
      modifies this
      ensures id == old(rhs.id)
      ensures self == this
    {
      id := rhs.id;
      self := this;
    }

    /** `imessage::get_message_id()`. */
    function GetMessageId(): MessageId
      reads this
    {
      id
    }
  }

  /** `etl::message<ID, TBase>` of the non-virtual build. The `imessage`
      base sub-object is the object `base`; `ID` is the static id. */
  class Message {
    const ID: MessageId
    const base: IMessage

    /** The invariant of every `message<ID>`: its stored id is `ID`. */
    ghost predicate Valid()
      reads this, base
    {
      base.id == ID
    }

    /** `message()`: constructs the base with `ID`. */
    constructor (id: MessageId)
      ensures ID == id && Valid() && fresh(base)
    {
      ID := id;
      base := new IMessage(id);
    }

    /** `message(const message&)`: the copy has the same type, and its base is
      constructed from `ID`, not from the id stored in `other`; so the copy
      is valid even when `other` is not. */
    constructor CopyOf(other: Message)
      ensures ID == other.ID && Valid() && fresh(base)
    {
      ID := other.ID;
      base := new IMessage(other.ID);
    }

    /** `message::operator=`: both sides have the same type; nothing is
      copied and the target is returned. */
    method Assign(rhs: Message) returns (self: Message)
      requires rhs.ID == ID
      ensures self == this
    {
      self := this;
    }

    /** `get_message_id()`, inherited from `imessage`: the stored id, which
      is `ID` while the invariant holds. */
    function GetMessageId(): (r: MessageId)
      reads this, base
      ensures Valid() ==> r == ID
    {
      base.GetMessageId()
    }

    /** `message::get_message_id()` of the virtual build, which stores no id
      and returns the static one. */
    function VirtualGetMessageId(): MessageId {
      ID
    }
  }

  /** The two builds agree: a valid object answers `get_message_id` with its
      static `ID` in both. */
  lemma BuildsAgree(m: Message)
    requires m.Valid()
    ensures m.GetMessageId() == m.VirtualGetMessageId() == m.ID
  {
  }

  /** Constructing, copying and assigning keep `get_message_id() == ID`:
      whatever the objects went through, each reports its own static id. */
  method MessageLifetime(id: MessageId) returns (fromDefault: MessageId, fromCopy: MessageId, afterAssign: MessageId)
    ensures fromDefault == id && fromCopy == id && afterAssign == id
  {
    var a := new Message(id);
    var b := new Message.CopyOf(a);
    var c := new Message(id);
    var r := c.Assign(b);
    fromDefault := a.GetMessageId();
    fromCopy := b.GetMessageId();
    afterAssign := r.GetMessageId();
  }
}
