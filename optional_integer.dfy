/** `optional_integer<Underlying, Tombstone>` (optional_integer.hpp): an
    integer that is "empty" when it holds a reserved tombstone value. */
module OptionalInteger {
  import opened Integers
  import opened Wrappers

  /** The default tombstone: the least value of a signed type, the greatest
      of an unsigned one. */
  function DefaultTombstone(t: IntType): (r: int)
    requires ValidType(t)
    ensures InRange(t, r)
    ensures forall v | InRange(t, v) :: if t.signed then r <= v else v <= r
  {
    if t.signed then Min(t) else Max(t)
  }

  class OptionalInteger {
    /** The template arguments: the underlying type and the tombstone. */
    const ty: IntType
    const tombstone: int
    /** `_value`. */
    var stored: int

    ghost predicate Valid()
      reads this
    {
      ValidType(ty) && InRange(ty, tombstone) && InRange(ty, stored)
    }

    /** What the optional holds: nothing when the stored value is the
        tombstone, the stored value otherwise. */
    function View(): Option<int>
      reads this
    {
      if stored == tombstone then None else Some(stored)
    }

    /** The default constructor and the `nullopt` one both store the
        tombstone. */
    constructor Empty(t: IntType, tomb: int)
      requires ValidType(t) && InRange(t, tomb)
      ensures Valid() && ty == t && tombstone == tomb
      ensures View() == None
    {
      ty, tombstone, stored := t, tomb, tomb;
    }

    /** `optional_integer(type value)`: the tombstone itself gives an empty
        optional. */
    constructor Of(t: IntType, tomb: int, v: int)
      requires ValidType(t) && InRange(t, tomb) && InRange(t, v)
      ensures Valid() && ty == t && tombstone == tomb && stored == v
      ensures View() == if v == tomb then None else Some(v)
    {
      ty, tombstone, stored := t, tomb, v;
    }

    /** The copy and move constructors. */
    constructor Copy(other: OptionalInteger)
      requires other.Valid()
      ensures Valid() && ty == other.ty && tombstone == other.tombstone
      ensures stored == other.stored && View() == other.View()
    {
      ty, tombstone, stored := other.ty, other.tombstone, other.stored;
    }

    /** `operator=(type value)`. */
    method AssignValue(v: int)
      requires Valid() && InRange(ty, v)
      modifies this
      ensures Valid() && stored == v
      ensures View() == if v == tombstone then None else Some(v)
    {
      stored := v;
    }

    /** `operator=(std::nullopt_t)`. */
    method AssignNullopt()
      requires Valid()
      modifies this
      ensures Valid() && stored == tombstone && View() == None
    {
      stored := tombstone;
    }

    /** The copy and move assignments, between optionals of one type. */
    method AssignFrom(other: OptionalInteger)
      requires Valid() && other.Valid() && other.ty == ty && other.tombstone == tombstone
      modifies this
      ensures Valid() && stored == old(other.stored) && View() == old(other.View())
    {
      stored := other.stored;
    }

    /** `has_value()` and `explicit operator bool`. */
    function HasValue(): (b: bool)
      reads this
      ensures b <==> View().Some?
    {
      stored != tombstone
    }

    /** `value()`: no check; on an empty optional it is the tombstone. */
    function Value(): (v: int)
      reads this
      ensures View().Some? ==> View() == Some(v)
      ensures View().None? ==> v == tombstone
    {
      stored
    }

    /** `value_or(def)`. */
    function ValueOr(def: int): (v: int)
      reads this
      ensures v == match View() case Some(x) => x case None => def
    {
      if HasValue() then stored else def
    }

    /** The const `operator*`: asserts a value is present, then `value()`. */
    function Deref(): (v: int)
      reads this
      requires HasValue()
      ensures View() == Some(v)
    {
      Value()
    }

    /** `operator==` and `operator!=` against an optional of the same type:
        comparing stored values is comparing what the two hold, two empty
        optionals included. */
    function Equals(other: OptionalInteger): (b: bool)
      reads this, other
      requires other.tombstone == tombstone
      ensures b <==> View() == other.View()
    {
      stored == other.stored
    }

    function NotEquals(other: OptionalInteger): (b: bool)
      reads this, other
      requires other.tombstone == tombstone
      ensures b <==> View() != other.View()
    {
      stored != other.stored
    }

    /** `operator==` and `operator!=` against a plain value: the tombstone
        compares equal to an empty optional. */
    function EqualsValue(v: int): (b: bool)
      reads this
      ensures b <==> if v == tombstone then View() == None else View() == Some(v)
    {
      stored == v
    }

    function NotEqualsValue(v: int): (b: bool)
      reads this
      ensures b <==> if v == tombstone then View() != None else View() != Some(v)
    {
      stored != v
    }

    /** `operator==` and `operator!=` against `nullopt`. */
    function EqualsNullopt(): (b: bool)
      reads this
      ensures b <==> View() == None
    {
      !HasValue()
    }

    function NotEqualsNullopt(): (b: bool)
      reads this
      ensures b <==> View() != None
    {
      HasValue()
    }
  }

  /** Assigning v to an optional and reading it back: `value()` gives v, and
      it has a value unless v is the tombstone. */
  method AssignThenRead(o: OptionalInteger, v: int) returns (present: bool, read: int)
    requires o.Valid() && InRange(o.ty, v)
    modifies o
    ensures present <==> v != o.tombstone
    ensures read == v && o.Valid()
  {
    o.AssignValue(v);
    present, read := o.HasValue(), o.Value();
  }

  /** A default-constructed optional of the default tombstone, then the value
      v assigned, then `nullopt`: empty, holding v, empty again. */
  method DefaultAssignReset(t: IntType, v: int) returns (first: Option<int>, second: Option<int>, third: Option<int>)
    requires ValidType(t) && InRange(t, v)
    ensures first == None && third == None
    ensures second == if v == DefaultTombstone(t) then None else Some(v)
  {
    var o := new OptionalInteger.Empty(t, DefaultTombstone(t));
    first := o.View();
    o.AssignValue(v);
    second := o.View();
    o.AssignNullopt();
    third := o.View();
  }
}
