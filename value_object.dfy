/** The mutating half of `plist::Value`: an object whose one field, the
    active alternative, is replaced by assignment and changed in place by the
    auto-inserting and auto-extending subscripts, `resize` and `pushBack`. */
module PlistValueObject {
  import opened PlistValue

  /** `static_cast<std::int64_t>(x)` from any integral type: the value
      modulo 2^64, read in two's complement. Values already in range are
      kept. */
  function WrapInt64(x: int): (r: int64)
    ensures (r as int - x) % 0x1_0000_0000_0000_0000 == 0
    ensures -0x8000_0000_0000_0000 <= x < 0x8000_0000_0000_0000 ==> r as int == x
  {
    var y := x % 0x1_0000_0000_0000_0000;
    if y >= 0x8000_0000_0000_0000 then (y - 0x1_0000_0000_0000_0000) as int64 else y as int64
  }

  /** The entries of a Dictionary after the mutable `operator[](key)`: an
      existing entry is kept as it is; a missing key is added, mapped to the
      default value (an empty Dictionary). No other entry changes. */
  function InsertMember(m: map<string, Value>, key: string): (r: map<string, Value>)
    ensures key in r
    ensures key in m ==> r == m
    ensures key !in m ==> r[key] == Default && |r| == |m| + 1
    ensures forall k | k != key :: (k in r <==> k in m)
    ensures forall k | k != key && k in m :: r[k] == m[k]
  {
    if key in m then m
    else
      var r := m[key := Default];
      assert r.Keys == m.Keys + {key};
      r
  }

  /** `std::vector::resize(n)`: the first `min(n, |a|)` elements are kept,
      and new slots hold the default value. */
  function Resized(a: seq<Value>, n: nat): (r: seq<Value>)
    ensures |r| == n
    ensures forall j | 0 <= j < n && j < |a| :: r[j] == a[j]
    ensures forall j | |a| <= j < n :: r[j] == Default
  {
    if n <= |a| then a[..n] else a + seq(n - |a|, _ => Default)
  }

  /** The elements of an Array after the mutable `operator[](index)`: grown
      to `index + 1` elements when the index is past the end, unchanged
      otherwise. */
  function Extended(a: seq<Value>, index: nat): (r: seq<Value>)
    ensures |r| == if index < |a| then |a| else index + 1
    ensures index < |r|
    ensures r[..|a|] == a
    ensures forall j | |a| <= j < |r| :: r[j] == Default
  {
    if index >= |a| then Resized(a, index + 1) else a
  }

  /** Mutable access to a slot that already exists changes nothing; only an
      index past the end grows the array, and only with default values. */
  lemma ExtendedIdentity(a: seq<Value>, index: nat)
    ensures Extended(a, index) == a <==> index < |a|
  {
  }

  /** A value object: `value` is the active alternative of the variant. */
  class MutableValue {
    var value: Value

    /** `Value()`: an empty Dictionary. */
    constructor ()
      ensures value == Default
    {
      value := Default;
    }

    /** The converting constructors, one per alternative. */
    constructor FromValue(v: Value)
      ensures value == v
    {
      value := v;
    }

    /** The typed assignments: the alternative is switched and the payload
        replaced, whatever was stored before. */
    method Assign(v: Value)
      modifies this
      ensures value == v
    {
      value := v;
    }

    /** Assignment from any integral type other than `bool`. */
    method AssignIntegral(x: int)
      modifies this
      ensures value == Integer(WrapInt64(x))
      ensures value.Integer? && (value.integer as int - x) % 0x1_0000_0000_0000_0000 == 0
    {
      value := Integer(WrapInt64(x));
    }

    /** The mutable `operator[](key)`: returns the entry, inserting a
        default value for a missing key; a TypeError, with nothing changed,
        when the value is not a Dictionary. */
    method Member(key: string) returns (r: Result<Value>)
      modifies this
      ensures old(value).Dictionary? ==>
        value == Dictionary(InsertMember(old(value).entries, key)) &&
        r == Ok(value.entries[key]) &&
        HasMember(value, key) == Ok(true)
      ensures old(value).Dictionary? && key in old(value).entries ==>
        value == old(value) && r == Ok(old(value).entries[key])
      ensures !old(value).Dictionary? ==> value == old(value) && r == Err(TypeError)
    {
      match value
      case Dictionary(m) =>
        if key in m {
          r := Ok(m[key]);
        } else {
          value := Dictionary(InsertMember(m, key));
          r := Ok(Default);
        }
      case _ =>
        r := Err(TypeError);
    }

    /** The mutable `operator[](index)`: returns the element, first growing
        the array to `index + 1` elements when the index is past the end; a
        TypeError, with nothing changed, when the value is not an Array. */
    method Element(index: nat) returns (r: Result<Value>)
      modifies this
      ensures old(value).Array? ==>
        value == Array(Extended(old(value).elements, index)) &&
        r == Ok(value.elements[index])
      ensures !old(value).Array? ==> value == old(value) && r == Err(TypeError)
    {
      match value
      case Array(a) =>
        if index >= |a| {
          value := Array(Resized(a, index + 1));
        }
        r := Ok(value.elements[index]);
      case _ =>
        r := Err(TypeError);
    }

    /** `resize(size)`. */
    method Resize(size: nat) returns (r: Result<()>)
      modifies this
      ensures old(value).Array? ==> value == Array(Resized(old(value).elements, size)) && r == Ok(())
      ensures !old(value).Array? ==> value == old(value) && r == Err(TypeError)
    {
      match value
      case Array(a) =>
        value := Array(Resized(a, size));
        r := Ok(());
      case _ =>
        r := Err(TypeError);
    }

    /** `pushBack(const Value&)`: appends to an Array. */
    method PushBack(v: Value) returns (r: Result<()>)
      modifies this
      ensures old(value).Array? ==> value == Array(old(value).elements + [v]) && r == Ok(())
      ensures !old(value).Array? ==> value == old(value) && r == Err(TypeError)
    {
      match value
      case Array(a) =>
        value := Array(a + [v]);
        r := Ok(());
      case _ =>
        r := Err(TypeError);
    }

    /** `pushBack(std::byte)`: appends to a Data blob. */
    method PushBackByte(b: byte) returns (r: Result<()>)
      modifies this
      ensures old(value).Data? ==> value == Data(old(value).bytes + [b]) && r == Ok(())
      ensures !old(value).Data? ==> value == old(value) && r == Err(TypeError)
    {
      match value
      case Data(bs) =>
        value := Data(bs + [b]);
        r := Ok(());
      case _ =>
        r := Err(TypeError);
    }
  }

  /** Auto-extension from an empty array: writing slot 2 leaves an array of
      three elements whose first two are empty Dictionaries. */
  method AutoExtendExample(x: Value)
  {
    var arr := new MutableValue.FromValue(Array([]));
    var slot := arr.Element(2);
    assert arr.value.elements[0] == Default && arr.value.elements[1] == Default;
    var elements := arr.value.elements;
    arr.Assign(Array(elements[2 := x]));
    assert GetSize(arr.value) == Ok(3);
    assert ElementAt(arr.value, 2) == Ok(x);
    assert ElementAt(arr.value, 0) == Ok(Default);
  }

  /** Keys inserted out of order are all present afterwards, each with the
      value written to it, and reading a key that was never inserted fails
      with RangeError while reading from a Boolean fails with TypeError. */
  method MemberExample()
  {
    var d := new MutableValue();
    var b := d.Member("b");
    d.Assign(Dictionary(d.value.entries["b" := Integer(2)]));
    var a := d.Member("a");
    d.Assign(Dictionary(d.value.entries["a" := Integer(1)]));
    assert HasMember(d.value, "a") == Ok(true) && HasMember(d.value, "b") == Ok(true);
    assert MemberAt(d.value, "a") == Ok(Integer(1));
    assert MemberAt(d.value, "missing") == Err(RangeError);
    var flag := new MutableValue.FromValue(Boolean(true));
    var pushed := flag.PushBack(Integer(0));
    assert pushed == Err(TypeError);
    assert GetSize(flag.value) == Err(TypeError);
  }
}
