/** `FieldElement<F>` over `F = U64Field<MODULUS>`: a single stored value.
    The operators on references build a new element from the field operation
    on the two stored values; the assigning operators overwrite the element
    on the left. */
module Element {
  import opened U64Field

  class FieldElement {
    /** The `MODULUS` of the field type the element belongs to. */
    const modulus: U64
    /** The stored value; nothing forces it below the modulus. */
    var value: U64

    /** `From<&BaseType>`: the value is stored as given, unreduced. */
    constructor FromBase(modulus: U64, value: U64)
      ensures this.modulus == modulus && this.value == value
    {
      this.modulus := modulus;
      this.value := value;
    }

    /** `From<u64>`: the value goes through `from_u64`, which reduces it. */
    constructor FromU64(modulus: U64, x: U64)
      requires modulus > 0
      ensures this.modulus == modulus && this.value == U64Field.FromU64(modulus, x)
    {
      this.modulus := modulus;
      this.value := U64Field.FromU64(modulus, x);
    }

    /** `&self + &other`. */
    method Plus(other: FieldElement) returns (r: FieldElement)
      requires modulus > 0 && other.modulus == modulus
      ensures fresh(r) && r.modulus == modulus
      ensures r.value == Add(modulus, value, other.value)
    {
      r := new FieldElement.FromBase(modulus, Add(modulus, value, other.value));
    }

    /** `&self - &other`. */
    method Minus(other: FieldElement) returns (r: FieldElement)
      requires modulus > 0 && other.modulus == modulus && other.value <= value + modulus
      ensures fresh(r) && r.modulus == modulus
      ensures r.value == Sub(modulus, value, other.value)
    {
      r := new FieldElement.FromBase(modulus, Sub(modulus, value, other.value));
    }

    /** `&self * &other`. */
    method Times(other: FieldElement) returns (r: FieldElement)
      requires modulus > 0 && other.modulus == modulus
      ensures fresh(r) && r.modulus == modulus
      ensures r.value == Mul(modulus, value, other.value)
    {
      r := new FieldElement.FromBase(modulus, Mul(modulus, value, other.value));
    }

    /** `-&self`. */
    method Negated() returns (r: FieldElement)
      requires value <= modulus
      ensures fresh(r) && r.modulus == modulus
      ensures r.value == Neg(modulus, value)
    {
      r := new FieldElement.FromBase(modulus, Neg(modulus, value));
    }

    /** `*self += &other`. */
    method AddAssign(other: FieldElement)
      requires modulus > 0 && other.modulus == modulus
      modifies this
      ensures value == Add(modulus, old(value), old(other.value))
    {
      value := Add(modulus, value, other.value);
    }

    /** `*self -= &other`. */
    method SubAssign(other: FieldElement)
      requires modulus > 0 && other.modulus == modulus && other.value <= value + modulus
      modifies this
      ensures value == Sub(modulus, old(value), old(other.value))
    {
      value := Sub(modulus, value, other.value);
    }

    /** `*self *= &other`. */
    method MulAssign(other: FieldElement)
      requires modulus > 0 && other.modulus == modulus
      modifies this
      ensures value == Mul(modulus, old(value), old(other.value))
    {
      value := Mul(modulus, value, other.value);
    }

    /** `PartialEq`: `eq` on the stored values. */
    method Equals(other: FieldElement) returns (r: bool)
      ensures r <==> value == other.value
    {
      r := Eq(value, other.value);
    }
  }

  // ---------------------------------------------------------------------
  // The operations agree with their assigning forms

  /** `a += &b` leaves `a` equal to what `&a + &b` returned, and leaves `b`
      as it was. */
  method PlusMatchesAddAssign(a: FieldElement, b: FieldElement) returns (sum: FieldElement)
    requires a != b && a.modulus > 0 && b.modulus == a.modulus
    modifies a
    ensures a.value == sum.value && b.value == old(b.value)
  {
    sum := a.Plus(b);
    a.AddAssign(b);
  }

  /** `a -= &b` leaves `a` equal to what `&a - &b` returned. */
  method MinusMatchesSubAssign(a: FieldElement, b: FieldElement) returns (difference: FieldElement)
    requires a != b && a.modulus > 0 && b.modulus == a.modulus && b.value <= a.value + a.modulus
    modifies a
    ensures a.value == difference.value && b.value == old(b.value)
  {
    difference := a.Minus(b);
    a.SubAssign(b);
  }

  /** `a *= &b` leaves `a` equal to what `&a * &b` returned. */
  method TimesMatchesMulAssign(a: FieldElement, b: FieldElement) returns (product: FieldElement)
    requires a != b && a.modulus > 0 && b.modulus == a.modulus
    modifies a
    ensures a.value == product.value && b.value == old(b.value)
  {
    product := a.Times(b);
    a.MulAssign(b);
  }

  // ---------------------------------------------------------------------
  // The element tests, in the field with modulus 2^64 - 2^32 + 1

  /** 10 + 10 = 20, by `+` and by `+=`, and both compare equal to 20. */
  method AddTwenty() returns (sum: U64, inPlace: U64, same: bool)
    ensures sum == 20 && inPlace == 20 && same
  {
    var a := new FieldElement.FromU64(Goldilocks, 10);
    var b := new FieldElement.FromU64(Goldilocks, 10);
    var c := a.Plus(b);
    var twenty := new FieldElement.FromU64(Goldilocks, 20);
    same := c.Equals(twenty);
    sum := c.value;
    a.AddAssign(b);
    inPlace := a.value;
  }

  /** 10 - 5 = 5, by `-` and by `-=`. */
  method SubFive() returns (difference: U64, inPlace: U64, same: bool)
    ensures difference == 5 && inPlace == 5 && same
  {
    var a := new FieldElement.FromU64(Goldilocks, 10);
    var b := new FieldElement.FromU64(Goldilocks, 5);
    var c := a.Minus(b);
    var five := new FieldElement.FromU64(Goldilocks, 5);
    same := c.Equals(five);
    difference := c.value;
    a.SubAssign(b);
    inPlace := a.value;
  }

  /** The negation of the modulus minus one is one. */
  method NegOne() returns (negated: U64, same: bool)
    ensures negated == 1 && same
  {
    var a := new FieldElement.FromU64(Goldilocks, 18446744069414584320);
    var c := a.Negated();
    var one := new FieldElement.FromU64(Goldilocks, 1);
    same := c.Equals(one);
    negated := c.value;
  }

  /** 14 * 14 = 196, by `*` and by `*=`. */
  method MulSquare() returns (product: U64, inPlace: U64, same: bool)
    ensures product == 196 && inPlace == 196 && same
  {
    var a := new FieldElement.FromU64(Goldilocks, 14);
    var b := new FieldElement.FromU64(Goldilocks, 14);
    var c := a.Times(b);
    var expected := new FieldElement.FromU64(Goldilocks, 196);
    same := c.Equals(expected);
    product := c.value;
    a.MulAssign(b);
    inPlace := a.value;
  }
}
