/** BoolToDecimalConverter (Dal/Context/Converter.cs): the value conversion between a
    nullable boolean property and a nullable decimal column. A decimal is an exact
    number, so it is a `real` here; None is null. */
module Converter {
  import opened Common

  /** To the column: true is 1, false and null are 0. */
  function ToProvider(v: Option<bool>): (d: Option<real>)
    ensures d.Some?
    ensures d.value == 1.0 <==> v == Some(true)
    ensures d.value == 0.0 <==> v != Some(true)
  {
    if v.Some? then Some(if v.value then 1.0 else 0.0) else Some(0.0)
  }

  /** From the column: any non-zero value is true, zero and null are false. */
  function FromProvider(d: Option<real>): (v: Option<bool>)
    ensures v.Some?
    ensures v.value <==> d.Some? && d.value != 0.0
  {
    if d.Some? then Some(d.value != 0.0) else Some(false)
  }

  /** A stored boolean reads back as itself. */
  lemma RoundTrip(b: bool)
    ensures FromProvider(ToProvider(Some(b))) == Some(b)
  {
  }

  /** Neither direction yields null, so null is not preserved: it is stored as 0 and
      reads back as false. */
  lemma NullNotPreserved()
    ensures ToProvider(None) == Some(0.0)
    ensures FromProvider(ToProvider(None)) == Some(false)
    ensures forall v :: ToProvider(v) != None
    ensures forall d :: FromProvider(d) != None
  {
  }

  /** Reading a column value and storing it back normalises it to 0 or 1. */
  lemma ColumnNormalised(d: Option<real>)
    ensures ToProvider(FromProvider(d)) == Some(if d.Some? && d.value != 0.0 then 1.0 else 0.0)
  {
  }
}
