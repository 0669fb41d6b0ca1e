/**
 * The runtime value the virtual machine works on. src/value.rs defines only a bare
 * f64 wrapper; vm.rs uses a value with Nil and Bool kinds and checked arithmetic,
 * equality and ordering that src/value.rs does not define (the program has no other
 * value module). The Number payload is the bit
 * pattern of an IEEE 754 binary64 and is never interpreted here.
 */
module Values {
  import opened Wrappers

  datatype Value = Nil | Bool(b: bool) | Number(bits: bv64)

  /**
   * The operations vm.rs applies to values (`checked_add`, `checked_sub`,
   * `checked_mul`, `checked_div`, `checked_neg`, `==`, `>` and `<`), left
   * uninterpreted: the machine receives them as a parameter.
   */
  datatype ValueOps = ValueOps(
    checkedAdd: (Value, Value) -> Result<Value, ()>,
    checkedSub: (Value, Value) -> Result<Value, ()>,
    checkedMul: (Value, Value) -> Result<Value, ()>,
    checkedDiv: (Value, Value) -> Result<Value, ()>,
    checkedNeg: Value -> Result<Value, ()>,
    equal: (Value, Value) -> bool,
    greater: (Value, Value) -> bool,
    less: (Value, Value) -> bool)
}
