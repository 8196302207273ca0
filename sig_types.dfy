// Element types of signatures (section II.23.1.16 of ECMA-335) and the
// SigType that wraps one. The SigType and CilElementType classes themselves
// are not part of this model; only the element types the modelled code names
// are spelled out.
module SigTypes {
  datatype CilElementType =
    | I1 | I2 | I4 | I8 | I | R4 | R8
    | Object | Ptr | Class | ValueType | GenericInst
      /** Any other element type, by its ECMA-335 code. */
    | OtherElement(code: int)

  /** A signature type; two SigTypes with the same element type compare equal. */
  datatype SigType = SigType(element: CilElementType)
}
