/** The type vocabulary of ports and casts. */
module PortTypes {
  import opened Wrappers

  datatype PortType =
    | U64 | F64 | U32 | I32 | I64 | F32 | U8 | I8 | U16 | I16 | F16 | U128 | I128
    | Reg128 | RegI8x16 | RegI16x8 | RegI32x4 | RegI64x2 | RegF16x8 | RegF32x4 | RegF64x2
    | Bool | Str | Bytes | Json | Ext | Handle
    | VecF32 | VecI32 | VecF64 | VecI64 | VecF16 | VecI16 | VecI8
    | Dyn

  function ToKeyword(t: PortType): string {
    match t
    case U64 => "u64"
    case F64 => "f64"
    case U32 => "u32"
    case I32 => "i32"
    case I64 => "i64"
    case F32 => "f32"
    case U8 => "u8"
    case I8 => "i8"
    case U16 => "u16"
    case I16 => "i16"
    case F16 => "f16"
    case U128 => "u128"
    case I128 => "i128"
    case Reg128 => "reg128"
    case RegI8x16 => "reg_i8x16"
    case RegI16x8 => "reg_i16x8"
    case RegI32x4 => "reg_i32x4"
    case RegI64x2 => "reg_i64x2"
    case RegF16x8 => "reg_f16x8"
    case RegF32x4 => "reg_f32x4"
    case RegF64x2 => "reg_f64x2"
    case Bool => "bool"
    case Str => "str"
    case Bytes => "bytes"
    case Json => "json"
    case Ext => "ext"
    case Handle => "handle"
    case VecF32 => "vec_f32"
    case VecI32 => "vec_i32"
    case VecF64 => "vec_f64"
    case VecI64 => "vec_i64"
    case VecF16 => "vec_f16"
    case VecI16 => "vec_i16"
    case VecI8 => "vec_i8"
    case Dyn => "dyn"
  }

  function FromKeyword(name: string): Option<PortType> {
    if name == "u64" then Some(U64)
    else if name == "f64" then Some(F64)
    else if name == "u32" then Some(U32)
    else if name == "i32" then Some(I32)
    else if name == "i64" then Some(I64)
    else if name == "f32" then Some(F32)
    else if name == "u8" then Some(U8)
    else if name == "i8" then Some(I8)
    else if name == "u16" then Some(U16)
    else if name == "i16" then Some(I16)
    else if name == "f16" then Some(F16)
    else if name == "u128" then Some(U128)
    else if name == "i128" then Some(I128)
    else if name == "reg128" then Some(Reg128)
    else if name == "reg_i8x16" then Some(RegI8x16)
    else if name == "reg_i16x8" then Some(RegI16x8)
    else if name == "reg_i32x4" then Some(RegI32x4)
    else if name == "reg_i64x2" then Some(RegI64x2)
    else if name == "reg_f16x8" then Some(RegF16x8)
    else if name == "reg_f32x4" then Some(RegF32x4)
    else if name == "reg_f64x2" then Some(RegF64x2)
    else if name == "bool" then Some(Bool)
    else if name == "str" || name == "Str" || name == "String" then Some(Str)
    else if name == "bytes" then Some(Bytes)
    else if name == "json" || name == "Json" then Some(Json)
    else if name == "ext" || name == "Ext" then Some(Ext)
    else if name == "handle" then Some(Handle)
    else if name == "vec_f32" then Some(VecF32)
    else if name == "vec_i32" then Some(VecI32)
    else if name == "vec_f64" then Some(VecF64)
    else if name == "vec_i64" then Some(VecI64)
    else if name == "vec_f16" then Some(VecF16)
    else if name == "vec_i16" then Some(VecI16)
    else if name == "vec_i8" then Some(VecI8)
    else if name == "dyn" then Some(Dyn)
    else None
  }
}
