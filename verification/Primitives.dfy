/** What the names of primitive types say about the types: their kinds and the sizes of their values. */
module Primitives {
  import opened Numbers
  import opened RosTimes
  import opened MsgTypes
  import opened Wire

  /** The name of a primitive type in a message definition. */
  function NameOf(t: Type): (name: string)
    requires IsFixed(t) || t == String
  {
    match t
    case RosBool => "bool"
    case Int8 => "int8"
    case UInt8 => "uint8"
    case Int16 => "int16"
    case UInt16 => "uint16"
    case Int32 => "int32"
    case UInt32 => "uint32"
    case Int64 => "int64"
    case UInt64 => "uint64"
    case Float32 => "float32"
    case Float64 => "float64"
    case String => "string"
    case RosTime => "time"
    case RosDuration => "duration"
  }

  /** A type is found under its name, and the two old names are those of the 8-bit integers. */
  lemma NamesFindTypes(t: Type)
    requires IsFixed(t) || t == String
    ensures NameOf(t) in PRIMITIVE_TYPE_MAP && PRIMITIVE_TYPE_MAP[NameOf(t)] == t
    ensures PRIMITIVE_TYPE_MAP["byte"] == Int8 && PRIMITIVE_TYPE_MAP["char"] == UInt8
  {
  }

  lemma OneDigitAtEnd(kind: string, a: char)
    requires kind != "" && !IsDigit(kind[|kind| - 1]) && IsDigit(a)
    ensures NumberAtEnd(kind) == 0 && NumberAtEnd(kind + [a]) == a as int - '0' as int
  {
    NumberSnoc(kind, a);
  }

  lemma TwoDigitsAtEnd(kind: string, a: char, b: char)
    requires kind != "" && !IsDigit(kind[|kind| - 1]) && IsDigit(a) && IsDigit(b)
    ensures NumberAtEnd(kind + [a, b]) == 10 * (a as int - '0' as int) + (b as int - '0' as int)
  {
    OneDigitAtEnd(kind, a);
    NumberSnoc(kind + [a], b);
    assert kind + [a] + [b] == kind + [a, b];
  }

  lemma BitsOfKind(kind: string)
    requires kind in {"int", "uint", "float"}
    ensures NumberAtEnd(kind + "8") == 8 && NumberAtEnd(kind + "16") == 16
    ensures NumberAtEnd(kind + "32") == 32 && NumberAtEnd(kind + "64") == 64
  {
    assert !IsDigit(kind[|kind| - 1]);
    OneDigitAtEnd(kind, '8');
    TwoDigitsAtEnd(kind, '1', '6');
    TwoDigitsAtEnd(kind, '3', '2');
    TwoDigitsAtEnd(kind, '6', '4');
  }

  /** The number of bits in the name of a type, if there is one. */
  lemma BitsInNames(t: Type)
    requires IsFixed(t)
    ensures
      NumberAtEnd(NameOf(t)) == 8 * SizeOf(t) || (NumberAtEnd(NameOf(t)) == 0 && t in {RosBool, RosTime, RosDuration})
  {
    BitsOfKind("int");
    BitsOfKind("uint");
    BitsOfKind("float");
    assert "int" + "8" == "int8" && "int" + "16" == "int16" && "int" + "32" == "int32" && "int" + "64" == "int64";
    assert "uint" + "8" == "uint8" && "uint" + "16" == "uint16" && "uint" + "32" == "uint32";
    assert "uint" + "64" == "uint64" && "float" + "32" == "float32" && "float" + "64" == "float64";
    assert !IsDigit("bool"[3]) && !IsDigit("time"[3]) && !IsDigit("duration"[7]);
  }

  /** Whatever a field of a primitive type holds: a value has as many bits as the name of the type says, a bool and the
      two old types have one byte, and a time and a duration have the bytes of a timestamp. */
  lemma NamedSizes(env: Definitions, name: string, fieldName: string, v: Value)
    requires name in PRIMITIVE_TYPE_MAP && Admits(env, FieldOf(FieldInfo(name, 0, fieldName)), v)
    ensures NumberAtEnd(name) > 0 ==> v.Scalar? && 8 * |v.bytes| == NumberAtEnd(name)
    ensures name in {"bool", "byte", "char"} ==> v.Scalar? && |v.bytes| == 1
    ensures name in {"time", "duration"} ==> v.Scalar? && forall t: Time :: |TimeBytes(t)| == |v.bytes|
  {
    hide NumberAtEnd, AdmitsAll;
    var t := PRIMITIVE_TYPE_MAP[name];
    NamesAreKnown(name);
    if IsFixed(t) && NameOf(t) == name {
      BitsInNames(t);
    }
    assert NumberAtEnd("byte") == NumberAtEnd("char") == NumberAtEnd("string") == 0 by { NoBits(); }
  }

  lemma NoBits()
    ensures NumberAtEnd("byte") == NumberAtEnd("char") == NumberAtEnd("string") == 0
  {
    assert !IsDigit("byte"[3]) && !IsDigit("char"[3]) && !IsDigit("string"[5]);
  }

  /** Every name is that of its type, but for the two old ones. */
  lemma NamesAreKnown(name: string)
    requires name in PRIMITIVE_TYPE_MAP
    ensures IsFixed(PRIMITIVE_TYPE_MAP[name]) || name == "string"
    ensures NameOf(PRIMITIVE_TYPE_MAP[name]) == name || name in {"byte", "char"}
  {
  }
}
