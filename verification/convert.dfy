/** Conversion of a stored value into the declared type of the field it is
    injected into (the `value` tag strategy of the resolver). */
module Convert {
  import opened Base
  import opened Descriptors
  import Strconv

  datatype ConvError =
    | NotConvertible    // a parse error, or a non-string value of a type that does not convert
    | UnsupportedKind   // a string value meets a field kind no parser handles: reflect panics on a zero Value
    | NamedString       // a value of a named string type meets a parsed kind: its assertion to string panics

  /** Whether a field value has the declared type of the field: the shape
      that goes with the field's kind, and a number within its bit size. */
  ghost predicate Fits(u: Universe, fv: FieldVal, ft: FieldType) {
    match fv
    case StrV(_) => !ft.isPointer && ft.base.kind == StringKind
    case IntV(i) =>
      !ft.isPointer && ft.base.kind.IntKind? &&
      -(Strconv.Pow2(ft.base.kind.bits - 1) as int) <= i < Strconv.Pow2(ft.base.kind.bits - 1)
    case UintV(n) => !ft.isPointer && ft.base.kind.UintKind? && n < Strconv.Pow2(ft.base.kind.bits)
    case BoolV(_) => !ft.isPointer && ft.base.kind == BoolKind
    case FloatV(_) => !ft.isPointer && ft.base.kind.FloatKind?
    case ConvertedV(v, to) =>
      to == ft && v.TypedVal? &&
      ((v.ty, ft) in u.convertible || (v.ty.kind == StringKind && !ft.isPointer && ft.base.kind == StringKind))
    case _ => false
  }

  /** The value written into a field of type ft for stored value v. A string
      is parsed according to the field's kind; a value of a named string
      type is kept (converted) in a string field only; any other value must
      be convertible to the field's type. */
  function ConvertValue(u: Universe, v: Val, ft: FieldType): (r: Result<FieldVal, ConvError>)
    ensures r.Ok? ==> Fits(u, r.value, ft)
  {
    match v
    case StrVal(s) =>
      if ft.isPointer then Err(UnsupportedKind)
      else
        (match ft.base.kind
        case StringKind => Ok(StrV(s))
        case IntKind(bits) =>
          (match Strconv.ParseInt(s, bits)
           case Some(i) => Ok(IntV(i))
           case None => Err(NotConvertible))
        case UintKind(bits) =>
          (match Strconv.ParseUint(s, bits)
           case Some(n) => Ok(UintV(n))
           case None => Err(NotConvertible))
        case BoolKind =>
          (match Strconv.ParseBool(s)
           case Some(b) => Ok(BoolV(b))
           case None => Err(NotConvertible))
        case FloatKind(bits) =>
          if (s, bits) in u.floats then Ok(FloatV(u.floats[(s, bits)])) else Err(NotConvertible)
        case _ => Err(UnsupportedKind))
    case TypedVal(t, _) =>
      if t.kind == StringKind then
        if ft.isPointer then Err(UnsupportedKind)
        else
          (match ft.base.kind
          case StringKind => Ok(ConvertedV(v, ft))
          case IntKind(_) => Err(NamedString)
          case UintKind(_) => Err(NamedString)
          case BoolKind => Err(NamedString)
          case FloatKind(_) => Err(NamedString)
          case _ => Err(UnsupportedKind))
      else if (t, ft) in u.convertible then Ok(ConvertedV(v, ft))
      else Err(NotConvertible)
  }

  /** Which values of string kind are parsed, kept or refused: a string
      into a string field is kept; a value of string kind (named or not)
      into a pointer, struct, interface or other kind is unsupported; a
      named string into a string field is always accepted, and into a
      numeric or boolean field never; a value of another kind converts
      exactly when the type system allows it. */
  lemma {:induction false} ConvertValueSpec(u: Universe, v: Val, ft: FieldType)
    ensures v.StrVal? && !ft.isPointer && ft.base.kind == StringKind ==> ConvertValue(u, v, ft) == Ok(StrV(v.s))
    ensures IsStringKind(v) && (ft.isPointer || ft.base.kind in {StructKind, InterfaceKind, OtherKind}) ==>
              ConvertValue(u, v, ft) == Err(UnsupportedKind)
    ensures v.TypedVal? && v.ty.kind == StringKind && !ft.isPointer ==>
              (ConvertValue(u, v, ft).Ok? <==> ft.base.kind == StringKind) &&
              (ft.base.kind.IntKind? || ft.base.kind.UintKind? || ft.base.kind == BoolKind || ft.base.kind.FloatKind? ==>
                 ConvertValue(u, v, ft) == Err(NamedString))
    ensures !IsStringKind(v) ==> (ConvertValue(u, v, ft).Ok? <==> (v.ty, ft) in u.convertible)
  {
  }

  /** Whether the stored value's type has string kind (the test the
      resolver makes before parsing). */
  predicate IsStringKind(v: Val) {
    v.StrVal? || v.ty.kind == StringKind
  }

  /** Into a sized integer field, every in-range decimal spelling converts to
      its number, and a spelling that ParseInt rejects is a conversion error. */
  lemma {:induction false} IntFieldConversion(u: Universe, s: string, ft: FieldType)
    requires !ft.isPointer && ft.base.kind.IntKind?
    ensures ConvertValue(u, StrVal(s), ft).Ok? <==> Strconv.ParseInt(s, ft.base.kind.bits).Some?
    ensures forall i :: -(Strconv.Pow2(ft.base.kind.bits - 1) as int) <= i < Strconv.Pow2(ft.base.kind.bits - 1) ==>
              ConvertValue(u, StrVal(Strconv.FormatInt(i)), ft) == Ok(IntV(i))
  {
    forall i | -(Strconv.Pow2(ft.base.kind.bits - 1) as int) <= i < Strconv.Pow2(ft.base.kind.bits - 1)
      ensures ConvertValue(u, StrVal(Strconv.FormatInt(i)), ft) == Ok(IntV(i))
    {
      Strconv.ParseIntFormat(i, ft.base.kind.bits);
    }
  }

  /** The same for unsigned fields, whose parser accepts no sign. */
  lemma {:induction false} UintFieldConversion(u: Universe, s: string, ft: FieldType)
    requires !ft.isPointer && ft.base.kind.UintKind?
    ensures ConvertValue(u, StrVal(s), ft).Ok? <==> Strconv.ParseUint(s, ft.base.kind.bits).Some?
    ensures forall n: nat :: n < Strconv.Pow2(ft.base.kind.bits) ==>
              ConvertValue(u, StrVal(Strconv.Format(n)), ft) == Ok(UintV(n))
  {
    forall n: nat | n < Strconv.Pow2(ft.base.kind.bits)
      ensures ConvertValue(u, StrVal(Strconv.Format(n)), ft) == Ok(UintV(n))
    {
      Strconv.ParseUintFormat(n, ft.base.kind.bits);
    }
  }

  /** The value "8080" injected into an int field gives the integer 8080;
      the value "abc" is a conversion error. */
  lemma {:induction false} PortScenario(u: Universe, ft: FieldType)
    requires ft == FieldType(false, GoType(0, "", "int", IntKind(64)))
    ensures ConvertValue(u, StrVal("8080"), ft) == Ok(IntV(8080))
    ensures ConvertValue(u, StrVal("abc"), ft) == Err(NotConvertible)
  {
    assert Strconv.FormatInt(8080) == "8080" by {
      assert Strconv.Format(8) == "8";
      assert Strconv.Format(80) == "80";
      assert Strconv.Format(808) == "808";
    }
    assert Strconv.Pow2(13) == 8192 by {
      assert Strconv.Pow2(1) == 2;
      assert Strconv.Pow2(3) == 8;
      assert Strconv.Pow2(5) == 32;
      assert Strconv.Pow2(7) == 128;
      assert Strconv.Pow2(9) == 512;
      assert Strconv.Pow2(11) == 2048;
    }
    Strconv.Pow2Monotone(13, 63);
    Strconv.ParseIntFormat(8080, 64);
    Strconv.RejectsNonDigit("abc", 0, 64);
  }
}
