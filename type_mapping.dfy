/** TypeMapping: the kind of a Java value to a JDBC type (`toSQLType`) and a
    JDBC type back to the Java class its values take (`toJavaType`). */
module TypeMappings {
  import opened Outcomes

  /** A Java class. `UtilDate` is `java.util.Date` or any subclass other
      than the three of `java.sql`; `OtherClass` is any class not listed. */
  datatype JavaClass =
    | StringClass | IntegerClass | LongClass | ByteClass | ShortClass
    | DoubleClass | FloatClass | CharacterClass | BooleanClass
    | TimeClass | TimestampClass | SqlDateClass | UtilDate | ByteArrayClass
    | ObjectClass
    | OtherClass(name: string)

  /** A non-null value: its runtime class and what its `toString()` gives. */
  datatype JavaValue = JavaValue(cls: JavaClass, text: string)

  /** The constants of `java.sql.JDBCType`. */
  datatype JdbcType =
    | Bit | TinyInt | SmallInt | Integer | BigInt | Float | Real | Double | Numeric | Decimal
    | Char | VarChar | LongVarChar | Date | Time | Timestamp | Binary | VarBinary | LongVarBinary
    | Null | Other | JavaObject | Distinct | Struct | SqlArray | Blob | Clob | Ref | DataLink
    | Boolean | RowId | NChar | NVarChar | LongNVarChar | NClob | SqlXml | RefCursor
    | TimeWithTimezone | TimestampWithTimezone

  /** An `SQLType`: a JDBCType constant or a vendor's own implementation. */
  datatype SqlType = Jdbc(t: JdbcType) | VendorType(name: string)

  /** `instanceof java.util.Date` */
  predicate IsDate(c: JavaClass)
  {
    c == TimeClass || c == TimestampClass || c == SqlDateClass || c == UtilDate
  }

  /** `toSQLType(obj)`; `None` is a null value. */
  function ToSqlType(obj: Option<JavaValue>): Result<JdbcType>
  {
    if obj.None? then Failure(IllegalArgument("Unsupported:null"))
    else match obj.value.cls
      case StringClass => Success(VarChar)
      case IntegerClass => Success(Integer)
      case LongClass => Success(BigInt)
      case ByteClass => Success(TinyInt)
      case ShortClass => Success(SmallInt)
      case DoubleClass => Success(Double)
      case FloatClass => Success(Float)
      case CharacterClass => Success(Char)
      case BooleanClass => Success(Boolean)
      case TimeClass => Success(Time)
      case TimestampClass => Success(Timestamp)
      case SqlDateClass => Success(Date)
      case UtilDate => Success(Date)
      case ByteArrayClass => Success(Binary)
      case _ => Failure(IllegalArgument("Unsupported:" + obj.value.text))
  }

  /** `toJavaType(sqlType)`; `None` is the null returned for NULL. */
  function ToJavaType(t: SqlType): Option<JavaClass>
  {
    if t.VendorType? then Some(ObjectClass)
    else match t.t
      case Bit => Some(BooleanClass)
      case Boolean => Some(BooleanClass)
      case VarChar => Some(StringClass)
      case NVarChar => Some(StringClass)
      case Integer => Some(IntegerClass)
      case BigInt => Some(LongClass)
      case Numeric => Some(LongClass)
      case Decimal => Some(LongClass)
      case Double => Some(DoubleClass)
      case Real => Some(DoubleClass)
      case Float => Some(FloatClass)
      case Binary => Some(ByteArrayClass)
      case Timestamp => Some(TimestampClass)
      case Time => Some(TimeClass)
      case Date => Some(SqlDateClass)
      case Char => Some(CharacterClass)
      case NChar => Some(CharacterClass)
      case Null => None
      case TinyInt => Some(ByteClass)
      case SmallInt => Some(ShortClass)
      case _ => Some(ObjectClass)
  }

  /** The classes `toSQLType` accepts. */
  predicate Supported(c: JavaClass)
  {
    c != ObjectClass && !c.OtherClass?
  }

  /** `toSQLType` fails exactly for null and for the unsupported classes,
      with an IllegalArgumentException. */
  lemma SqlTypeDomain(obj: Option<JavaValue>)
    ensures ToSqlType(obj).Success? <==> obj.Some? && Supported(obj.value.cls)
    ensures ToSqlType(obj).Failure? ==>
              ToSqlType(obj).error == IllegalArgument("Unsupported:" + NullText(if obj.Some? then Some(obj.value.text) else None))
  {
  }

  /** The time types are matched before the general date case. */
  lemma DateSubclassesFirst(c: JavaClass, text: string)
    requires IsDate(c)
    ensures ToSqlType(Some(JavaValue(c, text))) == Success(if c == TimeClass then Time else if c == TimestampClass then Timestamp else Date)
  {
  }

  /** Round trip: the class a supported value's JDBC type maps back to is the
      value's own class, except a plain `java.util.Date`, which comes back as
      `java.sql.Date`. */
  lemma RoundTrip(c: JavaClass, text: string)
    requires Supported(c)
    ensures ToJavaType(Jdbc(ToSqlType(Some(JavaValue(c, text))).value)) == Some(if c == UtilDate then SqlDateClass else c)
  {
  }

  /** Several JDBC types collapse onto one class (NUMERIC and DECIMAL onto
      Long, REAL onto Double), so `toJavaType` is not injective; and a type
      outside the switch, or a vendor type, gives `Object`. */
  lemma JavaTypeCollapses()
    ensures ToJavaType(Jdbc(Numeric)) == ToJavaType(Jdbc(Decimal)) == ToJavaType(Jdbc(BigInt)) == Some(LongClass)
    ensures ToJavaType(Jdbc(Real)) == ToJavaType(Jdbc(Double)) == Some(DoubleClass)
    ensures ToJavaType(Jdbc(Clob)) == ToJavaType(VendorType("x")) == Some(ObjectClass)
    ensures ToJavaType(Jdbc(Null)) == None
  {
  }

  /** Every class `toJavaType` produces other than `Object` is supported by
      `toSQLType`, and mapping it back gives a type of the same class. */
  lemma JavaTypeImage(t: JdbcType, text: string)
    requires ToJavaType(Jdbc(t)).Some? && ToJavaType(Jdbc(t)).value != ObjectClass
    ensures Supported(ToJavaType(Jdbc(t)).value)
    ensures ToJavaType(Jdbc(ToSqlType(Some(JavaValue(ToJavaType(Jdbc(t)).value, text))).value)) == ToJavaType(Jdbc(t))
  {
  }
}
