/** The value trees of `toml.hpp`. A node has one owner, so a subtree is a value. */
module TomlValues {

  /** Well-formed text: a `char` is a Unicode scalar value. */
  type Text = string

  datatype IntFormat = Decimal | Binary | Octal | Hexadecimal

  datatype Date = Date(year: nat, month: nat, day: nat)

  datatype Time = Time(hour: nat, minute: nat, second: nat, nanosecond: nat)

  datatype Offset = NoOffset | Offset(minutes: int)

  datatype DateTime = DateTime(date: Date, time: Time, offset: Offset)

  datatype Value =
    | Integer(n: int, format: IntFormat)
    | Boolean(b: bool)
    | String(s: Text)
    | LocalDate(date: Date)
    | LocalTime(time: Time)
    | Moment(moment: DateTime)
    | Float(bits: nat)
    | Array(elems: seq<Value>)
    | Table(entries: seq<Entry>)

  /** A key of a table with its value; a table lists its entries in the order of its map. */
  datatype Entry = Entry(key: Text, value: Value)

  /** A table or array without children. */
  predicate IsEmpty(v: Value) {
    (v.Array? && v.elems == []) || (v.Table? && v.entries == [])
  }
}
