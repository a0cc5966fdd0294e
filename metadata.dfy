/** Directory-entry metadata (lib/vfat/src/metadata.rs): the packed FAT date
  * and time words and their fields, timestamps, and the attribute flags.
  * Shifts and masks are written as division and remainder by powers of two. */
module FatMetadata {
  import opened Common

  /** `Date`: bits 9..15 the year since 1980, bits 5..8 the month, bits 0..4 the day. */
  datatype Date = Date(bits: u16)

  /** `Time`: bits 11..15 the hour, bits 5..10 the minute, bits 0..4 half the second. */
  datatype Time = Time(bits: u16)

  function Year(d: Date): (r: nat)
  {
    (d.bits / 0x200) % 0x80 + 1980
  }

  function Month(d: Date): (r: byte)
  {
    (d.bits / 0x20) % 0x10
  }

  function Day(d: Date): (r: byte)
  {
    d.bits % 0x20
  }

  function Hour(t: Time): (r: byte)
  {
    (t.bits / 0x800) % 0x20
  }

  function Minute(t: Time): (r: byte)
  {
    (t.bits / 0x20) % 0x40
  }

  /** `(bits & 0b11111) << 1`, truncated to a byte (it always fits). */
  function Second(t: Time): (r: byte)
  {
    ((t.bits % 0x20) * 2) % 0x100
  }

  /** The date word with the given fields, as a FAT driver packs it. */
  function PackDate(year: nat, month: nat, day: nat): (d: Date)
    requires 1980 <= year < 1980 + 0x80 && month < 0x10 && day < 0x20
  {
    Date((year - 1980) * 0x200 + month * 0x20 + day)
  }

  /** The time word with the given fields (`second` counted in two-second steps). */
  function PackTime(hour: nat, minute: nat, second: nat): (t: Time)
    requires hour < 0x20 && minute < 0x40 && second < 0x40 && second % 2 == 0
  {
    Time(hour * 0x800 + minute * 0x20 + second / 2)
  }

  /** Every date word is unpacked into a year in 1980..2107, a month up to 15
    * and a day up to 31, and packing those fields gives the word back. */
  lemma DateFields(d: Date)
    ensures 1980 <= Year(d) <= 2107 && Month(d) <= 15 && Day(d) <= 31
    ensures PackDate(Year(d), Month(d), Day(d)) == d
  {
    var b: nat := d.bits;
    assert b == (b / 0x200) * 0x200 + (b % 0x200);
    assert b % 0x200 == ((b % 0x200) / 0x20) * 0x20 + b % 0x20;
    assert (b % 0x200) / 0x20 == (b / 0x20) % 0x10;
  }

  /** Unpacking a packed date gives its fields back. */
  lemma PackDateFields(year: nat, month: nat, day: nat)
    requires 1980 <= year < 1980 + 0x80 && month < 0x10 && day < 0x20
    ensures var d := PackDate(year, month, day); Year(d) == year && Month(d) == month && Day(d) == day
  {
    var b: nat := (year - 1980) * 0x200 + month * 0x20 + day;
    DivModUnique(year - 1980, month * 0x20 + day, 0x200);
    DivModUnique((year - 1980) * 0x10 + month, day, 0x20);
    DivModUnique(year - 1980, month, 0x10);
  }

  /** Every time word is unpacked into an hour up to 31, a minute up to 63 and
    * an even second up to 62, and packing those fields gives the word back. */
  lemma TimeFields(t: Time)
    ensures Hour(t) <= 31 && Minute(t) <= 63 && Second(t) <= 62 && Second(t) % 2 == 0
    ensures PackTime(Hour(t), Minute(t), Second(t)) == t
  {
    var b: nat := t.bits;
    assert b == (b / 0x800) * 0x800 + (b % 0x800);
    assert b % 0x800 == ((b % 0x800) / 0x20) * 0x20 + b % 0x20;
    assert (b % 0x800) / 0x20 == (b / 0x20) % 0x40;
  }

  /** Unpacking a packed time gives its fields back. */
  lemma PackTimeFields(hour: nat, minute: nat, second: nat)
    requires hour < 0x20 && minute < 0x40 && second < 0x40 && second % 2 == 0
    ensures var t := PackTime(hour, minute, second); Hour(t) == hour && Minute(t) == minute && Second(t) == second
  {
    DivModUnique(hour, minute * 0x20 + second / 2, 0x800);
    DivModUnique(hour * 0x40 + minute, second / 2, 0x20);
    DivModUnique(hour, minute, 0x40);
  }

  /** `Timestamp`. */
  datatype Timestamp = Timestamp(time: Time, date: Date)

  /** `Timestamp::from(date)`: the date at midnight. */
  function FromDate(date: Date): (ts: Timestamp)
  {
    Timestamp(Time(0), date)
  }

  /** A timestamp made from a date has the date's fields and a zero time. */
  lemma FromDateFields(date: Date)
    ensures var ts := FromDate(date);
            && Hour(ts.time) == 0 && Minute(ts.time) == 0 && Second(ts.time) == 0
            && Year(ts.date) == Year(date) && Month(ts.date) == Month(date) && Day(ts.date) == Day(date)
  {
  }

  /** `Metadata`; its timestamps default to the zero words. */
  datatype Metadata = Metadata(attributes: byte, created: Timestamp, lastAccess: Timestamp,
                               lastModification: Timestamp)

  function DefaultTimestamp(): Timestamp
  {
    Timestamp(Time(0), Date(0))
  }

  /** `read_only`: `attributes & 0b1 > 0`. */
  predicate ReadOnly(m: Metadata)
  {
    And(m.attributes, 1) > 0
  }

  /** `hidden`: `attributes & 0b10 > 0`. */
  predicate Hidden(m: Metadata)
  {
    And(m.attributes, 2) > 0
  }

  /** The masks test single bits: read-only is bit 0 and hidden is bit 1 of
    * the attribute byte. */
  lemma FlagBits(m: Metadata)
    ensures ReadOnly(m) <==> m.attributes % 2 == 1
    ensures Hidden(m) <==> (m.attributes / 2) % 2 == 1
  {
    AndPow2(m.attributes, 0);
    AndPow2(m.attributes, 1);
  }
}
