/** The custom-time dialog: three two-digit fields (hours, minutes,
    seconds), one of which is selected, filled by pressing digit keys. */
module CustomEntry {
  import opened Decimal

  datatype Unit = Hr | Min | Sec

  /** A field's text: always exactly two digit characters. Values are not
      normalised, so "99" minutes is a legal field. */
  type Field = s: string | |s| == 2 && IsDigits(s) witness "00"

  /** `customTime` together with `currentUnit`. */
  datatype Entry = Entry(hr: Field, min: Field, sec: Field, unit: Unit)

  /** The largest total the dialog can produce: 99:99:99. */
  const MaxTotal: nat := 99 * 3600 + 99 * 60 + 99

  /** `customTime[unit]`. */
  function Get(e: Entry, u: Unit): Field {
    match u
    case Hr => e.hr
    case Min => e.min
    case Sec => e.sec
  }

  /** `openCustomTimer`: all fields back to "00" and minutes selected,
      whatever was entered before. */
  function Open(e: Entry): (r: Entry)
    ensures forall u :: Get(r, u) == "00"
    ensures r.unit == Min
  {
    Entry("00", "00", "00", Min)
  }

  /** A unit button: selects `u`, leaving the fields alone. */
  function Select(e: Entry, u: Unit): (r: Entry)
    ensures r.unit == u
    ensures forall v :: Get(r, v) == Get(e, v)
  {
    e.(unit := u)
  }

  /** `s.slice(-2)`: the last two characters, or all of a shorter string. */
  function LastTwo(s: string): (r: string)
    ensures |r| == if |s| >= 2 then 2 else |s|
    ensures r == s[|s| - |r|..]
  {
    if |s| >= 2 then s[|s| - 2..] else s
  }

  /** Appending a digit to a field: "00" becomes "0" followed by the digit,
      anything else gets the digit appended; then the last two characters
      are kept. Either way the result is the old units digit followed by the
      new digit, which as a number is the old value shifted one place left. */
  function Shift(v: Field, d: Digit): (r: Field)
    ensures r == [v[1], d]
    ensures Parse(r) == (Parse(v) % 10) * 10 + Value(d)
  {
    var appended := if v == "00" then "0" + [d] else v + [d];
    ShiftKeepsLastDigit(v, d);
    UnitsDigit(v);
    ParseTwo([v[1], d]);
    LastTwo(appended)
  }

  /** The units digit of a field is its value modulo 10. */
  lemma UnitsDigit(v: Field)
    ensures Parse(v) % 10 == Value(v[1])
  {
  }

  /** Both branches of the digit key end as the old units digit followed by
      the new digit. */
  lemma ShiftKeepsLastDigit(v: Field, d: Digit)
    ensures LastTwo(if v == "00" then "0" + [d] else v + [d]) == [v[1], d]
  {
  }

  /** A digit key: shifts the digit into the selected field only. */
  function PressDigit(e: Entry, d: Digit): (r: Entry)
    ensures Get(r, e.unit) == [Get(e, e.unit)[1], d]
    ensures forall u :: u != e.unit ==> Get(r, u) == Get(e, u)
    ensures r.unit == e.unit
  {
    match e.unit
    case Hr => e.(hr := Shift(e.hr, d))
    case Min => e.(min := Shift(e.min, d))
    case Sec => e.(sec := Shift(e.sec, d))
  }

  /** `hours * 3600 + minutes * 60 + seconds`, each field read by `parseInt`.
      The total lies between 0 and 99:99:99, and is 0 exactly when every
      field reads "00". */
  function Total(e: Entry): (r: nat)
    ensures r <= MaxTotal
    ensures r == 0 <==> e.hr == "00" && e.min == "00" && e.sec == "00"
  {
    ParseTwo(e.hr);
    ParseTwo(e.min);
    ParseTwo(e.sec);
    assert e.hr == [e.hr[0], e.hr[1]] && e.min == [e.min[0], e.min[1]]
        && e.sec == [e.sec[0], e.sec[1]];
    Parse(e.hr) * 3600 + Parse(e.min) * 60 + Parse(e.sec)
  }

  /** Pressing the same digit twice fills the selected field with it. */
  lemma PressTwiceFills(e: Entry, d: Digit)
    ensures Get(PressDigit(PressDigit(e, d), d), e.unit) == [d, d]
  {
  }
}
