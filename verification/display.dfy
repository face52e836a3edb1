/** `formatTime`: splits a count of seconds into hour, minute and second
    text fields for the clock face and the window title. */
module Display {
  import opened Decimal

  datatype Option<T> = None | Some(value: T)

  /** The three fields of the clock face; `h` is absent (JavaScript `null`)
      when there is no whole hour left. */
  datatype Fields = Fields(h: Option<string>, m: string, s: string)

  /** The shape every formatted value has: two-digit minute and second
      fields, and an hour field of at least two digits when present. */
  predicate WellFormed(f: Fields) {
    && |f.m| == 2 && IsDigits(f.m)
    && |f.s| == 2 && IsDigits(f.s)
    && (f.h.Some? ==> 2 <= |f.h.value| && IsDigits(f.h.value))
  }

  function FormatTime(seconds: nat): (r: Fields)
    ensures WellFormed(r)
    ensures r.h.None? <==> seconds < 3600
    ensures r.h.Some? ==> (|r.h.value| == 2 <==> seconds < 360000)
    ensures r.h.Some? ==> (r.h.value[0] == '0' <==> seconds < 36000)
  {
    var h := seconds / 3600;
    Fields(if h > 0 then Some(Pad2(h)) else None,
           Pad2((seconds % 3600) / 60),
           Pad2(seconds % 60))
  }

  /** `n.toString().padStart(2, '0')`: a digit string of at least two
      characters that reads back as `n`, exactly two characters below 100,
      and with a leading '0' exactly when `n` has a single digit. */
  function Pad2(n: nat): (r: string)
    ensures 2 <= |r| && IsDigits(r) && Parse(r) == n
    ensures |r| == 2 <==> n < 100
    ensures r[0] == '0' <==> n < 10
  {
    PadStartKeepsValue(ToDecimal(n), 2);
    ParseToDecimal(n);
    PadStart(ToDecimal(n), 2)
  }

  /** The number of whole hours a field set shows (none shown means 0). */
  function Hours(f: Fields): nat
    requires WellFormed(f)
  {
    if f.h.Some? then Parse(f.h.value) else 0
  }

  /** The number of seconds a clock face reads as. */
  function Reading(f: Fields): nat
    requires WellFormed(f)
  {
    Hours(f) * 3600 + Parse(f.m) * 60 + Parse(f.s)
  }

  /** The fields decompose `seconds` exactly: minutes and seconds are below
      60, the hours are the whole hours and are never truncated, and the
      face reads back as the value that was formatted. */
  lemma FormatTimeRoundTrip(seconds: nat)
    ensures var f := FormatTime(seconds);
      && Hours(f) == seconds / 3600
      && Parse(f.m) < 60 && Parse(f.s) < 60
      && Reading(f) == seconds
  {
    var f := FormatTime(seconds);
    var h, m, s := seconds / 3600, (seconds % 3600) / 60, seconds % 60;
    assert Parse(f.m) == m && Parse(f.s) == s;
    assert Hours(f) == h;
    assert Reading(f) == h * 3600 + m * 60 + s;
    Decompose(seconds);
  }

  /** Hours, minutes and seconds recombine to the total. */
  lemma Decompose(seconds: nat)
    ensures (seconds / 3600) * 3600 + ((seconds % 3600) / 60) * 60 + seconds % 60 == seconds
    ensures (seconds % 3600) / 60 < 60
  {
    var q, r := seconds / 3600, seconds % 3600;
    var m, s := r / 60, r % 60;
    assert seconds == q * 3600 + r && 0 <= r < 3600;
    assert r == m * 60 + s && 0 <= s < 60;
    assert m < 60;
    assert seconds % 60 == s by {
      assert seconds == (q * 60 + m) * 60 + s;
    }
  }

  /** Two different second counts never show the same clock face. */
  lemma FormatTimeInjective(a: nat, b: nat)
    requires FormatTime(a) == FormatTime(b)
    ensures a == b
  {
    FormatTimeRoundTrip(a);
    FormatTimeRoundTrip(b);
  }
}
