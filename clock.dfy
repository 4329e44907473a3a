/**
 * The instant a handler reads from `new Date()` / `Date.now()`, passed in as a
 * value, and the two time-of-day renderings the identifiers are built from.
 */
module Clock {
  import opened Text

  type Hour = h: nat | h < 24
  type MinuteOrSecond = m: nat | m < 60
  type Millisecond = ms: nat | ms < 1000

  /** Milliseconds since the epoch, and the local time of day of the same instant. */
  datatype Instant = Instant(
    epochMillis: nat,
    hour: Hour,
    minute: MinuteOrSecond,
    second: MinuteOrSecond,
    millisecond: Millisecond)

  /**
   * `now.toTimeString().split(" ")[0].replace(/:/g, "")`: the local time as
   * `HHMMSS`, each field zero-padded to two digits.
   */
  function CompactTime(t: Instant): (r: string)
    ensures |r| == 6 && AllDigits(r)
  {
    Pad2(t.hour) + Pad2(t.minute) + Pad2(t.second)
  }

  /** The compact rendering determines hours, minutes and seconds. */
  lemma CompactTimeInjective(a: Instant, b: Instant)
    requires CompactTime(a) == CompactTime(b)
    ensures a.hour == b.hour && a.minute == b.minute && a.second == b.second
  {
    var s := CompactTime(a);
    assert Pad2(a.hour) == s[0..2] == Pad2(b.hour);
    assert Pad2(a.minute) == s[2..4] == Pad2(b.minute);
    assert Pad2(a.second) == s[4..6] == Pad2(b.second);
  }

  /**
   * An identifier made of a prefix, an underscore and the compact time names
   * one prefix and one second of the day.
   */
  lemma StampedIdInjective(prefix1: string, t1: Instant, prefix2: string, t2: Instant)
    ensures prefix1 + "_" + CompactTime(t1) == prefix2 + "_" + CompactTime(t2) <==>
      prefix1 == prefix2 && t1.hour == t2.hour && t1.minute == t2.minute && t1.second == t2.second
  {
    var id1, id2 := prefix1 + "_" + CompactTime(t1), prefix2 + "_" + CompactTime(t2);
    if id1 == id2 {
      assert |prefix1| == |prefix2|;
      assert prefix1 == id1[..|prefix1|] && prefix2 == id2[..|prefix2|];
      assert CompactTime(t1) == id1[|prefix1| + 1..] && CompactTime(t2) == id2[|prefix2| + 1..];
      CompactTimeInjective(t1, t2);
    }
  }

  /**
   * `${h}${m}${s}${Math.floor(ms / 10)}`: the same fields, unpadded, followed
   * by hundredths of a second.
   */
  function UnpaddedTime(t: Instant): (r: string)
    ensures 4 <= |r| <= 8 && AllDigits(r)
  {
    Dec(t.hour) + Dec(t.minute) + Dec(t.second) + Dec(t.millisecond / 10)
  }

  /**
   * Without padding, different times of day render alike: 1:23:04 and
   * 12:03:04 in the same hundredth both give "12340".
   */
  lemma UnpaddedTimeCollides()
    ensures exists a: Instant, b: Instant ::
      a.hour != b.hour && UnpaddedTime(a) == UnpaddedTime(b)
  {
    var a := Instant(0, 1, 23, 4, 0);
    var b := Instant(0, 12, 3, 4, 0);
    assert Dec(23) == Dec(2) + [Digit(3)];
    assert Dec(12) == Dec(1) + [Digit(2)];
    assert UnpaddedTime(a) == "12340" == UnpaddedTime(b);
  }
}
