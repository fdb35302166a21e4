/** The time-of-day choices of the date-time picker: every quarter hour of
    the day as "HH:MM". */
module TimeSlots {
  import opened Text

  const SLOT_COUNT: nat := 96

  /** The picker's initial time. */
  const DEFAULT_TIME: string := "10:00"

  /** `n.toString().padStart(2, "0")`. */
  function TwoDigits(n: nat): string {
    PadStart(NatToString(n), 2, '0')
  }

  /** Slot `i`: hour `i / 4` and minute `(i % 4) * 15`, each padded to two digits. */
  function Slot(i: nat): string
    requires i < SLOT_COUNT
  {
    TwoDigits(i / 4) + ":" + TwoDigits((i % 4) * 15)
  }

  /** The picker's list of slots, in index order. */
  function Slots(): (r: seq<string>)
    ensures |r| == SLOT_COUNT
  {
    seq(SLOT_COUNT, i requires 0 <= i < SLOT_COUNT => Slot(i))
  }

  /** Text of the form "HH:MM", each place a decimal digit. */
  predicate IsTimeText(s: string) {
    |s| == 5 && IsDigit(s[0]) && IsDigit(s[1]) && s[2] == ':' && IsDigit(s[3]) && IsDigit(s[4])
  }

  /** The hour an "HH:MM" text names. */
  function HourOf(s: string): nat
    requires IsTimeText(s)
  {
    DigitValue(s[0]) * 10 + DigitValue(s[1])
  }

  /** The minute an "HH:MM" text names. */
  function MinuteOf(s: string): nat
    requires IsTimeText(s)
  {
    DigitValue(s[3]) * 10 + DigitValue(s[4])
  }

  /** The minutes after midnight an "HH:MM" text names. */
  function Minutes(s: string): nat
    requires IsTimeText(s)
  {
    HourOf(s) * 60 + MinuteOf(s)
  }

  /** A rendering already two characters wide is not padded. */
  lemma PadStartWide(s: string)
    requires |s| >= 2
    ensures PadStart(s, 2, '0') == s
  {
  }

  /** A one-character rendering gets one leading zero. */
  lemma PadStartNarrow(c: char)
    ensures PadStart([c], 2, '0') == ['0', c]
  {
    assert seq(1, _ => '0') == ['0'];
  }

  /** Below 100, the padded rendering is exactly the two decimal digits. */
  lemma TwoDigitsOf(n: nat)
    requires n < 100
    ensures TwoDigits(n) == [DigitChar(n / 10), DigitChar(n % 10)]
  {
    if n < 10 {
      OneDigit(n);
      PadStartNarrow(DigitChar(n));
      assert DigitChar(0) == '0';
    } else {
      var q, d := n / 10, n % 10;
      OneDigit(q);
      assert NatToString(n) == [DigitChar(q), DigitChar(d)];
      PadStartWide([DigitChar(q), DigitChar(d)]);
    }
  }

  lemma OneDigit(n: nat)
    requires n < 10
    ensures NatToString(n) == [DigitChar(n)]
  {
  }

  /** Slot `i` is `15 * i` minutes after midnight. */
  lemma SlotMinutes(i: nat)
    requires i < SLOT_COUNT
    ensures IsTimeText(Slot(i)) && Minutes(Slot(i)) == 15 * i
  {
    SlotShape(i);
  }

  /** The slots strictly increase through the day, so no two are equal. */
  lemma SlotsIncrease(i: nat, j: nat)
    requires i < j < SLOT_COUNT
    ensures IsTimeText(Slot(i)) && IsTimeText(Slot(j)) && Minutes(Slot(i)) < Minutes(Slot(j))
    ensures Slots()[i] != Slots()[j]
  {
    SlotMinutes(i);
    SlotMinutes(j);
  }

  lemma SlotSplit(i: nat)
    requires i < SLOT_COUNT
    ensures Slots()[i] == TwoDigits(i / 4) + ":" + TwoDigits((i % 4) * 15)
  {
  }

  lemma Joined(a: string, b: string)
    requires |a| == 2 && |b| == 2
    ensures a + ":" + b == [a[0], a[1], ':', b[0], b[1]]
  {
  }

  /** Slot `i` spelled out from the digits of its hour and minute. */
  lemma SlotSpelled(i: nat, h: nat, m: nat)
    requires i < SLOT_COUNT && h == i / 4 && m == (i % 4) * 15
    ensures Slots()[i] == [DigitChar(h / 10), DigitChar(h % 10), ':', DigitChar(m / 10), DigitChar(m % 10)]
  {
    SlotSplit(i);
    TwoDigitsOf(h);
    TwoDigitsOf(m);
    Joined(TwoDigits(h), TwoDigits(m));
  }

  /** Two digits rendered and read back give the number they came from. */
  lemma DigitsReadBack(n: nat)
    requires n < 100
    ensures DigitValue(DigitChar(n / 10)) * 10 + DigitValue(DigitChar(n % 10)) == n
  {
  }

  /** Any hour and minute below 100, padded and joined by a colon, form an
      "HH:MM" text that names them back. */
  lemma TimeTextOf(h: nat, m: nat)
    requires h < 100 && m < 100
    ensures IsTimeText(TwoDigits(h) + ":" + TwoDigits(m))
    ensures HourOf(TwoDigits(h) + ":" + TwoDigits(m)) == h
    ensures MinuteOf(TwoDigits(h) + ":" + TwoDigits(m)) == m
  {
    TwoDigitsOf(h);
    TwoDigitsOf(m);
    Joined(TwoDigits(h), TwoDigits(m));
    DigitsReadBack(h);
    DigitsReadBack(m);
  }

  /** Every slot is five characters, two digits, a colon and two digits, and
      names hour `i / 4` and minute `(i % 4) * 15`. */
  lemma SlotShape(i: nat)
    requires i < SLOT_COUNT
    ensures IsTimeText(Slot(i))
    ensures HourOf(Slot(i)) == i / 4 && MinuteOf(Slot(i)) == (i % 4) * 15
  {
    var h, m := i / 4, (i % 4) * 15;
    assert h < 100 && m < 100;
    TimeTextOf(h, m);
  }

  // The three lemmas below name their slot through a parameter fixed by
  // `requires` rather than a literal index: with a literal, the verifier
  // would evaluate the decimal rendering by unfolding its recursion on the
  // constant, which costs far more than the digit-by-digit proof given here.

  /** The list starts at midnight. */
  lemma FirstSlot(i: nat)
    requires i == 0
    ensures Slots()[i] == "00:00"
  {
    SlotSpelled(i, i / 4, (i % 4) * 15);
    assert Slots()[i] == [DigitChar(0), DigitChar(0), ':', DigitChar(0), DigitChar(0)];
  }

  /** The list ends at a quarter to midnight. */
  lemma LastSlot(i: nat)
    requires i == SLOT_COUNT - 1
    ensures Slots()[i] == "23:45"
  {
    var h, m := i / 4, (i % 4) * 15;
    assert h / 10 == 2 && h % 10 == 3 && m / 10 == 4 && m % 10 == 5;
    SlotSpelled(i, h, m);
    assert Slots()[i] == [DigitChar(2), DigitChar(3), ':', DigitChar(4), DigitChar(5)];
  }

  /** Slot 40 is the picker's initial time. */
  lemma DefaultSlot(i: nat)
    requires i == 40
    ensures Slots()[i] == DEFAULT_TIME
  {
    var h, m := i / 4, (i % 4) * 15;
    assert h / 10 == 1 && h % 10 == 0 && m / 10 == 0 && m % 10 == 0;
    SlotSpelled(i, h, m);
    assert Slots()[i] == [DigitChar(1), DigitChar(0), ':', DigitChar(0), DigitChar(0)];
  }

  /** The picker's initial time is one of its choices. */
  lemma DefaultOffered()
    ensures DEFAULT_TIME in Slots()
  {
    var k :| k == 40;  // a bound variable rather than a literal, for the reason above
    DefaultSlot(k);
  }
}
