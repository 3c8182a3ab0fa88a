/** Backup file names: their fixed-width time stamps sort as the times do, and are found again in the name. */
module BackupNames {
  import opened Options
  import opened Ordering

  /** A UTC time of day, of a four-digit year. */
  datatype Instant = Instant(year: nat, month: nat, day: nat, hour: nat, minute: nat, second: nat) {
    predicate Valid() {
      year < 10000 && month < 100 && day < 100 && hour < 100 && minute < 100 && second < 100
    }

    function Date(): nat { year * 10000 + month * 100 + day }

    function Time(): nat { hour * 10000 + minute * 100 + second }

    predicate NotAfter(other: Instant) {
      Date() < other.Date() || (Date() == other.Date() && Time() <= other.Time())
    }
  }

  function Digit(d: nat): (c: char)
    requires d < 10
    ensures '0' <= c <= '9'
  {
    '0' + d as char
  }

  function Power(width: nat): (p: nat)
    ensures p >= 1
  {
    if width == 0 then 1 else 10 * Power(width - 1)
  }

  /** The last digits of a number, with leading zeros. */
  function Digits(n: nat, width: nat): (s: string)
    ensures |s| == width
  {
    if width == 0 then "" else Digits(n / 10, width - 1) + [Digit(n % 10)]
  }

  function Stamp(i: Instant): string {
    (Digits(i.year, 4) + Digits(i.month, 2) + Digits(i.day, 2))
    + ("T" + ((Digits(i.hour, 2) + Digits(i.minute, 2) + Digits(i.second, 2)) + "Z"))
  }

  function FileName(i: Instant, fromRevision: Option<string>, toRevision: string, extension: string): string {
    var revision := if fromRevision == None then "none" else fromRevision.value;
    Stamp(i) + "__" + revision + "__" + toRevision + "." + extension
  }

  /** What precedes the first double underscore. */
  function Prefix(name: string): Option<string> {
    if |name| < 2 then None
    else if name[..2] == "__" then Some("")
    else
      var rest := Prefix(name[1..]);
      if rest == None then None else Some([name[0]] + rest.value)
  }

  function ParseTimestamp(name: string): Option<string> {
    var prefix := Prefix(name);
    if prefix.Some? && |prefix.value| == 16 && prefix.value[8] == 'T' && prefix.value[15] == 'Z' then prefix else None
  }

  // ---- the order of stamps ----

  lemma {:induction false} LexConcat(a: string, b: string, x: string, y: string)
    requires |a| == |b|
    ensures NameLeq(a + x, b + y) <==> if a == b then NameLeq(x, y) else NameLeq(a, b)
    decreases |a|
  {
    if a == [] {
      assert a + x == x && b + y == y;
    } else {
      assert (a + x)[1..] == a[1..] + x && (b + y)[1..] == b[1..] + y;
      if a[0] == b[0] {
        LexConcat(a[1..], b[1..], x, y);
        assert a == [a[0]] + a[1..] && b == [b[0]] + b[1..];
      }
    }
  }

  lemma OneChar(x: char, y: char)
    ensures NameLeq([x], [y]) <==> x <= y
  {
    assert [x][1..] == [] && [y][1..] == [];
    assert LexLeq(CharLeq, [x][1..], [y][1..]);
  }

  lemma DigitOrder(c: nat, d: nat)
    requires c < 10 && d < 10
    ensures Digit(c) == Digit(d) <==> c == d
    ensures NameLeq([Digit(c)], [Digit(d)]) <==> c <= d
  {
    OneChar(Digit(c), Digit(d));
    hide NameLeq;
  }

  /** Numbers of the same width compare as their digits do. */
  lemma {:induction false} DigitsOrder(n: nat, m: nat, width: nat)
    requires n < Power(width) && m < Power(width)
    ensures NameLeq(Digits(n, width), Digits(m, width)) <==> n <= m
    ensures Digits(n, width) == Digits(m, width) <==> n == m
    decreases width
  {
    if width > 0 {
      DigitsOrder(n / 10, m / 10, width - 1);
      DigitOrder(n % 10, m % 10);
      var a, b := Digits(n / 10, width - 1), Digits(m / 10, width - 1);
      LexConcat(a, b, [Digit(n % 10)], [Digit(m % 10)]);
      assert n == 10 * (n / 10) + n % 10 && m == 10 * (m / 10) + m % 10;
      hide NameLeq;
      assert (a + [Digit(n % 10)])[..width - 1] == a && (b + [Digit(m % 10)])[..width - 1] == b;
      assert (a + [Digit(n % 10)])[width - 1] == Digit(n % 10) && (b + [Digit(m % 10)])[width - 1] == Digit(m % 10);
    }
  }

  lemma DigitsNext(n: nat, d: nat, width: nat)
    requires d < 10
    ensures Digits(10 * n + d, width + 1) == Digits(n, width) + [Digit(d)]
  {
  }

  lemma TwoMoreDigits(n: nat, d: nat, width: nat)
    requires d < 100
    ensures Digits(n, width) + Digits(d, 2) == Digits(100 * n + d, width + 2)
  {
    var tens, ones := d / 10, d % 10;
    assert d == 10 * tens + ones && 100 * n + d == 10 * (10 * n + tens) + ones && tens == 10 * 0 + tens;
    DigitsNext(10 * n + tens, ones, width + 1);
    DigitsNext(n, tens, width);
    DigitsNext(tens, ones, 1);
    DigitsNext(0, tens, 0);
    NoDigits(0);
    hide Digits;
    assert Digits(n, width) + [Digit(tens)] + [Digit(ones)] == Digits(n, width) + ([Digit(tens)] + [Digit(ones)]);
    assert [] + [Digit(tens)] == [Digit(tens)];
  }

  lemma NoDigits(n: nat)
    ensures Digits(n, 0) == []
  {
  }

  lemma SixDigits(a: nat, b: nat, c: nat, width: nat)
    requires b < 100 && c < 100
    ensures Digits(a, width) + Digits(b, 2) + Digits(c, 2) == Digits(a * 10000 + b * 100 + c, width + 4)
  {
    TwoMoreDigits(a, b, width);
    TwoMoreDigits(100 * a + b, c, width + 2);
    assert 100 * (100 * a + b) + c == a * 10000 + b * 100 + c;
    hide Digits;
  }

  lemma Powers()
    ensures Power(6) == 1000000 && Power(8) == 100000000
  {
  }

  lemma StampParts(i: Instant)
    requires i.Valid()
    ensures Stamp(i) == Digits(i.Date(), 8) + ("T" + (Digits(i.Time(), 6) + "Z"))
    ensures i.Date() < Power(8) && i.Time() < Power(6)
  {
    hide Digits, Power;
    Powers();
    SixDigits(i.year, i.month, i.day, 4);
    SixDigits(i.hour, i.minute, i.second, 2);
  }

  /** Stamps sort as strings exactly as the times they stand for, and no two times share one. */
  lemma StampOrder(a: Instant, b: Instant)
    requires a.Valid() && b.Valid()
    ensures NameLeq(Stamp(a), Stamp(b)) <==> a.NotAfter(b)
  {
    StampParts(a);
    StampParts(b);
    DigitsOrder(a.Date(), b.Date(), 8);
    DigitsOrder(a.Time(), b.Time(), 6);
    var x, y := Digits(a.Time(), 6), Digits(b.Time(), 6);
    hide Digits, Stamp, Instant.Date, Instant.Time;
    LexConcat(Digits(a.Date(), 8), Digits(b.Date(), 8), "T" + (x + "Z"), "T" + (y + "Z"));
    LexConcat("T", "T", x + "Z", y + "Z");
    LexConcat(x, y, "Z", "Z");
  }

  // ---- the stamp in the name ----

  lemma {:induction false} PrefixIs(a: string, rest: string)
    requires forall c :: c in a ==> c != '_'
    ensures Prefix(a + "__" + rest) == Some(a)
  {
    var s := a + "__" + rest;
    if a == [] {
      assert s[..2] == "__";
    } else {
      assert s[0] == a[0] && a[0] in a;
      assert s[1..] == a[1..] + "__" + rest;
      assert forall c :: c in a[1..] ==> c in a;
      PrefixIs(a[1..], rest);
      assert a == [a[0]] + a[1..];
    }
  }

  lemma {:induction false} DigitsOnly(n: nat, width: nat)
    ensures forall c :: c in Digits(n, width) ==> c != '_'
  {
    if width > 0 {
      DigitsOnly(n / 10, width - 1);
    }
  }

  lemma StampHasNoUnderscore(i: Instant)
    ensures |Stamp(i)| == 16 && Stamp(i)[8] == 'T' && Stamp(i)[15] == 'Z'
    ensures forall c :: c in Stamp(i) ==> c != '_'
  {
    DigitsOnly(i.year, 4);
    DigitsOnly(i.month, 2);
    DigitsOnly(i.day, 2);
    DigitsOnly(i.hour, 2);
    DigitsOnly(i.minute, 2);
    DigitsOnly(i.second, 2);
    hide Digits;
  }

  /** Parsing a generated file name returns the time stamp it was made with. */
  lemma ParseFindsStamp(i: Instant, fromRevision: Option<string>, toRevision: string, extension: string)
    ensures ParseTimestamp(FileName(i, fromRevision, toRevision, extension)) == Some(Stamp(i))
  {
    var stamp, revision := Stamp(i), if fromRevision == None then "none" else fromRevision.value;
    var rest := revision + "__" + toRevision + "." + extension;
    assert FileName(i, fromRevision, toRevision, extension) == stamp + "__" + rest by {
      assert stamp + "__" + revision + "__" + toRevision + "." + extension == stamp + "__" + rest;
    }
    StampHasNoUnderscore(i);
    hide Stamp;
    PrefixIs(stamp, rest);
  }
}
