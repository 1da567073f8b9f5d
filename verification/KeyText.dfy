/**
 Texts of the rate limiter: a counter key is the client key, a colon and the bucket number in
 decimal (services/redis_service.py:59-60); the reset header is a clock time.
 */
module KeyText {

  function DigitChar(d: nat): (c: char)
    requires d < 10
    ensures '0' <= c <= '9' && c as int == '0' as int + d
  {
    ('0' as int + d) as char
  }

  function NatText(n: nat): (s: string)
    ensures |s| > 0 && forall i :: 0 <= i < |s| ==> '0' <= s[i] <= '9'
  {
    if n < 10 then [DigitChar(n)] else NatText(n / 10) + [DigitChar(n % 10)]
  }

  function IntText(n: int): (s: string)
    ensures |s| > 0 && ':' !in s
    ensures s[0] == '-' <==> n < 0
  {
    if n < 0 then "-" + NatText(-n) else NatText(n)
  }

  function CounterKey(client: string, bucket: int): string {
    client + ":" + IntText(bucket)
  }

  // ---- reading numbers back ----

  /** The number a text of decimal digits stands for. */
  function ReadNat(s: string): int {
    if s == "" then 0 else 10 * ReadNat(s[..|s| - 1]) + (s[|s| - 1] as int - '0' as int)
  }

  function ReadInt(s: string): int {
    if s != "" && s[0] == '-' then -ReadNat(s[1..]) else ReadNat(s)
  }

  lemma {:induction false} NatReadsBack(n: nat)
    ensures ReadNat(NatText(n)) == n
  {
    var s := NatText(n);
    if n < 10 {
      assert ReadNat(s[..|s| - 1]) == 0;
    } else {
      NatReadsBack(n / 10);
      assert s[..|s| - 1] == NatText(n / 10);
    }
  }

  lemma IntReadsBack(n: int)
    ensures ReadInt(IntText(n)) == n
  {
    if n < 0 {
      NatReadsBack(-n);
      assert IntText(n)[1..] == NatText(-n);
    } else {
      NatReadsBack(n);
      assert IntText(n)[0] != '-';
    }
  }

  lemma ColonPlace(c1: string, t1: string, c2: string, t2: string)
    requires c1 + ":" + t1 == c2 + ":" + t2 && ':' !in t1
    ensures |c2| <= |c1|
  {
    var k := c1 + ":" + t1;
    assert forall i :: |c1| < i < |k| ==> k[i] == t1[i - |c1| - 1];
    assert (c2 + ":" + t2)[|c2|] == ':';
  }

  /** The last colon of the key separates client from bucket, whatever colons the client holds. */
  lemma CounterKeyInjective(c1: string, b1: int, c2: string, b2: int)
    requires CounterKey(c1, b1) == CounterKey(c2, b2)
    ensures c1 == c2 && b1 == b2
  {
    var k := CounterKey(c1, b1);
    var t1, t2 := IntText(b1), IntText(b2);
    ColonPlace(c1, t1, c2, t2);
    ColonPlace(c2, t2, c1, t1);
    assert k[..|c1|] == c1 && k[|c1| + 1..] == t1;
    assert k[..|c1|] == c2 && k[|c1| + 1..] == t2 by { assert k == c2 + ":" + t2; }
    IntReadsBack(b1);
    IntReadsBack(b2);
  }

  // ---- the clock text of the reset header (middleware/rate_limit.py:32-34) ----

  const DAY := 24 * 60 * 60

  function TwoDigits(n: nat): (s: string)
    requires n < 100
    ensures |s| == 2
  {
    [DigitChar(n / 10), DigitChar(n % 10)]
  }

  /** strftime's %H:%M:%S of a local time in seconds. */
  function ClockText(seconds: int): (s: string)
    ensures |s| == 8
  {
    var t := seconds % DAY;
    TwoDigits(t / 3600) + ":" + TwoDigits(t / 60 % 60) + ":" + TwoDigits(t % 60)
  }

  lemma TwoDigitsReadBack(n: nat)
    requires n < 100
    ensures ReadNat(TwoDigits(n)) == n
  {
    var s := TwoDigits(n);
    assert s[..1] == [DigitChar(n / 10)] && s[..1][..0] == "";
    assert ReadNat(s[..1]) == n / 10;
  }

  /** The number of seconds since midnight that a clock text hh:mm:ss tells. */
  function ReadClock(s: string): int
    requires |s| == 8
  {
    3600 * ReadNat(s[..2]) + 60 * ReadNat(s[3..5]) + ReadNat(s[6..])
  }

  lemma ClockParts(seconds: int)
    ensures var s, t := ClockText(seconds), seconds % DAY;
            && s[..2] == TwoDigits(t / 3600) && s[3..5] == TwoDigits(t / 60 % 60) && s[6..] == TwoDigits(t % 60)
            && s[2] == ':' && s[5] == ':'
  {
  }

  lemma HoursMinutesSeconds(t: nat)
    requires t < DAY
    ensures t == 3600 * (t / 3600) + 60 * (t / 60 % 60) + t % 60
  {
    assert t / 60 / 60 == t / 3600;
  }

  /** The clock text reads back as the time of day, with minutes and seconds below sixty. */
  lemma ClockReadsBack(seconds: int)
    ensures var s := ClockText(seconds);
            && ReadClock(s) == seconds % 86400
            && ReadNat(s[3..5]) < 60 && ReadNat(s[6..]) < 60 && s[2] == ':' && s[5] == ':'
  {
    var t := seconds % DAY;
    ClockParts(seconds);
    TwoDigitsReadBack(t / 3600);
    TwoDigitsReadBack(t / 60 % 60);
    TwoDigitsReadBack(t % 60);
    HoursMinutesSeconds(t);
  }

  /** The header does not name the day: two reset times read the same iff they are whole days apart. */
  lemma ClockTextSameIff(a: int, b: int)
    ensures ClockText(a) == ClockText(b) <==> a % 86400 == b % 86400
  {
    ClockReadsBack(a);
    ClockReadsBack(b);
  }
}
