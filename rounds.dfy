/** What one TTL round reports (src/traceroute.rs): the hop result pushed for a round, and the
    `h:m:s` rendering of its mean answer time by duration_to_string. Durations are natural
    numbers of nanoseconds. */
module Rounds {
  import opened Wire
  import opened Replies

  const NANOS_PER_SEC: nat := 1_000_000_000
  const U32_MODULUS: nat := 0x1_0000_0000

  /** A row of the final table: the TTL, the responding address and the answer time text
      ("*" when some probe went unanswered). */
  datatype TraceHopResult = TraceHopResult(ttl: nat, hopAddr: IpAddr, answerTime: string)

  /** Duration::as_secs: the whole seconds of a duration. */
  function AsSecs(d: nat): nat
  {
    d / NANOS_PER_SEC
  }

  /** The three numbers duration_to_string prints. */
  datatype Clock = Clock(hours: nat, minutes: nat, seconds: nat)

  /** Hours, minutes and seconds of a duration: minutes and seconds stay below 60 and together
      they make up its whole seconds. */
  function ClockOf(d: nat): (c: Clock)
    ensures c.minutes < 60 && c.seconds < 60
    ensures c.hours * 3600 + c.minutes * 60 + c.seconds == AsSecs(d)
  {
    var secs := AsSecs(d);
    assert secs == (secs / 60 / 60) * 3600 + (secs / 60 % 60) * 60 + secs % 60 by {
      assert secs == (secs / 60) * 60 + secs % 60;
      assert secs / 60 == (secs / 60 / 60) * 60 + secs / 60 % 60;
    }
    Clock(secs / 60 / 60, secs / 60 % 60, secs % 60)
  }

  /** The decomposition is the only one with minutes and seconds below 60. */
  lemma ClockUnique(d: nat, c: Clock)
    requires c.minutes < 60 && c.seconds < 60
    requires c.hours * 3600 + c.minutes * 60 + c.seconds == AsSecs(d)
    ensures c == ClockOf(d)
  {
    var secs := AsSecs(d);
    var m := c.hours * 60 + c.minutes;
    assert secs == m * 60 + c.seconds;
    assert secs / 60 == m && secs % 60 == c.seconds by {
      DivModUnique(secs, 60, m, c.seconds);
    }
    assert m / 60 == c.hours && m % 60 == c.minutes by {
      DivModUnique(m, 60, c.hours, c.minutes);
    }
  }

  lemma DivModUnique(x: nat, d: nat, q: nat, r: nat)
    requires 0 <= r < d && x == q * d + r
    ensures x / d == q && x % d == r
  {
    var q', r' := x / d, x % d;
    assert x == q' * d + r';
    if q' < q {
      MulSucc(q', d);
      MulMonotone(q' + 1, q, d);
      assert false;
    } else if q' > q {
      MulSucc(q, d);
      MulMonotone(q + 1, q', d);
      assert false;
    }
  }

  predicate IsDigit(c: char)
  {
    '0' <= c <= '9'
  }

  function DigitChar(d: nat): (c: char)
    requires d < 10
    ensures IsDigit(c) && c as int - '0' as int == d
  {
    ('0' as int + d) as char
  }

  /** `{}` formatting of an unsigned integer: its decimal digits, without leading zeros. */
  function Decimal(n: nat): (s: string)
    ensures |s| >= 1 && forall i :: 0 <= i < |s| ==> IsDigit(s[i])
    ensures n > 0 ==> s[0] != '0'
    decreases n
  {
    if n < 10 then [DigitChar(n)] else Decimal(n / 10) + [DigitChar(n % 10)]
  }

  /** The number a string of decimal digits denotes. */
  function DecimalValue(s: string): nat
    requires forall i :: 0 <= i < |s| ==> IsDigit(s[i])
  {
    if s == [] then 0
    else
      assert IsDigit(s[|s| - 1]);
      DecimalValue(s[..|s| - 1]) * 10 + (s[|s| - 1] as int - '0' as int)
  }

  /** Reading back the printed digits gives the number printed. */
  lemma {:induction false} DecimalRoundTrip(n: nat)
    ensures DecimalValue(Decimal(n)) == n
    decreases n
  {
    if n >= 10 {
      var s := Decimal(n);
      assert s[..|s| - 1] == Decimal(n / 10);
      DecimalRoundTrip(n / 10);
    }
  }

  /** The colon-separated fields of a string. */
  function SplitColons(s: string): (fields: seq<string>)
    ensures |fields| >= 1
  {
    if s == [] then [[]]
    else
      var rest := SplitColons(s[1..]);
      if s[0] == ':' then [[]] + rest else [[s[0]] + rest[0]] + rest[1..]
  }

  lemma {:induction false} SplitNoColon(a: string)
    requires ':' !in a
    ensures SplitColons(a) == [a]
  {
    if a != [] {
      SplitNoColon(a[1..]);
      assert [a[0]] + a[1..] == a;
    }
  }

  lemma {:induction false} SplitField(a: string, b: string)
    requires ':' !in a
    ensures SplitColons(a + [':'] + b) == [a] + SplitColons(b)
  {
    if a == [] {
      assert a + [':'] + b == [':'] + b;
      assert ([':'] + b)[1..] == b;
    } else {
      assert (a + [':'] + b)[1..] == a[1..] + [':'] + b;
      SplitField(a[1..], b);
      assert [a[0]] + a[1..] == a;
    }
  }

  predicate IsNumeral(s: string)
  {
    |s| >= 1 && forall i :: 0 <= i < |s| ==> IsDigit(s[i])
  }

  /** Reads an `h:m:s` answer time back into its three numbers; the "*" of an incomplete round
      and any other text give None. */
  function ParseClock(s: string): Option<Clock>
  {
    var fields := SplitColons(s);
    if |fields| == 3 && IsNumeral(fields[0]) && IsNumeral(fields[1]) && IsNumeral(fields[2])
    then Some(Clock(DecimalValue(fields[0]), DecimalValue(fields[1]), DecimalValue(fields[2])))
    else None
  }

  /** duration_to_string: whole hours, minutes below 60 and seconds below 60, printed in decimal
      and joined by colons. */
  function DurationToString(d: nat): (s: string)
    ensures |s| >= 5
    ensures forall i :: 0 <= i < |s| ==> IsDigit(s[i]) || s[i] == ':'
    ensures multiset(s)[':'] == 2
  {
    var c := ClockOf(d);
    Decimal(c.hours) + ":" + Decimal(c.minutes) + ":" + Decimal(c.seconds)
  }

  /** Three numerals joined by colons read back as their three values. */
  lemma ParseJoined(h: string, m: string, s: string)
    requires IsNumeral(h) && IsNumeral(m) && IsNumeral(s)
    ensures ParseClock(h + ":" + m + ":" + s) == Some(Clock(DecimalValue(h), DecimalValue(m), DecimalValue(s)))
  {
    NumeralNoColon(h);
    NumeralNoColon(m);
    NumeralNoColon(s);
    var tail := m + [':'] + s;
    assert SplitColons(tail) == [m, s] by {
      SplitField(m, s);
      SplitNoColon(s);
    }
    var joined := h + ":" + m + ":" + s;
    assert SplitColons(joined) == [h, m, s] by {
      assert joined == h + [':'] + tail;
      SplitField(h, tail);
    }
  }

  lemma NumeralNoColon(s: string)
    requires IsNumeral(s)
    ensures ':' !in s
  {
  }

  /** The rendered answer time reads back as the hours, minutes and seconds of the duration. */
  lemma DurationToStringRoundTrip(d: nat)
    ensures ParseClock(DurationToString(d)) == Some(ClockOf(d))
  {
    var c := ClockOf(d);
    ParseJoined(Decimal(c.hours), Decimal(c.minutes), Decimal(c.seconds));
    DecimalRoundTrip(c.hours);
    DecimalRoundTrip(c.minutes);
    DecimalRoundTrip(c.seconds);
  }

  /** The "*" of an incomplete round is never mistaken for a time. */
  lemma UnknownIsNoClock()
    ensures ParseClock("*") == None
  {
    assert SplitColons("*") == ["*"] by { SplitNoColon("*"); }
  }

  /** The fold of the reply times of a round. */
  function SumReplyTimes(replies: seq<TraceHop>): nat
  {
    if replies == [] then 0 else replies[0].replyTime + SumReplyTimes(replies[1..])
  }

  /** The summed duration bounds every reply time, and is zero exactly when every reply came
      back within the same nanosecond. */
  lemma {:induction false} SumBoundsReplyTimes(replies: seq<TraceHop>)
    ensures forall i :: 0 <= i < |replies| ==> replies[i].replyTime <= SumReplyTimes(replies)
    ensures SumReplyTimes(replies) == 0 <==> forall i :: 0 <= i < |replies| ==> replies[i].replyTime == 0
  {
    if replies != [] {
      SumBoundsReplyTimes(replies[1..]);
      assert forall i :: 0 < i < |replies| ==> replies[i] == replies[1..][i - 1];
    }
  }

  /** Dividing the summed duration by the number of probes: the floor of the arithmetic mean,
      in nanoseconds. */
  function MeanReplyTime(replies: seq<TraceHop>, divisor: nat): (mean: nat)
    requires divisor > 0
    ensures mean * divisor <= SumReplyTimes(replies) < (mean + 1) * divisor
  {
    SumReplyTimes(replies) / divisor
  }

  /** The hop result of one round, from its filtered replies: none for a silent round, `*` with
      the first responder's address when some probes went unanswered, the mean answer time when
      every probe was answered, and none when more replies came back than probes were sent.
      `tries_per_hop as u32` keeps the low 32 bits; a divisor of zero makes Duration's division
      panic. */
  function AggregateRound(triesPerHop: nat, ttl: nat, replies: seq<TraceHop>): (r: Result<Option<TraceHopResult>>)
    ensures r.Panic? <==> 0 < |replies| == triesPerHop && triesPerHop % U32_MODULUS == 0
    ensures r.Ok? ==> (r.value.Some? <==> 0 < |replies| <= triesPerHop)
    ensures r.Ok? && r.value.Some? ==>
              r.value.value.ttl == ttl && r.value.value.hopAddr == replies[0].hopAddr
    ensures r.Ok? && r.value.Some? && |replies| < triesPerHop ==> r.value.value.answerTime == "*"
    ensures r.Ok? && r.value.Some? && |replies| == triesPerHop ==>
              ParseClock(r.value.value.answerTime)
              == Some(ClockOf(MeanReplyTime(replies, triesPerHop % U32_MODULUS)))
  {
    if replies == [] then Ok(None)
    else if |replies| < triesPerHop then Ok(Some(TraceHopResult(ttl, replies[0].hopAddr, "*")))
    else if |replies| == triesPerHop then
      var divisor := triesPerHop % U32_MODULUS;
      if divisor == 0 then Panic("divide by zero error when dividing duration by scalar")
      else
        var mean := MeanReplyTime(replies, divisor);
        DurationToStringRoundTrip(mean);
        Ok(Some(TraceHopResult(ttl, replies[0].hopAddr, DurationToString(mean))))
    else Ok(None)
  }
}
