/** The tracker's two display helpers: `truncateText` and the relative
    branches of `formatTimestamp`, with the current time passed in. */
module Formatting {
  import opened JsStrings

  /** `truncateText(text, maxLength)`: short text is returned as it is, long
      text is cut to its first `maxLength` characters followed by "...". */
  function TruncateText(text: string, maxLength: nat): (r: string)
    ensures |text| <= maxLength ==> r == text
    ensures |text| > maxLength ==>
              |r| == maxLength + 3 && r[..maxLength] == text[..maxLength] && r[maxLength..] == "..."
  {
    if |text| <= maxLength then text else text[..maxLength] + "..."
  }

  /** Truncating what was already truncated with the same limit changes
      nothing, and the result is never longer than the limit plus three. */
  lemma TruncateIdempotent(text: string, maxLength: nat)
    ensures TruncateText(TruncateText(text, maxLength), maxLength) == TruncateText(text, maxLength)
    ensures |TruncateText(text, maxLength)| <= maxLength + 3
  {
    var r := TruncateText(text, maxLength);
    if |text| > maxLength {
      assert r[..maxLength] + "..." == r;
    }
  }

  const MsPerMinute := 60_000      // 1000 * 60
  const MsPerHour := 3_600_000     // 1000 * 60 * 60
  const MsPerDay := 86_400_000     // 1000 * 60 * 60 * 24

  /** The three relative units, with the span one unit covers and the count
      at which the next coarser unit takes over. */
  datatype Unit = Minute | Hour | Day {
    function Name(): string {
      match this
      case Minute => "minute"
      case Hour => "hour"
      case Day => "day"
    }

    function Span(): nat {
      match this
      case Minute => MsPerMinute
      case Hour => MsPerHour
      case Day => MsPerDay
    }

    function Limit(): nat {
      match this
      case Minute => 60
      case Hour => 24
      case Day => 7
    }
  }

  /** "<n> <unit> ago", with an "s" after the unit unless n is 1. */
  function Ago(n: nat, u: Unit): string {
    NatToDecimal(n) + AgoTail(n, u)
  }

  /** Everything after the count: " <unit>[s] ago". */
  function AgoTail(n: nat, u: Unit): (t: string)
    ensures |t| > 1 && t[0] == ' ' && t[1] == u.Name()[0]
  {
    " " + u.Name() + (if n != 1 then "s" else "") + " ago"
  }

  /** What `formatTimestamp` returns: relative text, or the locale date
      string `toLocaleDateString` renders for `instant` (its year shown when
      it differs from the year of `now`), kept opaque. */
  datatype Label = Relative(text: string) | LocaleDate(instant: int, now: int)

  /** `formatTimestamp` for a record created at `timestamp`, both times in
      milliseconds: less than a minute is "Just now", and the absolute date
      appears exactly from seven whole days on (`AgoIff` places the labels
      in between). The source's `Math.floor` of a quotient by a positive
      span is Dafny's `/` on integers. */
  function FormatTimestamp(timestamp: int, now: int): (shown: Label)
    ensures now - timestamp < MsPerMinute ==> shown == Relative("Just now")
    ensures shown.LocaleDate? <==> now - timestamp >= 7 * MsPerDay
    ensures shown.LocaleDate? ==> shown == LocaleDate(timestamp, now)
  {
    var diffMs := now - timestamp;
    var diffMinutes := diffMs / MsPerMinute;
    var diffHours := diffMs / MsPerHour;
    var diffDays := diffMs / MsPerDay;
    if diffMinutes < 1 then Relative("Just now")
    else if diffMinutes < 60 then Relative(Ago(diffMinutes, Minute))
    else if diffHours < 24 then Relative(Ago(diffHours, Hour))
    else if diffDays < 7 then Relative(Ago(diffDays, Day))
    else LocaleDate(timestamp, now)
  }

  /** The unit name is followed by "s" exactly when the count is not 1. */
  lemma AgoPluralIff(n: nat, u: Unit)
    ensures var k := |NatToDecimal(n)| + 1 + |u.Name()|;
            k < |Ago(n, u)| && (Ago(n, u)[k] == 's' <==> n != 1)
  {
    var k := |NatToDecimal(n)| + 1 + |u.Name()|;
    var tail := (if n != 1 then "s" else "") + " ago";
    assert Ago(n, u) == NatToDecimal(n) + " " + u.Name() + tail;
    assert Ago(n, u)[k] == tail[0];
  }

  /** Two relative texts are equal only for the same count and unit. */
  lemma AgoInjective(m: nat, u: Unit, n: nat, v: Unit)
    ensures Ago(m, u) == Ago(n, v) <==> m == n && u == v
  {
    if Ago(m, u) == Ago(n, v) {
      DigitsThenRest(NatToDecimal(m), AgoTail(m, u), NatToDecimal(n), AgoTail(n, v));
      NatToDecimalInjective(m, n);
      assert u.Name()[0] == v.Name()[0];
    }
  }

  lemma AgoStartsWithDigit(n: nat, u: Unit)
    ensures IsDigit(Ago(n, u)[0])
  {
    assert Ago(n, u)[0] == NatToDecimal(n)[0];
  }

  /** "Just now" exactly when less than a minute has passed, a future
      timestamp (negative difference) included. */
  lemma JustNowIff(timestamp: int, now: int)
    ensures FormatTimestamp(timestamp, now) == Relative("Just now") <==> now - timestamp < MsPerMinute
  {
    var diff := now - timestamp;
    assert diff / MsPerMinute < 1 <==> diff < MsPerMinute;
    if diff >= MsPerMinute {
      assert !IsDigit("Just now"[0]);
      if diff / MsPerMinute < 60 {
        AgoStartsWithDigit(diff / MsPerMinute, Minute);
      } else if diff / MsPerHour < 24 {
        AgoStartsWithDigit(diff / MsPerHour, Hour);
      } else if diff / MsPerDay < 7 {
        AgoStartsWithDigit(diff / MsPerDay, Day);
      }
    }
  }

  /** The bucket a count and unit stand for: a count between 1 and the
      unit's limit, and an elapsed time of that many whole units. */
  predicate InBucket(diff: int, n: nat, u: Unit) {
    1 <= n < u.Limit() && u.Span() * n <= diff < u.Span() * (n + 1)
  }

  /** Floor division by a positive span picks the bucket the value is in. */
  lemma FloorDivIff(x: int, d: int, n: int)
    requires d > 0
    ensures x / d == n <==> d * n <= x < d * (n + 1)
  {
    var q := x / d;
    assert d * q <= x < d * (q + 1);
    if d * n <= x < d * (n + 1) {
      if q < n {
        MulMonotone(d, q + 1, n);
      } else if q > n {
        MulMonotone(d, n + 1, q);
      }
    }
  }

  lemma MulMonotone(d: int, a: int, b: int)
    requires d > 0 && a <= b
    ensures d * a <= d * b
  {
    assert d * b - d * a == d * (b - a);
  }

  lemma AgoInBucket(timestamp: int, now: int, n: nat, u: Unit)
    requires InBucket(now - timestamp, n, u)
    ensures FormatTimestamp(timestamp, now) == Relative(Ago(n, u))
  {
    var diff := now - timestamp;
    match u
    case Minute =>
      FloorDivIff(diff, MsPerMinute, n);
    case Hour =>
      FloorDivIff(diff, MsPerHour, n);
      FloorDivIff(diff, MsPerMinute, diff / MsPerMinute);
    case Day =>
      FloorDivIff(diff, MsPerDay, n);
      FloorDivIff(diff, MsPerHour, diff / MsPerHour);
      FloorDivIff(diff, MsPerMinute, diff / MsPerMinute);
  }

  lemma AgoOnlyInBucket(timestamp: int, now: int, n: nat, u: Unit)
    requires FormatTimestamp(timestamp, now) == Relative(Ago(n, u))
    ensures InBucket(now - timestamp, n, u)
  {
    var diff := now - timestamp;
    var q, h, d := diff / MsPerMinute, diff / MsPerHour, diff / MsPerDay;
    if q < 1 {
      AgoStartsWithDigit(n, u);
    } else if q < 60 {
      AgoInjective(q, Minute, n, u);
      FloorDivIff(diff, MsPerMinute, q);
    } else if h < 24 {
      AgoInjective(h, Hour, n, u);
      FloorDivIff(diff, MsPerHour, h);
    } else {
      AgoInjective(d, Day, n, u);
      FloorDivIff(diff, MsPerDay, d);
    }
  }

  /** "<n> <unit>(s) ago" exactly for elapsed times in that bucket; an exact
      boundary (60 minutes, 24 hours) lands in the next coarser unit. */
  lemma AgoIff(timestamp: int, now: int, n: nat, u: Unit)
    ensures FormatTimestamp(timestamp, now) == Relative(Ago(n, u)) <==> InBucket(now - timestamp, n, u)
  {
    if InBucket(now - timestamp, n, u) {
      AgoInBucket(timestamp, now, n, u);
    }
    if FormatTimestamp(timestamp, now) == Relative(Ago(n, u)) {
      AgoOnlyInBucket(timestamp, now, n, u);
    }
  }

  /** Exactly sixty minutes reads as one hour, not sixty minutes. */
  lemma HourBoundary(timestamp: int)
    ensures FormatTimestamp(timestamp, timestamp + MsPerHour) == Relative("1 hour ago")
  {
    AgoInBucket(timestamp, timestamp + MsPerHour, 1, Hour);
    assert NatToDecimal(1) == "1";
  }

  /** Ninety seconds read as one minute, fifty-nine seconds as just now. */
  lemma MinuteExamples(timestamp: int)
    ensures FormatTimestamp(timestamp, timestamp + 90_000) == Relative("1 minute ago")
    ensures FormatTimestamp(timestamp, timestamp + 59_000) == Relative("Just now")
  {
    AgoInBucket(timestamp, timestamp + 90_000, 1, Minute);
    assert NatToDecimal(1) == "1";
  }
}
