/** `formatTimeAgo` of the profile page: the age of a post, bucketed into
    "Just now", minutes, hours or days. The current time is not read here:
    the caller passes the difference `now - postDate` in milliseconds, or
    `None` when the post's date string does not parse (NaN). */
module ProfilePage {
  import opened Wrappers
  import opened Text

  /** `Math.floor(ms / 1000)`: the whole seconds in `ms`, rounding down
      also for negative (future) differences. */
  function ElapsedSeconds(ms: int): (s: int)
    ensures s * 1000 <= ms < (s + 1) * 1000
  {
    ms / 1000
  }

  /** The four buckets, and the case where the difference is NaN. */
  datatype Ago = JustNow | MinutesAgo(n: nat) | HoursAgo(n: nat) | DaysAgo(n: nat) | NotANumber

  /** The bucket of a difference of `diff` seconds, with the whole number of
      minutes, hours or days it holds. */
  function Bucket(diff: int): (a: Ago)
    ensures a == JustNow <==> diff < 60
    ensures a.MinutesAgo? <==> 60 <= diff < 3600
    ensures a.HoursAgo? <==> 3600 <= diff < 86400
    ensures a.DaysAgo? <==> 86400 <= diff
    ensures a.MinutesAgo? ==> 1 <= a.n <= 59 && a.n * 60 <= diff < (a.n + 1) * 60
    ensures a.HoursAgo? ==> 1 <= a.n <= 23 && a.n * 3600 <= diff < (a.n + 1) * 3600
    ensures a.DaysAgo? ==> 1 <= a.n && a.n * 86400 <= diff < (a.n + 1) * 86400
  {
    if diff < 60 then JustNow
    else if diff < 3600 then MinutesAgo(diff / 60)
    else if diff < 86400 then HoursAgo(diff / 3600)
    else DaysAgo(diff / 86400)
  }

  /** The label shown for a bucket. A NaN difference fails every
      comparison and reaches the last line, which renders "NaNd ago". */
  function Render(a: Ago): (text: string)
    ensures |text| > 0
    ensures IsDigit(text[0]) <==> a.MinutesAgo? || a.HoursAgo? || a.DaysAgo?
  {
    match a
    case JustNow => "Just now"
    case MinutesAgo(n) => assert (Decimal(n) + "m ago")[0] == Decimal(n)[0]; Decimal(n) + "m ago"
    case HoursAgo(n) => assert (Decimal(n) + "h ago")[0] == Decimal(n)[0]; Decimal(n) + "h ago"
    case DaysAgo(n) => assert (Decimal(n) + "d ago")[0] == Decimal(n)[0]; Decimal(n) + "d ago"
    case NotANumber => "NaNd ago"
  }

  /** `formatTimeAgo(dateString)` for a post whose age is `elapsedMs`. */
  function FormatTimeAgo(elapsedMs: Option<int>): (text: string)
    ensures elapsedMs.None? ==> text == "NaNd ago"
    ensures elapsedMs.Some? && elapsedMs.value < 60_000 ==> text == "Just now"
    ensures elapsedMs.Some? && 60_000 <= elapsedMs.value < 3_600_000 ==>
              text == Decimal(elapsedMs.value / 60_000) + "m ago"
    ensures elapsedMs.Some? && 3_600_000 <= elapsedMs.value < 86_400_000 ==>
              text == Decimal(elapsedMs.value / 3_600_000) + "h ago"
    ensures elapsedMs.Some? && 86_400_000 <= elapsedMs.value ==>
              text == Decimal(elapsedMs.value / 86_400_000) + "d ago"
  {
    if elapsedMs.None? then Render(NotANumber)
    else
      FloorOfFloor(elapsedMs.value, 60);
      FloorOfFloor(elapsedMs.value, 3600);
      FloorOfFloor(elapsedMs.value, 86400);
      Render(Bucket(ElapsedSeconds(elapsedMs.value)))
  }

  /** Whole seconds, then whole units of `k` seconds, is whole units of
      `k` seconds of the milliseconds: the two floors compose. */
  lemma FloorOfFloor(ms: int, k: int)
    requires k > 0
    ensures ElapsedSeconds(ms) / k == ms / (1000 * k)
  {
    var s := ElapsedSeconds(ms);
    var q := s / k;
    assert q * k <= s < (q + 1) * k;
    assert q * k * 1000 <= s * 1000 by {
      MulMonotone(q * k, s, 1000);
    }
    assert (s + 1) * 1000 <= (q + 1) * k * 1000 by {
      MulMonotone(s + 1, (q + 1) * k, 1000);
    }
    DivUnique(ms, 1000 * k, q);
  }

  lemma MulMonotone(a: int, b: int, c: nat)
    requires a <= b
    ensures a * c <= b * c
  {
  }

  /** The quotient is the only `q` with `q * d <= x < (q + 1) * d`. */
  lemma DivUnique(x: int, d: int, q: int)
    requires d > 0 && q * d <= x < (q + 1) * d
    ensures x / d == q
  {
    var r := x / d;
    assert r * d <= x < (r + 1) * d;
    if r < q {
      MulMonotone(r + 1, q, d);
    } else if r > q {
      MulMonotone(q + 1, r, d);
    }
  }

  /** Different buckets, or different counts in one bucket, never show the
      same label. */
  lemma RenderInjective(a: Ago, b: Ago)
    requires Render(a) == Render(b)
    ensures a == b
  {
    if (a.MinutesAgo? || a.HoursAgo? || a.DaysAgo?) && (b.MinutesAgo? || b.HoursAgo? || b.DaysAgo?) {
      var d, e := Decimal(a.n), Decimal(b.n);
      assert |d| == |e|;
      assert Render(a)[|d|] == (if a.MinutesAgo? then 'm' else if a.HoursAgo? then 'h' else 'd');
      assert Render(b)[|e|] == (if b.MinutesAgo? then 'm' else if b.HoursAgo? then 'h' else 'd');
      assert d == Render(a)[..|d|] == Render(b)[..|e|] == e;
      DecimalRoundTrip(a.n);
      DecimalRoundTrip(b.n);
    }
  }

  /** Two ages get the same label exactly when they fall in the same
      bucket with the same count: the label loses nothing but the
      remainder. */
  lemma SameLabelIff(ms1: int, ms2: int)
    ensures FormatTimeAgo(Some(ms1)) == FormatTimeAgo(Some(ms2)) <==>
              Bucket(ElapsedSeconds(ms1)) == Bucket(ElapsedSeconds(ms2))
  {
    if FormatTimeAgo(Some(ms1)) == FormatTimeAgo(Some(ms2)) {
      RenderInjective(Bucket(ElapsedSeconds(ms1)), Bucket(ElapsedSeconds(ms2)));
    }
  }
}
