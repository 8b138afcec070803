/** The growing sleep interval of thpool_wait, with the multiplier taken as exactly
    101/100 and the clock's own rounding left aside. */
module PollBackoff {

  const MAX_NANOSEC := 999_999_999
  const MAX_SECS := 20
  const NANOS_PER_SEC := 1_000_000_000

  datatype Interval = Interval(sec: nat, nsec: nat)

  /** The macro CEIL for a value that is not negative. */
  function Ceil(x: real): int {
    if x - x.Floor as real > 0.0 then (x + 1.0).Floor else x.Floor
  }

  /** new_nano, as a quotient of integers. */
  function NewNano(nsec: nat): int { (101 * nsec + 99) / 100 }

  /** One round below the limit of seconds. */
  function Round(i: Interval): Interval {
    var n := NewNano(i.nsec);
    Interval(if n > MAX_NANOSEC then i.sec + 1 else i.sec, n % MAX_NANOSEC)
  }

  /** Past MAX_NANOSEC a second is carried, and the nanoseconds start again above it. */
  lemma RoundIs(i: Interval)
    requires i.nsec < MAX_NANOSEC
    ensures var n := (101 * i.nsec + 99) / 100;
            Round(i) == if n > 999_999_999 then Interval(i.sec + 1, n - 999_999_999)
                        else if n == 999_999_999 then Interval(i.sec, 0)
                        else Interval(i.sec, n)
  {
  }

  /** The interval after k rounds that found the pool still busy. */
  function After(i: Interval, k: nat): Interval {
    if k == 0 then i
    else
      var j := After(i, k - 1);
      if j.sec < MAX_SECS then Round(j) else j
  }

  function Total(i: Interval): nat { i.sec * NANOS_PER_SEC + i.nsec }

  predicate InRange(i: Interval) { 1 <= i.nsec < MAX_NANOSEC }

  /** The round that would start at i makes the nanoseconds come to exactly MAX_NANOSEC. */
  predicate Lands(i: Interval) { i.sec < MAX_SECS && NewNano(i.nsec) == MAX_NANOSEC }

  lemma CeilIsNewNano(nsec: nat)
    ensures Ceil(nsec as real * 1.01) == NewNano(nsec)
  {
    var x := nsec as real * 1.01;
    assert 100.0 * x == (101 * nsec) as real;
    var f := x.Floor;
    assert (100 * f) as real <= (101 * nsec) as real < (100 * f + 100) as real;
    assert 100 * f <= 101 * nsec < 100 * f + 100;
    assert (x + 1.0).Floor == f + 1;
  }

  /** A round keeps the nanoseconds in range and lengthens the sleep, even where the
      nanoseconds wrap, unless it lands: then the nanoseconds become 0. */
  lemma RoundGrows(i: Interval)
    requires InRange(i) && i.sec < MAX_SECS
    ensures 0 < NewNano(i.nsec) < 0x8000_0000
    ensures !Lands(i) <==> InRange(Round(i))
    ensures !Lands(i) <==> Total(i) < Total(Round(i))
    ensures Lands(i) ==> Round(i) == Interval(i.sec, 0)
  {
  }

  lemma {:induction false} AfterKeeps(i: Interval, k: nat)
    requires InRange(i) && forall j :: 0 <= j < k ==> !Lands(After(i, j))
    ensures InRange(After(i, k)) && i.sec <= After(i, k).sec
    ensures i.sec <= MAX_SECS ==> After(i, k).sec <= MAX_SECS
  {
    if k > 0 {
      AfterKeeps(i, k - 1);
      if After(i, k - 1).sec < MAX_SECS {
        assert !Lands(After(i, k - 1));
        RoundGrows(After(i, k - 1));
      }
    }
  }

  lemma {:induction false} AfterAfter(i: Interval, a: nat, b: nat)
    ensures After(After(i, a), b) == After(i, a + b)
  {
    if b > 0 {
      AfterAfter(i, a, b - 1);
    }
  }

  /** The first round of the loop of thpool_wait at which nothing can change any more. */
  predicate Leaves(i: Interval, k: nat) { After(i, k).sec >= MAX_SECS }

  lemma RoundAdds(i: Interval, least: nat)
    requires least <= i.nsec && Round(i).sec == i.sec && InRange(Round(i))
    ensures Round(i).nsec >= i.nsec + (least + 99) / 100
  {
    var n := i.nsec;
    assert (101 * n + 99) / 100 == n + (n + 99) / 100;
  }

  lemma Adds(start: nat, k: nat, d: nat, was: nat, now: nat)
    requires k > 0 && was >= start + (k - 1) * d && now >= was + d
    ensures was >= start && now >= start + k * d
  {
    assert (k - 1) * d >= 0;
    assert k * d == (k - 1) * d + d;
  }

  /** While the seconds stay, each round adds at least a hundredth of the start. */
  lemma {:induction false} GrowsLinearly(i: Interval, k: nat, d: nat)
    requires InRange(i) && i.sec < MAX_SECS && forall j :: 0 <= j < k ==> !Lands(After(i, j))
    requires After(i, k).sec == i.sec && d == (i.nsec + 99) / 100
    ensures After(i, k).nsec >= i.nsec + k * d
  {
    if k > 0 {
      AfterKeeps(i, k - 1);
      AfterKeeps(i, k);
      var j := After(i, k - 1);
      GrowsLinearly(i, k - 1, d);
      assert j.nsec >= i.nsec by {
        assert (k - 1) * d >= 0;
      }
      RoundAdds(j, i.nsec);
      Adds(i.nsec, k, d, j.nsec, After(i, k).nsec);
    }
  }

  function Doubled(n: nat, m: nat): nat {
    if m == 0 then n else 2 * Doubled(n, m - 1)
  }

  /** So while the seconds stay, the nanoseconds double every hundred rounds. */
  lemma DoublesIn(i: Interval, k: nat)
    requires InRange(i) && i.sec < MAX_SECS && forall j :: 0 <= j < k ==> !Lands(After(i, j))
    requires k == 100 && After(i, k).sec == i.sec
    ensures After(i, k).nsec >= 2 * i.nsec
  {
    GrowsLinearly(i, k, (i.nsec + 99) / 100);
  }

  lemma {:induction false} GrowsGeometrically(i: Interval, k: nat, m: nat)
    requires InRange(i) && i.sec < MAX_SECS && k == 100 && forall j: nat :: !Lands(After(i, j))
    requires After(i, k * m).sec == i.sec
    ensures After(i, k * m).nsec >= Doubled(i.nsec, m)
  {
    if m > 0 {
      var was := k * (m - 1);
      assert k * m == was + k;
      AfterAfter(i, was, k);
      AfterKeeps(i, was);
      var j := After(i, was);
      forall x | 0 <= x < k ensures !Lands(After(j, x)) {
        AfterAfter(i, was, x);
        assert !Lands(After(i, was + x));
      }
      AfterKeeps(j, k);
      GrowsGeometrically(i, k, m - 1);
      DoublesIn(j, k);
    }
  }

  lemma {:induction false} DoubledGrows(n: nat, m: nat)
    requires n >= 1
    ensures Doubled(n, m) >= Doubled(1, m)
  {
    if m > 0 {
      DoubledGrows(n, m - 1);
    }
  }

  lemma TwoToThirty()
    ensures Doubled(1, 30) == 0x4000_0000
  {
    assert Doubled(1, 10) == 1024;
    assert Doubled(1, 20) == 0x10_0000;
  }

  /** So a second is added within three thousand rounds. */
  lemma SecondWithin(i: Interval, lap: nat)
    requires InRange(i) && i.sec < MAX_SECS && lap == 3000 && forall j: nat :: !Lands(After(i, j))
    ensures After(i, lap).sec >= i.sec + 1
  {
    AfterKeeps(i, lap);
    if After(i, lap).sec == i.sec {
      var hundred := 100;
      assert hundred * 30 == lap;
      GrowsGeometrically(i, hundred, 30);
      DoubledGrows(i.nsec, 30);
      TwoToThirty();
    }
  }

  lemma {:induction false} SecondsWithin(i: Interval, lap: nat, s: nat)
    requires InRange(i) && i.sec + s <= MAX_SECS && lap == 3000 && forall j: nat :: !Lands(After(i, j))
    ensures After(i, lap * s).sec >= i.sec + s
  {
    if s > 0 {
      SecondsWithin(i, lap, s - 1);
      var k := lap * (s - 1);
      assert k + lap == lap * s;
      var j := After(i, k);
      AfterKeeps(i, k);
      AfterAfter(i, k, lap);
      forall x: nat ensures !Lands(After(j, x)) {
        AfterAfter(i, k, x);
        assert !Lands(After(i, k + x));
      }
      if j.sec < MAX_SECS {
        SecondWithin(j, lap);
      } else {
        SecondsGrow(j, 0, lap);
      }
    }
  }

  lemma {:induction false} SecondsGrow(i: Interval, a: nat, k: nat)
    ensures After(i, a).sec <= After(i, a + k).sec
  {
    if k > 0 {
      SecondsGrow(i, a, k - 1);
    }
  }

  lemma {:induction false} ZeroStays(i: Interval, k: nat)
    requires i.nsec == 0
    ensures After(i, k) == i
  {
    if k > 0 {
      ZeroStays(i, k - 1);
    }
  }

  predicate NeverLands(i: Interval, j: nat) { !Lands(After(i, j)) }

  lemma LeavesInTime(i: Interval)
    requires InRange(i) && i.sec <= MAX_SECS && forall j: nat :: NeverLands(i, j)
    ensures Leaves(i, 60_000)
  {
    forall j: nat ensures !Lands(After(i, j)) {
      assert NeverLands(i, j);
    }
    var k := 3000 * (MAX_SECS - i.sec);
    SecondsWithin(i, 3000, MAX_SECS - i.sec);
    SecondsGrow(i, k, 60_000 - k);
  }

  lemma StuckOnceLanded(i: Interval, j: nat, k: nat)
    requires Lands(After(i, j))
    ensures !Leaves(i, k)
  {
    if k <= j {
      SecondsGrow(i, k, j - k);
    } else {
      assert After(i, j + 1) == Interval(After(i, j).sec, 0);
      AfterAfter(i, j + 1, k - j - 1);
      ZeroStays(After(i, j + 1), k - j - 1);
    }
  }

  // ---- When a round can land ----

  function Back(n: nat): nat { 100 * n / 101 }

  /** The nanoseconds that would come to MAX_NANOSEC in k rounds. */
  function Ahead(k: nat): nat {
    if k == 0 then MAX_NANOSEC else Back(Ahead(k - 1))
  }

  lemma {:induction false} AheadFalls(k: nat, m: nat)
    requires k <= m
    ensures Ahead(m) <= Ahead(k)
    decreases m
  {
    if k < m {
      AheadFalls(k, m - 1);
    }
  }

  lemma TwoBack(k: nat, v: nat, w: nat)
    requires Ahead(k) == v && Back(Back(v)) == w
    ensures Ahead(k + 2) == w
  {
    assert Ahead(k + 1) == Back(v);
  }

  lemma FirstFourteen(k: nat)
    requires Ahead(k) == MAX_NANOSEC
    ensures Ahead(k + 14) == 869_962_961
  {
    TwoBack(k, MAX_NANOSEC, 980_296_047);
    TwoBack(k + 2, 980_296_047, 960_980_341);
    TwoBack(k + 4, 960_980_341, 942_045_231);
    TwoBack(k + 6, 942_045_231, 923_483_217);
    TwoBack(k + 8, 923_483_217, 905_286_948);
    TwoBack(k + 10, 905_286_948, 887_449_217);
    TwoBack(k + 12, 887_449_217, 869_962_961);
  }

  lemma NextFourteen(k: nat)
    requires Ahead(k) == 869_962_961
    ensures Ahead(k + 14) == 756_835_554
  {
    TwoBack(k, 869_962_961, 852_821_253);
    TwoBack(k + 2, 852_821_253, 836_017_304);
    TwoBack(k + 4, 836_017_304, 819_544_459);
    TwoBack(k + 6, 819_544_459, 803_396_195);
    TwoBack(k + 8, 803_396_195, 787_566_115);
    TwoBack(k + 10, 787_566_115, 772_047_950);
    TwoBack(k + 12, 772_047_950, 756_835_554);
  }

  lemma LastFourteen(k: nat)
    requires Ahead(k) == 756_835_554
    ensures Ahead(k + 14) == 658_418_900
  {
    TwoBack(k, 756_835_554, 741_922_902);
    TwoBack(k + 2, 741_922_902, 727_304_089);
    TwoBack(k + 4, 727_304_089, 712_973_324);
    TwoBack(k + 6, 712_973_324, 698_924_932);
    TwoBack(k + 8, 698_924_932, 685_153_349);
    TwoBack(k + 10, 685_153_349, 671_653_120);
    TwoBack(k + 12, 671_653_120, 658_418_900);
  }

  lemma AheadEnds(k: nat, end: nat)
    requires k <= end == 42
    ensures Ahead(end) == 658_418_900 <= Ahead(k)
  {
    var start := end - 42;
    FirstFourteen(start);
    NextFourteen(start + 14);
    LastFourteen(start + 28);
    AheadFalls(k, end);
  }

  lemma AheadLarge(k: nat)
    requires k <= 42
    ensures Ahead(k) >= 100_000_000
  {
    var end := 42;
    AheadEnds(k, end);
  }

  /** What came before a large number of nanoseconds: one value, or none. */
  lemma OneBefore(i: Interval, n: nat)
    requires InRange(i) && n >= 100_000_000
    requires NewNano(i.nsec) == n == MAX_NANOSEC || Round(i).nsec == n
    ensures i.nsec == Back(n) && n % 101 != 1 && Round(i).sec == i.sec
  {
  }

  lemma RoundBefore(i: Interval, k: nat)
    requires After(i, k + 1).sec < MAX_SECS
    ensures After(i, k).sec < MAX_SECS && After(i, k + 1) == Round(After(i, k))
  {
    SecondsGrow(i, k, 1);
  }

  lemma {:induction false} TracedBack(i: Interval, j: nat, k: nat)
    requires InRange(i) && Lands(After(i, j)) && k <= j && k < 42
    requires forall x :: 0 <= x < j ==> !Lands(After(i, x))
    ensures After(i, j - k).nsec == Ahead(k + 1) && After(i, j - k).sec < MAX_SECS
  {
    AfterKeeps(i, j - k);
    if k == 0 {
      OneBefore(After(i, j), MAX_NANOSEC);
    } else {
      TracedBack(i, j, k - 1);
      AheadLarge(k);
      RoundBefore(i, j - k);
      OneBefore(After(i, j - k), Ahead(k));
    }
  }

  /** A first landing comes within 42 rounds or not at all: nothing leads to Ahead(42). */
  lemma LandsEarly(i: Interval, j: nat)
    requires InRange(i) && Lands(After(i, j))
    requires forall x :: 0 <= x < j ==> !Lands(After(i, x))
    ensures j < 42
  {
    if j >= 42 {
      var last := 41;
      TracedBack(i, j, last);
      AheadEnds(last + 1, last + 1);
      AfterKeeps(i, j - last - 1);
      RoundBefore(i, j - last - 1);
      OneBefore(After(i, j - last - 1), 658_418_900);
      assert false;
    }
  }

  predicate LandsBy(i: Interval, n: nat) { exists j :: 0 <= j < n && Lands(After(i, j)) }

  lemma {:induction false} NoneLaterLands(i: Interval, n: nat)
    requires InRange(i) && !LandsBy(i, 42)
    ensures !LandsBy(i, n)
  {
    if n > 0 {
      NoneLaterLands(i, n - 1);
      if Lands(After(i, n - 1)) {
        LandsEarly(i, n - 1);
      }
    }
  }

  /** Whatever interval the loop starts from, it comes to its break if and only if none of
      its first 42 rounds lands on MAX_NANOSEC, and then within sixty thousand rounds; after
      a landing the loop sleeps for whole seconds only and never gives up. */
  lemma LeavesIffNotLanded(i: Interval)
    requires InRange(i) && i.sec <= MAX_SECS
    ensures (exists k: nat :: Leaves(i, k)) <==> !LandsBy(i, 42)
    ensures !LandsBy(i, 42) ==> Leaves(i, 60_000)
  {
    if LandsBy(i, 42) {
      var j :| 0 <= j < 42 && Lands(After(i, j));
      forall k: nat ensures !Leaves(i, k) {
        StuckOnceLanded(i, j, k);
      }
    } else {
      forall j: nat ensures NeverLands(i, j) {
        NoneLaterLands(i, j + 1);
      }
      LeavesInTime(i);
    }
  }

  /** A landing exists: from this interval the loop would never give up. */
  lemma LandingExample()
    ensures InRange(Interval(0, 990_099_008)) && LandsBy(Interval(0, 990_099_008), 42)
    ensures forall k: nat :: !Leaves(Interval(0, 990_099_008), k)
  {
    var i := Interval(0, 990_099_008);
    assert Lands(After(i, 0));
    forall k: nat ensures !Leaves(i, k) {
      StuckOnceLanded(i, 0, k);
    }
  }

  const START := Interval(0, 1)

  lemma SmallRound(n: nat)
    requires 1 <= n <= 100
    ensures NewNano(n) == n + 1 && Round(Interval(0, n)) == Interval(0, n + 1)
  {
  }

  lemma {:induction false} SmallSteps(k: nat)
    requires k < 100
    ensures After(START, k) == Interval(0, k + 1)
  {
    if k > 0 {
      SmallSteps(k - 1);
      SmallRound(k);
    }
  }

  /** From the interval that thpool_wait starts with, no round ever lands: the nanoseconds
      stay in range, each round before the break sleeps longer than the one before, and
      the break comes within sixty thousand rounds. */
  lemma StartLeaves(k: nat)
    ensures InRange(After(START, k)) && After(START, k).sec <= MAX_SECS
    ensures !Leaves(START, k) ==> Total(After(START, k)) < Total(After(START, k + 1))
    ensures Leaves(START, 60_000)
  {
    forall j | 0 <= j < 42 ensures !Lands(After(START, j)) {
      SmallSteps(j);
      SmallRound(j + 1);
    }
    LeavesIffNotLanded(START);
    forall j | 0 <= j < k + 1 ensures !Lands(After(START, j)) {
      NoneLaterLands(START, j + 1);
    }
    AfterKeeps(START, k);
    if !Leaves(START, k) {
      RoundGrows(After(START, k));
    }
  }

  lemma BeforeBreak(k: nat)
    ensures Leaves(START, k) || k < 60_000
  {
    StartLeaves(0);
    if k >= 60_000 {
      SecondsGrow(START, 60_000, k - 60_000);
    }
  }

  /** The loop of thpool_wait, where the pool is found busy busyReads times in a row. */
  method ExponentialPoll(busyReads: nat) returns (interval: Interval, rounds: nat, gaveUp: bool)
    ensures interval == After(START, rounds)
    ensures forall j :: 0 <= j < rounds ==> !Leaves(START, j)
    ensures if gaveUp then rounds < busyReads && Leaves(START, rounds) else rounds == busyReads
    ensures rounds <= 60_000
    ensures gaveUp <==> interval.sec >= 20 && rounds < busyReads
  {
    var sec: nat, nsec: nat := 0, 1;
    rounds := 0;
    gaveUp := false;
    while rounds < busyReads
      invariant rounds <= busyReads && rounds <= 60_000
      invariant Interval(sec, nsec) == After(START, rounds)
      invariant forall j :: 0 <= j < rounds ==> !Leaves(START, j)
    {
      if sec < MAX_SECS {
        BeforeBreak(rounds);
        var newNano := Ceil(nsec as real * 1.01);
        CeilIsNewNano(nsec);
        nsec := newNano % MAX_NANOSEC;
        if newNano > MAX_NANOSEC {
          sec := sec + 1;
        }
        rounds := rounds + 1;
      } else {
        gaveUp := true;
        break;
      }
    }
    interval := Interval(sec, nsec);
  }
}
