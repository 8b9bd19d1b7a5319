/**
 Conversions between the session configuration of the REST API (bytes and bits per second) and the
 SURB balancer (packets and SURBs per second). The packet size and the SURB size come from the
 transport library; arithmetic is on 64 bits and wraps.
 */
module SurbBalancer {
  import opened Wrappers
  import opened MachineWords

  // The transport's SESSION_MTU and SURB_SIZE, and its default balancer.
  datatype Transport = Transport(mtu: nat, surb: nat, defaults: Balancer)

  ghost predicate Sane(t: Transport) {
    && 0 < t.mtu && 2 * t.mtu < TWO_64 && 0 < t.surb && 8 * t.surb < TWO_64
  }

  datatype Balancer = Balancer(target: nat, rate: nat)

  // `maxUpstream` is a bandwidth in bits per second and may be wider than 64 bits.
  datatype SessionConfig = SessionConfig(responseBuffer: Option<nat>, maxUpstream: Option<nat>)

  function BitsPerSurb(t: Transport): nat {
    8 * t.surb
  }

  function ToBalancer(t: Transport, c: SessionConfig): Option<Balancer>
    requires Sane(t)
  {
    match c.responseBuffer
    case None => Some(t.defaults)
    case Some(buffer) =>
      if buffer >= 2 * t.mtu then
        Some(Balancer(buffer / t.mtu,
                      if c.maxUpstream.Some? then c.maxUpstream.value % TWO_64 / BitsPerSurb(t) else t.defaults.rate))
      else None
  }

  function FromBalancer(t: Transport, b: Balancer): SessionConfig {
    SessionConfig(Some(b.target * t.mtu % TWO_64), Some(b.rate * BitsPerSurb(t) % TWO_64))
  }

  /** What a configuration asks for: no buffer means the defaults, less than two packets no balancer, and
      otherwise whole packets, at the rate the bandwidth allows or the default one. */
  lemma ConvertsTo(t: Transport, c: SessionConfig)
    requires Sane(t)
    ensures c.responseBuffer.None? ==> ToBalancer(t, c) == Some(t.defaults)
    ensures c.responseBuffer.Some? ==>
              (ToBalancer(t, c).None? <==> c.responseBuffer.value < 2 * t.mtu)
    ensures c.responseBuffer.Some? && c.responseBuffer.value >= 2 * t.mtu ==>
              var b := ToBalancer(t, c).value;
              && b.target * t.mtu <= c.responseBuffer.value < (b.target + 1) * t.mtu
              && (c.maxUpstream.None? ==> b.rate == t.defaults.rate)
              && (c.maxUpstream.Some? ==>
                    b.rate * (8 * t.surb) <= c.maxUpstream.value % TWO_64 < (b.rate + 1) * (8 * t.surb))
  {
    if c.responseBuffer.Some? && c.responseBuffer.value >= 2 * t.mtu {
      WholeUnits(c.responseBuffer.value, t.mtu);
      if c.maxUpstream.Some? {
        WholeUnits(c.maxUpstream.value % TWO_64, BitsPerSurb(t));
      }
    }
  }

  /** What a balancer is shown as: both products, on 64 bits. */
  lemma ShownAs(t: Transport, b: Balancer)
    ensures var c := FromBalancer(t, b);
            && c.responseBuffer.Some? && c.maxUpstream.Some?
            && c.responseBuffer.value < TWO_64 && c.maxUpstream.value < TWO_64
            && (exists k: nat :: b.target * t.mtu == k * TWO_64 + c.responseBuffer.value)
            && (exists k: nat :: b.rate * (8 * t.surb) == k * TWO_64 + c.maxUpstream.value)
  {
    Wraps(b.target * t.mtu);
    Wraps(b.rate * BitsPerSurb(t));
  }

  lemma Wraps(x: nat)
    ensures x % TWO_64 < TWO_64 && exists k: nat :: x == k * TWO_64 + x % TWO_64
  {
    assert x == x / TWO_64 * TWO_64 + x % TWO_64;
  }

  lemma WholeUnits(x: nat, m: nat)
    requires m > 0
    ensures x / m * m <= x < (x / m + 1) * m
  {
    FloorBounds(x, m);
    assert (x / m + 1) * m == x / m * m + m;
  }

  lemma ProductSign(k: int, m: nat)
    ensures k >= 1 ==> k * m >= m
    ensures k >= 0 ==> k * m >= 0
  {
  }

  lemma FloorBounds(x: nat, m: nat)
    requires m > 0
    ensures x / m * m <= x < x / m * m + m
  {
    assert x == x / m * m + x % m;
  }

  lemma DivOfProduct(x: nat, m: nat)
    requires m > 0
    ensures x * m / m == x
  {
    var q := x * m / m;
    FloorBounds(x * m, m);
    assert (x - q) * m == x * m - q * m;
    ProductSign(x - q, m);
    assert (q - x) * m == q * m - x * m;
    ProductSign(q - x, m);
  }

  lemma DivBelow(x: nat, q: nat, m: nat)
    requires m > 0 && x < q * m
    ensures x / m < q
  {
    var p := x / m;
    FloorBounds(x, m);
    assert (p - q) * m == p * m - q * m;
    ProductSign(p - q, m);
  }

  // A product survives the trip exactly when it fits.
  lemma SurvivesIff(x: nat, m: nat)
    requires 0 < m
    ensures x * m % TWO_64 / m == x <==> x * m < TWO_64
  {
    if x * m < TWO_64 {
      DivOfProduct(x, m);
    } else {
      DivBelow(x * m % TWO_64, x, m);
    }
  }

  lemma ProductBounds(k: nat, m: nat)
    ensures k >= 2 ==> k * m >= 2 * m
    ensures k < 2 ==> k * m <= m
  {
  }

  lemma Converted(t: Transport, buffer: nat, bps: nat)
    requires Sane(t) && bps < TWO_64
    ensures ToBalancer(t, SessionConfig(Some(buffer), Some(bps)))
         == if buffer >= 2 * t.mtu then Some(Balancer(buffer / t.mtu, bps / BitsPerSurb(t))) else None
  {
    assert bps % TWO_64 == bps;
  }

  // The wrapped buffer of a target is large enough, and divides back, exactly when ...
  lemma TargetSurvivesIff(k: nat, m: nat)
    requires 0 < m && 2 * m < TWO_64
    ensures (k * m % TWO_64 >= 2 * m && k * m % TWO_64 / m == k) <==> (k >= 2 && k * m < TWO_64)
  {
    SurvivesIff(k, m);
    ProductBounds(k, m);
  }

  /** Balancer to configuration and back: target and rate return exactly when the target is at least
      two packets and both products fit in 64 bits. */
  lemma BalancerRoundTripsIff(t: Transport, b: Balancer)
    requires Sane(t)
    ensures ToBalancer(t, FromBalancer(t, b)) == Some(b)
            <==> b.target >= 2 && b.target * t.mtu < TWO_64 && b.rate * BitsPerSurb(t) < TWO_64
  {
    Converted(t, b.target * t.mtu % TWO_64, b.rate * BitsPerSurb(t) % TWO_64);
    TargetSurvivesIff(b.target, t.mtu);
    SurvivesIff(b.rate, BitsPerSurb(t));
  }

  /** Below two packets there is no balancer at all. */
  lemma TooSmallTargetGivesNone(t: Transport, b: Balancer)
    requires Sane(t) && b.target < 2
    ensures ToBalancer(t, FromBalancer(t, b)).None?
  {
    assert b.target * t.mtu <= t.mtu;
  }

  // One conversion to packets and back.
  function Rounded(t: Transport, c: SessionConfig): Option<SessionConfig>
    requires Sane(t)
  {
    var b := ToBalancer(t, c);
    if b.Some? then Some(FromBalancer(t, b.value)) else None
  }

  // Rounding one figure down to whole units.
  lemma RoundsDown(x: nat, m: nat)
    requires 0 < m && x < TWO_64
    ensures x / m * m % TWO_64 == x / m * m <= x < x / m * m + m
  {
    FloorBounds(x, m);
  }

  // A bandwidth over 64 bits loses at least 2^64, far more than one SURB.
  lemma Overwide(bps: nat, m: nat)
    requires bps >= TWO_64 && 0 < m < TWO_64
    ensures bps % TWO_64 / m * m + m <= bps
  {
    FloorBounds(bps % TWO_64, m);
  }

  /** Configuration to balancer and back never increases either figure, loses less than one packet of
      buffer, and less than one SURB per second of bandwidth exactly when that fits in 64 bits. */
  lemma RoundingLosesLessThanOne(t: Transport, buffer: nat, bps: nat)
    requires Sane(t) && 2 * t.mtu <= buffer < TWO_64
    ensures Rounded(t, SessionConfig(Some(buffer), Some(bps))).Some?
    ensures var r := Rounded(t, SessionConfig(Some(buffer), Some(bps))).value;
            && r.responseBuffer.Some? && r.maxUpstream.Some?
            && r.responseBuffer.value <= buffer < r.responseBuffer.value + t.mtu
            && r.maxUpstream.value <= bps
            && (bps < r.maxUpstream.value + BitsPerSurb(t) <==> bps < TWO_64)
  {
    var m := BitsPerSurb(t);
    RoundsDown(buffer, t.mtu);
    RoundsDown(bps % TWO_64, m);
    assert Rounded(t, SessionConfig(Some(buffer), Some(bps)))
        == Some(SessionConfig(Some(buffer / t.mtu * t.mtu), Some(bps % TWO_64 / m * m)));
    if bps >= TWO_64 {
      Overwide(bps, m);
    }
  }

  lemma AtLeastTwo(buffer: nat, mtu: nat)
    requires 0 < mtu && 2 * mtu <= buffer
    ensures buffer / mtu >= 2
  {
    FloorBounds(buffer, mtu);
    var q := buffer / mtu;
    ProductSign(1 - q, mtu);
    assert (1 - q) * mtu == mtu - q * mtu;
  }

  // The library's default figures that the conversion of `c` falls back on survive the trip back.
  predicate DefaultsFit(t: Transport, c: SessionConfig) {
    && (c.responseBuffer.None? ==> t.defaults.target >= 2 && t.defaults.target * t.mtu < TWO_64)
    && (c.responseBuffer.None? || c.maxUpstream.None? ==> t.defaults.rate * BitsPerSurb(t) < TWO_64)
  }

  // The balancer of a configuration survives the trip back.
  lemma RoundedBalancerFits(t: Transport, c: SessionConfig)
    requires Sane(t) && ToBalancer(t, c).Some? && DefaultsFit(t, c)
    requires c.responseBuffer.Some? ==> c.responseBuffer.value < TWO_64
    ensures ToBalancer(t, FromBalancer(t, ToBalancer(t, c).value)) == ToBalancer(t, c)
  {
    if c.responseBuffer.Some? {
      RoundsDown(c.responseBuffer.value, t.mtu);
      AtLeastTwo(c.responseBuffer.value, t.mtu);
      if c.maxUpstream.Some? {
        RoundsDown(c.maxUpstream.value % TWO_64, BitsPerSurb(t));
      }
    }
    BalancerRoundTripsIff(t, ToBalancer(t, c).value);
  }

  /** Once a configuration has been converted and back, converting it again changes nothing, whichever
      of its figures are given. */
  lemma RoundingIsIdempotent(t: Transport, c: SessionConfig)
    requires Sane(t) && ToBalancer(t, c).Some? && DefaultsFit(t, c)
    requires c.responseBuffer.Some? ==> c.responseBuffer.value < TWO_64
    ensures Rounded(t, c).Some? && Rounded(t, Rounded(t, c).value) == Rounded(t, c)
  {
    RoundedBalancerFits(t, c);
  }

  // A figure is its own multiple of m exactly when m divides it.
  lemma WholeIff(x: nat, m: nat)
    requires 0 < m && x < TWO_64
    ensures x / m * m % TWO_64 == x <==> x % m == 0
  {
    RoundsDown(x, m);
    assert x == x / m * m + x % m;
  }

  /** Whatever the defaults: a converted configuration is kept by a second conversion exactly when its
      buffer is at least two packets and both figures are whole units. */
  lemma SecondRoundingKeepsIff(t: Transport, c: SessionConfig)
    requires Sane(t) && Rounded(t, c).Some?
    ensures var r := Rounded(t, c).value;
            && r.responseBuffer.Some? && r.maxUpstream.Some?
            && (Rounded(t, r) == Some(r)
                <==> r.responseBuffer.value >= 2 * t.mtu
                     && r.responseBuffer.value % t.mtu == 0 && r.maxUpstream.value % BitsPerSurb(t) == 0)
  {
    var r := Rounded(t, c).value;
    var buffer, bps := r.responseBuffer.value, r.maxUpstream.value;
    Converted(t, buffer, bps);
    WholeIff(buffer, t.mtu);
    WholeIff(bps, BitsPerSurb(t));
  }
}
