/**
 The link quality models: which distances count as connected, and the precalculated maximum
 distance. Bandwidths are exact rationals, in kbit per second.
 */
module LinkQuality {
  import opened Topology
  import opened Arithmetic

  /** The three models; the WiFi models depend on the maximum bandwidth. */
  datatype Model = Range | WiFiLinear(bandwidth: real) | WiFiExponential(bandwidth: real)

  const DEFAULT_BANDWIDTH := 54000.0
  const MIN_BANDWIDTH := 1000.0

  predicate Valid(m: Model) {
    match m
    case Range => true
    case WiFiLinear(b) => b > 0.0
    case WiFiExponential(b) => b > 0.0
  }

  /** The bandwidth of the linear model: it halves the distance plus one. */
  function LinearBandwidth(b: real, distance: int): (r: real)
    requires distance >= -1
  {
    var half := (distance + 1) as real / 2.0;
    if half > 1.0 then b / half else b
  }

  /** The bandwidth of the exponential model: it halves every four units. */
  function ExponentialBandwidth(b: real, distance: nat): (r: real) {
    if distance >= 1 then b / Pow2(distance / 4) as real else b
  }

  /** Does the model connect nodes at this distance? */
  predicate Connected(m: Model, distance: int) {
    match m
    case Range => 0 <= distance < 30
    case WiFiLinear(b) => distance + 1 >= 0 && LinearBandwidth(b, distance) >= MIN_BANDWIDTH
    case WiFiExponential(b) => distance >= 0 && ExponentialBandwidth(b, distance) >= MIN_BANDWIDTH
  }

  // ----- Thresholds in closed form ----------------------------------------------------

  lemma LinearThreshold(b: real, d: nat)
    requires b > 0.0
    ensures LinearBandwidth(b, d) >= MIN_BANDWIDTH <==>
            if d <= 1 then b >= MIN_BANDWIDTH else b >= 500.0 * (d + 1) as real
  {
    var half := (d + 1) as real / 2.0;
    if d > 1 {
      assert half > 1.0 && half * 1000.0 == 500.0 * (d + 1) as real;
      DivideAtLeast(b, half, MIN_BANDWIDTH);
    }
  }

  lemma ExponentialThreshold(b: real, d: nat)
    requires b > 0.0
    ensures ExponentialBandwidth(b, d) >= MIN_BANDWIDTH <==>
            b >= MIN_BANDWIDTH * Pow2(d / 4) as real
  {
    DivideAtLeast(b, Pow2(d / 4) as real, MIN_BANDWIDTH);
  }

  lemma DivideAtLeast(x: real, y: real, z: real)
    requires y > 0.0
    ensures x / y >= z <==> x >= z * y
  {
    var q := x / y;
    assert q * y == x;
    if q >= z {
      assert (q - z) * y >= 0.0;
    } else {
      assert (z - q) * y > 0.0;
    }
  }

  /** If a distance is connected, then so is every shorter one. */
  lemma ShorterIsConnected(m: Model, d: nat, e: nat)
    requires Valid(m) && e <= d && Connected(m, d)
    ensures Connected(m, e)
  {
    match m
    case Range =>
    case WiFiLinear(b) =>
      LinearThreshold(b, d);
      LinearThreshold(b, e);
    case WiFiExponential(b) =>
      ExponentialThreshold(b, d);
      ExponentialThreshold(b, e);
      assert e / 4 <= d / 4;
      Pow2Monotone(e / 4, d / 4);
      assert MIN_BANDWIDTH * Pow2(e / 4) as real <= MIN_BANDWIDTH * Pow2(d / 4) as real;
  }

  /** A distance that the model does not connect; the search for one cannot go on for ever. */
  function Far(m: Model): (d: nat) {
    match m
    case Range => 30
    case WiFiLinear(b) => if b > 0.0 then b.Floor / 500 + 2 else 0
    case WiFiExponential(b) => if b > 0.0 then 4 * (b.Floor + 1) else 0
  }

  lemma FarIsUnconnected(m: Model)
    requires Valid(m)
    ensures !Connected(m, Far(m))
  {
    match m
    case Range =>
    case WiFiLinear(b) =>
      LinearThreshold(b, Far(m));
      assert 500 * (b.Floor / 500 + 3) > b.Floor + 1;
    case WiFiExponential(b) =>
      ExponentialThreshold(b, Far(m));
      assert Far(m) / 4 == b.Floor + 1;
      assert Pow2(b.Floor + 1) > b.Floor + 1;
      assert MIN_BANDWIDTH * Pow2(b.Floor + 1) as real > b;
  }

  /** The search for the first unconnected distance, within the range of the loop counter. It
      finds a distance that separates connected from unconnected ones for all distances; it
      fails iff even the largest counter value is connected. */
  method Precalculate(m: Model, maxSize: nat) returns (max: Option<nat>)
    requires Valid(m)
    ensures max.Some? ==> forall d: nat :: Connected(m, d) <==> d < max.value
    ensures max.None? <==> forall d: nat :: d < maxSize ==> Connected(m, d)
    ensures Far(m) < maxSize ==> max.Some?
  {
    FarIsUnconnected(m);
    var distance := 0;
    while distance < maxSize
      invariant 0 <= distance <= maxSize
      invariant forall d: nat :: d < distance ==> Connected(m, d)
    {
      if !Connected(m, distance) {
        forall d: nat | Connected(m, d)
          ensures d < distance
        {
          if distance <= d {
            ShorterIsConnected(m, d, distance);
          }
        }
        return Some(distance);
      }
      distance := distance + 1;
    }
    return None;
  }

  /** The distance -1 stands for unlimited. The range and the exponential model never connect
      it, but the linear model does whenever it connects distance zero. */
  lemma UnlimitedDistance(m: Model)
    requires Valid(m)
    ensures Connected(m, -1) <==> m.WiFiLinear? && Connected(m, 0)
  {
  }

  /** With the default bandwidth the thresholds are 30, 108 and 24. */
  lemma DefaultThresholds(d: nat)
    ensures Connected(Range, d) <==> d < 30
    ensures Connected(WiFiLinear(DEFAULT_BANDWIDTH), d) <==> d < 108
    ensures Connected(WiFiExponential(DEFAULT_BANDWIDTH), d) <==> d < 24
  {
    LinearThreshold(DEFAULT_BANDWIDTH, d);
    ExponentialThreshold(DEFAULT_BANDWIDTH, d);
    assert Pow2(5) == 32 && Pow2(6) == 64;
    if d < 24 {
      assert d / 4 <= 5;
      Pow2Monotone(d / 4, 5);
    } else {
      assert d / 4 >= 6;
      Pow2Monotone(6, d / 4);
    }
  }
}
